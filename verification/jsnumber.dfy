/** A model of the part of JavaScript's `Number(string)` conversion and of
    `+` on numbers that the store relies on: the catalog keeps prices as text
    and the cart total adds `Number(item.price)` for every cart entry.

    Only integer-valued decimal text is modelled exactly. JavaScript trims
    white space, accepts one optional sign, reads the empty string as 0 and
    yields NaN for anything it cannot read; NaN then absorbs every addition. */
module JsNumber {

  /** A JavaScript number restricted to integers, plus NaN. */
  datatype Num = Finite(value: int) | NaN

  /** `a + b` on numbers: NaN as soon as either side is NaN. */
  function Add(a: Num, b: Num): (r: Num)
    ensures r.Finite? <==> a.Finite? && b.Finite?
    ensures r.Finite? ==> r.value == a.value + b.value
  {
    match (a, b)
    case (Finite(x), Finite(y)) => Finite(x + y)
    case _ => NaN
  }

  predicate IsDigit(c: char) {
    '0' <= c <= '9'
  }

  /** Every character of `s` from `lo` up to (not including) `hi` is a digit. */
  predicate DigitsBetween(s: string, lo: nat, hi: nat)
    requires lo <= hi <= |s|
  {
    forall i :: lo <= i < hi ==> IsDigit(s[i])
  }

  predicate AllDigits(s: string) {
    DigitsBetween(s, 0, |s|)
  }

  /** The white space and line terminators `Number` strips from both ends
      (the WhiteSpace and LineTerminator productions of ECMAScript). */
  predicate IsSpace(c: char) {
    var n := c as int;
    n == 0x09 || n == 0x0A || n == 0x0B || n == 0x0C || n == 0x0D || n == 0x20
    || n == 0xA0 || n == 0x1680 || (0x2000 <= n <= 0x200A)
    || n == 0x2028 || n == 0x2029 || n == 0x202F || n == 0x205F
    || n == 0x3000 || n == 0xFEFF
  }

  /** `s` without its leading white space. */
  function TrimStart(s: string): (r: string)
    ensures |r| <= |s|
    ensures |r| > 0 ==> !IsSpace(r[0])
  {
    if |s| > 0 && IsSpace(s[0]) then TrimStart(s[1..]) else s
  }

  /** `s` without its trailing white space. */
  function TrimEnd(s: string): (r: string)
    ensures |r| <= |s|
    ensures |r| > 0 ==> !IsSpace(r[|r| - 1])
  {
    if |s| > 0 && IsSpace(s[|s| - 1]) then TrimEnd(s[..|s| - 1]) else s
  }

  /** Trimming the start drops exactly a run of leading white space. */
  lemma {:induction false} TrimStartDropsSpace(s: string)
    ensures var r := TrimStart(s);
            && r == s[|s| - |r|..]
            && forall i :: 0 <= i < |s| - |r| ==> IsSpace(s[i])
    decreases |s|
  {
    if |s| > 0 && IsSpace(s[0]) {
      TrimStartDropsSpace(s[1..]);
    }
  }

  /** Trimming the end drops exactly a run of trailing white space. */
  lemma {:induction false} TrimEndDropsSpace(s: string)
    ensures var r := TrimEnd(s);
            && r == s[..|r|]
            && forall i :: |r| <= i < |s| ==> IsSpace(s[i])
    decreases |s|
  {
    if |s| > 0 && IsSpace(s[|s| - 1]) {
      TrimEndDropsSpace(s[..|s| - 1]);
    }
  }

  function Trim(s: string): string {
    TrimEnd(TrimStart(s))
  }

  function DigitValue(c: char): (d: nat)
    requires IsDigit(c)
    ensures d < 10
  {
    c as int - '0' as int
  }

  /** The value of the digits of `s` from `lo` up to `hi`, most
      significant first. */
  function DigitsIn(s: string, lo: nat, hi: nat): nat
    requires lo <= hi <= |s| && DigitsBetween(s, lo, hi)
    decreases hi - lo
  {
    if hi == lo then 0 else DigitsIn(s, lo, hi - 1) * 10 + DigitValue(s[hi - 1])
  }

  /** The value of a run of decimal digits. */
  function DigitsValue(s: string): nat
    requires AllDigits(s)
  {
    DigitsIn(s, 0, |s|)
  }

  /** The texts the model reads as a number: nothing at all, or an optional
      sign followed by at least one decimal digit. */
  predicate IsNumericText(t: string) {
    || |t| == 0
    || AllDigits(t)
    || (|t| > 1 && (t[0] == '-' || t[0] == '+') && DigitsBetween(t, 1, |t|))
  }

  /** `Number(s)` for the texts the model reads: an optional sign followed
      by decimal digits, or nothing at all, inside optional white space. */
  function ToNumber(s: string): (r: Num)
    ensures r.NaN? <==> !IsNumericText(Trim(s))
    ensures Trim(s) == "" ==> r == Finite(0)
  {
    var t := Trim(s);
    if |t| == 0 then Finite(0)
    else if AllDigits(t) then Finite(DigitsValue(t))
    else if |t| > 1 && t[0] == '-' && DigitsBetween(t, 1, |t|) then Finite(-(DigitsIn(t, 1, |t|) as int))
    else if |t| > 1 && t[0] == '+' && DigitsBetween(t, 1, |t|) then Finite(DigitsIn(t, 1, |t|))
    else NaN
  }

  function DigitChar(d: nat): (c: char)
    requires d < 10
    ensures IsDigit(c) && DigitValue(c) == d
  {
    ('0' as int + d) as char
  }

  /** The shortest decimal text of a natural number (what `String(n)` gives). */
  function ShowNat(n: nat): (s: string)
    ensures |s| > 0 && AllDigits(s)
    ensures |s| > 1 ==> s[0] != '0'
    decreases n
  {
    if n < 10 then [DigitChar(n)] else ShowNat(n / 10) + [DigitChar(n % 10)]
  }

  /** The decimal text of an integer, with a leading minus when negative. */
  function ShowInt(n: int): (s: string)
    ensures |s| > 0
  {
    if n < 0 then "-" + ShowNat(-n) else ShowNat(n)
  }

  /** The digit value of a stretch depends only on the characters in it. */
  lemma {:induction false} DigitsInSameChars(s: string, t: string, lo: nat, hi: nat)
    requires lo <= hi <= |s| && hi <= |t| && DigitsBetween(s, lo, hi)
    requires forall i :: lo <= i < hi ==> s[i] == t[i]
    ensures DigitsBetween(t, lo, hi) && DigitsIn(s, lo, hi) == DigitsIn(t, lo, hi)
    decreases hi - lo
  {
    if hi > lo {
      DigitsInSameChars(s, t, lo, hi - 1);
    }
  }

  /** Putting text in front of a stretch of digits does not change its value. */
  lemma {:induction false} DigitsInShift(p: string, x: string, lo: nat, hi: nat)
    requires lo <= hi <= |x| && DigitsBetween(x, lo, hi)
    ensures DigitsBetween(p + x, |p| + lo, |p| + hi)
    ensures DigitsIn(p + x, |p| + lo, |p| + hi) == DigitsIn(x, lo, hi)
    decreases hi - lo
  {
    if hi > lo {
      DigitsInShift(p, x, lo, hi - 1);
      assert (p + x)[|p| + hi - 1] == x[hi - 1];
    }
  }

  /** Reading back the decimal text of a natural number gives the number. */
  lemma {:induction false} DigitsValueShowNat(n: nat)
    ensures DigitsValue(ShowNat(n)) == n
    decreases n
  {
    if n >= 10 {
      var s := ShowNat(n);
      var front := ShowNat(n / 10);
      assert s == front + [DigitChar(n % 10)];
      DigitsInSameChars(front, s, 0, |front|);
      DigitsValueShowNat(n / 10);
      assert DigitsIn(s, 0, |s|) == DigitsIn(s, 0, |front|) * 10 + DigitValue(s[|front|]);
      assert n == (n / 10) * 10 + n % 10;
    } else {
      var s := ShowNat(n);
      assert DigitsIn(s, 0, 1) == DigitsIn(s, 0, 0) * 10 + DigitValue(s[0]);
    }
  }

  lemma TrimOfNonSpaceEnds(s: string)
    requires |s| > 0 && !IsSpace(s[0]) && !IsSpace(s[|s| - 1])
    ensures Trim(s) == s
  {
  }

  /** A run of decimal digits reads as its decimal value. */
  lemma ToNumberDigits(s: string)
    requires |s| > 0 && AllDigits(s)
    ensures ToNumber(s) == Finite(DigitsValue(s))
  {
    assert IsDigit(s[0]) && IsDigit(s[|s| - 1]);
    TrimOfNonSpaceEnds(s);
  }

  /** A sign in front of a run of digits: `+` keeps the value and `-`
      negates it, leading zeros included (`"-05"` reads as -5). */
  lemma ToNumberSigned(d: string)
    requires |d| > 0 && AllDigits(d)
    ensures ToNumber("+" + d) == Finite(DigitsValue(d))
    ensures ToNumber("-" + d) == Finite(-(DigitsValue(d) as int))
  {
    assert IsDigit(d[|d| - 1]);
    TrimOfNonSpaceEnds("+" + d);
    TrimOfNonSpaceEnds("-" + d);
    DigitsInShift("+", d, 0, |d|);
    DigitsInShift("-", d, 0, |d|);
  }

  /** `Number(String(n)) == n` for every integer: the text a price is
      entered as is read back as the same value. */
  lemma ToNumberShowInt(n: int)
    ensures ToNumber(ShowInt(n)) == Finite(n)
  {
    var s := ShowInt(n);
    assert !IsSpace(s[0]) && !IsSpace(s[|s| - 1]);
    TrimOfNonSpaceEnds(s);
    if n < 0 {
      var digits := ShowNat(-n);
      assert s == "-" + digits;
      DigitsInShift("-", digits, 0, |digits|);
      DigitsValueShowNat(-n);
    } else {
      DigitsValueShowNat(n);
    }
  }

  /** Every character of `s` is white space. */
  predicate AllSpace(s: string) {
    forall i :: 0 <= i < |s| ==> IsSpace(s[i])
  }

  /** Leading white space in front of `x` is all trimmed away. */
  lemma {:induction false} TrimStartSpacePrefix(pre: string, x: string)
    requires AllSpace(pre)
    ensures TrimStart(pre + x) == TrimStart(x)
    decreases |pre|
  {
    if |pre| > 0 {
      assert (pre + x)[0] == pre[0];
      assert (pre + x)[1..] == pre[1..] + x;
      TrimStartSpacePrefix(pre[1..], x);
    } else {
      assert pre + x == x;
    }
  }

  /** Trailing white space after `x` is all trimmed away. */
  lemma {:induction false} TrimEndSpaceSuffix(x: string, post: string)
    requires AllSpace(post)
    ensures TrimEnd(x + post) == TrimEnd(x)
    decreases |post|
  {
    if |post| > 0 {
      var q := post[..|post| - 1];
      assert (x + post)[|x + post| - 1] == post[|post| - 1];
      assert (x + post)[..|x + post| - 1] == x + q;
      TrimEndSpaceSuffix(x, q);
    } else {
      assert x + post == x;
    }
  }

  /** Trimming the start of `x` followed by white space: the white space
      stays behind what is left of `x`, or goes too when `x` is all white
      space. */
  lemma {:induction false} TrimStartSpaceSuffix(x: string, post: string)
    requires AllSpace(post)
    ensures TrimStart(x + post) == if TrimStart(x) == "" then "" else TrimStart(x) + post
    decreases |x|
  {
    if |x| == 0 {
      assert x + post == post;
      assert post + "" == post;
      TrimStartSpacePrefix(post, "");
    } else if IsSpace(x[0]) {
      assert (x + post)[0] == x[0];
      assert (x + post)[1..] == x[1..] + post;
      TrimStartSpaceSuffix(x[1..], post);
    } else {
      assert (x + post)[0] == x[0];
    }
  }

  /** `Number` reads the same value whatever white space surrounds the
      text. */
  lemma ToNumberIgnoresPadding(pre: string, s: string, post: string)
    requires AllSpace(pre) && AllSpace(post)
    ensures ToNumber(pre + s + post) == ToNumber(s)
  {
    assert pre + s + post == pre + (s + post);
    TrimStartSpacePrefix(pre, s + post);
    TrimStartSpaceSuffix(s, post);
    if TrimStart(s) != "" {
      TrimEndSpaceSuffix(TrimStart(s), post);
    }
    assert Trim(pre + s + post) == Trim(s);
  }
}
