/** Worked scenarios of the store: the default catalog's prices, a
    two-item checkout, and a deletion from the default catalog. */
module Scenarios {
  import opened JsNumber
  import opened GlobalStore
  import Text

  /** The digit runs of the default catalog's prices. */
  lemma DefaultPriceDigits()
    ensures DigitsValue("45") == 45 && DigitsValue("90") == 90
    ensures DigitsValue("250") == 250 && DigitsValue("900") == 900
  {
    assert DigitsIn("45", 0, 1) == 4;
    assert DigitsIn("90", 0, 1) == 9;
    assert DigitsIn("250", 0, 1) == 2 && DigitsIn("250", 0, 2) == 25;
    assert DigitsIn("900", 0, 1) == 9 && DigitsIn("900", 0, 2) == 90;
  }

  /** The default catalog's prices read as 45, 90, 250 and 900. */
  lemma DefaultPrices()
    ensures PriceOf(DefaultProducts()[0]) == Finite(45)
    ensures PriceOf(DefaultProducts()[1]) == Finite(90)
    ensures PriceOf(DefaultProducts()[2]) == Finite(250)
    ensures PriceOf(DefaultProducts()[3]) == Finite(900)
  {
    DefaultPriceDigits();
    ToNumberDigits("45");
    ToNumberDigits("90");
    ToNumberDigits("250");
    ToNumberDigits("900");
  }

  /** A cart of Sharbati Wheat and Basmati Rice totals 135. */
  lemma WheatAndRiceTotal()
    ensures CartTotal([DefaultProducts()[0], DefaultProducts()[1]]) == Finite(135)
  {
    var w := DefaultProducts()[0];
    var b := DefaultProducts()[1];
    DefaultPrices();
    AllPricedCons([w, b]);
    AllPricedCons([b]);
    assert [w, b][1..] == [b] && [b][1..] == [];
    assert PriceSum([b]) == 90 + PriceSum([]);
    assert PriceSum([w, b]) == 45 + PriceSum([b]);
  }

  /** Its item text names both products, in cart order. */
  lemma WheatAndRiceItems()
    ensures Text.Join(Names([DefaultProducts()[0], DefaultProducts()[1]]), ", ") == "Sharbati Wheat, Basmati Rice"
  {
    var names := Names([DefaultProducts()[0], DefaultProducts()[1]]);
    assert names == ["Sharbati Wheat", "Basmati Rice"];
    assert names[1..] == ["Basmati Rice"];
  }

  /** Adding Sharbati Wheat and then Basmati Rice to a fresh store gives
      a cart of exactly those two, in that order. */
  lemma WheatAndRiceCart()
    ensures AddToCart(AddToCart(Initial(), DefaultProducts()[0]), DefaultProducts()[1]).cart
            == [DefaultProducts()[0], DefaultProducts()[1]]
  {
  }

  /** Checking out a cart of Sharbati Wheat and Basmati Rice records a
      pending order of 135 for "Sharbati Wheat, Basmati Rice". */
  lemma PlaceOrderExample(s: Store, name: string, mobile: string, now: int, date: string)
    requires s.cart == [DefaultProducts()[0], DefaultProducts()[1]]
    ensures var r := PlaceOrder(s, name, mobile, now, date);
            && r.orders[0].total == Finite(135)
            && r.orders[0].items == "Sharbati Wheat, Basmati Rice"
            && r.orders[0].status == "Pending"
            && r.cart == [] && |r.orders| == |s.orders| + 1
  {
    WheatAndRiceTotal();
    WheatAndRiceItems();
  }

  /** Deleting id 3 from the default catalog leaves ids 1, 2 and 4. */
  lemma DeleteProductExample()
    ensures var r := DeleteProduct(Initial(), 3).products;
            |r| == 3 && r[0].id == 1 && r[1].id == 2 && r[2].id == 4
  {
    var ps := DefaultProducts();
    assert ps == [ps[0], ps[1], ps[2]] + [ps[3]];
    WithoutIdAppend([ps[0], ps[1], ps[2]], [ps[3]], 3);
    WithoutIdAppend([ps[0], ps[1]], [ps[2]], 3);
    WithoutIdAppend([ps[0]], [ps[1]], 3);
    assert [ps[0], ps[1], ps[2]] == [ps[0], ps[1]] + [ps[2]];
    assert [ps[0], ps[1]] == [ps[0]] + [ps[1]];
    WithoutIdSingle(ps[0], 3);
    WithoutIdSingle(ps[1], 3);
    WithoutIdSingle(ps[2], 3);
    WithoutIdSingle(ps[3], 3);
  }
}
