/** The store state container of the storefront (`GlobalProvider` in
    app/context.tsx): the catalog, the shopper's cart and the order history,
    and the five operations that replace them. Every operation is a pure
    transition from the current store to the next one. */
module GlobalStore {
  import opened JsNumber
  import Text

  /** A catalog entry. The price is kept as the text the admin typed. */
  datatype Product = Product(id: int, name: string, price: string, stock: string, image: string)

  /** A placed order; `total` is a JavaScript number, so it may be NaN. */
  datatype Order = Order(id: int, customer: string, items: string, total: Num, status: string, date: string)

  datatype Store = Store(products: seq<Product>, cart: seq<Product>, orders: seq<Order>)

  /** The context value a consumer sees: present only inside the provider. */
  datatype Context = Outside | Inside(store: Store)

  datatype Result<T> = Ok(value: T) | Err(message: string)

  const PendingStatus: string := "Pending"
  const OutsideProviderMessage: string := "useGlobal must be used within a GlobalProvider"

  // ----- catalog, cart and order history as the provider starts them -----

  function DefaultProducts(): (ps: seq<Product>)
    ensures |ps| == 4
    ensures forall i :: 0 <= i < |ps| ==> ps[i].id == i + 1
  {
    [ Product(1, "Sharbati Wheat", "45", "500 kg", "\U{1F33E}"),
      Product(2, "Basmati Rice", "90", "200 kg", "\U{1F35A}"),
      Product(3, "Turmeric Powder", "250", "50 kg", "\U{1F336}\U{FE0F}"),
      Product(4, "Desi Ghee", "900", "40 L", "\U{1F36F}") ]
  }

  function Initial(): (s: Store)
    ensures s.products == DefaultProducts()
    ensures s.cart == [] && s.orders == []
    ensures DistinctIds(s.products)
  {
    Store(DefaultProducts(), [], [])
  }

  // ----- ids -----

  /** Some entry of `ps` carries `id`. */
  predicate HasId(ps: seq<Product>, id: int) {
    exists i :: 0 <= i < |ps| && ps[i].id == id
  }

  /** No two catalog entries share an id. */
  predicate DistinctIds(ps: seq<Product>) {
    forall i, j :: 0 <= i < j < |ps| ==> ps[i].id != ps[j].id
  }

  /** Number of entries of `ps` that carry `id`. */
  function CountId(ps: seq<Product>, id: int): (n: nat)
    ensures n <= |ps|
    ensures n == 0 <==> !HasId(ps, id)
  {
    if |ps| == 0 then 0
    else (if ps[0].id == id then 1 else 0) + CountId(ps[1..], id)
  }

  /** `ps.filter(p => p.id !== id)`: every entry whose id differs, in order. */
  function WithoutId(ps: seq<Product>, id: int): seq<Product> {
    if |ps| == 0 then []
    else if ps[0].id != id then [ps[0]] + WithoutId(ps[1..], id)
    else WithoutId(ps[1..], id)
  }

  /** The filter keeps every unit of every entry whose id differs and no
      unit of an entry with the id: it changes multiplicities only by
      dropping that id. */
  lemma {:induction false} WithoutIdMultiset(ps: seq<Product>, id: int)
    ensures forall p :: multiset(WithoutId(ps, id))[p] == if p.id == id then 0 else multiset(ps)[p]
    decreases |ps|
  {
    if |ps| > 0 {
      WithoutIdMultiset(ps[1..], id);
      assert ps == [ps[0]] + ps[1..];
    }
  }

  /** The survivors of the filter are exactly the entries with another id. */
  lemma {:induction false} WithoutIdMembers(ps: seq<Product>, id: int)
    ensures forall p :: p in WithoutId(ps, id) <==> p in ps && p.id != id
    decreases |ps|
  {
    if |ps| > 0 {
      WithoutIdMembers(ps[1..], id);
      assert ps == [ps[0]] + ps[1..];
    }
  }

  /** The filter removes exactly the entries that carry the id, so none
      is left. */
  lemma {:induction false} WithoutIdCount(ps: seq<Product>, id: int)
    ensures |WithoutId(ps, id)| == |ps| - CountId(ps, id)
    ensures !HasId(WithoutId(ps, id), id)
    decreases |ps|
  {
    if |ps| > 0 {
      WithoutIdCount(ps[1..], id);
      var t := WithoutId(ps[1..], id);
      if ps[0].id != id {
        assert WithoutId(ps, id) == [ps[0]] + t;
        assert forall i :: 0 < i < |t| + 1 ==> ([ps[0]] + t)[i] == t[i - 1];
      }
    }
  }

  // ----- prices -----

  /** `Number(p.price)`: NaN unless the trimmed price text is blank or an
      optionally signed run of digits; a blank price reads as 0. */
  function PriceOf(p: Product): (r: Num)
    ensures r.NaN? <==> !IsNumericText(Trim(p.price))
    ensures Trim(p.price) == "" ==> r == Finite(0)
  {
    ToNumber(p.price)
  }

  /** Every price of `ps` reads as a number. */
  predicate AllPriced(ps: seq<Product>) {
    forall i :: 0 <= i < |ps| ==> PriceOf(ps[i]).Finite?
  }

  /** Reference sum of the prices, defined only when every price reads. */
  function PriceSum(ps: seq<Product>): int
    requires AllPriced(ps)
  {
    if |ps| == 0 then 0 else PriceOf(ps[0]).value + PriceSum(ps[1..])
  }

  /** The left-to-right accumulation of `ps.reduce((sum, i) => sum + Number(i.price), acc)`;
      once the running sum is NaN it stays NaN. */
  function ReducePrices(acc: Num, ps: seq<Product>): (r: Num)
    ensures acc.NaN? ==> r == NaN
    decreases |ps|
  {
    if |ps| == 0 then acc else ReducePrices(Add(acc, PriceOf(ps[0])), ps[1..])
  }

  /** The cart total shown in the cart drawer and stored on an order. It is
      a number exactly when every price reads as one, and is then the sum of
      the prices; the empty cart totals 0. */
  function CartTotal(cart: seq<Product>): (r: Num)
    ensures r.Finite? <==> AllPriced(cart)
    ensures AllPriced(cart) ==> r.value == PriceSum(cart)
    ensures cart == [] ==> r == Finite(0)
  {
    ReducePricesIsSum(Finite(0), cart);
    ReducePrices(Finite(0), cart)
  }

  lemma AllPricedCons(ps: seq<Product>)
    requires |ps| > 0
    ensures AllPriced(ps) <==> PriceOf(ps[0]).Finite? && AllPriced(ps[1..])
  {
    if PriceOf(ps[0]).Finite? && AllPriced(ps[1..]) {
      forall i | 0 < i < |ps| ensures PriceOf(ps[i]).Finite? {
        assert ps[i] == ps[1..][i - 1];
      }
    }
  }

  /** The reduction is NaN once any price is unreadable, and the reference
      sum otherwise. */
  lemma {:induction false} ReducePricesIsSum(acc: Num, ps: seq<Product>)
    ensures acc.Finite? && AllPriced(ps) ==> ReducePrices(acc, ps) == Finite(acc.value + PriceSum(ps))
    ensures !AllPriced(ps) ==> ReducePrices(acc, ps) == NaN
    decreases |ps|
  {
    if |ps| > 0 {
      var x := PriceOf(ps[0]);
      ReducePricesIsSum(Add(acc, x), ps[1..]);
      AllPricedCons(ps);
    }
  }

  lemma {:induction false} PriceSumAppend(a: seq<Product>, b: seq<Product>)
    requires AllPriced(a) && AllPriced(b)
    ensures AllPriced(a + b)
    ensures PriceSum(a + b) == PriceSum(a) + PriceSum(b)
    decreases |a|
  {
    AllPricedAppend(a, b);
    if |a| == 0 {
      assert a + b == b;
    } else {
      assert (a + b)[0] == a[0] && (a + b)[1..] == a[1..] + b;
      AllPricedCons(a);
      PriceSumAppend(a[1..], b);
    }
  }

  lemma AllPricedAppend(a: seq<Product>, b: seq<Product>)
    ensures AllPriced(a + b) <==> AllPriced(a) && AllPriced(b)
  {
    if AllPriced(a + b) {
      forall i | 0 <= i < |a| ensures PriceOf(a[i]).Finite? {
        assert (a + b)[i] == a[i];
      }
      forall i | 0 <= i < |b| ensures PriceOf(b[i]).Finite? {
        assert (a + b)[|a| + i] == b[i];
      }
    } else if AllPriced(a) && AllPriced(b) {
      forall i | 0 <= i < |a + b| ensures PriceOf((a + b)[i]).Finite? {
        if i < |a| { assert (a + b)[i] == a[i]; } else { assert (a + b)[i] == b[i - |a|]; }
      }
    }
  }

  /** The total of two carts placed one after the other is the sum of their
      totals. */
  lemma CartTotalAppend(a: seq<Product>, b: seq<Product>)
    ensures CartTotal(a + b) == Add(CartTotal(a), CartTotal(b))
  {
    AllPricedAppend(a, b);
    if AllPriced(a) && AllPriced(b) {
      PriceSumAppend(a, b);
    }
  }

  // ----- the operations -----

  /** `addProduct`: append to the catalog, with no check on the id. */
  function AddProduct(s: Store, p: Product): (r: Store)
    ensures |r.products| == |s.products| + 1
    ensures r.products[..|s.products|] == s.products && r.products[|s.products|] == p
    ensures r.cart == s.cart && r.orders == s.orders
  {
    s.(products := s.products + [p])
  }

  /** `deleteProduct`: drop every catalog entry with this id. */
  function DeleteProduct(s: Store, id: int): (r: Store)
    ensures forall p :: p in r.products <==> p in s.products && p.id != id
    ensures forall p :: multiset(r.products)[p] == if p.id == id then 0 else multiset(s.products)[p]
    ensures |r.products| == |s.products| - CountId(s.products, id)
    ensures r.cart == s.cart && r.orders == s.orders
  {
    WithoutIdMembers(s.products, id);
    WithoutIdCount(s.products, id);
    WithoutIdMultiset(s.products, id);
    s.(products := WithoutId(s.products, id))
  }

  /** `addToCart`: append a copy of the product, merging nothing and
      checking no stock. */
  function AddToCart(s: Store, p: Product): (r: Store)
    ensures |r.cart| == |s.cart| + 1
    ensures r.cart[..|s.cart|] == s.cart && r.cart[|s.cart|] == p
    ensures r.products == s.products && r.orders == s.orders
  {
    s.(cart := s.cart + [p])
  }

  /** `removeFromCart`: drop every cart entry with this id, not just one. */
  function RemoveFromCart(s: Store, id: int): (r: Store)
    ensures forall p :: p in r.cart <==> p in s.cart && p.id != id
    ensures forall p :: multiset(r.cart)[p] == if p.id == id then 0 else multiset(s.cart)[p]
    ensures |r.cart| == |s.cart| - CountId(s.cart, id)
    ensures !HasId(r.cart, id)
    ensures r.products == s.products && r.orders == s.orders
  {
    WithoutIdMembers(s.cart, id);
    WithoutIdCount(s.cart, id);
    WithoutIdMultiset(s.cart, id);
    s.(cart := WithoutId(s.cart, id))
  }

  /** The names of the cart entries, in cart order. */
  function Names(cart: seq<Product>): (ns: seq<string>)
    ensures |ns| == |cart|
    ensures forall i :: 0 <= i < |cart| ==> ns[i] == cart[i].name
  {
    seq(|cart|, i requires 0 <= i < |cart| => cart[i].name)
  }

  /** The customer text `${name} (${mobile})`. */
  function CustomerLabel(name: string, mobile: string): (r: string)
    ensures |r| == |name| + |mobile| + 3 && r[|r| - 1] == ')'
  {
    name + " (" + mobile + ")"
  }

  /** The name and the mobile number can be read back from the customer
      text, given the length of the name. */
  lemma CustomerLabelParts(name: string, mobile: string)
    ensures var r := CustomerLabel(name, mobile);
            && r[..|name|] == name && r[|name|..|name| + 2] == " ("
            && r[|name| + 2..|r| - 1] == mobile
  {
  }

  /** The order a checkout of `cart` creates; `now` stands for `Date.now()`
      and `date` for the locale date string. */
  function NewOrder(cart: seq<Product>, name: string, mobile: string, now: int, date: string): (o: Order)
    ensures o.id == now && o.date == date && o.status == PendingStatus
    ensures o.customer == CustomerLabel(name, mobile)
    ensures o.total.Finite? <==> AllPriced(cart)
    ensures AllPriced(cart) ==> o.total.value == PriceSum(cart)
    ensures o.items == Text.Join(Names(cart), ", ")
  {
    Order(now, CustomerLabel(name, mobile), Text.Join(Names(cart), ", "), CartTotal(cart), PendingStatus, date)
  }

  /** `placeOrder`: put the new order first, before the older ones, and
      empty the cart; the catalog is untouched. */
  function PlaceOrder(s: Store, name: string, mobile: string, now: int, date: string): (r: Store)
    ensures |r.orders| == |s.orders| + 1 && r.orders[1..] == s.orders
    ensures r.orders[0] == NewOrder(s.cart, name, mobile, now, date)
    ensures r.cart == [] && r.products == s.products
  {
    var o := NewOrder(s.cart, name, mobile, now, date);
    Store(s.products, [], [o] + s.orders)
  }

  /** `useGlobal`: the store inside a provider, the fixed error outside. */
  function UseGlobal(ctx: Context): (r: Result<Store>)
    ensures r.Err? <==> ctx.Outside?
    ensures r.Err? ==> r.message == OutsideProviderMessage
    ensures r.Ok? ==> r.value == ctx.store
  {
    match ctx
    case Outside => Err(OutsideProviderMessage)
    case Inside(s) => Ok(s)
  }

  // ----- properties relating the operations -----

  /** Deleting an absent id changes nothing, and deleting a present one
      always shrinks the catalog: the filter is the identity exactly when
      no entry carries the id. */
  lemma WithoutIdIdentity(ps: seq<Product>, id: int)
    ensures WithoutId(ps, id) == ps <==> !HasId(ps, id)
  {
    WithoutIdCount(ps, id);
    if !HasId(ps, id) {
      WithoutIdAbsent(ps, id);
    }
  }

  lemma {:induction false} WithoutIdAbsent(ps: seq<Product>, id: int)
    requires !HasId(ps, id)
    ensures WithoutId(ps, id) == ps
    decreases |ps|
  {
    if |ps| > 0 {
      assert ps[0].id != id;
      WithoutIdAbsent(ps[1..], id);
      assert ps == [ps[0]] + ps[1..];
    }
  }

  /** Filtering distributes over concatenation, so the survivors keep their
      relative order. */
  lemma {:induction false} WithoutIdAppend(a: seq<Product>, b: seq<Product>, id: int)
    ensures WithoutId(a + b, id) == WithoutId(a, id) + WithoutId(b, id)
    decreases |a|
  {
    if |a| == 0 {
      assert a + b == b;
    } else {
      var h, t := a[0], a[1..];
      assert a == [h] + t;
      assert a + b == [h] + (t + b);
      WithoutIdCons(h, t + b, id);
      WithoutIdCons(h, t, id);
      WithoutIdAppend(t, b, id);
      if h.id != id {
        assert [h] + (WithoutId(t, id) + WithoutId(b, id)) == ([h] + WithoutId(t, id)) + WithoutId(b, id);
      }
    }
  }

  /** Filtering an entry followed by the rest. */
  lemma WithoutIdCons(p: Product, ps: seq<Product>, id: int)
    ensures WithoutId([p] + ps, id) == if p.id != id then [p] + WithoutId(ps, id) else WithoutId(ps, id)
  {
    assert ([p] + ps)[0] == p && ([p] + ps)[1..] == ps;
  }

  /** Filtering a single entry keeps it exactly when its id differs. */
  lemma WithoutIdSingle(p: Product, id: int)
    ensures WithoutId([p], id) == (if p.id == id then [] else [p])
  {
    assert [p][1..] == [];
  }

  /** Deleting the same id twice is the same as deleting it once. */
  lemma DeleteProductIdempotent(s: Store, id: int)
    ensures DeleteProduct(DeleteProduct(s, id), id) == DeleteProduct(s, id)
  {
    WithoutIdCount(s.products, id);
    WithoutIdAbsent(WithoutId(s.products, id), id);
  }

  /** Deleting two ids gives the same catalog in either order. */
  lemma {:induction false} WithoutIdCommutes(ps: seq<Product>, a: int, b: int)
    ensures WithoutId(WithoutId(ps, a), b) == WithoutId(WithoutId(ps, b), a)
    decreases |ps|
  {
    if |ps| > 0 {
      WithoutIdCommutes(ps[1..], a, b);
      var head := [ps[0]];
      assert ps == head + ps[1..];
      WithoutIdAppend(head, ps[1..], a);
      WithoutIdAppend(head, ps[1..], b);
      WithoutIdAppend(WithoutId(head, a), WithoutId(ps[1..], a), b);
      WithoutIdAppend(WithoutId(head, b), WithoutId(ps[1..], b), a);
      WithoutIdSingle(ps[0], a);
      WithoutIdSingle(ps[0], b);
    }
  }

  /** A filtered catalog whose ids were distinct still has distinct ids. */
  lemma {:induction false} WithoutIdKeepsDistinct(ps: seq<Product>, id: int)
    requires DistinctIds(ps)
    ensures DistinctIds(WithoutId(ps, id))
    decreases |ps|
  {
    if |ps| > 0 {
      var rest := ps[1..];
      assert DistinctIds(rest) by {
        forall i, j | 0 <= i < j < |rest| ensures rest[i].id != rest[j].id {
          assert rest[i] == ps[i + 1] && rest[j] == ps[j + 1];
        }
      }
      WithoutIdKeepsDistinct(rest, id);
      if ps[0].id != id {
        var r := WithoutId(ps, id);
        var t := WithoutId(rest, id);
        assert r == [ps[0]] + t;
        forall j | 0 < j < |r| ensures r[0].id != r[j].id {
          assert r[j] == t[j - 1];
          WithoutIdMembers(rest, id);
          assert t[j - 1] in rest;
          var k :| 0 <= k < |rest| && rest[k] == t[j - 1];
          assert rest[k] == ps[k + 1];
        }
      }
    }
  }

  /** `deleteProduct` keeps the catalog's ids distinct. */
  lemma DeleteProductKeepsDistinct(s: Store, id: int)
    requires DistinctIds(s.products)
    ensures DistinctIds(DeleteProduct(s, id).products)
  {
    WithoutIdKeepsDistinct(s.products, id);
  }

  /** `addProduct` keeps the catalog's ids distinct exactly when the new id
      is not already in use; nothing in the operation checks it. */
  lemma AddProductDistinct(s: Store, p: Product)
    requires DistinctIds(s.products)
    ensures DistinctIds(AddProduct(s, p).products) <==> !HasId(s.products, p.id)
  {
    var r := AddProduct(s, p).products;
    if HasId(s.products, p.id) {
      var i :| 0 <= i < |s.products| && s.products[i].id == p.id;
      assert r[i] == s.products[i] && r[|s.products|] == p;
    }
  }

  /** Deleting a freshly added product restores the catalog. */
  lemma DeleteUndoesAdd(s: Store, p: Product)
    requires !HasId(s.products, p.id)
    ensures DeleteProduct(AddProduct(s, p), p.id) == s
  {
    WithoutIdAppend(s.products, [p], p.id);
    WithoutIdAbsent(s.products, p.id);
    WithoutIdSingle(p, p.id);
  }

  /** Removing a product from the cart undoes adding it, provided it was not
      already in the cart. */
  lemma RemoveUndoesAddToCart(s: Store, p: Product)
    requires !HasId(s.cart, p.id)
    ensures RemoveFromCart(AddToCart(s, p), p.id) == s
  {
    WithoutIdAppend(s.cart, [p], p.id);
    WithoutIdAbsent(s.cart, p.id);
    WithoutIdSingle(p, p.id);
  }

  /** Adding the same product twice and removing it once takes both units
      out of the cart, and everything else stays. */
  lemma RemoveFromCartDropsEveryUnit(s: Store, p: Product)
    ensures RemoveFromCart(AddToCart(AddToCart(s, p), p), p.id).cart == WithoutId(s.cart, p.id)
  {
    WithoutIdAppend(s.cart + [p], [p], p.id);
    WithoutIdAppend(s.cart, [p], p.id);
    WithoutIdSingle(p, p.id);
  }

  /** Adding to the cart adds that product's price to the cart total. */
  lemma AddToCartTotal(s: Store, p: Product)
    ensures CartTotal(AddToCart(s, p).cart) == Add(CartTotal(s.cart), PriceOf(p))
  {
    CartTotalAppend(s.cart, [p]);
    assert [p][1..] == [];
    AllPricedCons([p]);
    if PriceOf(p).Finite? {
      assert PriceSum([p]) == PriceOf(p).value + PriceSum([]);
    }
  }
}
