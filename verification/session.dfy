/** Sequences of store operations. The provider applies each operation to
    the store as it stands and replaces it, one at a time; a session is the
    list of operations the pages invoked, in order. */
module Session {
  import opened GlobalStore

  datatype Action =
    | AddProductAction(product: Product)
    | DeleteProductAction(id: int)
    | AddToCartAction(item: Product)
    | RemoveFromCartAction(itemId: int)
    | PlaceOrderAction(name: string, mobile: string, now: int, date: string)

  /** One operation applied to the current store. Each operation touches
      only its own list: an add appends, a delete or remove filters out the
      id, and a checkout prepends the order built from the cart, empties the
      cart and keeps the catalog. */
  function Step(s: Store, a: Action): (r: Store)
    ensures a.AddProductAction? ==> r.products == s.products + [a.product]
    ensures a.DeleteProductAction? ==> r.products == WithoutId(s.products, a.id)
    ensures a.AddToCartAction? ==> r.cart == s.cart + [a.item]
    ensures a.RemoveFromCartAction? ==> r.cart == WithoutId(s.cart, a.itemId)
    ensures (a.AddProductAction? || a.DeleteProductAction?) ==> r.cart == s.cart && r.orders == s.orders
    ensures (a.AddToCartAction? || a.RemoveFromCartAction?) ==> r.products == s.products && r.orders == s.orders
    ensures a.PlaceOrderAction? ==> |r.orders| == |s.orders| + 1 && r.orders[1..] == s.orders
                                    && r.cart == [] && r.products == s.products
    ensures a.PlaceOrderAction? ==> r.orders[0] == NewOrder(s.cart, a.name, a.mobile, a.now, a.date)
  {
    match a
    case AddProductAction(p) => AddProduct(s, p)
    case DeleteProductAction(id) => DeleteProduct(s, id)
    case AddToCartAction(p) => AddToCart(s, p)
    case RemoveFromCartAction(id) => RemoveFromCart(s, id)
    case PlaceOrderAction(name, mobile, now, date) => PlaceOrder(s, name, mobile, now, date)
  }

  /** The store after applying `acts` in order; every checkout adds one
      order and nothing else adds or removes any. */
  function Run(s: Store, acts: seq<Action>): (r: Store)
    ensures |r.orders| == |s.orders| + Checkouts(acts)
    decreases |acts|
  {
    if |acts| == 0 then s else Run(Step(s, acts[0]), acts[1..])
  }

  /** Number of checkouts in `acts`. */
  function Checkouts(acts: seq<Action>): (n: nat)
    ensures n <= |acts|
  {
    if |acts| == 0 then 0
    else (if acts[0].PlaceOrderAction? then 1 else 0) + Checkouts(acts[1..])
  }

  /** The admin adding each product of `ps` in turn. */
  function AddAll(ps: seq<Product>): (acts: seq<Action>)
    ensures |acts| == |ps|
    ensures forall i :: 0 <= i < |ps| ==> acts[i] == AddProductAction(ps[i])
  {
    seq(|ps|, i requires 0 <= i < |ps| => AddProductAction(ps[i]))
  }

  /** Running one more action is one more step. */
  lemma {:induction false} RunSnoc(s: Store, acts: seq<Action>, a: Action)
    ensures Run(s, acts + [a]) == Step(Run(s, acts), a)
    decreases |acts|
  {
    if |acts| == 0 {
      assert acts + [a] == [a];
    } else {
      assert (acts + [a])[0] == acts[0];
      assert (acts + [a])[1..] == acts[1..] + [a];
      RunSnoc(Step(s, acts[0]), acts[1..], a);
    }
  }

  /** Adding n products grows the catalog by exactly those n products, in
      order: there is no deduplication. */
  lemma {:induction false} AddAllAppends(s: Store, ps: seq<Product>)
    ensures Run(s, AddAll(ps)).products == s.products + ps
    ensures |Run(s, AddAll(ps)).products| == |s.products| + |ps|
    ensures Run(s, AddAll(ps)).cart == s.cart && Run(s, AddAll(ps)).orders == s.orders
    decreases |ps|
  {
    if |ps| == 0 {
      assert s.products + ps == s.products;
    } else {
      var acts := AddAll(ps);
      assert acts[1..] == AddAll(ps[1..]);
      AddAllAppends(AddProduct(s, ps[0]), ps[1..]);
      assert s.products + ps == (s.products + [ps[0]]) + ps[1..];
    }
  }

  /** Orders are only ever prepended: after a session the order list has
      grown by one per checkout, and the orders there before are still its
      tail, unchanged and in the same order. */
  lemma {:induction false} RunKeepsOrderHistory(s: Store, acts: seq<Action>)
    ensures Run(s, acts).orders[Checkouts(acts)..] == s.orders
    decreases |acts|
  {
    if |acts| > 0 {
      var next := Step(s, acts[0]);
      RunKeepsOrderHistory(next, acts[1..]);
      var k := Checkouts(acts[1..]);
      var final := Run(s, acts);
      if acts[0].PlaceOrderAction? {
        assert next.orders[1..] == s.orders;
        assert final.orders[k + 1..] == final.orders[k..][1..];
      } else {
        assert next.orders == s.orders;
      }
    }
  }

  /** Whatever came before, the latest checkout's order, built from the cart
      as it stood at that moment, is at index 0 and the cart is empty. */
  lemma LatestOrderFirst(s: Store, acts: seq<Action>, name: string, mobile: string, now: int, date: string)
    ensures var r := Run(s, acts + [PlaceOrderAction(name, mobile, now, date)]);
            && |r.orders| > 0
            && r.orders[0] == NewOrder(Run(s, acts).cart, name, mobile, now, date)
            && r.orders[0].id == now && r.orders[0].status == PendingStatus && r.cart == []
  {
    RunSnoc(s, acts, PlaceOrderAction(name, mobile, now, date));
  }

  /** Every product the admin adds has an id not yet in the catalog at the
      moment it is added (the admin page stamps it with the clock). */
  predicate FreshAdds(s: Store, acts: seq<Action>)
    decreases |acts|
  {
    |acts| == 0
    || ((acts[0].AddProductAction? ==> !HasId(s.products, acts[0].product.id))
        && FreshAdds(Step(s, acts[0]), acts[1..]))
  }

  /** With fresh ids on every add, a session never puts two catalog entries
      under one id. */
  lemma {:induction false} RunKeepsDistinctIds(s: Store, acts: seq<Action>)
    requires DistinctIds(s.products) && FreshAdds(s, acts)
    ensures DistinctIds(Run(s, acts).products)
    decreases |acts|
  {
    if |acts| > 0 {
      var a := acts[0];
      match a {
        case AddProductAction(p) => AddProductDistinct(s, p);
        case DeleteProductAction(id) => DeleteProductKeepsDistinct(s, id);
        case AddToCartAction(_) =>
        case RemoveFromCartAction(_) =>
        case PlaceOrderAction(_, _, _, _) =>
      }
      RunKeepsDistinctIds(Step(s, a), acts[1..]);
    }
  }
}
