/** The second provider, written inline in app/page.tsx. It holds the same
    catalog, cart and order history as the exported store, plus the view
    state of the single-page site: the page on show and the dark theme.
    Its five store operations are written out again there; this module
    writes them out from that copy and proves they agree with the exported
    store's operations. */
module App {
  import Text
  import opened GlobalStore

  datatype AppState = AppState(store: Store, currentPage: string, isDark: bool)

  /** The `currentPage` key of the home view. */
  const HomePageKey: string := "home"

  const WheatPhoto: string := "https://images.unsplash.com/photo-1574323347407-f5e1ad6d020b?q=80&w=400"
  const HoneyPhoto: string := "https://images.unsplash.com/photo-1587049352846-4a222e784d38?q=80&w=400"
  const ChilliPhoto: string := "https://images.unsplash.com/photo-1596040033229-a9821ebd058d?q=80&w=400"
  const RicePhoto: string := "https://images.unsplash.com/photo-1586201375761-83865001e31c?q=80&w=400"

  /** The inline provider's own default catalog: different names, prices
      and pictures from the exported store's, the same ids 1 to 4. */
  function InlineDefaultProducts(): (ps: seq<Product>)
    ensures |ps| == 4
    ensures forall i :: 0 <= i < |ps| ==> ps[i].id == i + 1
  {
    [ Product(1, "Sharbati Wheat", "45", "500 kg", WheatPhoto),
      Product(2, "Organic Honey", "600", "50 L", HoneyPhoto),
      Product(3, "Kashmiri Chilli", "250", "50 kg", ChilliPhoto),
      Product(4, "Basmati Rice", "90", "200 kg", RicePhoto) ]
  }

  /** The site opens on the home page, in the light theme, with an empty
      cart and no orders. */
  function InitialApp(): (a: AppState)
    ensures a.currentPage == HomePageKey && !a.isDark
    ensures a.store.products == InlineDefaultProducts()
    ensures a.store.cart == [] && a.store.orders == []
    ensures DistinctIds(a.store.products)
  {
    AppState(Store(InlineDefaultProducts(), [], []), HomePageKey, false)
  }

  /** `toggleTheme`: flip the dark theme and nothing else. */
  function ToggleTheme(a: AppState): (r: AppState)
    ensures r.isDark != a.isDark
    ensures r.store == a.store && r.currentPage == a.currentPage
  {
    a.(isDark := !a.isDark)
  }

  /** `navigateTo`: show `page`; the store and theme are untouched (the
      scroll to the top is a browser effect outside the state). */
  function NavigateTo(a: AppState, page: string): (r: AppState)
    ensures r.currentPage == page
    ensures r.store == a.store && r.isDark == a.isDark
  {
    a.(currentPage := page)
  }

  function AddProduct(a: AppState, p: Product): (r: AppState)
    ensures r.store.products == a.store.products + [p]
    ensures r.store.cart == a.store.cart && r.store.orders == a.store.orders
    ensures r.currentPage == a.currentPage && r.isDark == a.isDark
  {
    a.(store := a.store.(products := a.store.products + [p]))
  }

  function DeleteProduct(a: AppState, id: int): (r: AppState)
    ensures forall p :: p in r.store.products <==> p in a.store.products && p.id != id
    ensures forall p :: multiset(r.store.products)[p] == if p.id == id then 0 else multiset(a.store.products)[p]
    ensures |r.store.products| == |a.store.products| - CountId(a.store.products, id)
    ensures r.store.cart == a.store.cart && r.store.orders == a.store.orders
    ensures r.currentPage == a.currentPage && r.isDark == a.isDark
  {
    WithoutIdMembers(a.store.products, id);
    WithoutIdCount(a.store.products, id);
    WithoutIdMultiset(a.store.products, id);
    a.(store := a.store.(products := WithoutId(a.store.products, id)))
  }

  function AddToCart(a: AppState, p: Product): (r: AppState)
    ensures r.store.cart == a.store.cart + [p]
    ensures r.store.products == a.store.products && r.store.orders == a.store.orders
    ensures r.currentPage == a.currentPage && r.isDark == a.isDark
  {
    a.(store := a.store.(cart := a.store.cart + [p]))
  }

  function RemoveFromCart(a: AppState, id: int): (r: AppState)
    ensures forall p :: p in r.store.cart <==> p in a.store.cart && p.id != id
    ensures forall p :: multiset(r.store.cart)[p] == if p.id == id then 0 else multiset(a.store.cart)[p]
    ensures |r.store.cart| == |a.store.cart| - CountId(a.store.cart, id)
    ensures !HasId(r.store.cart, id)
    ensures r.store.products == a.store.products && r.store.orders == a.store.orders
    ensures r.currentPage == a.currentPage && r.isDark == a.isDark
  {
    WithoutIdMembers(a.store.cart, id);
    WithoutIdCount(a.store.cart, id);
    WithoutIdMultiset(a.store.cart, id);
    a.(store := a.store.(cart := WithoutId(a.store.cart, id)))
  }

  /** `placeOrder` of the inline provider, built field by field from that
      copy of the code. */
  function PlaceOrder(a: AppState, name: string, mobile: string, now: int, date: string): (r: AppState)
    ensures |r.store.orders| == |a.store.orders| + 1 && r.store.orders[1..] == a.store.orders
    ensures r.store.orders[0] == NewOrder(a.store.cart, name, mobile, now, date)
    ensures r.store.cart == [] && r.store.products == a.store.products
    ensures r.currentPage == a.currentPage && r.isDark == a.isDark
  {
    var cart := a.store.cart;
    var order := Order(now, name + " (" + mobile + ")", Text.Join(Names(cart), ", "),
                       CartTotal(cart), "Pending", date);
    a.(store := a.store.(orders := [order] + a.store.orders, cart := []))
  }

  /** Toggling the theme twice restores it. */
  lemma ToggleThemeTwice(a: AppState)
    ensures ToggleTheme(ToggleTheme(a)) == a
  {
  }

  /** Only the last navigation counts. */
  lemma NavigateToLastWins(a: AppState, p: string, q: string)
    ensures NavigateTo(NavigateTo(a, p), q) == NavigateTo(a, q)
    ensures NavigateTo(a, a.currentPage) == a
  {
  }

  /** The inline copy of each store operation does to the store exactly
      what the exported provider's operation does. */
  lemma InlineCopyAgrees(a: AppState, p: Product, id: int, name: string, mobile: string, now: int, date: string)
    ensures AddProduct(a, p).store == GlobalStore.AddProduct(a.store, p)
    ensures DeleteProduct(a, id).store == GlobalStore.DeleteProduct(a.store, id)
    ensures AddToCart(a, p).store == GlobalStore.AddToCart(a.store, p)
    ensures RemoveFromCart(a, id).store == GlobalStore.RemoveFromCart(a.store, id)
    ensures PlaceOrder(a, name, mobile, now, date).store == GlobalStore.PlaceOrder(a.store, name, mobile, now, date)
  {
  }

  /** Theme and navigation never touch the catalog, cart or orders, so
      the order in which they interleave with store operations does not
      matter (shown for adding to the cart and adding a product). */
  lemma ViewStateIndependent(a: AppState, p: Product, page: string)
    ensures ToggleTheme(AddToCart(a, p)) == AddToCart(ToggleTheme(a), p)
    ensures ToggleTheme(AddProduct(a, p)) == AddProduct(ToggleTheme(a), p)
    ensures NavigateTo(AddToCart(a, p), page) == AddToCart(NavigateTo(a, page), p)
    ensures NavigateTo(AddProduct(a, p), page) == AddProduct(NavigateTo(a, page), p)
  {
  }
}
