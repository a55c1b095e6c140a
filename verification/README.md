# Store state container of the agritech storefront, in Dafny

The storefront keeps three lists in a React context provider: the product
catalog, the shopper's cart and the order history. Pages read these lists and
call five operations:

- `addProduct` appends to the catalog.
- `deleteProduct` filters the catalog by id.
- `addToCart` appends to the cart.
- `removeFromCart` filters the cart by id.
- `placeOrder` sums the cart prices, builds a "Pending" order, puts it first
  in the history and empties the cart.

The provider exists twice in the code. `GlobalProvider` in app/context.tsx
holds the exported store. The shop and admin routes read it through
`useGlobal` (app/shop/page.tsx:5,8 and app/admin/page.tsx:4,8). No file under app/
mounts that provider, though: app/layout.tsx:64 renders its children
unwrapped, and the context's default value is `undefined` (app/context.tsx:33).
So, as written, those routes get the error that `GlobalStore.UseGlobal`
models. Only the second, inline copy in app/page.tsx is mounted
(app/page.tsx:365). It has its own context object, and it adds the theme flag
and the current page.

The model is functional. A `Store` datatype holds the three sequences, and
each operation is a pure function from one store to the next.

- `JsNumber` (jsnumber.dfy) models JavaScript's `Number(text)` for integer
  text, NaN included, and `+` on numbers.
- `Text` (text.dfy) models `Array.prototype.join`.
- `GlobalStore` (store.dfy) models app/context.tsx: the data, the default
  catalog, the five operations and `useGlobal`. It also proves the filter,
  append, sum and prepend properties.
- `Session` (session.dfy) models sequences of operations applied one after
  another, and proves what holds across a whole session.
- `Scenarios` (scenarios.dfy) works through concrete cases on the default
  catalog.
- `App` (app.dfy) models the inline provider of app/page.tsx and proves that
  its store operations agree with the exported ones.

`Date.now()` and the locale date string are parameters (`now`, `date`).
Order totals are a `Num`: an integer or NaN. A price such as `"abc"` makes the
total NaN, as `Number` does.

`deleteProduct` is a filter, so every catalog entry with the id goes, not
only the first. The two providers start with different default catalogs, both
with ids 1 to 4, and both are modelled.

`removeFromCart` removes every unit of a product at once.
`RemoveFromCartDropsEveryUnit` states this. Whether that was intended is not
clear from the code, so it is modelled as written.

## Model

| member | source | states |
|---|---|---|
| GlobalStore.DefaultProducts | app/context.tsx:37-42 | the default catalog has four entries carrying ids 1 to 4 in order |
| GlobalStore.Initial | app/context.tsx:37-46 | the provider starts with the default catalog, an empty cart and no orders, and the catalog ids are pairwise distinct |
| GlobalStore.AddProduct | app/context.tsx:69-71 | the catalog grows by exactly one entry, earlier entries are unchanged and in order, the new product comes last with no id check, and cart and orders are unchanged |
| GlobalStore.DeleteProduct | app/context.tsx:74-76 | every entry with the id is gone and every other entry keeps its multiplicity; the length drops by the number of entries with that id; cart and orders are unchanged (the survivors' order is stated by GlobalStore.WithoutIdAppend) |
| GlobalStore.AddToCart | app/context.tsx:79-82 | the cart grows by exactly one copy of the product with no merge or stock check, and catalog and orders are unchanged |
| GlobalStore.RemoveFromCart | app/context.tsx:85-87 | every unit with the id is gone and every other entry keeps its number of units; the length drops by the number of units removed; catalog and orders are unchanged (the order is stated by GlobalStore.WithoutIdAppend) |
| GlobalStore.NewOrder | app/context.tsx:90-101 | the new order has the given id and date and status "Pending"; its customer text is the name then the mobile in parentheses; its total is a number exactly when every cart price reads as one, and then equals the price sum; its item text is the cart names joined with ", " |
| GlobalStore.Names | app/context.tsx:92 | the name list has one entry per cart entry, the i-th being the i-th entry's name |
| GlobalStore.CustomerLabel | app/context.tsx:96 | the customer text is three characters longer than name and mobile together and ends with ")" |
| GlobalStore.PlaceOrder | app/context.tsx:103-104 | the order at index 0 is exactly the order NewOrder describes for the current cart, the older orders follow unchanged, the cart is empty and the catalog is unchanged |
| GlobalStore.UseGlobal | app/context.tsx:115-119 | outside a provider the result is the fixed error message, and inside one it is the store |
| GlobalStore.CustomerLabelParts | app/context.tsx:96 | the name and the mobile number can be read back from the customer text at fixed offsets |
| GlobalStore.WithoutIdMembers | app/context.tsx:75 | a product survives the filter exactly when it was present and its id differs |
| GlobalStore.WithoutIdMultiset | app/context.tsx:75 | the filter keeps every unit of each entry with another id and no unit of an entry with the id |
| GlobalStore.WithoutIdCount | app/context.tsx:86 | the filter removes exactly the entries carrying the id, so none remains |
| GlobalStore.WithoutIdIdentity | app/context.tsx:75 | filtering leaves the list unchanged if and only if no entry carries the id |
| GlobalStore.WithoutIdAppend | app/context.tsx:75 | filtering distributes over concatenation, so survivors keep their relative order |
| GlobalStore.WithoutIdCommutes | app/context.tsx:74-76 | deleting two ids gives the same catalog in either order |
| GlobalStore.DeleteProductIdempotent | app/context.tsx:74-76 | deleting the same id twice equals deleting it once |
| GlobalStore.DeleteProductKeepsDistinct | app/context.tsx:74-76 | if catalog ids are pairwise distinct, they stay distinct after a delete |
| GlobalStore.AddProductDistinct | app/context.tsx:69-71 | a distinct-id catalog stays distinct after an add if and only if the new id was not already present |
| GlobalStore.DeleteUndoesAdd | app/context.tsx:69-76 | deleting a product added with a fresh id restores the previous store |
| GlobalStore.RemoveUndoesAddToCart | app/context.tsx:79-87 | removing a product that was not in the cart before adding it restores the previous store |
| GlobalStore.RemoveFromCartDropsEveryUnit | app/context.tsx:85-87 | after two adds of the same product, one remove takes out both units and every earlier unit with that id |
| GlobalStore.PriceOf | app/context.tsx:91 | a price reads as NaN exactly when its trimmed text is neither blank nor an optionally signed digit run, and a blank price reads as 0 |
| GlobalStore.ReducePrices | app/context.tsx:91 | once the running sum is NaN, the reduce ends in NaN |
| GlobalStore.ReducePricesIsSum | app/context.tsx:91 | the left-to-right reduce is NaN once any price is unreadable, and otherwise equals the start value plus the reference price sum |
| GlobalStore.CartTotal | app/context.tsx:91 | the cart total is a number exactly when every price reads, and then equals the sum of the prices; the empty cart totals 0 |
| GlobalStore.PriceSumAppend | app/context.tsx:91 | the price sum of two concatenated carts is the sum of their sums |
| GlobalStore.CartTotalAppend | app/context.tsx:91 | the total of concatenated carts is the JavaScript sum of their totals |
| GlobalStore.AddToCartTotal | app/shop/page.tsx:80 | the displayed cart total after an add is the old total plus that product's price |
| JsNumber.Add | app/context.tsx:91 | a JavaScript sum is a number exactly when both operands are, and then it is their integer sum |
| JsNumber.ToNumber | app/context.tsx:91 | `Number(text)` is NaN exactly when the trimmed text is neither empty nor an optionally signed run of digits; blank text gives 0 |
| JsNumber.ToNumberDigits | app/context.tsx:91 | a run of decimal digits reads as its decimal value |
| JsNumber.DigitsValueShowNat | app/context.tsx:91 | reading back the decimal text of a natural number gives that number |
| JsNumber.ToNumberSigned | app/page.tsx:344 | a run of digits after `+` reads as its value and after `-` as its negation, leading zeros included, so `"+5"` is 5 and `"-05"` is -5 |
| JsNumber.ToNumberShowInt | app/admin/page.tsx:57 | a price entered as the decimal text of any integer reads back as that integer |
| JsNumber.ToNumberIgnoresPadding | app/context.tsx:91 | any white space before and after a text does not change the number read |
| JsNumber.TrimStartDropsSpace | app/context.tsx:91 | trimming the start removes exactly a run of leading white space |
| JsNumber.TrimEndDropsSpace | app/context.tsx:91 | trimming the end removes exactly a run of trailing white space |
| Text.Join | app/context.tsx:92 | joining the empty list gives ""; otherwise the length is the total of the element lengths plus one separator between each pair, and the text starts with the first element |
| Text.JoinSnoc | app/context.tsx:92 | joining one more name appends the separator and that name |
| Text.JoinEndsWithLast | app/context.tsx:92 | the joined text ends with the last name |
| Session.AddAllAppends | app/context.tsx:69-71 | after n product adds the catalog is the old catalog followed by those n products, so its length grows by n |
| Session.RunKeepsOrderHistory | app/context.tsx:103 | over any session, the order list grows by one per checkout and the earlier orders stay as its unchanged tail |
| Session.LatestOrderFirst | app/context.tsx:103-104 | after any session ending in a checkout, the order at index 0 is the one NewOrder builds from the cart as it stood before that checkout, with the checkout's id and "Pending" status, and the cart is empty |
| Session.RunKeepsDistinctIds | app/admin/page.tsx:14-19 | if every added product has an id not yet in the catalog, catalog ids stay pairwise distinct over the whole session |
| Session.Step | app/context.tsx:69-104 | an add appends the product, a delete or remove filters out the id, and a checkout prepends the order NewOrder builds from the current cart and empties the cart; each operation leaves the other lists alone |
| Session.Run | app/context.tsx:69-104 | over a session the order list grows by exactly the number of checkouts |
| Session.RunSnoc | app/context.tsx:66-106 | one more operation at the end of a session is one more step on the resulting store |
| Scenarios.DefaultPrices | app/context.tsx:37-42 | the default prices read as 45, 90, 250 and 900 |
| Scenarios.WheatAndRiceTotal | app/context.tsx:91 | a cart holding the first two default products totals 135 |
| Scenarios.WheatAndRiceItems | app/context.tsx:92 | that cart's item text is "Sharbati Wheat, Basmati Rice" |
| Scenarios.PlaceOrderExample | app/context.tsx:90-104 | checking out that cart records a pending order of 135 at the head of the history and empties the cart |
| Scenarios.DeleteProductExample | app/context.tsx:74-76 | deleting id 3 from the default catalog leaves ids 1, 2 and 4 in that order |
| App.InlineDefaultProducts | app/page.tsx:23-28 | the inline default catalog has four entries carrying ids 1 to 4 in order |
| App.InitialApp | app/page.tsx:20-31 | the inline provider starts on "home" in the light theme, with its own default catalog, an empty cart and no orders; the catalog ids are distinct |
| App.ToggleTheme | app/page.tsx:33 | the theme flag flips, and the store and current page are unchanged |
| App.ToggleThemeTwice | app/page.tsx:33 | toggling twice restores the state |
| App.NavigateTo | app/page.tsx:34-37 | the current page becomes the requested one, and the store and theme are unchanged |
| App.NavigateToLastWins | app/page.tsx:34-37 | of two navigations only the last counts, and navigating to the current page changes nothing |
| App.AddProduct | app/page.tsx:38 | the catalog gains the product at its end, and everything else is unchanged |
| App.DeleteProduct | app/page.tsx:39 | every entry with the id is gone, every other entry keeps its multiplicity, the length drops by the number removed, and everything else is unchanged |
| App.AddToCart | app/page.tsx:40 | the cart gains the product at its end, and everything else is unchanged |
| App.RemoveFromCart | app/page.tsx:41 | every unit with the id is gone, every other entry keeps its number of units, the length drops by the number removed, and everything else is unchanged |
| App.PlaceOrder | app/page.tsx:42-46 | the order put first is exactly the order NewOrder describes for the current cart, so pending, with the price sum or NaN as total; the cart is emptied; catalog and view state are unchanged |
| App.InlineCopyAgrees | app/page.tsx:38-45 | each of the inline provider's five store operations changes the store exactly as the exported provider's operation does |
| App.ViewStateIndependent | app/page.tsx:33-40 | toggling the theme and navigating each commute with adding to the cart and with adding a product |

## Left out

- Loading from and saving to `localStorage` (app/context.tsx:49-64). This is browser I/O with JSON encoding. A save followed by a load does not always give the lists back: `JSON.stringify` writes a NaN order total as `null`, so after a reload that order's total is `null`, which the model's `Num` does not represent. The model keeps the in-memory lists only.
- The `alert` acknowledgements (app/context.tsx:81, 105) and `window.scrollTo` (app/page.tsx:35). These are user-interface effects that change no state.
- `Date.now()` and `toLocaleDateString()`. They are nondeterministic and depend on the locale, so they are the `now` and `date` parameters.
- JsNumber.ToNumber: only integer text is read exactly. Digit text above 2^53 is read as the exact integer, where JavaScript rounds it to the nearest double, and text above about 1.8e308 gives `Infinity` there. Decimal fractions, exponents, the hexadecimal, binary and octal prefixes (`0x`, `0b`, `0o`), `Infinity` and a trailing `.` make the model return NaN, while JavaScript returns a number.
- JsNumber.Add: integers are unbounded. Floating-point rounding of totals above 2^53 is not modelled.
- React plumbing: `createContext`/`useContext`, render batching and stale closures. Each operation is modelled as reading the current store and replacing it.
- The `useGlobal` in app/page.tsx:55-59. It is the same check as the exported one, which `GlobalStore.UseGlobal` models.
- Page markup and view-local form state: the shop, admin and farmers pages, and the Navbar, HomePage, ShopPage and AdminPage components of app/page.tsx.
- app/layout.tsx, tailwind.config.ts and next.config.ts. They hold styling and build configuration only.
