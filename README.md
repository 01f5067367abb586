# Shopping cart ledger and catalog filter, in Dafny

This project models the logic of the shopping-cart demo in `src/App.jsx`:

- the **cart ledger** that `CartProvider` keeps in a `useState` cell: an ordered list of
  lines (a product snapshot plus a quantity), the four updates handed to `setCart`
  (`addToCart`, `removeFromCart`, `updateQuantity`, `clearCart`), and the two `reduce`
  folds `getTotalItems` and `getTotalPrice`;
- the **catalog view** of `ProductList`: the `PRODUCTS` catalog, the category buttons
  (`'All'` followed by the distinct categories in order of first appearance) and the
  `filteredProducts` predicate (category or `'All'`, and a closed price range).

Files:

- `seqs.dfy` — `Wrappers.Option`, and `Seqs`: JavaScript's `Array.prototype.filter`
  (`Filter`), the de-duplication that spreading a `Set` performs (`Distinct`), an
  order-preserving subsequence relation and the lemmas that state what these promise.
- `catalog.dfy` — `Catalog`: the `Product` record, the shipped catalog, `Matches`,
  `FilteredProducts`, `Categories`, and checks of the shipped catalog.
- `ledger.dfy` — `Ledger`: the cart as `seq<Line>`, the four updates as pure functions
  of the previous list (the `prevCart => …` callbacks of `addToCart`, `removeFromCart`
  and `updateQuantity`, and `ClearCart` for `setCart([])`), the totals, the ledger
  invariant `Valid` (one line per id, `1 <= quantity <= stock`) and the lemmas relating
  the updates to the totals and to the invariant.
- `cart_provider.dfy` — `CartProvider.CartStore`: the state cell as a class whose
  `cart` field each handler replaces with the ledger function's result, the
  `shoppingCart` storage entry as a field that each change writes back, and the two
  total getters as loops that perform the `reduce`.

Modelling decisions:

- Prices are integer cents (`79.99` is `7999`). The price slider yields whole currency
  units through `parseInt`, so a `PriceRange(lo, hi)` is in whole units and a product
  passes when `lo * 100 <= price <= hi * 100`, which is the source's comparison made
  exact.
- `addToCart` on an existing line keeps that line's product snapshot and clamps with the
  stock of the product passed in (`product.stock`); `updateQuantity` clamps with the
  line's own stock (`item.stock`). Both use `map`, so every line with the id is
  rewritten, not only the first one `find` reports; with one line per id the two
  coincide, and the lemmas say so where it matters.
- `updateQuantity` on an id that is not in the cart changes nothing, in both branches:
  `filter` removes nothing and `map` rewrites nothing.
- The filter uses both ends of the slider range (`priceRange[0]` and `priceRange[1]`),
  as the code does, rather than an implicit lower bound of zero.
- The code rejects nothing: unknown products are appended by `addToCart`, and quantities
  below 1 remove the line. The model keeps these operations total.
- The ledger invariant `Valid` (one line per id, `1 <= quantity <= stock`) is kept by
  `removeFromCart`, `updateQuantity` and `clearCart` unconditionally, but not by
  `addToCart`. Starting from a valid cart, `addToCart(p)` breaks it exactly when
  `p.stock < 1`, or when a full line with `p.id` holds a snapshot whose stock is below
  `p.stock`, because the clamp uses the stock of the product passed in
  (`Ledger.AddKeepsValidIff`). The cases are shown one by one:
  - a stock-0 product added to the empty cart gets a line with quantity 1
    (`Ledger.AddOutOfStockNewLine`);
  - added to a valid line with its id, it clamps that line to quantity 0 with
    `Math.min(q + 1, 0)`, and the line is kept (`Ledger.AddOutOfStockExistingLine`);
  - a full line whose snapshot has less stock is pushed one past it
    (`Ledger.AddStaleSnapshotBreaksValid`).

  A product with stock of at least 1 whose snapshot in the cart is the product itself
  always keeps the invariant (`Ledger.AddPreservesValid`). Every product of the shipped
  catalog has stock of at least 8 (`Catalog.CatalogWellFormed`), so adding catalog
  products to a cart of catalog products always keeps it (`Ledger.CatalogAddKeepsValid`).

## Model

| member | source | states |
|---|---|---|
| `Ledger.Find` | src/App.jsx:81 | `find` by id: none exactly when no line has the id, otherwise the index of the first line with it |
| `Ledger.AddToCart` | src/App.jsx:79-91 | an absent product is appended with quantity 1 after the unchanged lines; a present one keeps the length, its lines get `min(q + 1, product.stock)` (so at most the stock) with the snapshot unchanged, all other lines are untouched; the id is then in the cart, no other id appears or vanishes, and distinct ids stay distinct |
| `Ledger.RemoveFromCart` | src/App.jsx:93-95 | no line with the id remains; the result is an order-preserving subsequence holding every other line exactly as often as before; other ids are kept; an absent id returns the same list; distinct ids stay distinct |
| `Ledger.UpdateQuantity` | src/App.jsx:97-109 | below 1 it is `RemoveFromCart`; otherwise the length, all other lines and the matching lines' snapshots are unchanged and the matching quantity becomes `min(n, line stock)`; an absent id leaves the cart unchanged; for `n >= 1` the set of ids is kept; distinct ids stay distinct |
| `Ledger.Subtotal` | src/App.jsx:112 | a line's `price * quantity` is non-negative when both are |
| `Ledger.TotalItems` | src/App.jsx:115-117 | the left fold of quantities is 0 on the empty cart |
| `Ledger.TotalPrice` | src/App.jsx:111-113 | the left fold of subtotals is 0 on the empty cart |
| `Ledger.TotalsBounds` | src/App.jsx:111-117 | the item total is at least the number of lines when every quantity is at least 1, and the price total is non-negative when prices and quantities are |
| `Ledger.TotalsAppend` | src/App.jsx:111-117 | both totals of a concatenation are the sums of the parts' totals |
| `Ledger.TotalsOfOneLineChange` | src/App.jsx:111-117 | changing one line's quantity changes the totals by that line's difference alone |
| `Ledger.TotalsDeleteAt` | src/App.jsx:111-117 | deleting one line takes its quantity and subtotal off the totals |
| `Ledger.RemoveDeletesOneLine` | src/App.jsx:94 | with one line per id, removing a present id deletes exactly its line and keeps the rest in order |
| `Ledger.RemoveTotals` | src/App.jsx:94 | with one line per id, removing a line takes its quantity and subtotal off the totals |
| `Ledger.AddNewTotals` | src/App.jsx:89 | adding an absent product raises the item count by 1 and the price by its price |
| `Ledger.AddExistingTotals` | src/App.jsx:83-87 | adding a present product changes the totals by the clamped quantity in place of the old one |
| `Ledger.UpdateTotals` | src/App.jsx:102-108 | setting a quantity of at least 1 changes the totals by the clamped quantity in place of the old one |
| `Ledger.AddTwice` | src/App.jsx:79-91 | adding an absent product twice leaves one new line for it with quantity `min(2, stock)` after the unchanged cart |
| `Ledger.AddPreservesValid` | src/App.jsx:79-91 | `addToCart` keeps one line per id and `1 <= quantity <= stock`, for a product with stock at least 1 whose cart snapshot is that product |
| `Ledger.CatalogAddKeepsValid` | src/App.jsx:79-91 | adding a catalog product to a valid cart of catalog products keeps the ledger invariant |
| `Ledger.AddOutOfStockNewLine` | src/App.jsx:89 | a product with stock 0 added to an empty cart gets a line with quantity 1, which breaks the invariant |
| `Ledger.AddKeepsValidIff` | src/App.jsx:79-91 | from a valid cart, `addToCart` keeps the invariant exactly when the product has stock and no full line with its id has a snapshot stock below the product's |
| `Ledger.AddOutOfStockExistingLine` | src/App.jsx:83-87 | adding a stock-0 product to a valid line with its id clamps that line to quantity 0 and keeps it, which breaks the invariant |
| `Ledger.AddStaleSnapshotBreaksValid` | src/App.jsx:83-87 | a full line whose snapshot stock is below the added product's stock is raised past its own stock, breaking the invariant |
| `Ledger.ClearCart` | src/App.jsx:119-121 | the cleared cart is empty, so it holds no product, its ids are trivially distinct, and both totals are 0 |
| `Ledger.RemovePreservesValid` | src/App.jsx:93-95 | `removeFromCart` keeps the ledger invariant |
| `Ledger.UpdatePreservesValid` | src/App.jsx:97-109 | `updateQuantity` keeps the ledger invariant for every requested quantity |
| `Ledger.NoItemsIffEmpty` | src/App.jsx:115-117 | on a valid ledger the item count is 0 exactly when the cart is empty |
| `Ledger.SameProductsSameIds` | src/App.jsx:83-87 | a `map` that keeps every line's product keeps the set of ids and their distinctness |
| `Ledger.SubseqKeepsIdsDistinct` | src/App.jsx:94 | a `filter` result of a cart with one line per id has one line per id |
| `Seqs.FilterSpec` | src/App.jsx:331-335 | `filter` returns an order-preserving subsequence holding exactly the occurrences that pass, each as often as in the input |
| `Seqs.FilterAppend` | src/App.jsx:331-335 | `filter` of a concatenation is the concatenation of the filtered parts |
| `Seqs.DistinctSpec` | src/App.jsx:329 | the `Set` spread has no repeats, the same elements as the input, ordered by first occurrence |
| `Seqs.DistinctElements` | src/App.jsx:329 | the `Set` spread has no repeats and the same elements as the input |
| `Seqs.DistinctOrder` | src/App.jsx:329 | the `Set` spread lists elements in order of their first occurrence |
| `Seqs.DistinctOfPattern` | src/App.jsx:329 | three distinct values in the shipped catalog's pattern de-duplicate to their first-occurrence order |
| `Seqs.DistinctSnoc` | src/App.jsx:329 | a later element is appended to the `Set` order unless already present |
| `Catalog.FilteredProducts` | src/App.jsx:331-335 | an order-preserving subsequence of the catalog holding a product exactly when its category matches (or `'All'` is selected) and `lo <= price <= hi`, with multiplicities kept |
| `Catalog.Categories` | src/App.jsx:329 | starts with `'All'`, then each catalog category exactly once, and only those, in order of first appearance |
| `Catalog.CatalogWellFormed` | src/App.jsx:14-63 | the shipped catalog has distinct ids, stock of at least 8 and non-negative prices |
| `Catalog.ElectronicsUnder300` | src/App.jsx:327-335 | `Electronics` with the initial range `[0, 300]` yields exactly the headphones and the watch |
| `Catalog.AllUnder50` | src/App.jsx:331-335 | `'All'` with the range `[0, 50]` yields exactly the backpack and the lamp |
| `Catalog.CatalogColumn` | src/App.jsx:14-63 | the categories of the shipped catalog in order |
| `Catalog.ShippedColumnDistinct` | src/App.jsx:329 | de-duplicating that column gives Electronics, Fashion, Home |
| `Catalog.CatalogCategories` | src/App.jsx:329 | the shipped catalog's buttons are `All`, Electronics, Fashion, Home |
| `CartProvider.CartStore.constructor` | src/App.jsx:67-77 | the cart starts as the stored list, or empty when nothing parsable is stored, and the storage entry mirrors it |
| `CartProvider.CartStore.AddToCart` | src/App.jsx:79-91 | the cart becomes `Ledger.AddToCart` of the old cart, is written back, and stays valid under the conditions above |
| `CartProvider.CartStore.RemoveFromCart` | src/App.jsx:93-95 | the cart becomes `Ledger.RemoveFromCart` of the old cart, is written back and stays valid |
| `CartProvider.CartStore.UpdateQuantity` | src/App.jsx:97-109 | the cart becomes `Ledger.UpdateQuantity` of the old cart (below 1 through `RemoveFromCart`), is written back and stays valid |
| `CartProvider.CartStore.ClearCart` | src/App.jsx:119-121 | the cart becomes `Ledger.ClearCart` of the old cart (empty), is written back, and both totals are 0 |
| `CartProvider.CartStore.GetTotalItems` | src/App.jsx:115-117 | the loop's result is `Ledger.TotalItems` of the current cart |
| `CartProvider.CartStore.GetTotalPrice` | src/App.jsx:111-113 | the loop's result is `Ledger.TotalPrice` of the current cart |

## Left out

- The React components and their markup (`ProductCard`, `CartItem`, `CartSidebar`, `App`, `ShoppingCartApp`): presentation only.
- The `CartContext` provider and the `useCart` lookup with its error when used outside the provider: framework plumbing.
- `JSON.stringify` / `JSON.parse` and `localStorage` itself: the storage entry is a field holding the list, and anything absent or unparsable is `None`; serialisation is assumed to round-trip the lines.
- The checkout delay (`setTimeout`) and the open/closed state of the sidebar: timer choreography whose only ledger effect is `clearCart`.
- Floating-point prices, the float sum of `getTotalPrice` and `toFixed(2)` formatting: prices and totals are exact integer cents.
- Non-integer or `NaN` quantities and ids: quantities, ids and stocks are integers.
- `src/main.jsx`: DOM bootstrap only.
