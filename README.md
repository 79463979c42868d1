# Storefront client bookkeeping, modelled in Dafny

This project models the client-side state of a storefront web client:

- the **compare store** (`Compare.CompareStore`), which holds the one or two
  products picked for a side-by-side comparison and replaces the older one
  when a third is added;
- the **wishlist store** (`Wishlist.WishlistStore`), a list of products keyed
  by id where the first product stored under an id wins;
- the **compare page** (`ComparePage`): which product each slot shows, the
  guards on choosing a product for a slot, the two "Clear" buttons, and which
  cell of a metric row (price, rating, stock) is highlighted as better;
- the **products page** (`ProductsPage`): how the URL query parameters are
  read (with their defaults), how the search, category, sort and page
  handlers update them, and the Previous/Next/numbered pagination controls.
  The JavaScript conversions this relies on (`parseInt`, `String(n)`,
  `split`) are in `JsText`.

Both stores are classes with one sequence field, as the source's stores hold
one array that each action replaces. Every mutating method states the new
field as a function of the old one, and the invariant it keeps: at most two
products and no deep-equal pair for the compare store, distinct ids for the
wishlist. Lemmas about those functions state the rest.

Assumptions. The helpers `deepEqual` and `categoryMatch` are not part of this
model. `deepEqual` is taken to be structural equality, which is equality of
`ProductList.Product` values. `categoryMatch` is taken to be equality of the
`category` fields. A product's price and rating are `real`, its stock an
`int`; they are only compared.

The compare store checks the category only when exactly one product is held
(src/features/compare/hooks/useCompareStore.js:11). With two products held, a
new product evicts index 0 with no category check, so the store can hold two
products of different categories; `Compare.MixedCategoriesReachable` shows
three adds that produce such a pair. The model claims no category invariant.

## Model

| member | source | states |
|---|---|---|
| `ProductList.WithoutId` | src/features/compare/hooks/useCompareStore.js:23 | filtering by id keeps exactly the products with another id, never lengthens the list, and leaves no product with that id |
| `ProductList.WithoutAbsentId` | src/features/compare/hooks/useCompareStore.js:21-25 | removing an id no product has leaves the list unchanged |
| `ProductList.WithoutIdAppend` | src/features/wishlist/hooks/useWishlistStore.js:18-22 | filtering distributes over concatenation, so the products kept stay in their original order |
| `ProductList.WithoutIdKeepsUniqueIds` | src/features/wishlist/hooks/useWishlistStore.js:18-22 | removing keeps the ids pairwise distinct |
| `ProductList.WithoutIdKeepsNoDuplicates` | src/features/compare/hooks/useCompareStore.js:21-25 | removing keeps the products pairwise not deep-equal |
| `ProductList.FindById` | src/pages/ComparePage.jsx:24-29 | `find` by id succeeds exactly when some product has the id, and returns a product of the list with that id |
| `ProductList.FindByIdIsFirst` | src/pages/ComparePage.jsx:95-97 | `find` returns the first product carrying the id |
| `ProductList.FindByIdUnique` | src/features/wishlist/hooks/useWishlistStore.js:9-15 | with distinct ids, `find` returns the one product carrying the id |
| `Compare.CompareStore.constructor` | src/features/compare/hooks/useCompareStore.js:5 | the store starts empty, which satisfies its invariant |
| `Compare.CompareStore.AddToCompareList` | src/features/compare/hooks/useCompareStore.js:6-20 | a deep-equal duplicate is ignored; with one product of another category held the add is rejected; with two held, index 0 is dropped and the product appended; otherwise it is appended; the list stays at most two long with no deep-equal pair |
| `Compare.CompareStore.RemoveFromCompareList` | src/features/compare/hooks/useCompareStore.js:21-25 | the list becomes the old list filtered by id, no product with the id remains, the call is a no-op when the id is absent, and the invariant is kept |
| `Compare.CompareStore.IsInCompareList` | src/features/compare/hooks/useCompareStore.js:26-27 | true exactly when some held product has the id |
| `Compare.AddedKeepsReachable` | src/features/compare/hooks/useCompareStore.js:6-20 | an add keeps a list of at most two products with no deep-equal pair in that state |
| `Compare.AddedIdempotent` | src/features/compare/hooks/useCompareStore.js:7-9 | adding the same product twice leaves what adding it once leaves |
| `Compare.AddedHolds` | src/features/compare/hooks/useCompareStore.js:11-19 | after an add the product is held, except exactly when one product of another category was held |
| `Compare.AddedEvictsOldest` | src/features/compare/hooks/useCompareStore.js:13-16 | with two products held, a new one gives the second old product followed by the new one |
| `Compare.MixedCategoriesReachable` | src/features/compare/hooks/useCompareStore.js:11-18 | a different-category product is refused next to one product, yet evicts into a pair of different categories |
| `Compare.ReplayReachable` | src/features/compare/hooks/useCompareStore.js:5-25 | any session of adds and removes from the empty store leaves at most two products, no two deep-equal |
| `Wishlist.WishlistStore.constructor` | src/features/wishlist/hooks/useWishlistStore.js:7 | the wishlist starts empty, which satisfies its invariant |
| `Wishlist.WishlistStore.AddToWishlist` | src/features/wishlist/hooks/useWishlistStore.js:9-16 | appends the product when no item has its id and is a no-op otherwise; the id is then present and the ids stay distinct |
| `Wishlist.WishlistStore.RemoveFromWishlist` | src/features/wishlist/hooks/useWishlistStore.js:18-22 | the items become the old items filtered by id, the id is then absent, the call is a no-op when it was absent, and the ids stay distinct |
| `Wishlist.WishlistStore.IsInWishlist` | src/features/wishlist/hooks/useWishlistStore.js:24-26 | true exactly when some item has the id |
| `Wishlist.AddedKeepsUniqueIds` | src/features/wishlist/hooks/useWishlistStore.js:9-16 | an add keeps the ids pairwise distinct |
| `Wishlist.AddedIdempotent` | src/features/wishlist/hooks/useWishlistStore.js:11-15 | adding twice equals adding once |
| `Wishlist.AddedFirstWriteWins` | src/features/wishlist/hooks/useWishlistStore.js:11-15 | after an add, the item under the id is the one already there, or the new product if there was none |
| `Wishlist.AddedTouchesOnlyItsId` | src/features/wishlist/hooks/useWishlistStore.js:14 | with the added id filtered out, the items before and after an add are equal: nothing else changed |
| `Wishlist.AddedMembership` | src/features/wishlist/hooks/useWishlistStore.js:9-26 | after an add, an id is present exactly when it was before or is the product's id |
| `ComparePage.MetricPreference` | src/pages/ComparePage.jsx:42-46 | exactly price, rating and stock have a preference, and only price prefers the lower value |
| `ComparePage.MetricCellClass` | src/pages/ComparePage.jsx:42-60 | neutral for a field with no preference or a missing value; a tie exactly when both values are equal; "better" exactly when this side's value strictly beats the other under the field's preference |
| `ComparePage.CellsAreOpposite` | src/pages/ComparePage.jsx:53-59 | the B cell is the A cell with better and worse exchanged; one side is better or worse exactly when it is a metric with two different values |
| `ComparePage.SwappingProductsSwapsCells` | src/pages/ComparePage.jsx:48-60 | swapping the two values gives each side the class the other side had |
| `ComparePage.WinnerByField` | src/pages/ComparePage.jsx:42-46 | for price the strictly lower value is better; for rating and stock the strictly higher |
| `ComparePage.NeutralRows` | src/pages/ComparePage.jsx:31-50 | the category row is neutral, and every row is neutral while a slot is empty |
| `ComparePage.MetricValue` | src/pages/ComparePage.jsx:212-213 | a row has a value to compare exactly when the slot shows a product and the field is a metric; it is the product's price, rating or stock for those keys |
| `ComparePage.SelectionVerdict` | src/pages/ComparePage.jsx:98-107 | a choice is accepted exactly when the other slot is empty or holds a different product of the same category; it is refused as the same product exactly when the other slot holds it |
| `ComparePage.SelectionVerdictSymmetric` | src/pages/ComparePage.jsx:146-155 | the guard gives the same verdict whichever slot the two products are in |
| `ComparePage.SlotProduct` | src/pages/ComparePage.jsx:24-29 | a slot shows a loaded product exactly when its selection, or failing one the compare list entry at its index, names the id of a loaded product, and then shows a product with that id |
| `ComparePage.Page.ProductA` | src/pages/ComparePage.jsx:24-26 | slot A shows a loaded product; with a selection it shows one exactly when a loaded product has the selected id; with no selection and an empty compare list it shows nothing |
| `ComparePage.Page.ProductB` | src/pages/ComparePage.jsx:27-29 | slot B shows a loaded product; with a selection it shows one exactly when a loaded product has the selected id; with no selection and fewer than two listed products it shows nothing |
| `ComparePage.Page.SlotBEnabled` | src/pages/ComparePage.jsx:141 | while slot B's dropdown is disabled, slot A shows no product |
| `ComparePage.Page.constructor` | src/pages/ComparePage.jsx:10-14 | the page starts with no products and both selections empty |
| `ComparePage.Page.Load` | src/pages/ComparePage.jsx:16-22 | the loaded products replace the list; the selections stay |
| `ComparePage.Page.SelectA` | src/pages/ComparePage.jsx:94-112 | a choice refused by the guard against slot B's product changes nothing; an accepted one sets slot A's selection and adds the product to the store |
| `ComparePage.SlotAChoiceCanShowOneProductTwice` | src/pages/ComparePage.jsx:94-112 | with `[x, y]` held and no selection, a `z` of `y`'s category passes the guard against slot B's `y`, the add gives `[y, z]`, and both slots then show `z` |
| `ComparePage.Page.SelectB` | src/pages/ComparePage.jsx:139-158 | a choice refused by the guard against slot A's product changes nothing; an accepted one sets slot B's selection and adds the product to the store |
| `ComparePage.Page.ClearA` | src/pages/ComparePage.jsx:81-85 | the first listed product leaves the store, slot B's selection moves into slot A and slot B is emptied |
| `ComparePage.Page.ClearB` | src/pages/ComparePage.jsx:129-132 | the second listed product leaves the store and slot B is emptied; slot A is kept |
| `JsText.TrimStart` | src/pages/ProductsPage.jsx:24 | `parseInt` skips exactly the leading white space: what remains is a suffix that does not start with white space |
| `JsText.ParseInt` | src/pages/ProductsPage.jsx:24 | a string that is empty or all white space parses to NaN |
| `JsText.DigitRunLength` | src/pages/ProductsPage.jsx:24 | the digits read are the longest prefix of digits |
| `JsText.DecimalDigits` | src/pages/ProductsPage.jsx:56-58 | the numeral of a natural number is non-empty, all digits, with no leading zero |
| `JsText.ParseIntOfDecimal` | src/pages/ProductsPage.jsx:24 | `parseInt(String(n))` is `n` for every integer |
| `JsText.ParseIntSkipsWhiteSpace` | src/pages/ProductsPage.jsx:24 | white space before a string does not change what `parseInt` reads |
| `JsText.ParseIntStopsAtNonDigit` | src/pages/ProductsPage.jsx:24 | `parseInt` reads the numeral of an integer and ignores what follows it when that does not start with a digit or `x` |
| `JsText.ParseIntTypedPages` | src/pages/ProductsPage.jsx:24 | `parseInt(" 3")` is 3 and `parseInt("7abc")` is 7 |
| `JsText.Split` | src/pages/ProductsPage.jsx:51-52 | `split` gives at least one piece, no piece contains the separator, and joining the pieces back with it gives the string |
| `JsText.SplitWithoutSeparator` | src/pages/ProductsPage.jsx:52 | a string without the separator splits into itself |
| `JsText.SplitTwo` | src/pages/ProductsPage.jsx:49-54 | `x-y` splits into `x` and `y` when neither contains the separator |
| `ProductsPage.UpdateParams` | src/pages/ProductsPage.jsx:26-38 | each key given a value holds it, each key given null is deleted, and every key not mentioned is as it was |
| `ProductsPage.AppliedPerKey` | src/pages/ProductsPage.jsx:29-33 | applying the updates in turn has that per-key effect |
| `ProductsPage.PageFromParams` | src/pages/ProductsPage.jsx:24 | the page is never zero; it is the parsed integer whenever that parses to a non-zero number, and 1 otherwise, in particular when the parameter is absent |
| `ProductsPage.TypedPages` | src/pages/ProductsPage.jsx:24 | a page typed as " 3" reads as 3, as "7abc" as 7, and as "0" as 1 |
| `ProductsPage.Defaults` | src/pages/ProductsPage.jsx:20-24 | with no parameters the search and category are empty, sortBy is "title", sortOrder "asc" and the page 1 |
| `ProductsPage.SearchFromParams` | src/pages/ProductsPage.jsx:20 | the search is empty exactly when the parameter is absent or empty, and is the parameter otherwise |
| `ProductsPage.CategoryFromParams` | src/pages/ProductsPage.jsx:21 | the category is empty exactly when the parameter is absent or empty, and is the parameter otherwise |
| `ProductsPage.SortByFromParams` | src/pages/ProductsPage.jsx:22 | sortBy is never empty: the parameter when it is non-empty, "title" otherwise |
| `ProductsPage.SortOrderFromParams` | src/pages/ProductsPage.jsx:23 | sortOrder is never empty: the parameter when it is non-empty, "asc" otherwise |
| `ProductsPage.SearchChange` | src/pages/ProductsPage.jsx:40-43 | the update touches only "search", and deletes it exactly when the typed value is empty |
| `ProductsPage.CategoryChange` | src/pages/ProductsPage.jsx:45-47 | the update touches only "category", and deletes it exactly when the chosen value is empty |
| `ProductsPage.SortChange` | src/pages/ProductsPage.jsx:49-54 | two updates, sortBy first and sortOrder second; a value `x-y` whose parts hold no `-` gives sortBy `x || null` and sortOrder `y || null`; a value without `-` gives sortBy `value || null` and deletes sortOrder; every value set is non-empty and contains no `-` |
| `ProductsPage.SplitAtOneDash` | src/pages/ProductsPage.jsx:50-51 | `value.split("-")` of `x-y`, neither part holding `-`, is `[x, y]` |
| `ProductsPage.PageChange` | src/pages/ProductsPage.jsx:56-58 | the update touches only "page", and sets it to a string that `parseInt` reads back as the new page |
| `ProductsPage.SearchRoundTrip` | src/pages/ProductsPage.jsx:40-43 | the typed search is what the page reads back, and no other key appears or disappears |
| `ProductsPage.CategoryRoundTrip` | src/pages/ProductsPage.jsx:45-47 | the chosen category is what the page reads back |
| `ProductsPage.SortRoundTrip` | src/pages/ProductsPage.jsx:49-54 | choosing `x-y` reads back as sortBy `x` and sortOrder `y`, each falling back to its default when empty |
| `ProductsPage.SortWithoutDash` | src/pages/ProductsPage.jsx:52 | a sort value without `-` deletes sortOrder, which reads back as "asc" |
| `ProductsPage.PageRoundTrip` | src/pages/ProductsPage.jsx:56-58 | moving to a page reads back as that page, and a zero as page 1 |
| `ProductsPage.PreviousPage` | src/pages/ProductsPage.jsx:202-205 | the target of Previous is the larger of 1 and the page before |
| `ProductsPage.NextPage` | src/pages/ProductsPage.jsx:226-229 | the target of Next is the smaller of the page count and the page after |
| `ProductsPage.ShowsPagination` | src/pages/ProductsPage.jsx:199 | the controls are shown only when there are at least two numbered buttons |
| `ProductsPage.PageButtonsAreTheRange` | src/pages/ProductsPage.jsx:210 | the numbered buttons are 1 to the page count, each once, in increasing order |
| `ProductsPage.NavigationStaysInRange` | src/pages/ProductsPage.jsx:199-233 | from a page in range both targets are in range, and an enabled Previous or Next moves by exactly one |
| `ProductsPage.NavigationTargetsAreButtons` | src/pages/ProductsPage.jsx:199-233 | while the controls are shown, the targets of Previous and Next from a page in range are numbered buttons |
| `ProductsPage.NavigationFromPageOutOfRange` | src/pages/ProductsPage.jsx:24 | a page read from the address below 1 leaves Next enabled with a target below the buttons; a page above totalPages + 1 leaves Previous enabled with a target above them (`?page=-3` with 5 pages: Next goes to -2) |

## Left out

- Rendering: the JSX, the CSS class strings (only the four outcomes neutral, tie, better and worse are modelled), the SVGs and the `alert` pop-ups.
- The product service: `getProducts`, `filterProducts` and `getCategories` call a remote HTTP service. `Page.Load` takes the fetched products as a parameter. The products page's load effect and its 600 ms spinner delay are asynchronous glue and are not modelled.
- The `zustand` store plumbing and the wishlist's persistence to browser storage under the name `wishlist`.
- Router glue: `useSearchParams`, the history `replace` option, and the ordering and repeated keys of `URLSearchParams`. The parameters are a key-value map.
- The value formatting on the compare page (`toFixed(2)`, units) is floating-point string formatting.
- The helpers `deepEqual` and `categoryMatch` are not part of this model. They are assumed to be structural equality and category equality.
- ComparePage.MetricCellClass: JavaScript's `in` would also accept inherited names such as `toString` as fields with a preference. Only the four table fields are ever passed, and the model gives every other name no preference.
- ComparePage.MetricValue: the category is a string and is given as no value. It is never compared, because the category has no preference.
- ComparePage.Page.SelectA: the guard at src/pages/ComparePage.jsx:98-103 compares against the product slot B shows before the add. The add can evict slot A's fallback and make slot B fall back to the new product, so both slots can show the same product; the model keeps this behaviour of the source, and `ComparePage.SlotAChoiceCanShowOneProductTwice` states it.
- ProductsPage.NavigationStaysInRange, ProductsPage.NavigationTargetsAreButtons: these hold only for a page in range. The page comes from the address and can lie outside 1 to totalPages; `ProductsPage.NavigationFromPageOutOfRange` states what happens then.
- ComparePage.Page.SelectA: the "Select a product..." option is left out. It would pass `undefined` to the helpers that are not part of this model. The selections are modelled as product ids, not as the strings the dropdowns produce.
- ComparePage.Page.ClearA: the model does not require the Clear buttons to be visible or enabled.
- JsText.ParseInt: integers are unbounded. The loss of precision of JavaScript numbers beyond 2^53 is not modelled.
- NaN prices or ratings are floating point and are not modelled.
- The page size and totals come from the product service. Filtering, sorting and pagination are done on the server, and the page only passes the parameters on.
