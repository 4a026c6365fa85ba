# Storefront domain model in Dafny

This project models the client-side domain logic of a small fantasy-book web shop. It
covers four scripts, `landing.js`, `cart.js`, `checkout.js` and `dashboard.js`, written
as pure functions over immutable values, and proves properties of the model:

- **Catalog list** (`landing.js`):
  - the search-and-genre filter and the five sort options (a stable sort);
  - the stock badge;
  - page count, page clamp and page slice;
  - the windowed page-number bar;
  - the handlers that reset the list to page 1;
  - the page's own `addToCart(bookId)`.
- **Cart engine** (`cart.js`): add, set quantity, increase, decrease-or-remove, remove,
  clear, and the two sums.
- **Shipping rule**: free shipping from RM100.00, otherwise a flat RM5.00. The rule is
  written three times in the scripts and defined once here.
- **Checkout** (`checkout.js`): field validation, the submit guard, the redirect on page
  entry, and the order that `createOrder` builds.
- **Admin dashboard** (`dashboard.js`): the status filter and search of the order table,
  the recent orders, and the stock colour. It also covers the shipping cell, the
  five-valued status drop-down, and the status-change request.

Conventions:

- Money is integer sen: the threshold is 10000 and the flat fee is 500. Ratings are in
  tenths.
- Functions defined in files outside this model are parameters:
  - `getBookById` is its `Option<Book>` result;
  - `isValidEmail` and `isValidPhone` are `string -> bool`;
  - `localeCompare` is a comparator `titleLeq` assumed to be a total preorder;
  - `generateOrderId` and the clock are string arguments;
  - a `confirm()` prompt is the shopper's boolean answer.
- The `clamp` helper is taken to be `min(max(x, lo), hi)`.
- JavaScript behaviour is written out where it matters:
  - `slice` with clamped indices (`Seqs.JsSlice`);
  - `trim` over the ECMAScript whitespace set (`Text.Trim`);
  - `includes` as substring search (`Text.Contains`);
  - `parseInt(x) || 1`, with NaN as `None` (`ShoppingCart.ParseQuantity`);
  - the stable `Array.prototype.sort` (`Sorting.InsertionSort`).

Modules, one file each:

| module | contents |
|---|---|
| `Base` | `Option` and the integer helpers |
| `Seqs` | filter, subsequence, `slice` |
| `Text` | lower-casing, trimming, substring search |
| `Sorting` | the stable sort |
| `Pricing` | the shipping rule |
| `Catalog` | books, stock badge, filter, sort |
| `Pagination` | page arithmetic and the page-number bar |
| `ShoppingCart` | `cart.js` |
| `Orders` | order records and statuses |
| `Checkout` | `checkout.js` |
| `Dashboard` | `dashboard.js` |
| `Storefront` | the landing-page state and its `addToCart` |

Some behaviour of the code is easy to miss:

- `createOrder` has no empty-cart error. An empty cart yields an order with no lines that
  charges the flat fee (`Checkout.CreateOrderEmptyCart`). Two checks keep an empty cart
  away from the form: the cart modal's checkout button and the redirect when the checkout
  page opens. Both act at navigation time, on the cart read then. `createOrder` reads the
  cart again on submit, so a cart emptied after the page opened, for instance by another
  tab, still places an order with no lines (`Checkout.StaleEntryPlacesEmptyOrder`).
- `createOrder` empties the cart after saving, whatever the save did.
- `addToCart` in `cart.js` does not clamp the quantity of a new line. The invariant "every
  quantity in 1..99" survives every sequence of cart actions only when each added quantity
  is itself in 1..99 (`ShoppingCart.ActionsPreserveValid`).
- The landing page's `addToCart` has no upper cap.
- The two scripts each declare a global `addToCart` with different signatures. They are
  modelled as two operations: `ShoppingCart.AddToCart` and `Storefront.AddToCart`.

## Model

| member | source | states |
|---|---|---|
| Base.Clamp | assets/js/cart.js:77 | the assumed `clamp` helper: the result lies in `lo..hi`, is `x` when `x` is in range, `lo` below it and `hi` above it |
| Seqs.JsSlice | assets/js/landing.js:252-253 | `Array.prototype.slice`: never longer than the input; for `0 <= start <= end` its length is `max(0, min(end, n) - start)`, and for a start inside the list it is the run from `start` up to `min(end, n)` |
| Seqs.SliceWindowLength | assets/js/landing.js:253 | a slice `width` long holds at most `width` items, wherever it starts, negative starts included |
| Seqs.SliceExtendsPrefix | assets/js/landing.js:253 | the first `start` items followed by the slice from `start` of length `width` are the first `start + width` items |
| Seqs.Filter | assets/js/landing.js:353-363 | `Array.prototype.filter`: no longer than the input, and every element kept satisfies the predicate |
| Seqs.FilterMembership | assets/js/cart.js:242 | an element is in a filtered list exactly when it is in the input and satisfies the predicate |
| Seqs.FilterIsSubsequence | assets/js/landing.js:347-367 | a filter keeps its input's relative order: the result is a subsequence of the input |
| Seqs.FilterTwice | assets/js/landing.js:351-364 | two filters in a row keep exactly what the conjunction of the two predicates keeps |
| Seqs.FilterCount | assets/js/cart.js:242 | a kept value occurs in the filtered list as often as in the input, a dropped value not at all |
| Seqs.FilterIdempotent | assets/js/cart.js:240-244 | filtering again by the same predicate changes nothing |
| Text.ToLower | assets/js/landing.js:352-357 | `toLowerCase` on ASCII: same length, and each character is lowered independently |
| Text.ToLowerIdempotent | assets/js/landing.js:352 | lower-casing twice is lower-casing once |
| Text.TrimStart | assets/js/checkout.js:131 | the result is a suffix of the input, everything dropped is whitespace, and it starts with a non-whitespace character unless empty |
| Text.TrimEnd | assets/js/checkout.js:131 | the mirror image of `TrimStart` at the other end |
| Text.TrimSpec | assets/js/landing.js:474 | `trim` yields a contiguous piece of the input with whitespace on both sides cut away and none left at either edge |
| Text.Trim | assets/js/checkout.js:131 | `trim`; no contract of its own, stated by `Text.TrimSpec` and `Text.TrimEmptyIffBlank` |
| Text.TrimStartEmptyIffBlank | assets/js/checkout.js:131 | stripping the start leaves nothing exactly when every character is whitespace |
| Text.TrimEndEmptyIffBlank | assets/js/checkout.js:131 | stripping the end leaves nothing exactly when every character is whitespace |
| Text.TrimIsSlice | assets/js/checkout.js:131 | the trimmed value is the run of the input that starts where the leading whitespace ends |
| Text.TrimCutsRight | assets/js/checkout.js:131 | everything after the trimmed value is whitespace |
| Text.TrimEdges | assets/js/checkout.js:131 | a non-empty trimmed value starts and ends with a non-whitespace character |
| Text.TrimEmptyIffBlank | assets/js/checkout.js:131-137 | a value trims to the empty string exactly when every character is whitespace, so a blank field is "required" |
| Text.ContainsIffOccurs | assets/js/landing.js:354-357 | `includes` holds exactly when the needle occurs at some position of the haystack |
| Text.Contains | assets/js/landing.js:354-357 | `includes`; no contract of its own, stated by `Text.ContainsIffOccurs` |
| Text.IsFiveDigits | assets/js/checkout.js:155 | the postcode pattern of five digits; no contract of its own, it is the postcode verdict in `Checkout.ValidateFieldSpec` |
| Sorting.InsertionSort | assets/js/landing.js:375-379 | the sorted copy is a permutation of the input |
| Sorting.InsertionSortSorted | assets/js/landing.js:377-392 | with a comparator that is a total preorder, the output is ordered by it |
| Sorting.InsertionSortStable | assets/js/landing.js:377-392 | elements that compare equal keep their relative input order, as ECMAScript's stable `sort` promises |
| Pricing.PriceQuote | assets/js/cart.js:199-203 | shipping is 0 exactly when the subtotal reaches 10000 sen and 500 otherwise; the total is subtotal plus shipping |
| Pricing.TotalDropsAtThreshold | assets/js/checkout.js:45-47 | the rule is not monotone: a subtotal just under the threshold costs more in total than one exactly at it |
| Catalog.GetStockStatus | assets/js/landing.js:311-319 | sold out exactly at stock 0, "only n left" for every other stock up to 10 (negative counts included), "n in stock" above 10 |
| Catalog.MatchesQueryIgnoresCase | assets/js/landing.js:351-358 | whether a book matches does not depend on the case of the query, and the empty query matches every book |
| Catalog.MatchesQuery | assets/js/landing.js:351-358 | the case-insensitive search match over title, author, genre and description; no contract of its own, stated by `Catalog.MatchesQueryIgnoresCase` and `Catalog.FilterBooksSpec` |
| Catalog.FilterBooks | assets/js/landing.js:347-367 | search stage then genre stage; no contract of its own, what it keeps is stated by `Catalog.FilterBooksSpec` |
| Catalog.ParseSortOption | assets/js/landing.js:376-396 | each of the five drop-down values, and only that value, selects its own case: "title-asc", "title-desc", "price-asc", "price-desc", "rating-desc"; every other value is unrecognised and leaves the order alone |
| Catalog.SortOptionsOrderAsNamed | assets/js/landing.js:376-392 | each drop-down value sorts as its name says: "title-asc" by ascending title, "title-desc" by descending title, "price-asc" by ascending price, "price-desc" by descending price, "rating-desc" by descending rating |
| Catalog.BookOrder | assets/js/landing.js:377-392 | the comparator of each sort case; no contract of its own, shown to be a total preorder by `Catalog.BookOrderIsTotalPreorder` and matched to its drop-down value by `Catalog.SortOptionsOrderAsNamed` |
| Catalog.SortBooks | assets/js/landing.js:374-398 | insertion sort by the chosen comparator, the input for an unknown option; no contract of its own, stated by `Catalog.SortBooksSpec` and `Catalog.SortBooksStable` |
| Catalog.FilterBooksSpec | assets/js/landing.js:347-367 | the filter keeps exactly the books whose lower-cased title, author, genre or description contains the lower-cased query and whose genre equals the selected one; order is preserved; an empty query or genre imposes nothing |
| Catalog.BookOrderIsTotalPreorder | assets/js/landing.js:377-392 | each of the five comparators is a total preorder when `localeCompare` is |
| Catalog.SortBooksSpec | assets/js/landing.js:374-398 | the sorted list is a permutation of the input, ordered by the chosen option; an unknown option leaves the order unchanged |
| Catalog.SortBooksStable | assets/js/landing.js:374-398 | books the chosen comparator cannot tell apart keep their relative order |
| Pagination.TotalPages | assets/js/landing.js:229 | `Math.ceil(n / perPage)`: zero exactly for an empty list, otherwise the least page count whose pages hold all `n` items |
| Pagination.ClampPage | assets/js/landing.js:232-234 | a current page past the last becomes `max(1, totalPages)`; any other page is kept |
| Pagination.PageSlice | assets/js/landing.js:252-253 | a page holds at most `perPage` items, namely the items from `(page-1)*perPage` to `min(page*perPage, n)` |
| Pagination.PagesUpToIsPrefix | assets/js/landing.js:252-253 | pages 1..k laid end to end are the first `min(k*perPage, n)` items |
| Pagination.PagesPartitionListing | assets/js/landing.js:229-253 | pages 1..totalPages laid end to end reproduce the list exactly, each item once and in order |
| Pagination.PagesAreNonEmpty | assets/js/landing.js:229-253 | every page from 1 to totalPages is non-empty, and every page before the last is full |
| Pagination.PageRange | assets/js/landing.js:65-68 | the buttons `lo..hi` in order, none when `lo > hi` |
| Pagination.PushPagesFresh | assets/js/landing.js:79-83 | when every page already pushed is below the window, the `includes` check never skips a page, so the loop appends the window unchanged |
| Pagination.PushPages | assets/js/landing.js:79-83 | the window loop that pushes pages not already listed; no contract of its own, stated by `Pagination.PushPagesFresh` |
| Pagination.PageNumbersFew | assets/js/landing.js:65-68 | with at most five pages the bar is exactly pages 1..totalPages, and empty for no pages |
| Pagination.PageNumbers | assets/js/landing.js:61-94 | `generateStorePageNumbers`; no contract of its own, its shape is stated by `Pagination.PageNumbersFew`, `Pagination.PageNumbersLayout` and the lemmas below |
| Pagination.PageNumbersLayout | assets/js/landing.js:70-91 | with more than five pages the bar is page 1, an ellipsis when the current page is past 3, the window `max(2, c-1)..min(total-1, c+1)`, an ellipsis when the current page is before `total-2`, and the last page, which is never already in the window |
| Pagination.PageNumbersShapes | assets/js/landing.js:69-91 | with more than five pages the bar takes one of seven shapes, fixed by where the current page sits |
| Pagination.PageNumbersEnds | assets/js/landing.js:69-91 | with more than five pages the bar starts with page 1, ends with the last page, and has at most seven entries |
| Pagination.PageNumbersShowsWindow | assets/js/landing.js:69-91 | a page appears exactly when it is the first, the last, or within one of the current page; the current page always appears |
| Pagination.PageNumbersIncrease | assets/js/landing.js:69-91 | the page numbers strictly increase, so no page appears twice |
| Pagination.PageNumbersNoAdjacentEllipses | assets/js/landing.js:69-91 | two ellipses are never next to each other |
| Pagination.PageNumbersConsecutive | assets/js/landing.js:69-91 | two neighbouring buttons are consecutive pages |
| Pagination.PageNumbersEllipsisMarksGap | assets/js/landing.js:69-91 | every ellipsis sits between two buttons and stands for at least one hidden page |
| Pagination.PageNumbersFirstOfTen | assets/js/landing.js:70-91 | page 1 of 10 gives 1, 2, …, 10 |
| Pagination.PageNumbersMiddleOfTen | assets/js/landing.js:70-91 | page 5 of 10 gives 1, …, 4, 5, 6, …, 10 |
| ShoppingCart.FindIndex | assets/js/cart.js:72 | `findIndex`: the position of the first line for the book, and none exactly when no line has that id |
| ShoppingCart.FindIndexUnique | assets/js/cart.js:72 | in a cart without duplicate ids, the line found is the book's only line |
| ShoppingCart.Total | assets/js/cart.js:51-54 | `getCartTotal`: never negative when no price or quantity is |
| ShoppingCart.ItemCount | assets/js/cart.js:60-63 | `getCartItemCount`; no contract of its own, bounded by `ShoppingCart.ItemCountBounds` |
| ShoppingCart.SumsAppend | assets/js/cart.js:51-63 | `getCartTotal` (Σ price·quantity) and `getCartItemCount` (Σ quantity) split over a concatenation of carts |
| ShoppingCart.ItemCountBounds | assets/js/cart.js:51-63 | both sums are 0 for the empty cart; a valid cart holds between one and 99 copies per line |
| ShoppingCart.SumsWithQuantity | assets/js/cart.js:222-231 | changing one line's quantity moves the total by price times the change and the item count by the change |
| ShoppingCart.AddToCart | assets/js/cart.js:70-93 | an existing line gains `quantity` and is clamped to 1..99, with the line count and every other line unchanged; otherwise exactly one line with the book's fields and the unclamped `quantity` is appended at the end |
| ShoppingCart.AddToCartPreservesValid | assets/js/cart.js:70-93 | with `quantity` in 1..99 the cart keeps one line per book and every quantity in 1..99, and the item count grows by at most `quantity` |
| ShoppingCart.AddToCartNewLineUnclamped | assets/js/cart.js:78-87 | adding a new book with quantity 0 to a valid cart gives an invalid cart |
| ShoppingCart.AddToCartClamped | assets/js/cart.js:70-93 | `addToCart` with the new line also clamped to 1..99; identical to the original for a book already in the cart |
| ShoppingCart.AddToCartClampedPreservesValid | assets/js/cart.js:70-93 | with both branches clamped, every quantity argument keeps the cart valid |
| ShoppingCart.ParseQuantity | assets/js/cart.js:228 | `parseInt(x) \|\| 1`: never 0; NaN and 0 give 1; any other number is kept |
| ShoppingCart.UpdateItemQuantity | assets/js/cart.js:222-231 | an absent book leaves the cart unchanged; otherwise only that book's line changes, its quantity becoming `clamp(parsed, 1, 99)`, so 0 or a non-number gives 1; a valid cart stays valid |
| ShoppingCart.RemoveFromCart | assets/js/cart.js:240-244 | no line of the removed book is left, and the cart does not grow |
| ShoppingCart.RemoveFromCartSpec | assets/js/cart.js:240-244 | removal keeps the other books' lines, in order and each as many times as before, and drops every line of the book. It is a no-op for an absent book, idempotent, keeps a valid cart valid, and removes exactly one line from a valid cart holding the book |
| ShoppingCart.RemoveOneLine | assets/js/cart.js:240-244 | in a cart with one line per book, removing a present book drops exactly one line |
| ShoppingCart.SubsequenceKeepsValid | assets/js/cart.js:240-244 | dropping lines from a valid cart cannot create a duplicate or a bad quantity |
| ShoppingCart.IncreaseQuantity | assets/js/cart.js:254-260 | a line at 99 or more and an absent id leave the cart unchanged; a line below 99 is set to one more through the 1..99 clamp, so in a valid cart it gains exactly one; a valid cart stays valid |
| ShoppingCart.DecreaseQuantity | assets/js/cart.js:267-280 | a line above 1 is set to one less through the 1..99 clamp, so in a valid cart it loses exactly one, while a line of 101 drops to 99; a line at 1 or below is removed only when the shopper confirms, otherwise nothing changes; an absent id is a no-op; a valid cart stays valid |
| ShoppingCart.ClearCart | assets/js/cart.js:42-44 | the cleared cart holds no line, is valid, and both sums are 0 |
| ShoppingCart.CartSummary | assets/js/cart.js:194-203 | the cart modal's subtotal is the cart total, shipping is 0 exactly from the threshold and 500 below it, and the total is subtotal plus shipping |
| ShoppingCart.CartSummaryExample | assets/js/cart.js:199-203 | two copies at RM29.90 and one at RM15.00 cost RM74.80 plus RM5.00 shipping |
| ShoppingCart.CheckoutButton | assets/js/cart.js:373-384 | the modal's checkout button warns exactly when the cart read at the click is empty, and otherwise goes to the checkout page |
| ShoppingCart.ApplyPreservesValid | assets/js/cart.js:70-280 | each single cart action keeps a valid cart valid, given an added quantity in 1..99 |
| ShoppingCart.ActionsPreserveValid | assets/js/cart.js:70-280 | any sequence of add, set, increase, decrease, remove and clear keeps one line per book and every quantity in 1..99, provided every added quantity is in 1..99 |
| Orders.ParseStatus | assets/js/dashboard.js:163-167 | a string read back as a status is that status's value |
| Orders.StatusRoundTrip | assets/js/dashboard.js:163-167 | every status's value reads back as itself, every status is listed, and distinct statuses have distinct values |
| Orders.AllStatusesDistinct | assets/js/dashboard.js:163-167 | exactly five statuses, none listed twice |
| Orders.OrderSumsAppend | assets/js/dashboard.js:150 | the item count (Σ quantity) and the line-subtotal sum split over a concatenation of lines |
| Orders.ItemCount | assets/js/dashboard.js:150 | Σ quantity over an order's lines; no contract of its own, stated by `Orders.OrderSumsAppend` and `Orders.ItemCountAtLeastLines` |
| Orders.LineSubtotal | assets/js/dashboard.js:271 | price times quantity of one line; no contract of its own, summed by `Orders.LinesTotal`, which `Checkout.SnapshotSums` equates with the cart total |
| Orders.ItemCountAtLeastLines | assets/js/dashboard.js:150 | with positive quantities an order counts at least as many items as lines |
| Checkout.ValidateFieldSpec | assets/js/checkout.js:130-179 | a trimmed value is "required" exactly when blank. Otherwise: a postcode is valid exactly when it is five digits, else "Postcode must be 5 digits"; a name exactly when the trimmed length is at least 2, else "Name must be at least 2 characters"; email and phone exactly when their predicates accept the trimmed value, else their own message; any other input exactly when non-blank |
| Checkout.ValidateField | assets/js/checkout.js:130-179 | `validateField`; no contract of its own, stated by `Checkout.ValidateFieldSpec` and `Checkout.ValidateFieldIgnoresPadding` |
| Checkout.SameTrimSameVerdict | assets/js/checkout.js:131 | two inputs of the same name whose values trim alike get the same verdict |
| Checkout.ValidateFieldIgnoresPadding | assets/js/checkout.js:131 | surrounding whitespace never changes the verdict on a field |
| Checkout.TrimPadded | assets/js/checkout.js:131 | `trim` of a value padded with whitespace on both sides is the `trim` of the value |
| Checkout.ValidateEach | assets/js/checkout.js:113-120 | every required input is validated, in order, with no early exit |
| Checkout.AllValid | assets/js/checkout.js:114-122 | the flag starts true, and it ends true exactly when no input showed an error |
| Checkout.ValidateForm | assets/js/checkout.js:112-123 | the form is valid exactly when every required input is valid, and every input's verdict is computed |
| Checkout.Snapshot | assets/js/checkout.js:213-218 | one order line per cart line, in the same order, carrying the line's id, title, quantity and price |
| Checkout.SnapshotSums | assets/js/checkout.js:213-219 | the order lines' subtotals add up to the cart total, and their quantities to the cart's item count |
| Checkout.CreateOrder | assets/js/checkout.js:199-233 | the order has the given id, status pending, the raw form values and the composed address. Its items are the cart snapshot; subtotal is the cart total, shipping is 0 exactly from the threshold and 500 below it, total is their sum; the payment method is passed through and the notes default to "". The cart is empty afterwards |
| Checkout.CreateOrderConsistent | assets/js/checkout.js:207-227 | a new order's lines add up to its subtotal, and it holds as many lines and copies as the cart did |
| Checkout.ShippingAddress | assets/js/checkout.js:212 | the order's address starts with the street address, ends with the state, and adds five separator characters to the four parts |
| Checkout.CreateOrderEmptyCart | assets/js/checkout.js:199-237 | an empty cart is not rejected: the order has no lines, subtotal 0, and pays the flat 500 |
| Checkout.CheckoutEntry | assets/js/checkout.js:15-20 | the page redirects to the cart exactly when the cart is empty |
| Checkout.NavigationGuardsAgree | assets/js/cart.js:377-384 | the cart modal's checkout button and the checkout page's redirect let the shopper through under the same condition, a non-empty cart |
| Checkout.EntryGuardsEmptyOrder | assets/js/checkout.js:15-20 | with the cart read on load and the cart read on submit as separate values: when they agree, the form is shown exactly when the order placed has a line, and then at least one copy per line; an empty submit-time cart places a line-less order paying the flat fee, whatever the load-time cart held |
| Checkout.StaleEntryPlacesEmptyOrder | assets/js/checkout.js:16-19 | a non-empty cart at load passes the redirect, and an empty cart at submit still yields an order with no lines that pays the flat fee |
| Checkout.CheckoutSummary | assets/js/checkout.js:44-47 | the checkout summary's subtotal is the cart total, shipping is 0 exactly from the threshold and 500 below it, and the total is their sum |
| Checkout.ShippingRuleAgrees | assets/js/checkout.js:45-47 | the cart modal, the checkout summary and the saved order show the same subtotal, shipping and total for a cart, namely the shipping rule applied to the cart total |
| Checkout.FormInputs | assets/js/checkout.js:207-213 | the seven required text inputs are read from the same form that builds the order: name, phone, email, address, city, postcode and state |
| Checkout.SubmitCheckout | assets/js/checkout.js:92-105 | the inputs validated are the submitted form's own; no order exactly when one of them shows an error, and then the cart is untouched; otherwise the order is `createOrder`'s, the cart is empty, and the order's trimmed name has at least two characters, its phone and email are accepted, its address parts are non-blank and its postcode is five digits |
| Checkout.AcceptedForm | assets/js/checkout.js:112-179 | a form all of whose inputs pass has a name of at least two characters, an accepted phone and email, a non-blank address, city and state, and a five-digit postcode |
| Dashboard.MatchesSearchIgnoresCase | assets/js/dashboard.js:131-136 | whether an order matches does not depend on the case of the query, and the empty query matches every order |
| Dashboard.VisibleOrders | assets/js/dashboard.js:123-138 | status filter then search; no contract of its own, what it keeps is stated by `Dashboard.VisibleOrdersSpec` |
| Dashboard.VisibleOrdersSpec | assets/js/dashboard.js:123-138 | the table keeps exactly the orders whose status equals a non-empty filter and that match a non-empty search. The search is the lower-cased query in the lower-cased id or name, or in the raw phone. Store order is kept; an empty filter and search show every order |
| Dashboard.FilterByStatus | assets/js/dashboard.js:126-128 | the status stage; no contract of its own, stated by `Dashboard.VisibleOrdersSpec` and `Dashboard.UnknownFilterHidesAll` |
| Dashboard.MatchesSearch | assets/js/dashboard.js:131-136 | the case-insensitive match on id and customer name, case-sensitive on phone; no contract of its own, stated by `Dashboard.MatchesSearchIgnoresCase` and `Dashboard.VisibleOrdersSpec` |
| Dashboard.SearchOrders | assets/js/dashboard.js:131-137 | the search stage; no contract of its own, stated by `Dashboard.VisibleOrdersSpec` |
| Dashboard.UnknownFilterHidesAll | assets/js/dashboard.js:126-128 | a filter value that is not one of the five statuses hides every order |
| Dashboard.RecentOrders | assets/js/dashboard.js:86 | the recent orders are the first `min(5, n)` orders |
| Dashboard.StockClass | assets/js/dashboard.js:361 | the inventory colour; no contract of its own, related to the storefront badge by `Dashboard.StockClassMatchesBadge` |
| Dashboard.StockClassMatchesBadge | assets/js/dashboard.js:361 | the inventory colour is red exactly at stock 0, amber exactly at the storefront's low-stock counts, and absent above 10 |
| Dashboard.ShippingLabel | assets/js/dashboard.js:280 | a shipping value of 0 shows FREE; any other value shows that amount |
| Dashboard.ShippingLabelOfQuote | assets/js/dashboard.js:280 | an order priced by the shipping rule shows FREE exactly when its subtotal reached the threshold, and the flat fee otherwise |
| Dashboard.StatusOptionsSpec | assets/js/dashboard.js:162-168 | the drop-down offers the five statuses in order, each once, and exactly one option, the order's status, is selected |
| Dashboard.StatusOptions | assets/js/dashboard.js:162-168 | the drop-down of a row; no contract of its own, stated by `Dashboard.StatusOptionsSpec` |
| Dashboard.HandleStatusChange | assets/js/dashboard.js:195-199 | the update request carries the order's id and the selected status's value |
| Dashboard.NoTransitionGuard | assets/js/dashboard.js:195-199 | any status may be requested from any status, e.g. a cancelled order back to pending |
| Storefront.OnClearFilters | assets/js/landing.js:403-407 | clearing empties the query and the genre, restores title order and returns to page 1 |
| Storefront.OnSearch | assets/js/landing.js:473-477 | `handleSearch`; no contract of its own, its effect on the grid is stated by `Storefront.ResetShowsFirstPage` |
| Storefront.OnGenreChange | assets/js/landing.js:483-487 | `handleGenreFilter`; stated by `Storefront.ResetShowsFirstPage` |
| Storefront.OnSortChange | assets/js/landing.js:493-497 | `handleSortFilter`; stated by `Storefront.ResetShowsFirstPage` |
| Storefront.OnGoToPage | assets/js/landing.js:160-162 | `goToStorePage`; no contract of its own, its effect on the grid is stated by `Storefront.GoToPageShowsPage` |
| Storefront.OnPrev | assets/js/landing.js:178-185 | the prev button; stated by `Storefront.PrevNextStayInRange` and `Storefront.NextThenPrev` |
| Storefront.OnNext | assets/js/landing.js:188-195 | the next button; stated by `Storefront.PrevNextStayInRange` and `Storefront.NextThenPrev` |
| Storefront.PrevNextStayInRange | assets/js/landing.js:178-195 | prev moves only from a page after the first, next only from a page before the last, and neither leaves 1..max(1, totalPages) |
| Storefront.NextThenPrev | assets/js/landing.js:178-195 | next then prev from a page before the last returns to the same state |
| Storefront.Render | assets/js/landing.js:216-253 | the render records the listing's length and page count, clamps the current page past the end, and shows at most eight books: that page's slice, or none for an empty listing |
| Storefront.RenderShowsPage | assets/js/landing.js:229-253 | for a page of at least 1 and a non-empty listing, the rendered page is a real page and the grid shows the non-empty run from `(page-1)*8` |
| Storefront.GoToPageShowsPage | assets/js/landing.js:160-162 | a page button for a page between 1 and the page count keeps the listing and shows that page's non-empty slice |
| Storefront.ResetShowsFirstPage | assets/js/landing.js:473-497 | after any search, genre change, sort change or clear, the grid shows page 1: the first `min(8, n)` books of the new listing |
| Storefront.PagesShowListingOnce | assets/js/landing.js:229-253 | pages 1..totalPages of the landing list together show every listed book once, in order |
| Storefront.Listing | assets/js/landing.js:216-251 | the filtered and sorted list `renderBooks` pages through; no contract of its own, stated by `Storefront.RenderShowsPage` and `Storefront.PagesShowListingOnce` |
| Storefront.PaginationBar | assets/js/landing.js:100-133 | the bar is hidden exactly for one page or none; prev is disabled exactly on page 1, next exactly on the last page |
| Storefront.PaginationBarMatchesGrid | assets/js/landing.js:117-133 | the "start-end of n" text counts exactly the books on the grid, and the bar starts at page 1, ends at the last page and shows the current page |
| Storefront.BarShowsEndsAndCurrent | assets/js/landing.js:61-94 | for two pages or more the tokens start with page 1, end with the last page and include the current page |
| Storefront.AddToCart | assets/js/landing.js:537-562 | an unknown id changes nothing; a book in the cart gains one copy with no cap; otherwise one line of quantity 1 with the book's fields is appended |
| Storefront.AddToCartKeepsIdsDistinct | assets/js/landing.js:537-562 | when the lookup returns the book asked for, no second line for a book is created and exactly one copy is added |
| Storefront.AddToCartExceedsCap | assets/js/landing.js:546-548 | a cart holding 99 copies of a book holds 100 after one more click, so it leaves the 1..99 range |
| Storefront.DecreaseAfterOverflow | assets/js/landing.js:546-548 | after the uncapped add takes a line to 101, one decrease on the cart page writes 100 through the 1..99 clamp and leaves 99 |
| Storefront.AddToCartCapped | assets/js/landing.js:537-562 | the landing add with the increment capped at 99 |
| Storefront.AddToCartCappedPreservesValid | assets/js/landing.js:537-562 | with the cap, the landing add keeps a valid cart valid |

## Findings

| source | as written | input that shows it | evidently intended | confidence | as-written member | corrected member |
|---|---|---|---|---|---|---|
| assets/js/cart.js:78-87 | a new line is pushed with `quantity` as given, while an existing line is clamped to 1..99 | `addToCart(book, 0)` on an empty cart leaves a line of quantity 0 | the new line clamped to 1..99 like the existing-line branch, so that every quantity stays in 1..99 | not executed | ShoppingCart.AddToCartNewLineUnclamped | ShoppingCart.AddToCartClampedPreservesValid |
| assets/js/landing.js:546-548 | the existing line's quantity is incremented with no upper bound | a cart holding 99 copies of book 1, then `addToCart(1)`: 100 copies; two clicks give 101, and the cart page's decrease then drops two copies at once, to 99 (`Storefront.DecreaseAfterOverflow`) | the increment capped at 99, as the cart page's increase button does | not executed | Storefront.AddToCartExceedsCap | Storefront.AddToCartCappedPreservesValid |

## Left out

- Orders.Order: the status is typed as one of the five values that the dashboard offers. `localStorage` could hold an order whose status is some other string, and that case is not modelled. `Dashboard.FilterByStatus` compares the status name, so a status filter matches only orders with one of the five statuses.
- Rendering is left out: HTML templates, modals, toasts, scrolling, `setTimeout` and `debounce`. The model returns the data a page shows, not its markup.
- Storage is left out: `localStorage` and `sessionStorage` reads and writes in `getCart` and `saveCart`. The cart is a value passed in and returned, and a failed read or write is not modelled.
- Page redirects (`window.location`) become results, e.g. `Checkout.CheckoutEntry`. The prompt of `confirm()` becomes a boolean argument.
- Checkout.EntryGuardsEmptyOrder: the cart can change in storage between page load and submit, and nothing in the page rereads it before `createOrder`. The model takes the two reads as separate arguments and promises a non-empty order only when they agree; how and when another tab changes the cart is not modelled.
- `app.js` is not part of this model: the admin login, page detection and storage events.
- Helpers defined in files outside this model are not modelled: `getAllBooks`, `getBookById`, `getAllGenres`, `saveOrder`, `generateOrderId`, `getAllOrders`, `getOrderById`, `updateOrderStatus`, `getOrderStats`, `getBookStats`, `formatPrice`, `isValidEmail` and `isValidPhone`. Their results are parameters. Nothing is claimed about order-id uniqueness, the ordering `getAllOrders` returns, or the stats.
- `updateOrderStatus` itself is not modelled, so the effect of a status change on the stored order (new status, refreshed `updatedAt`) is not stated. The model stops at the request (`Dashboard.HandleStatusChange`).
- The dashboard stats and the inventory stats (`renderDashboardStats`, the figures in `renderBooks` of the dashboard) read `getOrderStats` and `getBookStats`, which are outside this model.
- Binary floating point is left out. Prices are exact integer sen, so JavaScript's rounding of `price * quantity` sums is not reproduced.
- `localeCompare` collation is abstract: it is a total preorder `titleLeq` on strings.
- `toLowerCase` is modelled on ASCII letters only; other characters are left unchanged. String lengths count characters, not UTF-16 code units.
- Checkout.ValidateForm: the required-input list comes from `checkout.html`, which is not part of this model. `validateForm` takes the list of required inputs as an argument. `Checkout.SubmitCheckout` takes the seven text inputs from the form (`Checkout.FormInputs`) and any further required inputs, such as a payment choice, as an extra list.
- Checkout.CreateOrder: `FormData.get` of a missing required field would give `null` (printed as "null" in the address). The address parts are modelled as always present, since they are required inputs.
- ShoppingCart.AddToCart: the default `quantity = 1` of a call without a quantity is not a separate case. Callers pass the quantity.
- The cart page's clear button asks for confirmation before calling `clearCart`. Only `clearCart` itself is modelled (`ShoppingCart.ClearCart`).
- Storefront.GoToPageShowsPage: `goToStorePage` itself has no bounds check; the lemma speaks of pages 1..totalPages, the only pages the bar offers. A larger page is pulled back by `Storefront.Render`'s clamp.
- Storefront.RenderShowsPage and Storefront.PaginationBarMatchesGrid require a current page of at least 1. The page is only ever set from page-bar buttons (at least 1) or by the guarded prev button, so `renderBooks` never sees a smaller page.
- Storefront.Render: the book count text ("n Books") and the empty-state panel are rendering and are left out.
