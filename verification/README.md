# Little Nazareth storefront — a Dafny model

Little Nazareth is a small Korean shop for faith-themed plush toys. This project models its core in Dafny:

- **Client-side stores.** The cart, the stock ledger, the coupon registry, orders, the wishlist, recently viewed products and reviews.
- **Page logic.** The cart page's coupon and quantity handlers and its price summary. The checkout page's payment handler and gateway callback. The shop page's filter and sort. The search page and the search bar.
- **Server routes.** The payment verification route, the admin settings route and the Kakao sign-in callback.
- **Account helpers.** Code generation, coupon issue and settings decoding.
- **Static tables and their lookups.** The personality quiz's scoring, the two character tables and the 3D-scene table.

Every store is an immutable value, and every store operation is a pure function from the old state to the new one (and its result). Anything that is not deterministic becomes a parameter:

- the clock is `now`, in milliseconds;
- `Math.random()` is a supplied sequence of draws in [0, 1);
- locale-dependent lower-casing (`lower`) and collation (`rank`) are supplied functions;
- the payment gateway's and the identity provider's answers are supplied values;
- a database exception is a `Fault` value saying how many writes landed before it.

JavaScript semantics are written out where the code relies on them:

- truthiness (an empty string is falsy, and so is a zero cap);
- `parseInt`: leading whitespace, a sign, the `0x` prefix, the longest digit run, and NaN as `None`;
- `String(v)` of a JSON value, where `undefined` becomes "undefined";
- `Math.floor` on integer division;
- stable `Array.prototype.sort`, including the in-place sort of `getAllOrders`;
- the first-match `find`.

Modules follow the source files:

| module | source file |
|---|---|
| `Cart` | `lib/store/cartStore.ts` |
| `Inventory` | `lib/store/inventoryStore.ts` |
| `Coupons` | `lib/store/couponStore.ts` |
| `Orders` | `lib/store/orderStore.ts` |
| `Wishlist` | `lib/store/wishlistStore.ts` |
| `RecentlyViewed` | `lib/store/recentlyViewedStore.ts` |
| `Reviews` | `lib/store/reviewStore.ts` |
| `CartPage` | `app/cart/page.tsx` |
| `Checkout` | `app/checkout/page.tsx` |
| `ProductList` | `app/products/page.tsx` |
| `Search` | `app/search/page.tsx` and `components/SearchBar.tsx` |
| `PaymentVerify` | `app/api/payment/verify/route.ts` |
| `Settings` | `app/api/admin/settings/route.ts` and the settings reader of `lib/couponUtils.ts` |
| `CouponUtils` | `lib/couponUtils.ts` |
| `KakaoCallback` | `app/api/auth/kakao/callback/route.ts` |
| `Quiz` | `lib/questions.ts` |
| `Characters` | `lib/characters.ts` and `lib/characterData.ts` |
| `Spline` | `lib/splineScenes.ts` |

`Catalog` holds the product table, `Text` the string helpers, and `Seqs`, `Sorting` and `Wrappers` the generic sequence, stable-sort and `Option` support.

## Model

| member | source | states |
|---|---|---|
| Catalog.FindProduct | lib/store/inventoryStore.ts:45 | a found product is in the catalog with that id; none is found exactly when no catalog product has the id |
| Catalog.CatalogWellFormed | lib/productData.ts:18-157 | catalog ids are pairwise distinct, every seeded stock is non-negative and every price positive |
| Inventory.SeedFrom | lib/store/inventoryStore.ts:29-38 | the seed has one entry per catalog product, in catalog order, carrying that product's id and stock |
| Inventory.InitializeInventory | lib/store/inventoryStore.ts:29-38 | an empty ledger becomes the catalog seed; a non-empty ledger is kept as it is |
| Inventory.InitializeIdempotent | lib/store/inventoryStore.ts:29-38 | initialising twice gives the same ledger as initialising once |
| Inventory.CatalogStock | lib/store/inventoryStore.ts:45-46 | the fall-back stock is never negative and is 0 for a product the catalog does not know |
| Inventory.GetStock | lib/store/inventoryStore.ts:41-49 | the read is the first ledger entry for the product; with no entry it is the catalog's stock (0 for an unknown product) |
| Inventory.GetStockUnique | lib/store/inventoryStore.ts:41-49 | with one entry per product, any entry for the product is the one read |
| Inventory.SeedWellFormed | lib/store/inventoryStore.ts:29-38 | the seed keeps one entry per product and no entry is negative |
| Inventory.SeedAgreesWithCatalog | lib/store/inventoryStore.ts:29-38 | after seeding, every product id reads the same stock as the catalog fall-back |
| Inventory.ResetRestoresCatalog | lib/store/inventoryStore.ts:110-116 | after a reset, whatever the ledger was, every product reads its catalog stock |
| Inventory.ResetInventory | lib/store/inventoryStore.ts:110-116 | a reset gives what initialising an empty ledger gives, whatever the ledger held, with one non-negative entry per catalog product; ResetRestoresCatalog adds that every product then reads its catalog stock |
| Inventory.IsInStock | lib/store/inventoryStore.ts:52-55 | a product with no entry and no catalog record reads 0, so it is in stock exactly for quantities of 0 or less; DecreaseSucceedsIffInStock ties it to `decreaseStock`'s verdict |
| Inventory.DecreaseStock | lib/store/inventoryStore.ts:58-75 | succeeds exactly when the read stock covers the quantity; a refusal leaves the ledger alone; a success subtracts the quantity from every entry for the product and leaves the other entries alone |
| Inventory.DecreaseSucceedsIffInStock | lib/store/inventoryStore.ts:52-75 | `decreaseStock` succeeds exactly when `isInStock` holds for the same quantity |
| Inventory.DecreaseFramesOthers | lib/store/inventoryStore.ts:58-75 | a decrease never changes the stock read for any other product |
| Inventory.DecreaseEffect | lib/store/inventoryStore.ts:58-75 | a covered decrease lowers the product's read by exactly the quantity when it has an entry; with no entry it reports success and changes nothing; one entry per product is kept |
| Inventory.DecreaseRead | lib/store/inventoryStore.ts:58-75 | with one entry per product, any decrease leaves the product's read lowered by the quantity when it was covered and has an entry, and as it was otherwise; one entry per product is kept |
| Inventory.DecreaseReadAgrees | lib/store/inventoryStore.ts:58-75 | two ledgers that agree on a product's read and on whether it has an entry still agree on that read after the same decrease |
| Inventory.DecreaseKeepsEntries | lib/store/inventoryStore.ts:58-75 | a decrease neither adds nor drops any product's entry |
| Inventory.DecreaseKeepsNonNegative | lib/store/inventoryStore.ts:58-75 | a covered decrease by a non-negative quantity keeps every entry non-negative |
| Inventory.IncreaseStock | lib/store/inventoryStore.ts:79-100 | an existing entry grows by the quantity; a product with no entry gets a new last entry holding the quantity itself |
| Inventory.IncreaseEffect | lib/store/inventoryStore.ts:79-100 | the product's read rises by the quantity, or becomes exactly the quantity when it had no entry (its catalog stock is forgotten); other reads are unchanged; one entry per product is kept |
| Inventory.IncreaseKeepsNonNegative | lib/store/inventoryStore.ts:79-100 | a non-negative increase keeps every entry non-negative |
| Inventory.LowStockBetween | lib/store/inventoryStore.ts:104-107 | low stock means in stock for one unit but not for threshold + 1 units |
| Inventory.IsLowStock | lib/store/inventoryStore.ts:104-107 | low stock implies in stock for one unit and not in stock for threshold + 1 units; LowStockBetween gives the converse |
| Cart.LineIndex | lib/store/cartStore.ts:29 | the index found holds a line for the product; -1 exactly when the cart has no line for it |
| Cart.AddItem | lib/store/cartStore.ts:26-62 | when nothing can be admitted the cart is unchanged; otherwise a new product gets a new last line with the admitted quantity, and a present product's line grows by it while every other line is kept |
| Cart.AddKeepsLinesUnique | lib/store/cartStore.ts:26-62 | adding keeps one line per product |
| Cart.AddRespectsStock | lib/store/cartStore.ts:26-62 | after adding, the line holds at most the larger of its old quantity and the stock; when the request overshoots the stock it holds exactly that larger value |
| Cart.AddRaisesTotalItems | lib/store/cartStore.ts:26-62 | the item count rises by exactly the admitted quantity |
| Cart.AddThenUpdateExample | lib/store/cartStore.ts:26-89 | adding 2 units of a 1000-won product with 5 in stock and then setting 5 costs 5000 won; setting 99 instead clamps the line to 5 |
| Cart.RemoveItem | lib/store/cartStore.ts:65-69 | no line for the product is left and the cart never grows |
| Cart.RemoveCutsOneLine | lib/store/cartStore.ts:65-69 | with one line per product, removing cuts exactly that line and keeps the rest in order |
| Cart.UpdateQuantity | lib/store/cartStore.ts:71-89 | a non-positive quantity removes the product's line; a positive one keeps the number of lines |
| Cart.UpdateSetsClampedQuantity | lib/store/cartStore.ts:71-89 | a positive update sets the requested quantity when the stock covers it and max(1, stock) otherwise (1 for a sold-out product); every other line is unchanged; lines stay unique |
| Cart.AbsentProductUnchanged | lib/store/cartStore.ts:65-89 | removing or updating a product that has no line changes nothing |
| Cart.LineIndexUnique | lib/store/cartStore.ts:29-36 | with one line per product, the line holding the product is the one found, and its quantity is the one read |
| Cart.ClearCart | lib/store/cartStore.ts:92-105 | after clearing, the cart counts no items and costs nothing |
| Cart.ClearEmpties | lib/store/cartStore.ts:92-94 | clearing leaves an empty cart with no items and a zero price |
| Cart.TotalItems | lib/store/cartStore.ts:96-98 | non-negative quantities give a non-negative item count; ClearEmpties gives 0 for the cleared cart and AddRaisesTotalItems the rise on adding |
| Cart.TotalPrice | lib/store/cartStore.ts:100-104 | non-negative prices and quantities give a non-negative total; ClearEmpties gives 0 for the cleared cart |
| Coupons.InitializeCoupons | lib/store/couponStore.ts:73-78 | the sample coupons are seeded only into an empty list; a non-empty list and the applied code are kept |
| Coupons.DefaultCoupons | lib/store/couponStore.ts:29-66 | three sample coupons, each valid from the load time to a later expiry, unused and with a positive usage limit; the Save5000 and Welcome lemmas fix their terms |
| Coupons.InitializeIdempotent | lib/store/couponStore.ts:73-78 | initialising twice gives the same state as initialising once |
| Coupons.GetCoupon | lib/store/couponStore.ts:80-84 | the result is the first coupon whose code equals the given one ignoring case; none exactly when no coupon matches |
| Coupons.FirstMatchFound | lib/store/couponStore.ts:80-84 | the first coupon whose code matches is the one returned |
| Coupons.LookupCaseInsensitive | lib/store/couponStore.ts:80-84 | codes equal after upper-casing find the same coupon and validate the same way, for every cart total and clock reading |
| Coupons.ValidateCoupon | lib/store/couponStore.ts:86-115 | valid exactly when the coupon exists, its window holds `now`, usage is not exhausted and the total meets the minimum; each refusal names the first failed check in source order, and a minimum refusal carries the coupon's minimum |
| Coupons.ApplyCoupon | lib/store/couponStore.ts:117-119 | the applied code is the typed code upper-cased, and so matches it ignoring case; the coupons and their counters are unchanged |
| Coupons.AppliedCodeFindsSameCoupon | lib/store/couponStore.ts:80-119 | the stored upper-case code finds the same coupon the typed code found |
| Coupons.RemoveCoupon | lib/store/couponStore.ts:121-123 | no code is applied afterwards and the coupons are unchanged |
| Coupons.DiscountFor | lib/store/couponStore.ts:130-140 | never more than the total; a fixed coupon takes min(value, total); a percentage takes floor(total·value/100), capped by a present non-zero cap and by the total |
| Coupons.CalculateDiscount | lib/store/couponStore.ts:125-141 | an unknown code gives 0; a known code gives its kind/value/cap discount whatever its window, usage or minimum |
| Coupons.DiscountNeverExceedsTotal | lib/store/couponStore.ts:125-141 | for a non-negative total, total minus discount is never negative |
| Coupons.PercentageDiscountNonNegative | lib/store/couponStore.ts:130-135 | a non-negative rate and cap on a non-negative total never give a negative discount |
| Coupons.WelcomeCapExample | lib/store/couponStore.ts:30-41 | WELCOME10 on 200000 won gives 10000, the cap, not 20000 |
| Coupons.Save5000Found | lib/store/couponStore.ts:42-52 | SAVE5000 finds the second sample coupon |
| Coupons.Save5000BelowMinimum | lib/store/couponStore.ts:106-111 | SAVE5000 on 20000 won is refused for its 30000-won minimum |
| Coupons.Save5000Accepted | lib/store/couponStore.ts:86-115 | SAVE5000 on 35000 won at issue time is accepted |
| Coupons.Save5000FlatDiscount | lib/store/couponStore.ts:125-141 | SAVE5000 takes a flat 5000 off any total of at least 5000 won, minimum purchase or not |
| CartPage.TypeIntoField | app/cart/page.tsx:277 | the coupon field holds the upper-cased text typed into it; the coupons are unchanged |
| CartPage.HandleApplyCoupon | app/cart/page.tsx:40-56 | a blank field only shows the "enter a code" message; otherwise the code is validated against the cart's subtotal and, when valid, applied with the field cleared, and when invalid the reason is shown and nothing else changes |
| CartPage.ApplyIffValid | app/cart/page.tsx:40-56 | starting with no coupon applied, a code ends up applied exactly when the field is not blank and validation passes |
| CartPage.HandleRemoveCoupon | app/cart/page.tsx:58-61 | no coupon stays applied and the message is cleared; coupons and the field are unchanged |
| CartPage.HandleQuantityChange | app/cart/page.tsx:33-38 | a product without a line leaves the cart unchanged; for a product with a line it is `updateQuantity` with that line's quantity moved by the change |
| CartPage.MinusAtOneRemovesLine | app/cart/page.tsx:33-38 | "-" on a line holding 1 removes that line and keeps the others in order |
| CartPage.PlusRespectsStock | app/cart/page.tsx:33-38 | "+" leaves the line at 1 or more and never above one more than it held, clamped to the stock |
| CartPage.PriceSummary | app/cart/page.tsx:67-69 | the subtotal is the cart's price, the total is the subtotal minus the discount, with no coupon applied there is no discount, and with a non-empty code applied the discount is that coupon's discount on the subtotal |
| CartPage.ShownDiscount | app/cart/page.tsx:68 | the discount never exceeds a non-negative subtotal, and an applied code that finds no coupon shows no discount |
| CartPage.TotalNotNegative | app/cart/page.tsx:67-69 | a non-negative subtotal never gives a negative total |
| CartPage.DiscountOutlivesMinimum | app/cart/page.tsx:67-69 | the applied coupon is not re-validated: SAVE5000 still shows 5000 off on 20000 won, although validation would now refuse it |
| Checkout.StockShortfall | app/checkout/page.tsx:54-60 | none exactly when every line is in stock; otherwise the first line the ledger cannot cover |
| Checkout.OrderName | app/checkout/page.tsx:70-73 | one line gives its Korean name; n > 1 lines give the first name plus "외 n-1건" |
| Checkout.MerchantUid | app/checkout/page.tsx:70 | the uid is `order_` followed by text that `parseInt` reads back as the clock reading |
| Checkout.ShippingComplete | app/checkout/page.tsx:49-52 | name, phone and address must be non-empty; BeginPayment refuses with ShippingIncomplete exactly when a loaded page fails it |
| Checkout.BeginPayment | app/checkout/page.tsx:43-96 | the gateway is asked for payment exactly when the script is loaded, shipping is complete, the gateway is present and every line of a non-empty cart is in stock; an unloaded script, then incomplete shipping, then the first short line (the first line `StockShortfall` finds) take precedence; a missing gateway is reported only when every line is in stock, and an empty cart only when the gateway is present; the request carries the cart total, `order_<now>`, the order name and the joined address |
| Checkout.DecreaseAll | app/checkout/page.tsx:106-114 | decrementing line by line keeps the number of ledger entries |
| Checkout.DecreaseAllFlag | app/checkout/page.tsx:106-114 | on a cart with one line per product, a short line does not stop the loop, and the failure flag is raised exactly when some line was short against the starting ledger |
| Checkout.DecreaseAllKeepsEntries | app/checkout/page.tsx:106-114 | on any cart the loop neither adds nor drops a ledger entry and keeps one entry per product |
| Checkout.DecreaseAllPerLine | app/checkout/page.tsx:106-114 | on a cart with one line per product and a ledger with one entry per product, each product ends where its own `decreaseStock` of its cart quantity against the starting ledger leaves it, whatever the other lines did; a product without a line keeps its stock |
| Checkout.DecreaseAllSucceeds | app/checkout/page.tsx:106-114 | for an in-stock cart with unique lines and a unique ledger, no decrement fails and the ledger keeps its entries and their uniqueness |
| Checkout.DecreaseAllExact | app/checkout/page.tsx:106-114 | under the same conditions each product's stock falls by exactly its cart quantity when it has an entry, and is unchanged when its stock comes from the catalog |
| Checkout.CompletePayment | app/checkout/page.tsx:98-141 | a failed payment changes nothing and reports the gateway's error; a success empties the cart, keeps the ledger's length and puts the paid order in front of the history |
| Checkout.FailedPaymentChangesNothing | app/checkout/page.tsx:137-140 | a failed payment leaves the cart, the ledger and the orders exactly as they were |
| Checkout.PaidOrderRecorded | app/checkout/page.tsx:120-133 | after a success the merchant uid finds a paid order with the whole cart at its undiscounted total, stamped with the callback time and the shipping details; the cart is empty |
| Checkout.PaidOrder | app/checkout/page.tsx:121-130 | the recorded order; PaidOrderRecorded states that the merchant uid then finds it, paid, with the whole cart at its undiscounted total |
| Checkout.PaymentStockPerLine | app/checkout/page.tsx:104-118 | after any successful payment on a cart with one line per product, the stock failure is reported exactly when the cart would have failed the stock check, one entry per product is kept, and each product ends where its own `decreaseStock` leaves it |
| Checkout.CheckedPaymentDecrementsStock | app/checkout/page.tsx:54-114 | when the cart passed the stock check against the same ledger, the callback reports no stock failure and takes exactly each line's quantity |
| Orders.AddOrder | lib/store/orderStore.ts:41-45 | the new order goes in front of the unchanged history |
| Orders.GetOrder | lib/store/orderStore.ts:47-49 | the result is the first order carrying the id; none exactly when no order has it |
| Orders.AddThenGet | lib/store/orderStore.ts:41-49 | looking up a just-added order's id finds that order |
| Orders.AddFramesOtherIds | lib/store/orderStore.ts:41-49 | adding an order leaves the lookup of every other id unchanged |
| Orders.UpdateOrderStatus | lib/store/orderStore.ts:51-57 | the history keeps its length |
| Orders.UpdateThenGet | lib/store/orderStore.ts:47-57 | after a status update the id finds the same order with only its status replaced, and a missing id stays missing |
| Orders.UpdateFramesOtherIds | lib/store/orderStore.ts:47-57 | a status update leaves the orders of every other id unchanged |
| Orders.GetAllOrders | lib/store/orderStore.ts:59-61 | the sorted history keeps its length |
| Orders.AllOrdersPermutes | lib/store/orderStore.ts:59-61 | the listing is a permutation of the history |
| Orders.AllOrdersNewestFirst | lib/store/orderStore.ts:59-61 | orders are listed from the newest creation time to the oldest |
| Orders.AllOrdersStable | lib/store/orderStore.ts:59-61 | orders created at the same instant keep their relative order |
| Orders.AllOrdersIdempotent | lib/store/orderStore.ts:59-61 | since the sort is in place, listing again changes nothing further |
| Wishlist.Add | lib/store/wishlistStore.ts:19-27 | a listed product leaves the list unchanged; an unlisted one is appended |
| Wishlist.IsIn | lib/store/wishlistStore.ts:35-37 | some listed product has the id; Add, Remove and Toggle state their effect on it |
| Wishlist.Count | lib/store/wishlistStore.ts:48-50 | the number of listed products; AddRemoveKeepUnique states that adding raises it by one exactly when the product was new |
| Wishlist.AddIdempotent | lib/store/wishlistStore.ts:19-27 | adding twice is adding once, and the product is listed afterwards |
| Wishlist.Remove | lib/store/wishlistStore.ts:29-33 | no product with the id remains; every other product stays; nothing new appears; the remaining products keep their order |
| Wishlist.AddRemoveKeepUnique | lib/store/wishlistStore.ts:19-50 | adding and removing keep one entry per product, and adding raises the count by one exactly when the product was not listed |
| Wishlist.Toggle | lib/store/wishlistStore.ts:39-46 | after a toggle the product is listed exactly when it was not before |
| Wishlist.ToggleTwiceRestoresAbsent | lib/store/wishlistStore.ts:39-46 | toggling an unlisted product twice gives back the same list |
| Wishlist.ToggleTwiceMovesToEnd | lib/store/wishlistStore.ts:39-46 | toggling a listed product twice moves it to the end |
| RecentlyViewed.Others | lib/store/recentlyViewedStore.ts:21 | no earlier view kept after filtering has the viewed product's id |
| RecentlyViewed.AddViewed | lib/store/recentlyViewedStore.ts:18-29 | the viewed product is first, it appears nowhere else, and the list holds between 1 and 10 products |
| RecentlyViewed.AddViewedShape | lib/store/recentlyViewedStore.ts:18-29 | the list is the product followed by the longest prefix of the other earlier views that fits in ten |
| RecentlyViewed.AddViewedKeepsUnique | lib/store/recentlyViewedStore.ts:18-29 | a list without repeats stays without repeats |
| RecentlyViewed.ReviewingFrontIsNoOp | lib/store/recentlyViewedStore.ts:18-29 | viewing again the product already at the front of a repeat-free list of at most ten changes nothing |
| Reviews.AddReview | lib/store/reviewStore.ts:29-40 | the new review goes in front, keeps the submitted product, rating and author, is stamped `now` with no helpful votes, and the old list follows unchanged |
| Reviews.ReviewId | lib/store/reviewStore.ts:32 | the id starts with `review_` and ends with the supplied suffix, after the decimal clock reading and `_` |
| Reviews.ForProduct | lib/store/reviewStore.ts:42-44 | every review kept belongs to the product and comes from the list |
| Reviews.ReviewsByProduct | lib/store/reviewStore.ts:42-46 | the listing is a permutation of the product's reviews, ordered newest first |
| Reviews.ByProductComplete | lib/store/reviewStore.ts:42-46 | every review of the product is listed |
| Reviews.ByProductStable | lib/store/reviewStore.ts:42-46 | reviews posted at the same instant keep their list order |
| Reviews.NewReviewListedFirst | lib/store/reviewStore.ts:29-46 | a review added no earlier than any existing one heads its product's listing |
| Reviews.AverageRating | lib/store/reviewStore.ts:48-57 | a product without reviews averages 0 |
| Reviews.AverageWithinScale | lib/store/reviewStore.ts:48-57 | with ratings from 1 to 5, a reviewed product averages between 1 and 5 |
| Reviews.MarkHelpful | lib/store/reviewStore.ts:59-67 | every review with the id gains one vote; every other review is unchanged |
| Reviews.HelpfulKeepsRatings | lib/store/reviewStore.ts:48-67 | votes change neither the number nor the rating total of any product's reviews |
| Reviews.HelpfulKeepsAverage | lib/store/reviewStore.ts:48-67 | votes never move any product's average |
| ProductList.Filtered | app/products/page.tsx:19-21 | the "all" category keeps the whole catalog in order |
| ProductList.Visible | app/products/page.tsx:19-38 | the shown list is a permutation of the category's products, each in the category, ordered by the chosen key |
| ProductList.ShownIffInCategory | app/products/page.tsx:19-38 | a product is shown exactly when it is in the catalog and in the selected category |
| ProductList.PriceOrders | app/products/page.tsx:25-28 | price ascending lists prices non-decreasing; price descending lists them non-increasing |
| ProductList.FeaturedFirstInCatalogOrder | app/products/page.tsx:31-36 | every featured product comes before every other one, and each group keeps catalog order |
| Search.PageResults | app/search/page.tsx:15-35 | a blank or absent query finds nothing; otherwise exactly the products whose names, description or category tag contain the lower-cased query, all of them, in catalog order |
| Search.CategoryTagFindsCategory | app/search/page.tsx:22-30 | a query equal to a category tag finds every product of that category |
| Search.TypeQuery | components/SearchBar.tsx:27-43 | typing replaces the query; the dropdown is open exactly when the query is not blank; when open it holds exactly the products whose names or description match, all of them, in catalog order; when closed, nothing |
| Search.ShowDropdown | components/SearchBar.tsx:97-160 | an open dropdown lists the first five matches; "view all" appears, with the match count, exactly when there are more than five; "no results" shows exactly for an open, non-blank query with no match |
| Search.Submit | components/SearchBar.tsx:45-52 | a blank query does nothing; otherwise it navigates to the search page with that query and resets the bar |
| Search.SubmitClosesDropdown | components/SearchBar.tsx:45-160 | after a submit the bar shows no dropdown at all |
| Search.BarResultsWithinPage | components/SearchBar.tsx:27-52 | whatever the bar finds for a query, the search page it submits to finds too, in the same order |
| Search.CharacterEmoji | components/SearchBar.tsx:54-63 | a product without a character id shows the gift box |
| PaymentVerify.AccessToken | app/api/payment/verify/route.ts:8-30 | a token is obtained exactly when the endpoint answers with code 0 |
| PaymentVerify.PaymentLookup | app/api/payment/verify/route.ts:33-53 | payment data is obtained exactly when the endpoint answers with code 0 |
| PaymentVerify.HttpStatus | app/api/payment/verify/route.ts:55-139 | status 200 exactly for a verified payment, 500 exactly for a thrown failure |
| PaymentVerify.Verify | app/api/payment/verify/route.ts:55-139 | an unreadable body fails; a verified payment was quoted at the gateway's amount and is paid; a mismatch reports the client's figure and a different gateway figure |
| PaymentVerify.VerifiedIff | app/api/payment/verify/route.ts:55-139 | 200 exactly when both ids are present, both gateway calls answer code 0, the amounts agree and the status is "paid"; the echoed record is the gateway's |
| PaymentVerify.MissingIdsRefused | app/api/payment/verify/route.ts:61-66 | a body missing either id gets 400 before the gateway is asked anything |
| PaymentVerify.ClientQuotedAmountDecides | app/api/payment/verify/route.ts:74-91 | the amount is checked only against the client's own figure: a body quoting a paid payment's amount is always verified |
| PaymentVerify.MismatchReportsBoth | app/api/payment/verify/route.ts:78-91 | a differing amount is reported with both figures, whatever the payment's status |
| Quiz.Score | lib/questions.ts:74-98 | every animal scores between 0 and 10 |
| Quiz.MaxScore | lib/questions.ts:101 | the top score is reached by some animal and exceeded by none |
| Quiz.Result | lib/questions.ts:101-102 | the chosen animal has the top score |
| Quiz.ResultIsFirstMaximum | lib/questions.ts:101-102 | no animal outscores the result, and every animal listed before it scores strictly less |
| Quiz.CharacterFromAnswers | lib/questions.ts:72-105 | the answer is always one of lamb, lion, dove or deer |
| Quiz.NoAnswersGiveLamb | lib/questions.ts:101-102 | with nothing answered every animal ties at 0 and the lamb wins |
| Quiz.BoxQuestionIgnored | lib/questions.ts:82-98 | the box chosen in question 3 never changes the result |
| Quiz.EveryChoiceScoresOnce | lib/questions.ts:14-98 | every choice of a scored question gives 2 (questions 1 and 4) or 3 (questions 2 and 5) points to one animal; question 3 gives nothing |
| Quiz.DeerExample | lib/questions.ts:82-102 | moon, dawn, bible and deep_talk make the deer win |
| CouponUtils.Pick | lib/couponUtils.ts:8 | a draw picks an alphabet index i with i ≤ 36·draw < i + 1 |
| CouponUtils.Drawn | lib/couponUtils.ts:5-9 | one alphabet character per draw, the one at the picked index |
| CouponUtils.AppendDrawn | lib/couponUtils.ts:6-10 | the loop leaves the start text followed by one drawn character per draw |
| CouponUtils.GenerateCouponCode | lib/couponUtils.ts:4-11 | the code is the prefix, a dash and eight drawn characters, each an upper-case letter or a digit |
| CouponUtils.GenerateReferralCode | lib/couponUtils.ts:14-21 | six drawn characters, each an upper-case letter or a digit |
| CouponUtils.DrawnDeterminesPicks | lib/couponUtils.ts:5-9 | equal drawn text means equal picks, position by position |
| CouponUtils.DrawnIsUpperCase | lib/couponUtils.ts:4-11 | a generated code with an upper-case prefix is unchanged by upper-casing |
| CouponUtils.CreateEarlyBirdCoupon | lib/couponUtils.ts:24-40 | an early-bird coupon for the user with the given discount, an "EARLYBIRD-" code, and expiry 30 days of milliseconds after `now` |
| CouponUtils.CreateReferralCoupon | lib/couponUtils.ts:43-59 | a referral coupon for the user with the given discount, a "REFERRAL-" code, and expiry 30 days of milliseconds after `now` |
| Settings.Decode | lib/couponUtils.ts:62-76 | a flag is on exactly when its stored value is the string "true"; a missing or empty discount reads as 10 (early bird) or 5 (referral), and a stored one as its `parseInt` |
| Settings.EmptyTableDefaults | lib/couponUtils.ts:70-75 | an empty table decodes to both flags off and discounts 10 and 5 |
| Settings.OtherKeysIgnored | lib/couponUtils.ts:70-75 | keys other than the four settings never affect the decoded settings |
| Settings.Get | app/api/admin/settings/route.ts:5-28 | an unreadable table fails with 500; a readable one answers its decoded settings |
| Settings.Post | app/api/admin/settings/route.ts:31-69 | saved exactly when the body has fields and none of the four upserts throws; an unreadable or null body changes nothing |
| Settings.Posted | app/api/admin/settings/route.ts:37-59 | the four upserts in handler order give the table a fault-free POST leaves |
| Settings.PostStoresStrings | app/api/admin/settings/route.ts:37-59 | after a POST each of the four keys holds `String` of its field, and every other key is untouched |
| Settings.RoundTrip | app/api/admin/settings/route.ts:15-59 | GET after POSTing booleans and integers returns exactly the posted values |
| Settings.PostIdempotent | app/api/admin/settings/route.ts:37-59 | posting the same body twice leaves the table as one POST does |
| Settings.PostedFlagIff | app/api/admin/settings/route.ts:16-53 | a flag reads back on exactly when it was posted as `true` or as the string "true" |
| Settings.EncodesTrueIff | app/api/admin/settings/route.ts:39 | only `true` and the string "true" print as "true" |
| Settings.Encode | app/api/admin/settings/route.ts:45 | a number is written in a form `parseInt` reads back as that number; EncodesTrueIff states which values print as "true" |
| Settings.OmittedDiscountReadsNaN | app/api/admin/settings/route.ts:17-59 | a discount left out of the body is stored as "undefined" and reads back as NaN, not as the default; an empty string does fall back to the default |
| Settings.FailedPostBeforeWritesKeepsTable | app/api/admin/settings/route.ts:31-69 | a POST whose first upsert throws, or whose body cannot be read, changes nothing |
| KakaoCallback.Either | app/api/auth/kakao/callback/route.ts:70-71 | a truthy first operand is the result; otherwise the second |
| KakaoCallback.DisplayName | app/api/auth/kakao/callback/route.ts:70 | never empty; the nickname when truthy, else the account nickname when truthy, else "Unknown" |
| KakaoCallback.Refreshed | app/api/auth/kakao/callback/route.ts:66-76 | a returning user keeps id, provider id, referral code, referrer and count; the name, login time, channel flag and channel time are refreshed; the image is the truthy profile image, else the account image, and stays as stored when both are undefined; the e-mail is replaced only when defined |
| KakaoCallback.Handle | app/api/auth/kakao/callback/route.ts:6-149 | "no_code" exactly when the code is missing; a sign-in only without a fault before the end of the writes; every other outcome is "auth_failed" |
| KakaoCallback.MissingCodeChangesNothing | app/api/auth/kakao/callback/route.ts:9-13 | without a code nothing is written and the visitor is sent back with "no_code" |
| KakaoCallback.HandleCompletes | app/api/auth/kakao/callback/route.ts:58-144 | without a fault the whole plan is applied and the user is signed in |
| KakaoCallback.ApplyAllTables | app/api/auth/kakao/callback/route.ts:81-122 | coupons and referral links are appended in write order, one id is used per created user, and settings are never written |
| KakaoCallback.NewUserPlanProjections | app/api/auth/kakao/callback/route.ts:77-124 | a new user's writes are the row, then the early-bird coupon writes, then the referral writes |
| KakaoCallback.PlanTailCreatesNothing | app/api/auth/kakao/callback/route.ts:77-124 | only the first write of a new user's plan creates a row |
| KakaoCallback.ReturningUserOnlyRefreshed | app/api/auth/kakao/callback/route.ts:64-76 | a returning user is signed in with only the login refresh: no coupon, no referral, no new row |
| KakaoCallback.NewUserTables | app/api/auth/kakao/callback/route.ts:77-124 | a new user is signed in under the next id, and gets exactly the early-bird coupons and referral links the settings call for; settings are untouched |
| KakaoCallback.EarlyBirdIff | app/api/auth/kakao/callback/route.ts:94-97 | an early-bird coupon with the configured discount is issued exactly when the visitor is new and the flag is on |
| KakaoCallback.ReferralIff | app/api/auth/kakao/callback/route.ts:99-124 | a link from the referrer to the new user is recorded exactly when the visitor is new, `ref` is non-empty, referrals are on and some user holds that code |
| KakaoCallback.NewUserUsers | app/api/auth/kakao/callback/route.ts:81-122 | the new row is appended, then the referrer, if any, is credited |
| KakaoCallback.NewUserRegistered | app/api/auth/kakao/callback/route.ts:79-92 | the new row carries the next id, the provider id, the display name, a fresh drawn referral code and `ref` or null as referrer, whatever the flags say |
| KakaoCallback.ReferrerCredited | app/api/auth/kakao/callback/route.ts:100-123 | with an existing referrer, that user's count rises by exactly one and every other row, the new one included, is untouched |
| KakaoCallback.SelfReferral | app/api/auth/kakao/callback/route.ts:79-123 | a `ref` equal to the new user's own drawn code refers the new user to themself, with a count of 1 |
| KakaoCallback.RefusedSignInChangesNothing | app/api/auth/kakao/callback/route.ts:29-148 | a provider failure, a taken referral code or a store failure before the first write redirects with "auth_failed" and writes nothing |
| KakaoCallback.FailureAfterCreateKeepsUser | app/api/auth/kakao/callback/route.ts:81-148 | the writes are not atomic: a store failure right after the user is created keeps the row but records no coupon or referral |
| KakaoCallback.CreateFreshKeepsWellFormed | app/api/auth/kakao/callback/route.ts:81-92 | creating a row with a fresh id, provider id and referral code keeps the store's uniqueness |
| KakaoCallback.PlanPrefixKeepsWellFormed | app/api/auth/kakao/callback/route.ts:59-124 | any prefix of the writes keeps ids, provider ids and referral codes unique |
| KakaoCallback.HandleKeepsWellFormed | app/api/auth/kakao/callback/route.ts:6-149 | whatever fails and wherever, ids, provider ids and referral codes stay unique |
| Spline.SceneIn | lib/splineScenes.ts:23-25 | an unknown id gives the empty string; a known id gives the URL of its first entry |
| Spline.KeysWhere | lib/splineScenes.ts:37-50 | an id is listed exactly when it has an entry whose URL is non-empty (ready) or empty (pending) |
| Spline.ReadyPendingPartition | lib/splineScenes.ts:37-50 | with unique keys, every key is either ready or pending, never both, and the two lists add up to the table |
| Spline.ReadyIffSceneReady | lib/splineScenes.ts:23-41 | a key is listed as ready exactly when its scene lookup is non-empty |
| Spline.NothingReadyYet | lib/splineScenes.ts:10-50 | with the current table nothing is ready, all five characters are pending in table order, and no id is ready |
| Spline.CharacterScene | lib/splineScenes.ts:23-25 | the lookup in the scene table; NothingReadyYet states that it is empty for every id today |
| Spline.IsSceneReady | lib/splineScenes.ts:30-32 | a non-empty scene URL; ReadyIffSceneReady ties it to the ready list |
| Spline.ReadyCharacters | lib/splineScenes.ts:37-41 | the ids with a non-empty URL in table order; ReadyPendingPartition and NothingReadyYet state its contents |
| Spline.PendingCharacters | lib/splineScenes.ts:46-50 | the ids with an empty URL in table order; ReadyPendingPartition and NothingReadyYet state its contents |
| Characters.CharacterById | lib/characters.ts:149-151 | a found roommate has the id; none is found exactly when no roommate has it |
| Characters.CharacterByName | lib/characters.ts:153-160 | the first roommate whose name, Korean name or English name equals the name; none exactly when no roommate is so named |
| Characters.RoommateIds | lib/characters.ts:22-146 | five roommates with distinct ids, each found by its own id |
| Characters.QuizResultLookup | lib/characters.ts:149-151 | the quiz result finds no roommate exactly when it is "dove" |
| Characters.StoryCharacterById | lib/characterData.ts:191-193 | a found character has the id; none exactly when no character has it |
| Characters.StoryCharacterByProduct | lib/characterData.ts:195-197 | a found character has the product id; none exactly when no character has it |
| Characters.WorldKeysUnique | lib/characterData.ts:23-189 | ids and product ids are each unique across the world table |
| Characters.WorldLookupsFindOwner | lib/characterData.ts:191-197 | each lookup by id or by product id returns the entry that holds the key |
| Characters.WorldBehaviorsSane | lib/characterData.ts:23-189 | every behaviour has a positive duration and a probability between 0 and 1 |
| Characters.WorldProbabilitiesSumToOne | lib/characterData.ts:23-189 | each character's behaviour probabilities add up to exactly 1 |
| Characters.TablesAgreeOnIds | lib/characterData.ts:23-189 | both tables list the same five ids in the same order |
| Text.ToUpper | lib/store/couponStore.ts:82 | same length, with each character upper-cased on its own |
| Text.ToUpperIdempotent | lib/store/couponStore.ts:82 | upper-casing twice is upper-casing once |
| Text.TrimEmptyIffBlank | app/cart/page.tsx:41 | the trimmed text is empty exactly when the text is all whitespace |
| Text.Trim | app/cart/page.tsx:41 | `trim()`; TrimEmptyIffBlank states that the result is empty exactly when the text is all whitespace |
| Text.IntToString | app/api/admin/settings/route.ts:45 | the decimal text of an integer is never empty |
| Text.ParseIntOfIntToString | app/api/admin/settings/route.ts:17 | `parseInt(String(n))` gives back n for every integer |
| Text.ParseInt | app/api/admin/settings/route.ts:17 | `parseInt` without a radix; ParseIntOfIntToString states that it reads back every integer's decimal text |

## Left out

- Rendering, alerts, console output, navigation targets, cookie and token signing, and the `persist` middleware are left out, because they carry no decision the model could state. Each page's logic is modelled as functions of its state.
- Unicode case mapping is left out: `toUpperCase` is modelled on the ASCII letters only, because coupon codes are ASCII. `toLowerCase` and `localeCompare` depend on the locale, so they are supplied as the parameters `lower` and `rank`.
- Floating point is left out. Ratings average as mathematical reals. The settings POST takes integers where JSON could carry any number, and arrays or objects are left out of the body's values.
- Settings.RoundTrip: JavaScript's `String(n)` writes a number of magnitude 10^21 or more in exponent form, which `parseInt` then reads as its first digit. The model's integers are exact and always written in decimal, so such values round-trip in the model but not in the source.
- The payment verification body is modelled with optional string and integer fields. A JSON body can carry other types there (a number for `imp_uid`, a string for `amount`), and those are left out.
- Checkout.PaidOrder: one clock reading `time` stamps both `createdAt` and `paidAt`, while the source reads the clock twice, so the two may differ by a few milliseconds. The order's items are the cart as it stood when payment began, which the callback's closure captured; the model passes that cart in.
- Reviews.AddReview: one clock reading `now` gives both the id's timestamp and `createdAt`, while the source reads the clock once for each.
- Coupons.DefaultCoupons: one `loadTime` opens every sample window and starts every expiry count, while the source reads the clock six times as the table is built.
- KakaoCallback.Refreshed and KakaoCallback.NewUser: one `now` stamps both `lastLogin` and `kakaoChannelAddedAt`. The update creates two dates, and on a create the login time comes from the table's schema default, so the two may differ by a few milliseconds.
- KakaoCallback.Refreshed: a provider field is an optional string, so a JSON `null` cannot be told from an absent field. A `null` account image would make the source write null, while the model keeps the stored image as for an absent one.
- Checkout.DecreaseAll: its own contract gives only the ledger's length. The flag is stated by DecreaseAllFlag, each product's result by DecreaseAllPerLine, and the entries by DecreaseAllKeepsEntries.
- `Math.random` is left out as a generator. Draws are supplied as exact reals in [0, 1), so a product rounding to 36 is not modelled.
- The expiry date is now + 30 × 86 400 000 ms. The calendar arithmetic of `setDate`, which differs across a daylight-saving change, is left out.
- `parseInt` is modelled on exact integers. Precision loss for very long digit strings is left out.
- Review ids are left out as random values. The random suffix is the parameter `suffix`.
- Lookups through `splineScenes[id]` and `emojiMap[id]` cannot hit `Object.prototype` properties in the model, because the tables are plain key/value lists.
- The two provider fetches of the sign-in callback collapse into one supplied profile or a provider failure. The store's uniqueness checks are modelled only for the provider id and the referral code.
- The prose fields of the character tables, the quiz's labels and emoji, and the product descriptions beyond what search reads are left out. They are static text that no operation decides on.
- `createReferralCoupon` is modelled, but the sign-in callback never calls it. The model follows the code there, so a referrer receives no coupon.
- KakaoCallback.Handle: its contract only says which outcome each path reaches. What each path writes is stated by the lemmas about it, such as HandleCompletes, NewUserTables, ReferrerCredited and FailureAfterCreateKeepsUser.
- Search.CharacterEmoji: the contract fixes only the gift-box fall-back. The five animal emoji are a constant table.
- Orders.UpdateOrderStatus and Orders.GetAllOrders: their own contracts fix only the length. Their content is stated by UpdateThenGet, UpdateFramesOtherIds and the AllOrders lemmas.
- ProductList.Filtered: its own contract covers one case. The rest is stated by Visible and ShownIffInCategory.
- Reviews.AverageRating: a reviewed product's average is stated only by the function's body, the sum of its ratings divided by their count. AverageWithinScale bounds it between 1 and 5 but does not fix the value.
- The checkout callback is modelled as the source has it: it charges and records the cart's undiscounted total, so a coupon applied on the cart page is not charged for.
