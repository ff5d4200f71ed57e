# Verified model of a multi-tenant inventory and point-of-sale backend

A Dafny model of the stateful business logic of the backend: the category tree, carts and
sales with their voids and refunds, stock movements, valuation layers and reservations, sequential numbering, unique SKUs and
slugs, invoices and quotes, and the login, token, second-factor, session and role machinery.
Each database table or Redis key space is a finite map (or a list of rows) and each request is
one atomic step; a refused request changes nothing. Money is an exact integer number of 1/10000
units and times are milliseconds. Theorems about "every run" quantify over every sequence of
requests, in any order and with any arguments.

`dafny verify dfyconfig.toml` checks everything.

## How a component is modelled

- The outcome of each request is a function of the old state: the new state, or the error the
  source raises, its checks in the source's order (`Outcome`, `Step`, `Run`).
- A class holds the tables, and its methods update them in place with the source's loops and
  branches. Each method is proved to have that outcome (`Took`, `Answered`), so what is proved
  of runs holds of the methods.
- What one request does is stated a second time without those functions, in the request's own terms:
  when it is accepted, what it writes, and what it leaves alone (the lemmas named `...IsExact` and
  `...Iff`).
- The promises are lemmas about `Run`, or about the functions both sides share.

| file | component |
|---|---|
| CategoryForest.dfy | parent pointers of categories and the walk that guards them |
| Decimals.dfy, NumberGenerators.dfy | decimal text, string order, sale/refund/document numbers |
| Normalizers.dfy, UniqueNames.dfy | SKU and slug normal forms, suffix search, variant SKUs |
| Wrappers.dfy, Amounts.dfy, DocumentTypes.dfy | shared notions |
| StockLedger.dfy, Sales.dfy, SaleInvariants.dfy, SaleRoutes.dfy | carts, sales, voids, refunds, stock requests and their movements, the reservations taken as given |
| Valuation.dfy | valuation layers, and how far on-hand stock runs away from them |
| SaleRequests.dfy, DeskRequests.dfy | what each request makes of sales and stock, in the request's own terms |
| Reservations.dfy | reservations, completion and the cleanup of abandoned carts |
| PosDesk.dfy, PosDeskInvariants.dfy, CartGuarantees.dfy, PosService.dfy | sales and reservations as one system, and the services that run it |
| Invoices.dfy | invoice ledger and quote conversion |
| Lockout.dfy, VerificationTokens.dfy, Mfa.dfy, Sessions.dfy | login, tokens, second factor, session index |
| SuperAdmin.dfy | roles, assignments, members, invitations, location deletions |

## Where the code falls short of a natural promise

Each is proved as an exact condition or for all inputs, not only by an example.

- Numbers: unique up to 99999; beyond that a call repeats a stored number exactly when the last
  text is all nines and the next power of ten is stored, and from call 100001 on every call does
  (`CollidesIffAllNines`, `TheLimitIsTight`). A deleted draft's number is issued again exactly when
  it was the newest and its predecessor is stored or it was the first (`DeletedIsReissuedIff`).
- A completed sale leaves its reservations' quantity on the balance: the reservations become
  FULFILLED and nothing is decremented. Reserved equals active after completion exactly when the
  sale held nothing (`CompletionLeaksIffHeld`, `RunDrift`, `CompletionLeaksItsLines`).
- A cart's own reservation counts against its completion, so a fully reserved line must be on hand
  twice over; the last pieces of a product can be put into a cart but not be sold from it
  (`CompletionNeedsItsStockTwice`, `OnePieceCannotBeSold`).
- A cart update releases the old reservation before it asks for the new one, and a refusal keeps
  the release: then, and when a reservation of the cart is released, expired, resized, renamed or
  added by a request of its own, the cart is no longer reserved exactly (`StaysReservedIff`). What
  a reservation refers to is free text, so one made directly can hold more for a cart than its
  lines ask for (`HoldsNoMoreIff`, `DirectReservationOverholds`); without such requests none does
  (`CartsAloneHoldNoMore`).
- Stock is checked item by item: a quick sale, a stock-out (a transfer's shipment is one) or an
  adjustment takes a balance below zero exactly when each item passes the check alone but the items
  of one product together exceed what is on hand (`StockStaysNonNegativeIff`, `LastPieceSoldTwice`).
- A void puts stock back without a valuation layer, and stock taken with no layer left consumes
  none: the layers' remaining quantities differ from the on-hand balance by exactly those two
  (`LayersDriftExactly`, `LayersAgreeIff`, `VoidLeavesLayersBehind`).
- Cart and quick sale store the same amounts exactly when the items at their own prices sum up to
  the items at their products' first prices; a product returning at another price, or an override
  price of zero, can part them (`RoutesAgreeIff`, `RoutesDifferByRepricing`,
  `TwoPricesPartTheRoutes`).
- An invoice update that changes the discount leaves the total behind
  (`UpdateKeepsTotalIffDiscountKept`); an invoice naming a product twice is refused
  (`ProductsLoadIffDistinct`); a CANCELLED document is left by a payment (`CancelledIsLeftIffPaid`).
- Two variants of one product get the same SKU exactly when their bases are equal or one base is
  the first free suffix of the other (`VariantsShareASkuIffClash`, `RedAndRedwoodShareASku`,
  `GivenSkusCollide`). A generated variant SKU is not sanitised as a whole: it is in normal form
  exactly when the parent's is, not empty, and every attribute leaves a code
  (`GeneratedSkuIsNormalIff`, `HyphenValueLeavesNoCode`).
- Deleting a location deletes the assignments made for it, so it takes a tenant's last SuperAdmin
  exactly when all of them are assigned for it (`StepKeepsSuperAdminIff`); a sole SuperAdmin who
  holds the role twice cannot give up either (`RefusalIsNeedlessIff`).
- An ACCEPTED invitation becomes EXPIRED exactly when it is accepted again by its addressee, or
  declined by whoever has its token, too late (`AcceptedIsLeftIffLate`).
- The schema's comment calls the invoice line discount per item; the code subtracts it once per
  line, and the model follows the code (`Invoices.LineOf`).

## Model

| member | source | states |
|---|---|---|
| CategoryForest.EveryRunIsAForest | src/modules/category/category.service.ts:59-301 | in every table reachable by create, update and remove the parent pointers of all rows, deleted ones too, are acyclic, and every live category is a root or hangs under a live category of its tenant |
| CategoryForest.GuardIsExact | src/modules/category/category.service.ts:213-223 | re-parenting closes a cycle if and only if the category is an ancestor-or-self of the new parent |
| CategoryForest.CircularIsAncestry | src/modules/category/category.service.ts:306-329 | from a live start the tenant-scoped walk over live rows finds exactly the stored ancestors |
| CategoryForest.MoveAcceptedIffForest | src/modules/category/category.service.ts:192-224 | a move is accepted if and only if the table it leads to is still a forest |
| CategoryForest.RemovalAcceptedIffForest | src/modules/category/category.service.ts:261-301 | a deletion is refused for its children if and only if it would leave one under a deleted parent |
| CategoryForest.CreationIsExact | src/modules/category/category.service.ts:59-102 | a creation is accepted without a parent or under a live one; the new category is live, its ancestors are the parent and the parent's, and no other row changes |
| CategoryForest.ReparentingIsExact | src/modules/category/category.service.ts:181-256 | a change of parent is accepted exactly for a live category when a forest results; it then hangs where it was asked to, and everything else is as before |
| CategoryForest.RemovalIsExact | src/modules/category/category.service.ts:261-301 | a removal is accepted exactly for a live category without live children and products; it is not live afterwards, and nobody's ancestors change |
| CategoryForest.CategoryService.CheckCircularReference | src/modules/category/category.service.ts:306-329 | on an acyclic table the upward loop ends and answers true exactly when some number of live parent steps from the new parent reaches the category |
| CategoryForest.CategoryService.CreateCategory | src/modules/category/category.service.ts:59-102 | stores the category under the parent given, or fails for a missing parent, keeping the forest |
| CategoryForest.CategoryService.UpdateCategory | src/modules/category/category.service.ts:181-256 | takes the specified step or fails with the first error of the source's check order, keeping the forest |
| CategoryForest.CategoryService.RemoveCategory | src/modules/category/category.service.ts:261-301 | soft-deletes a live category without live children or products, keeping the forest |
| Decimals.LexIsNumericAtOneWidth | src/modules/pos/utils/sale-number.generator.ts:23 | digit strings of one length are ordered as text exactly as they are as numbers |
| NumberGenerators.NextIsMaxPlusOne | src/modules/pos/utils/sale-number.generator.ts:15-31 | while no stored number exceeds 99999, whatever was deleted, the generated number is the largest stored plus one and is not stored |
| NumberGenerators.CollidesIffAllNines | src/modules/invoice/utils/document-number.generator.ts:20-36 | for every stored set the generated number is already taken if and only if the last text is 10^k - 1 with k at least 5 and 10^k is stored |
| NumberGenerators.RunsStayWellNumbered | src/modules/pos/services/refund.service.ts:31-54 | after any issues and deletions everything stored is the text of a positive number |
| NumberGenerators.IssuedIsInitialSegment | src/modules/pos/utils/sale-number.generator.ts:27-31 | from an empty table without deletions call k issues number k, for every k up to 100000 |
| NumberGenerators.TheLimitIsTight | src/modules/pos/utils/sale-number.generator.ts:27-31 | call 100001 and every later one issues 100000 again |
| NumberGenerators.DeletedIsReissuedIff | src/modules/pos/services/cart-cleanup.service.ts:89-92 | up to 99999, the number of a deleted row is issued again by the next call if and only if it was the newest and its predecessor is still stored or it was number 1 |
| NumberGenerators.DocumentSequencesAreIndependent | src/modules/invoice/utils/invoice.helpers.ts:69-78 | quotes, proformas and invoices of a year are numbered independently |
| NumberGenerators.YearsAreIndependent | src/modules/pos/utils/sale-number.generator.ts:15-16 | sale and refund numbers of one year do not disturb those of another |
| NumberGenerators.FirstNumbers | src/modules/pos/utils/sale-number.generator.ts:15-31 | the first number of a year is its prefix, the year and 00001 |
| Normalizers.SkuIsJoinedWords | src/common/utils/sku.utils.ts:7-14 | the replacement chain computes the maximal runs of word characters of the upper-cased text, joined by single hyphens |
| Normalizers.SlugIsJoinedWords | src/common/utils/slug.utils.ts:7-15 | the slug is the words, parted by white space or hyphens, of the lower-cased text without special characters, joined by single hyphens |
| Normalizers.SkuIsNormal | src/common/utils/sku.utils.ts:7-14 | every sanitised SKU uses only the allowed upper-case alphabet and has no doubled, leading or trailing hyphen |
| Normalizers.SlugIsNormal | src/common/utils/slug.utils.ts:7-15 | the same for slugs in lower case |
| Normalizers.SkuIsEmptyIff | src/common/utils/sku.utils.ts:7-14 | nothing is left of a text if and only if its upper-case form has no word character |
| Normalizers.SkuNormalFormsAreFixedPoints | src/common/utils/sku.utils.ts:7-14 | a text is left alone if and only if it is in normal form, and sanitising twice is sanitising once |
| Normalizers.SlugNormalFormsAreFixedPoints | src/common/utils/slug.utils.ts:7-15 | the same for slugs |
| UniqueNames.FailedProbesAreBounded | src/common/utils/sku.utils.ts:131-134 | at most as many probes fail as names are taken |
| UniqueNames.EnsureUnique | src/common/utils/sku.utils.ts:123-137 | the loop ends after at most that many failures with the base or base-c for the least free c, a name not taken |
| UniqueNames.CreateSku | src/common/utils/sku.utils.ts:67-71 | the SKU belongs to no other record of the tenant, and is in normal form exactly unless the base is empty and the empty SKU is taken |
| UniqueNames.CreateSlug | src/common/utils/slug.utils.ts:75-107 | fails exactly when neither slug nor name is given; otherwise as for SKUs |
| UniqueNames.OwnNameIsKept | src/common/utils/slug.utils.ts:118-124 | with its own row excluded a record keeps the name nobody else has |
| UniqueNames.SuffixedIsNormal | src/common/utils/sku.utils.ts:132 | a base with a suffix is in normal form if and only if the base is and is not empty |
| UniqueNames.AssignVariantSkus | src/modules/product/product.service.ts:203-218 | each variant's SKU is the unique one for its base against the table alone, collected and written back in place |
| UniqueNames.BareVariantsAreDistinct | src/modules/product/product.service.ts:203-218 | variants with neither SKU nor attributes get pairwise different SKUs, different from the parent's and from all stored ones |
| UniqueNames.SameNameIffClash | src/common/utils/sku.utils.ts:123-137 | two searches against one table answer the same name if and only if their bases are equal or one base is free and is the first free candidate of the other |
| UniqueNames.VariantsShareASkuIffClash | src/modules/product/product.service.ts:203-218 | two variants of a product get the very same SKU if and only if their bases clash in that sense |
| UniqueNames.VariantTakesParentSkuIffGiven | src/modules/product/product.service.ts:203-218 | a variant gets the parent's still unstored SKU if and only if it is given a SKU whose search leads there; a generated one never does |
| UniqueNames.RedAndRedwoodShareASku | src/common/utils/sku.utils.ts:34-36 | an input: two variants coloured Red and Redwood get one SKU, whatever is stored |
| UniqueNames.GivenSkusCollide | src/modules/product/product.service.ts:209-210 | an input: with one name taken, two variants given that name and its own first suffix get one SKU |
| UniqueNames.GeneratedSkuIsNormalIff | src/common/utils/sku.utils.ts:26-82 | a generated variant SKU is in normal form if and only if the parent's SKU is, is not empty, and every attribute's first three characters hold a word character |
| UniqueNames.HyphenValueLeavesNoCode | src/common/utils/sku.utils.ts:34-36 | an input: an attribute whose value is a hyphen spoils the SKU |
| StockLedger.PostConserves | src/modules/stock/services/balance.service.ts:310-334 | posting movements changes each on-hand balance by exactly the recorded quantities when taken stock was available and restored stock has its row |
| StockLedger.ReversalPutsBack | src/modules/pos/services/sale.service.ts:742-752 | a reversal raises a balance by the summed quantity if its row exists and otherwise by nothing |
| StockLedger.AdjustedIsNet | src/modules/stock/services/movement.service.ts:251-411 | an adjustment whose lowered products have rows changes each balance by the net of its signed items and records exactly that |
| Valuation.ConsumptionTakes | src/modules/stock/services/valuation.service.ts:62-137 | under every pricing method the layers lose the whole quantity asked for, or all they have, and nothing fails |
| Valuation.LayersGoInOrder | src/modules/stock/services/valuation.service.ts:83-98 | a layer is touched only when every older one, under LIFO every newer one, is used up |
| Valuation.ValuationService.ConsumeLayers | src/modules/stock/services/valuation.service.ts:62-137 | the loop leaves the specified layers; under FIFO and LIFO the cost answered is exactly the worth the layers lose, under moving average the consumed quantity at the average of all layers |
| Valuation.ValuationService.CalculateWac | src/modules/stock/services/valuation.service.ts:190-223 | the worth of the layers divided by their quantity, zero without any |
| Valuation.LayersHold | src/modules/stock/services/movement.service.ts:35-245 | whatever the unit costs and pricing methods, the layers of a product and location hold a quantity that follows from its movements alone |
| Valuation.LayersDriftExactly | src/modules/stock/services/movement.service.ts:35-411 | over every run on-hand stock runs ahead of the layers by exactly what voids put back and behind by exactly what was taken with no layer left |
| Valuation.LayersAgreeIff | src/modules/stock/services/movement.service.ts:35-411 | in every store reached from an empty one the layers sum up to the on-hand balance if and only if those two are equal |
| Valuation.InStepWithoutVoids | src/modules/stock/services/movement.service.ts:35-411 | without reversals, and with no balance below zero in between, they always agree |
| Valuation.VoidLeavesLayersBehind | src/modules/pos/services/sale.service.ts:742-752 | every void parts them by exactly what its sale had taken |
| SaleInvariants.EveryRunIsValid | src/modules/pos/services/sale.service.ts:560-755 | every reachable store has settled amounts, bounded refunds and movements that match the sale lines, whatever stock requests come in between |
| SaleInvariants.CompletedSalesAreSettled | src/modules/pos/services/sale.service.ts:531-556 | for every completed sale of every run, line totals, subtotal, total, paid amount and change fit together and paid minus change is the total, though completion never rewrites the total |
| SaleInvariants.DraftsAreChargedTheirTotal | src/modules/pos/services/sale.service.ts:531-556 | in every reachable store, what completion charges for a draft is the total its cart shows |
| SaleInvariants.ChangeFormulasAgree | src/modules/pos/services/payment.service.ts:49-57 | the two change formulas agree if and only if the payment covers the total |
| SaleInvariants.RefundStatusIsExact | src/modules/pos/services/refund.service.ts:74-170 | over every run of positive refunds their sum never passes the total; REFUNDED means equal, PARTIALLY_REFUNDED means strictly between |
| SaleInvariants.VoidReturnsWhatWasTaken | src/modules/pos/services/sale.service.ts:698-755 | a voided sale has put back of each product exactly what it took, by either route and with repeated products, and was never refunded; no other sale has a reversal |
| SaleInvariants.VoidRestoresOnHand | src/modules/pos/services/sale.service.ts:742-752 | a void raises on-hand stock by exactly what the sale took, since no balance row can be missing |
| SaleInvariants.FinishedSalesAreFrozen | src/modules/pos/services/sale.service.ts:284-303 | lines and amounts of a finished sale never change, VOIDED and REFUNDED are final |
| SaleInvariants.EveryRunConservesStock | src/modules/stock/services/movement.service.ts:138-245 | over every run of sales and stock requests on-hand stock changes by exactly the net of the recorded movements |
| SaleRequests.RefundIsExact | src/modules/pos/services/refund.service.ts:59-196 | a refund raises on-hand stock and the return movements of each product by exactly the quantities asked back of it, nothing anywhere else, and records its amount |
| SaleRequests.RefundFailsForItemIff | src/modules/pos/services/refund.service.ts:119-137 | within the refundable amount it fails for an item if and only if one names no line of the sale |
| SaleRequests.AdditionIsExact | src/modules/pos/services/cart.service.ts:112-163 | a product in the cart grows by the quantity at its own price and discount; a new one gets a line with the price given or the list price; totals follow |
| SaleRequests.UpdateIsExact | src/modules/pos/services/cart.service.ts:168-216 | an update gives the line the new quantity, and the new price and discount where given; every other line stays |
| SaleRequests.RemovalIsExact | src/modules/pos/services/cart.service.ts:221-243 | a removal takes out exactly the first line with the key |
| SaleRequests.CompletionIsExact | src/modules/pos/services/sale.service.ts:192-228 | a cart is completed exactly when it is a draft of the tenant whose lines each fit and whose payments cover its total; payments are recorded as given, and the lines' quantities leave the stock |
| SaleRequests.VoidIsExact | src/modules/pos/services/sale.service.ts:284-306 | a void is accepted exactly for a COMPLETED sale of the tenant and changes nothing but its status beside the stock |
| SaleRequests.SaleAcceptedIff | src/modules/pos/services/sale.service.ts:131-187 | a quick sale is accepted if and only if location, items and payments are there, every item is one of the tenant's products and fits alone, and the payments cover the items at their prices less the discount; that rounded quantities fit is implied |
| SaleRequests.SaleIsExact | src/modules/pos/services/sale.service.ts:450-512 | it stores a line for each item with its price, cost, discount and rounded quantity, totals from them, and takes those quantities from the stock |
| SaleRequests.IssueIsExact | src/modules/stock/services/movement.service.ts:138-245 | a stock-out is accepted exactly when each item alone fits, and takes the items from their balances |
| SaleRequests.ReceiptIsExact | src/modules/stock/services/movement.service.ts:38-132 | a stock-in adds the items to their balances, missing ones included |
| SaleRequests.TenantsAreIsolated | src/modules/pos/services/sale.service.ts:427-432 | over every run of other tenants' requests and of stock requests a sale stays as it is |
| PosDeskInvariants.EveryRunIsSound | src/modules/pos/services/cart.service.ts:85-320 | in every state reachable by carts, sales, voids, refunds, stock requests, reservations made or changed directly, releases, expiries and cleanups, whatever fails in between: sales and reservations stay valid together, reserved quantities cover the active reservations, and every cart has one line per product, of its tenant's products |
| PosDeskInvariants.StoreSteps | src/modules/pos/services/cart.service.ts:85-243 | a command moves the sales by exactly one request of the sales component or not at all, so what holds over its runs holds here |
| PosDeskInvariants.StepShort | src/modules/pos/services/cart.service.ts:181-193 | exactly how each command, requests to the reservations themselves included, moves the shortfall between a cart's lines and its active reservations, told from the command's checks |
| CartGuarantees.StaysReservedIff | src/modules/pos/services/cart.service.ts:181-193 | a fully reserved line stays so if and only if no request to the reservations changes what it holds and no update is refused its new reservation after releasing the old ones |
| CartGuarantees.EditRestores | src/modules/pos/services/cart.service.ts:168-243 | a successful update or removal of a line makes it fully reserved again, whatever was lost before |
| CartGuarantees.RunStaysReserved | src/modules/pos/services/cart.service.ts:85-243 | over every run in which neither happens to it, a cart's active reservations of a product equal its line |
| CartGuarantees.HoldsNoMoreIff | src/modules/stock/services/reservation.service.ts:76-356 | after a command a cart holds no more of a product than its line asks for if and only if the command did not give it more than it still lacked |
| CartGuarantees.CartsAloneHoldNoMore | src/modules/pos/services/cart.service.ts:85-320 | over every run in which no reservation is made or updated directly, no cart holds more of a product than its line asks for |
| CartGuarantees.DirectReservationOverholds | src/modules/stock/services/reservation.service.ts:76-164 | an input: a reservation made directly in the name of an empty cart holds one piece more than it asks for |
| CartGuarantees.CompletionNeedsItsStockTwice | src/modules/stock/services/stock-validation.service.ts:107-141 | a cart ready to be completed is completed if and only if on-hand stock less what others reserved is, for every line, at least twice its quantity less what it already lost |
| CartGuarantees.LastPiecesCannotBeSold | src/modules/stock/services/stock-validation.service.ts:107-141 | a cart that reserved all there is of a product is refused for insufficient stock |
| CartGuarantees.OnePieceCannotBeSold | src/modules/pos/services/sale.service.ts:192-228 | an input: one piece in stock, put into a cart of an empty shop and paid for, cannot be sold |
| CartGuarantees.RunDrift | src/modules/pos/services/sale.service.ts:670-680 | over every run of the whole point of sale, reserved quantities are the active reservations plus what completions left behind |
| CartGuarantees.CompletionLeaksItsLines | src/modules/pos/services/sale.service.ts:670-680 | a completion leaves the cart's own lines reserved for ever, as far as they were reserved |
| CartGuarantees.TakingKeepsNonNegativeIff | src/modules/stock/services/stock-validation.service.ts:107-141 | taking items that passed the check one by one keeps every balance non-negative if and only if each product's items together are covered |
| CartGuarantees.AdjustmentKeepsNonNegativeIff | src/modules/stock/services/movement.service.ts:264-411 | an adjustment whose lowered items passed the check one by one keeps every balance non-negative if and only if each of its products does on balance |
| CartGuarantees.StockStaysNonNegativeIff | src/modules/stock/services/movement.service.ts:138-411 | a command takes a balance below zero if and only if it is a quick sale, stock-out or adjustment that passes its checks with items of one product that together exceed what is on hand |
| CartGuarantees.RunKeepsNonNegative | src/modules/stock/services/movement.service.ts:138-411 | so over every run without such a request no balance goes negative |
| CartGuarantees.LastPieceSoldTwice | src/modules/pos/services/sale.service.ts:131-187 | an input: in a shop with one piece of a product, a quick sale that lists it twice is accepted and leaves -1 on hand |
| CartGuarantees.AdditionReserves | src/modules/pos/services/cart.service.ts:91-110 | an item goes into a cart exactly when cart and product are the tenant's and what is on hand covers it beside all that is reserved, and is then reserved in the cart's name for half an hour |
| DeskRequests.OpeningAtTheDesk | src/modules/pos/services/cart.service.ts:46-80 | a new cart is an empty draft of the tenant, as old as the request for the cleanup |
| DeskRequests.UpdateAtTheDesk | src/modules/pos/services/cart.service.ts:168-216 | an update that succeeds leaves the line with the new quantity, price and discount, and exactly that quantity reserved for it |
| DeskRequests.CompletionAtTheDesk | src/modules/pos/services/sale.service.ts:192-228 | a completion records the payments, takes the lines from the stock, fulfils exactly the cart's active reservations and leaves every balance as reserved as it was |
| DeskRequests.SaleAtTheDesk | src/modules/pos/services/sale.service.ts:131-187 | a quick sale stores what it was asked for, takes it from the stock and touches no reservation |
| DeskRequests.RefundAtTheDesk | src/modules/pos/services/refund.service.ts:59-196 | a refund puts back exactly what was asked back and touches no reservation |
| SaleRoutes.RoutesTakeTheSame | src/modules/pos/services/sale.service.ts:514-529 | for any list of items, repeated products included, both routes take the same quantity of every product |
| SaleRoutes.RoutesDifferByRepricing | src/modules/pos/services/cart.service.ts:125-138 | the totals of the two routes differ by exactly the items at their own prices less the items at their product's first price |
| SaleRoutes.RoutesAgreeIff | src/modules/pos/services/sale.service.ts:483-512 | for one list of items and sufficient payments both routes store the same amounts, payments and status if and only if the items at their own prices sum up to the items at their products' first prices |
| SaleRoutes.TwoPricesPartTheRoutes | src/modules/pos/services/cart.service.ts:117-138 | an input: one piece at a price of 1 and one more of the same product at 2 are charged 3 by the quick sale and 2 by the cart |
| SaleRoutes.CartRunStoresCartRoute | src/modules/pos/services/sale.service.ts:192-228 | the run that opens a cart, adds the items and completes it stores the cart route's sale |
| SaleRoutes.QuickRunStoresQuickRoute | src/modules/pos/services/sale.service.ts:131-187 | the quick sale of the items stores the quick route's sale |
| SaleRoutes.CartChargesFirstPrices | src/modules/pos/services/cart.service.ts:112-159 | a cart holds one line per product at its first price, and its subtotal is every item at that price |
| SaleRoutes.CartRunBuildsCartSale | src/modules/pos/services/cart.service.ts:46-163 | opening a cart and adding the items one by one builds the cart the comparison speaks of |
| PosService.AnsweredKeepsSound | src/modules/pos/services/sale.service.ts:131-306 | whatever a method of the service does is a command of the model and keeps the point of sale sound |
| PosService.Pos.RecalculateCart | src/modules/pos/services/cart.service.ts:264-292 | the loop stores the sum of the line totals as subtotal, and the total less the sale's discount |
| PosService.Pos.AddItem | src/modules/pos/services/cart.service.ts:85-163 | reserves stock, then adds a line or grows the product's line at its own price; refused reservations leave everything as it was |
| PosService.Pos.UpdateItem | src/modules/pos/services/cart.service.ts:168-216 | releases the product's reservations, reserves the new quantity, rewrites the line; when the new reservation is refused the old ones stay released |
| PosService.Pos.ReleaseReservations | src/modules/pos/services/cart.service.ts:294-319 | the loop releases every active reservation of the cart and product and no other |
| PosService.Pos.Reserve | src/modules/stock/services/reservation.service.ts:76-164 | reserves exactly when product, stock and expiry allow it, whatever the reservation refers to |
| PosService.Pos.ReserveForAnything | src/modules/stock/stock.controller.ts:333-345 | the same as a request of its own, in any sale's name or none |
| PosService.Pos.UpdateReservation | src/modules/stock/services/reservation.service.ts:234-356 | changes quantity, expiry and reference of an active reservation when growth is available, and its balance by the difference |
| PosService.Pos.Expire | src/modules/stock/queue/reservation-queue.processor.ts:31-88 | gives an active reservation back once its time has come, and not before |
| PosService.Pos.Release | src/modules/stock/services/reservation.service.ts:362-399 | gives an active reservation back once |
| PosService.Pos.RemoveItem | src/modules/pos/services/cart.service.ts:221-243 | releases the product's reservations and deletes the line, with the source's errors |
| PosService.Pos.AggregateSaleItems | src/modules/pos/services/sale.service.ts:514-529 | the loop answers the summed line totals and the stock items in line order |
| PosService.Pos.ProcessRows | src/modules/pos/services/sale.service.ts:450-481 | a row for each item, with the price, cost, discount and rounded quantity the source gives it |
| PosService.Pos.CalculateTotals | src/modules/pos/services/sale.service.ts:483-512 | summed line totals and payments, and total and change from them |
| PosService.Pos.ProcessPayments | src/modules/pos/services/payment.service.ts:14-44 | one row per payment in order, answering their sum |
| PosService.Pos.CompleteSale | src/modules/pos/services/sale.service.ts:192-228 | completes a draft in the source's order of checks and effects, against the balances reserved so far, and fulfils its reservations |
| PosService.Pos.SellNow | src/modules/pos/services/sale.service.ts:131-187 | creates a completed sale in the source's order of checks and effects |
| PosService.Pos.Void | src/modules/pos/services/sale.service.ts:284-306 | voids a COMPLETED sale, one reversal and one increment per line |
| PosService.Pos.CreateRefund | src/modules/pos/services/refund.service.ts:59-196 | records a refund within the limit, stocks the quantities asked back in and sets the status |
| PosService.Pos.ReceiveItems | src/modules/stock/services/movement.service.ts:38-132 | one receipt and one balance update per item |
| PosService.Pos.IssueItems | src/modules/stock/services/movement.service.ts:138-245 | checks each item alone, then one issue and one balance update per item |
| PosService.Pos.AdjustItems | src/modules/stock/services/movement.service.ts:251-411 | checks each lowered item alone, then receives or issues item by item |
| Reservations.ReservedIsActivePlusLeaked | src/modules/pos/services/cart-cleanup.service.ts:26-105 | over every run of reservations, releases, expiries, updates, completions and cleanups, the reserved quantity of each product and location is its active reservations plus what completed sales held when completed |
| Reservations.CleanUpKeepsDrift | src/modules/pos/services/cart-cleanup.service.ts:111-160 | a cleanup keeps reserved quantity and active reservations in step for every product and location |
| Reservations.CleanUpIsExact | src/modules/pos/services/cart-cleanup.service.ts:36-92 | exactly the drafts older than 24 hours are deleted, exactly their active reservations expire, no active reservation refers to a deleted cart |
| Reservations.CompletionLeaksIffHeld | src/modules/pos/services/sale.service.ts:670-680 | completion keeps the two equal if and only if the sale held nothing of the slot |
| Reservations.KeysAreInjective | src/modules/pos/services/cart-cleanup.service.ts:132 | identifiers of fixed width make the grouping key injective |
| Reservations.OneByOneIsPointwise | src/modules/pos/services/cart-cleanup.service.ts:148-159 | one decrement per reservation lowers each balance by the total of its reservations |
| Reservations.CartCleanupService.GroupBySlot | src/modules/pos/services/cart-cleanup.service.ts:131-145 | the first loop makes one group per product and location holding the total |
| Reservations.CartCleanupService.ReleaseReservedQuantities | src/modules/pos/services/cart-cleanup.service.ts:111-160 | the batched decrements, in any order of the groups, have the effect of one decrement per reservation |
| Reservations.CartCleanupService.CleanupAbandonedCarts | src/modules/pos/services/cart-cleanup.service.ts:26-105 | the job takes the specified step and answers the number of carts deleted |
| Reservations.EndedKeepsDrift | src/modules/stock/services/reservation.service.ts:362-399 | releasing or expiring a reservation keeps reserved quantity and active reservations in step |
| Reservations.ReservationIsExact | src/modules/stock/services/reservation.service.ts:76-164 | a reservation is made exactly when the product is the tenant's, product and location are live, it ends in the future and what is on hand covers it beside all that is reserved; only that balance moves |
| Reservations.EndingIsExact | src/modules/stock/services/reservation.service.ts:362-399 | a release or expiry ends an active reservation of the tenant, an expiry only when its time has come, and gives back what it reserved |
| Reservations.PatchIsExact | src/modules/stock/services/reservation.service.ts:234-356 | an update is accepted exactly when it gives something, for an active reservation of the tenant, with an expiry to come and growth that is covered; what it names is replaced, the rest kept, and the balance moves by the difference |
| Reservations.CompletionFulfils | src/modules/pos/services/sale.service.ts:670-680 | a completion fulfils exactly the sale's active reservations and gives back none of their quantity |
| Invoices.EveryRunIsValid | src/modules/invoice/services/invoice.service.ts:63-418 | in every reachable table each line is worth price times quantity less its discount plus its tax, subtotal, paid and due amount follow from lines and payments, each status implies its payment state, and invoices match their quotes |
| Invoices.CreationIsExact | src/modules/invoice/services/invoice.service.ts:63-152 | a creation is accepted exactly for known parties and known, distinct products, and bills each item with its own fields, their amounts less the discount, all of it due |
| Invoices.PaymentIsExact | src/modules/invoice/services/invoice.service.ts:353-403 | a payment is accepted exactly on the tenant's own document that is no quote, is recorded as given, and decides paid, due and status |
| Invoices.EditsAreExact | src/modules/invoice/services/invoice.service.ts:207-258 | sending, cancelling and changing the discount: when each is accepted, and that nothing else changes |
| Invoices.ConversionAcceptedIff | src/modules/invoice/services/invoice.service.ts:260-290 | a conversion is accepted exactly for the tenant's own DRAFT or SENT quote |
| Invoices.PaidIsForEver | src/modules/invoice/services/invoice.service.ts:353-418 | PAID is never left |
| Invoices.CancelledIsLeftIffPaid | src/modules/invoice/utils/invoice.helpers.ts:216-220 | CANCELLED is left if and only if a payment is recorded on a document that is not a quote |
| Invoices.UpdateKeepsTotalIffDiscountKept | src/modules/invoice/services/invoice.service.ts:215-226 | an update keeps total = subtotal - discount + tax if and only if it keeps the discount |
| Invoices.QuoteConvertsOnce | src/modules/invoice/utils/invoice.helpers.ts:200-211 | in any run a quote is the source of no invoice while DRAFT or SENT, of exactly one while ACCEPTED, and never of two |
| Invoices.ConversionCopiesTheQuote | src/modules/invoice/services/invoice.service.ts:260-341 | the invoice created carries the quote's lines and totals with nothing paid and all due, and only the quote changes beside it |
| Invoices.ProductsLoadIffDistinct | src/modules/invoice/utils/invoice.helpers.ts:47-62 | the product check passes if and only if every product is known and none is listed twice |
| Invoices.TookIsAValidStep | src/modules/invoice/services/invoice.service.ts:63-418 | whatever a method of the service does is a step of the model and keeps the table valid |
| Invoices.InvoiceService.ProcessInvoiceItems | src/modules/invoice/utils/invoice.helpers.ts:83-131 | a row for each item in order, carrying the item's own fields, worth price times quantity less discount plus tax; the accumulated subtotal is their sum |
| Invoices.InvoiceService.CreateDocument | src/modules/invoice/services/invoice.service.ts:63-152 | creates a draft that bills the items and changes nothing else, or fails for unknown parties or products |
| Invoices.InvoiceService.ConvertToInvoice | src/modules/invoice/services/invoice.service.ts:260-351 | accepts the quote and creates its invoice, or fails with the source's error |
| Invoices.InvoiceService.RecordPayment | src/modules/invoice/services/invoice.service.ts:353-403 | appends the payment and reclassifies paid, due and status, or fails on a quote |
| Lockout.RateBound | src/modules/auth/auth.service.ts:961-980 | over any run the n-th consecutive failure, n > 5, comes no earlier than 15 (n - 5) minutes after the fifth |
| Lockout.AccountReflectsStreak | src/modules/auth/auth.service.ts:961-980 | over every run the counter equals the failures since the last login, counted from the attempts alone, and the lock ends 15 minutes after the last of five or more |
| Lockout.StreakIsOfFailures | src/modules/auth/auth.service.ts:240-244 | each of those failures is an attempt with a wrong password on an active account |
| Lockout.OutcomeIsExact | src/modules/auth/auth.service.ts:230-254 | over every run an attempt is answered with a login exactly for the right, and with a failure exactly for a wrong password on an active account with fewer than five failures, or fifteen minutes since the last, behind it; it is locked out otherwise |
| Lockout.BlockedAttemptsDoNotCount | src/modules/auth/auth.service.ts:230-238 | refused attempts neither count nor extend the lock |
| Lockout.LoginService.ValidateUser | src/modules/auth/auth.service.ts:218-279 | login, failure or lock-out of one attempt, by its password and the failures of all attempts before it |
| Sessions.BeforeIsStrictAndTotal | src/modules/auth/auth.service.ts:497-515 | the comparator is a strict order, total on different sessions |
| Sessions.EnumerationOrderIsIrrelevant | src/modules/auth/auth.service.ts:425-515 | however the index is enumerated the sorted list is the same |
| Sessions.ListingIsUnique | src/modules/auth/auth.service.ts:497-515 | there is only one sorted list of the live sessions with matching metadata |
| Sessions.PagesPartitionTheListing | src/modules/auth/auth.service.ts:516-524 | pages 1 to totalPages, one after the other, are the whole list in order |
| Sessions.PagesAreClamped | src/modules/auth/auth.service.ts:518-523 | pages of a non-empty list are neither empty nor over-full, and pages past the end repeat the last |
| Sessions.RequestedIsExact | src/modules/auth/auth.service.ts:406-423 | a whole page number from 1 up is the page asked for, page sizes go up to fifty, anything less or absent is the default |
| Sessions.PageIsExact | src/modules/auth/auth.service.ts:518-524 | every page but the last is full and shows the sessions behind those of the pages before it |
| Sessions.ListedInOrder | src/modules/auth/auth.service.ts:497-515 | the current session comes first, later logins before earlier ones, later expiries before earlier ones |
| Sessions.ListingShows | src/modules/auth/auth.service.ts:437-473 | a session is shown if and only if it is indexed, its key is alive and its metadata names the user, with its own expiry and login; the current one first |
| Sessions.SessionStore.ListActiveSessions | src/modules/auth/auth.service.ts:397-533 | answers the requested page of the one sorted list; afterwards the user's index holds exactly the listed sessions |
| Sessions.SessionStore.CollectSummaries | src/modules/auth/auth.service.ts:437-473 | the loop pushes a summary for each live session with matching metadata and a cleanup for each other |
| Sessions.SessionStore.RevokeAllSessions | src/modules/auth/auth.service.ts:715-744 | deletes key, metadata and index entry of every indexed session but the one to keep |
| Sessions.SessionStore.RevokeSession | src/modules/auth/auth.service.ts:698-713 | found exactly when indexed with a live key, cleaned up either way |
| VerificationTokens.EveryRunIsValid | src/modules/auth/auth.service.ts:561-696 | in every reachable state at most one token per user and type is unused, and each token took effect at most once, for its purpose and before its expiry |
| VerificationTokens.SessionVersionCountsResets | src/modules/auth/auth.service.ts:667-677 | over every run the session version grows by exactly the number of successful resets |
| VerificationTokens.ResetRevokesEverySession | src/modules/auth/auth.service.ts:645-696 | a reset takes effect if and only if its token is redeemable, and then no key of a session indexed for the user remains |
| VerificationTokens.IssuedTokenIsTheLiveOne | src/modules/auth/auth.service.ts:1415-1448 | a new token can be redeemed for its user and purpose alone, for a day or an hour; older ones of that user and purpose no more, all others as before |
| VerificationTokens.VerificationIsExact | src/modules/auth/auth.service.ts:561-591 | a verification marks exactly that user's address verified and spends the token, or changes nothing |
| VerificationTokens.ResetIsExact | src/modules/auth/auth.service.ts:645-677 | a reset gives exactly that user the new password and the next version |
| VerificationTokens.RedeemableIff | src/modules/auth/auth.service.ts:561-580 | in every reachable state a token can be redeemed if and only if it is stored, unused, of that purpose, and made at most a day or an hour ago |
| VerificationTokens.TokenService.CreateVerificationToken | src/modules/auth/auth.service.ts:1415-1448 | spends the older tokens of the user and type and creates the new one |
| VerificationTokens.TokenService.Reset | src/modules/auth/auth.service.ts:645-696 | changes password and version, spends the token and revokes the sessions, exactly when the token is redeemable |
| VerificationTokens.TokenService.ConfirmEmail | src/modules/auth/auth.service.ts:561-591 | verifies the address and spends the token, exactly when it is redeemable |
| Mfa.EveryRunIsValid | src/modules/auth/mfa/mfa.service.ts:299-380 | every state of every run has one unconsumed challenge per user and channel, counters that match the log of comparisons, no comparison later than ten minutes after its challenge was made, and no code redeemed twice |
| Mfa.RunLimits | src/modules/auth/mfa/mfa.service.ts:349-380 | over every run at most one pending challenge per user and channel, at most five comparisons and one success per challenge, all within ten minutes of its creation, at most one redemption per backup code |
| Mfa.CreatedRecordsRequests | src/modules/auth/mfa/mfa.service.ts:313-334 | the creation time so referred to is that of the request that made the challenge, also after it is deleted |
| Mfa.ComparesWithTheGoodOne | src/modules/auth/mfa/mfa.service.ts:349-380 | a verification compares the code once with the one challenge that is still good, told from the log and the creation times, and with none if there is none |
| Mfa.SucceedsIffGood | src/modules/auth/mfa/mfa.service.ts:361-379 | it succeeds if and only if the code matches and there is such a challenge |
| Mfa.SuccessMeans | src/modules/auth/mfa/mfa.service.ts:361-379 | over every run, a success means a matching code, within ten minutes of the challenge, after fewer than five comparisons with it and no earlier success |
| Mfa.SentCodeIsTheGoodOne | src/modules/auth/mfa/mfa.service.ts:299-335 | after a code is sent its challenge is the only good one of the user and channel, for ten minutes, and nobody else's changes |
| Mfa.ReplacementIsExact | src/modules/users/users.service.ts:243-260 | a replacement leaves the user exactly so many codes, new and unused, and nobody else's touched |
| Mfa.DisablingIsExact | src/modules/auth/mfa/mfa.service.ts:118-142 | disabling leaves the user no challenge and no code, and nobody else's touched |
| Mfa.ActiveIsUnique | src/modules/users/users.service.ts:340-355 | the newest-first lookup never has a choice |
| Mfa.CodeAcceptedIffUnused | src/modules/auth/mfa/mfa.service.ts:183-203 | a backup code is accepted if and only if an unused code of the user matches, and only that one is spent |
| Mfa.MfaService.VerifyOutOfBandChallenge | src/modules/auth/mfa/mfa.service.ts:349-380 | answers true exactly when the code matches a challenge of the user and channel that is not consumed, made at most ten minutes ago and compared fewer than five times, and then and only then logs a success; a good challenge is compared once, whatever the code |
| Mfa.MfaService.CreateOutOfBandChallenge | src/modules/auth/mfa/mfa.service.ts:299-335 | consumes the pending challenges of the channel and creates one, except for SMS |
| Mfa.MfaService.ValidateBackupCode | src/modules/auth/mfa/mfa.service.ts:183-203 | the loop spends the first unused matching code |
| Mfa.MfaService.ReplaceBackupCodes | src/modules/users/users.service.ts:243-260 | deletes the user's codes and creates the new ones |
| Mfa.MfaService.DisableTwoFactor | src/modules/auth/mfa/mfa.service.ts:118-142 | deletes the user's codes and challenges |
| SuperAdmin.StepKeepsSuperAdminIff | src/modules/location/location.service.ts:297-332 | one request takes a tenant's last SuperAdmin if and only if it deletes the location all of the tenant's SuperAdmins are assigned for |
| SuperAdmin.EveryRunKeepsSuperAdmin | src/modules/access-control/services/role.service.ts:197-411 | a tenant that has a SuperAdmin keeps one through every run of role, assignment, member and invitation requests, and of location deletions other than those |
| SuperAdmin.SuperAdminLostWithLocation | src/modules/location/location.service.ts:297-332 | an input: the tenant-wide SuperAdmin is unassigned while another is assigned for a location, then the location is deleted |
| SuperAdmin.CreatedTenantsHaveSuperAdmin | src/modules/tenants/tenants.service.ts:83-116 | every tenant created by the service has a SuperAdmin from then on, as long as no location deletion takes the last one along |
| SuperAdmin.ProtectedRolesAreFrozen | src/modules/access-control/services/role.service.ts:200-214 | no run renames, deletes or re-permissions a SuperAdmin role |
| SuperAdmin.UnassignRefusedIffSoleHolder | src/modules/access-control/services/role.service.ts:379-396 | unassigning a SuperAdmin is refused if and only if every holder of the role in the tenant is that user |
| SuperAdmin.RefusalIsNeedlessIff | src/modules/access-control/services/role.service.ts:379-396 | the refusal is needless, the role would still be held, if and only if that user holds it a second time in another scope |
| SuperAdmin.AcceptedIsLeftIffLate | src/modules/tenants/tenants.service.ts:703-813 | an ACCEPTED invitation changes if and only if after its expiry it is accepted again by its addressee or declined by anyone with its token |
| SuperAdmin.AnsweredForEver | src/modules/tenants/tenants.service.ts:626-845 | over every run an invitation that was accepted, declined, expired or cancelled is never pending again and never accepted again |
| SuperAdmin.AssignmentGainedIff | src/modules/access-control/services/role.service.ts:287-365 | which requests make an assignment: in the tenant and for the location asked for, for an invited role tenant-wide |
| SuperAdmin.AssignmentLostIff | src/modules/access-control/services/role.service.ts:367-412 | which requests take an assignment away, exactly; none changes one |
| SuperAdmin.MembershipIs | src/modules/tenants/tenants.service.ts:731-750 | creators and those who accept become members, only a removal parts them |
| SuperAdmin.AssignAcceptedIff | src/modules/access-control/services/role.service.ts:287-365 | a role can be assigned exactly when it is the tenant's, the location is given exactly when the scope asks for it, and not twice for one location |
| SuperAdmin.AcceptanceIsExact | src/modules/tenants/tenants.service.ts:670-745 | an invitation can be accepted exactly by its addressee, in time, while pending; it is accepted then and no other changes |
| SuperAdmin.WithdrawalIsExact | src/modules/tenants/tenants.service.ts:626-845 | when an invitation can be declined or cancelled, and that nothing else changes |
| SuperAdmin.RoleRequestAcceptedIff | src/modules/access-control/services/role.service.ts:197-285 | when roles can be made, changed and deleted: names are unique in a tenant, its SuperAdmin role is protected |
| SuperAdmin.RoleUpdateIsExact | src/modules/access-control/services/role.service.ts:197-270 | an update renames only by a name that is not empty and replaces permissions only when they are given |
| SuperAdmin.RoleRequestIsExact | src/modules/access-control/services/role.service.ts:272-285 | creating or deleting a role changes that role alone |
| SuperAdmin.NewRowsAreExact | src/modules/tenants/tenants.service.ts:83-116 | a new tenant gets its SuperAdmin role with the permissions given; an invitation is pending, in its tenant, with a role of the tenant if any |
| SuperAdmin.RemovalAcceptedIff | src/modules/tenants/tenants.service.ts:851-936 | when members, assignments and locations can be removed |
| SuperAdmin.TookIsAStep | src/modules/access-control/services/role.service.ts:197-411 | whatever a method of the services does is a step of the model, and keeps every tenant's SuperAdmin under that condition |
| SuperAdmin.AccessControl.RemoveUserAssignment | src/modules/access-control/services/role.service.ts:367-412 | deletes the matching assignments unless they are the last SuperAdmin's |
| SuperAdmin.AccessControl.UpdateRolePermissions | src/modules/access-control/services/role.service.ts:197-270 | renames and replaces permissions except on protected roles |
| SuperAdmin.AccessControl.DeleteRole | src/modules/access-control/services/role.service.ts:272-285 | deletes an unprotected role with its assignments |
| SuperAdmin.AccessControl.AssignUser | src/modules/access-control/services/role.service.ts:287-365 | creates an assignment after the source's checks and the database's unique key |
| SuperAdmin.AccessControl.RemoveTenantMember | src/modules/tenants/tenants.service.ts:851-936 | removes a member and their assignments unless they are a SuperAdmin |
| SuperAdmin.AccessControl.AcceptInvitation | src/modules/tenants/tenants.service.ts:670-776 | checks address, expiry and status in that order, then joins the tenant and takes the role |
| SuperAdmin.AccessControl.DeclineInvitation | src/modules/tenants/tenants.service.ts:785-845 | checks expiry and status in that order, without comparing an address, then declines |
| SuperAdmin.AccessControl.DeleteTenantInvitation | src/modules/tenants/tenants.service.ts:626-668 | cancels an invitation of the tenant that was neither accepted nor cancelled |
| SuperAdmin.AccessControl.DeleteLocation | src/modules/location/location.service.ts:297-332 | refuses a location with stock, else deletes it and the assignments made for it |

## Left out

- Real concurrency and failed writes: several checks of the source read outside the transaction that writes; here every request is one atomic step, and Redis calls succeed.
- Stock transfers: their bookkeeping (draft, in transit, shortages) is not part of this model; a shipment moves stock as a stock-out does, a receipt or cancellation as a stock-in.
- A stock request may name any reference, a sale too: movements are told apart by the request that made them, not by that text.
- The unit costs a movement stores, and the order of layers created within one millisecond.
- A reservation refers to a sale or to something else: which other kinds of reference there are is not told apart. A new cart's key is one no reservation refers to yet.
- Writes after a reservation succeed: a cart item that cannot be written after its stock was reserved is a failed write like others.
- Decimal columns of bounded width: money is unbounded; the cart's binary floating-point arithmetic is idealised as exact.
- Unicode case mapping and string units: `toUpperCase` and `toLowerCase` are parameters with the two properties used of them.
- Text that starts with white space or a sign in `parseInt`: no stored number has any.
- Hashing, verification and random tokens: whether a code or password matches is an input, and new keys and tokens are ones never used before.
- E-mail addresses of invitations are compared in one letter case.
- Daylight saving: "plus 15 minutes", "plus 10 minutes" and "minus 24 hours" are durations.
- Session registration races, metadata expiry and device text: a metadata row is present or absent, its descriptive fields are carried along unread.
- Role creation, tenant creation and invitation are requests of the model without a method of the class.
- Controllers, guards, formatters, filters, plain CRUD, reports and pricing markup: nothing to prove beyond one body.
