# Inventory stock and alert engine, in Dafny

This project models the stock-and-alert engine of a multi-user inventory backend. Each user
owns categories, products in those categories, stock movements on the products (ENTRADA adds
stock, SALIDA removes it) and low-stock alerts derived from the resulting stock level.

The model covers:

- the movement handlers: recording a movement under the insufficient-stock guard, deleting one
  by reverting its delta, and the alert lifecycle that follows each of them;
- the alert handlers: listing with a status filter, stats, manual resolution with an
  already-resolved guard, lookup and deletion;
- the product handlers: creation with validation, a generated SKU and the initial alert, update
  of the optional fields, deletion with its cascade, and the stock-status list filter;
- the category handlers: trimmed and validated names, listing sorted by name with product
  counts, and deletion refused while products remain;
- the SKU generator: `SKU-` followed by the last six digits of the clock and a three-digit
  zero-padded random number, retried until no product holds it.

Layout:

- `common.dfy` (`Common`): ids, `Option`, `Result` and the error taxonomy.
- `entities.dfy` (`Entities`): the four stored records.
- `sku.dfy` (`SkuGen`): the decimal rendering, the candidate SKU and the retry loop.
- `stock.dfy` (`StockLedger`): movement validation, the stock delta, and the movement list filter.
- `alerts.dfy` (`AlertRules`): the invariant "at most one unresolved alert per product" and the
  alert operations on the alert table.
- `products.dfy` (`ProductRules`) and `categories.dfy` (`CategoryRules`): the pure parts of the
  product and category handlers.
- `store.dfy` (`Inventory`): a `Store` class whose four map fields are the tables. Its methods
  are the state-changing handlers. Its `Valid()` predicate is the referential integrity of the
  tables, SKU uniqueness, and the one-unresolved-alert invariant; every method preserves it.
- `scenarios.dfy` (`Scenarios`): short runs of the handlers, proved from their contracts alone.

Modelling choices:

- Ids are `nat`s handed out by one counter in the store.
- Time is an `int` passed in by the caller. The clock and the random number the SKU generator
  reads are a sequence of draws passed in as a parameter.
- A request field that may be absent is an `Option`. JavaScript falsiness is written out: a
  string is false when it is absent or empty, a number when it is absent or zero.
- Prices are integers (cents).

Where the documented behaviour of the system and its code disagree, the model follows the code,
except where a row under Findings corrects it:

- Deleting a movement reverts it with no floor, so stock can become negative
  (`StockLedger.RevertCanGoNegative`). For that reason, non-negative stock is not part of
  `Valid()`.
- The creation handler's initial alert fires when stock is above the minimum, not below it.
  The store applies the corrected condition (first row under Findings).
- The movement list applies no owner filter (`StockLedger.EmptyQueryKeepsAll`).
- "A product has an unresolved alert exactly when its stock is below its minimum" is not an
  invariant of the code, and the model does not keep it. Deleting a movement only ever creates
  an alert (movement.controller.ts:282-297), so a delete that lifts the stock back to the minimum
  leaves the alert unresolved (`Scenarios.AlertOutlivesRestoredStock`). Updating a product
  changes `minStock` without re-evaluating alerts (product.controller.ts:181). Manual
  resolution and deletion of an alert break it too. What the store does keep is "at most one
  unresolved alert per product".
- Reading or deleting a movement on another user's product answers 403 "Access denied"
  (movement.controller.ts:93-95, 263-265), not not-found; the model returns `AccessDenied`.

## Model

| member | source | states |
|---|---|---|
| Entities.ParseMovementType | backend/src/controllers/movement.controller.ts:133-135 | only the exact strings "ENTRADA" and "SALIDA" are movement types; every other string is rejected |
| SkuGen.DecimalStringDigits | backend/src/utils/generateSKU.ts:11 | `toString()` of a non-negative integer is a non-empty string of digits with no leading zero |
| SkuGen.DecimalStringRoundTrip | backend/src/utils/generateSKU.ts:11 | parsing the decimal rendering of n gives back n |
| SkuGen.DecimalStringLength | backend/src/utils/generateSKU.ts:11 | the rendering is longer than k digits exactly when n ≥ 10^k |
| SkuGen.LastSixIsSuffix | backend/src/utils/generateSKU.ts:11 | `slice(-6)` keeps the last min(6, length) characters |
| SkuGen.PadStartZerosShape | backend/src/utils/generateSKU.ts:12 | `padStart(n, "0")` keeps the string as a suffix and fills the front up to length n with '0' |
| SkuGen.SuffixRoundTrip | backend/src/utils/generateSKU.ts:12 | the random part is exactly three digits and reads back as the drawn number |
| SkuGen.CandidateLayout | backend/src/utils/generateSKU.ts:11-13 | a candidate is "SKU-", then at most six clock digits, then the three-digit random part |
| SkuGen.CandidateLength | backend/src/utils/generateSKU.ts:11-13 | with a clock of at least six digits, every candidate has length 13 |
| SkuGen.CandidateDistinguishesDraws | backend/src/utils/generateSKU.ts:11-13 | at the same clock reading, different random draws give different SKUs |
| SkuGen.GenerateSku | backend/src/utils/generateSKU.ts:7-20 | the result is the first candidate that no product holds, every earlier candidate was taken, and no result means every draw was taken |
| StockLedger.ValidateMovementRequest | backend/src/controllers/movement.controller.ts:129-139 | the request passes exactly when every field is truthy, the type is ENTRADA or SALIDA and the quantity is positive; otherwise it names the first failing check |
| StockLedger.Applied | backend/src/controllers/movement.controller.ts:154-158 | applying a positive quantity raises stock exactly for ENTRADA, and reverting undoes it |
| StockLedger.Reverted | backend/src/controllers/movement.controller.ts:270-274 | reverting a positive quantity lowers stock exactly for ENTRADA |
| StockLedger.ApplyMovement | backend/src/controllers/movement.controller.ts:150-166 | a SALIDA succeeds exactly when it leaves stock above zero; a refusal reports the current stock and the quantity requested |
| StockLedger.RevertCanGoNegative | backend/src/controllers/movement.controller.ts:270-276 | an ENTRADA of 10 followed by a SALIDA of 5 is accepted, and deleting the ENTRADA then leaves stock at -5 |
| StockLedger.FilterMovements | backend/src/controllers/movement.controller.ts:15-48 | a row is listed exactly when it matches the product, the type (ENTRADA or SALIDA only) and both inclusive date bounds, as often as it occurs in the rows; the list keeps the database order |
| StockLedger.EmptyQueryKeepsAll | backend/src/controllers/movement.controller.ts:15-23 | with no query parameters every movement of every user is listed |
| AlertRules.AtMostOneActiveCount | backend/src/controllers/movement.controller.ts:185-200 | under the invariant, a product has at most one unresolved alert, and exactly one when it has any |
| AlertRules.NewAlert | backend/src/entities/Alert.entity.ts:23-30 | a new alert is unresolved, has no resolution time, and carries the given product and owner |
| AlertRules.RaiseKeepsInvariant | backend/src/controllers/movement.controller.ts:185-200 | raising an alert only when the product has none keeps the invariant and leaves exactly that alert unresolved |
| AlertRules.Resolved | backend/src/controllers/alert.controller.ts:101-102 | resolving sets `isResolved` and stamps `resolvedAt`, and keeps the alert's identity, product, owner and creation time |
| AlertRules.ResolveAllFor | backend/src/controllers/movement.controller.ts:201-215 | every unresolved alert of the product becomes resolved; alerts of other products and alerts already resolved are untouched; no alert is added or removed |
| AlertRules.ResolveActive | backend/src/controllers/movement.controller.ts:203-214 | the loop returns exactly ResolveAllFor of the table: every unresolved alert of the product resolved at `now`, every other alert as it was |
| AlertRules.ResolveAllKeepsInvariant | backend/src/controllers/movement.controller.ts:201-215 | resolving all of a product's alerts keeps the invariant |
| AlertRules.ResolveOne | backend/src/controllers/alert.controller.ts:88-103 | fails as not found for a missing or foreign alert and as already resolved for a resolved one; otherwise only that alert changes |
| AlertRules.ResolveTwiceFails | backend/src/controllers/alert.controller.ts:97-99 | a second resolution of the same alert is refused as already resolved |
| AlertRules.ResolveOneKeepsInvariant | backend/src/controllers/alert.controller.ts:101-103 | manual resolution keeps the invariant |
| AlertRules.RemoveKeepsInvariant | backend/src/controllers/alert.controller.ts:163 | removing alerts keeps the invariant |
| AlertRules.FilterAlerts | backend/src/controllers/alert.controller.ts:11-27 | only the caller's alerts are listed; "active" keeps unresolved ones, "resolved" resolved ones, and any other status keeps all |
| AlertRules.FilterAlertsPartition | backend/src/controllers/alert.controller.ts:15-21 | the "active" and "resolved" lists are disjoint, together give the full list, and their sizes add up |
| AlertRules.AlertStatsFor | backend/src/controllers/alert.controller.ts:122-138 | the active and resolved counts add up to the total, each taken over the caller's alerts |
| AlertRules.StatsAsWrittenOmitsResolved | backend/src/controllers/alert.controller.ts:140-144 | the response as written never carries the resolved count |
| AlertRules.StatsResponseFor | backend/src/controllers/alert.controller.ts:140-144 | the corrected response carries `resolved` as the size of the resolved list and `active` as the size of the active list, next to the total, and the three fields add up |
| ProductRules.ValidateDraft | backend/src/controllers/product.controller.ts:88-100 | a draft passes exactly when the required fields are present and no number is negative; a missing field is reported as MissingFields, and a complete draft with a negative price, minimum or stock as NegativeValues |
| ProductRules.NewProduct | backend/src/controllers/product.controller.ts:114-124 | the stored product takes the generated SKU, the caller as owner, and the draft's category, price and non-negative stock and minimum |
| ProductRules.InitialAlertInverted | backend/src/controllers/product.controller.ts:128-135 | a product created with stock 3 and minimum 5 gets no alert, and one created with stock 10 and minimum 5 gets one |
| ProductRules.InitialAlertNeverMatchesRule | backend/src/controllers/product.controller.ts:129 | the written condition and the below-minimum rule never both call for an alert, and both decline only when stock equals the minimum |
| ProductRules.Classify | backend/src/controllers/product.controller.ts:38-47 | with a non-negative minimum, every stock level is in exactly one of critico, bajo and suficiente |
| ProductRules.NegativeMinimumOverlaps | backend/src/controllers/product.controller.ts:38-47 | with a negative minimum a product can be both critico and suficiente |
| ProductRules.ParseStatus | backend/src/controllers/product.controller.ts:38-47 | only the three exact status words select a class; anything else applies no status filter |
| ProductRules.FilterProducts | backend/src/controllers/product.controller.ts:15-47 | a product is listed exactly when the caller owns it and it is in the requested category, and: for "critico" its stock is below its minimum; for "bajo" its stock is at least the minimum and below 1.5 times it; for "suficiente" its stock is at least 1.5 times the minimum; any other status applies no stock condition |
| ProductRules.StatusListsPartition | backend/src/controllers/product.controller.ts:38-47 | with non-negative minimums, the three class lists are disjoint and together give the unfiltered list |
| ProductRules.ApplyPatch | backend/src/controllers/product.controller.ts:166-182 | each supplied field is assigned (the name only when truthy, the category only when it differs); id, SKU, stock and owner never change |
| ProductRules.EmptyPatchIsIdentity | backend/src/controllers/product.controller.ts:178-182 | an update with no fields leaves the product as it was |
| CategoryRules.TrimStart | backend/src/controllers/category.controller.ts:61 | for any set of characters to cut (white space for `trim`), drops exactly the maximal leading run of them |
| CategoryRules.TrimEnd | backend/src/controllers/category.controller.ts:61 | for any set of characters to cut, drops exactly the maximal trailing run of them |
| CategoryRules.TrimShape | backend/src/controllers/category.controller.ts:61 | the result is a slice of the input with only cut characters removed from either side, and it neither starts nor ends with one |
| CategoryRules.TrimIdempotent | backend/src/controllers/category.controller.ts:61 | trimming twice is trimming once |
| CategoryRules.TrimEmptyIffBlank | backend/src/controllers/category.controller.ts:56 | a name trims to "" exactly when it is made only of cut characters (all white space for `trim`) |
| CategoryRules.EmptyTrimIsBlank | backend/src/controllers/category.controller.ts:56 | a name that trims to "" is made only of cut characters |
| CategoryRules.BlankTrimsToEmpty | backend/src/controllers/category.controller.ts:56 | a name made only of cut characters trims to "" |
| CategoryRules.ValidateName | backend/src/controllers/category.controller.ts:56-61 | a name is accepted exactly when it is present and not all whitespace, and the stored name is the trimmed, non-empty input |
| CategoryRules.ProductCount | backend/src/controllers/category.controller.ts:117-120 | the count is zero exactly when no product is in the category |
| CategoryRules.NameLeTotal | backend/src/controllers/category.controller.ts:12 | any two names are ordered one way or the other |
| CategoryRules.NameLeTransitive | backend/src/controllers/category.controller.ts:12 | the name order is transitive |
| CategoryRules.InsertByName | backend/src/controllers/category.controller.ts:12 | inserting into a sorted list gives a sorted list with one more element |
| CategoryRules.SortByName | backend/src/controllers/category.controller.ts:12 | the result is sorted by name and is a permutation of the input |
| CategoryRules.OwnedEntries | backend/src/controllers/category.controller.ts:9-23 | exactly the caller's categories, each with its product count |
| CategoryRules.OwnedEntriesOnce | backend/src/controllers/category.controller.ts:9-23 | rows with distinct ids give a list in which every entry occurs exactly once |
| CategoryRules.ListCategories | backend/src/controllers/category.controller.ts:9-23 | the caller's categories sorted by name, each with its product count and a permutation of the owned entries; when the rows' ids are distinct, as a table's primary keys are, each entry occurs exactly once |
| Inventory.AddProductKeepsTables | backend/src/entities/Product.entity.ts:21-22 | adding a product with a fresh id, an unused SKU and an owned category keeps the store valid, and the product has no alert |
| Inventory.CascadeDeleteKeepsTables | backend/src/entities/Movement.entity.ts:46-48 | removing a product with its movements and alerts keeps the store valid |
| Inventory.Store.RaiseAlertIfNone | backend/src/controllers/movement.controller.ts:185-200 | an alert is created only when the product has no unresolved one, and afterwards it has exactly one |
| Inventory.Store.ResolveActiveAlerts | backend/src/controllers/movement.controller.ts:201-215 | the alert table becomes ResolveAllFor of the old table, the other tables are unchanged, and the store stays valid |
| Inventory.Store.CreateMovement | backend/src/controllers/movement.controller.ts:124-247 | validation, the not-found and insufficient-stock errors, with nothing changed on any of them; otherwise the movement and the new stock are stored, the previous stock is reported, and the product has exactly one unresolved alert when below its minimum and none otherwise; the id counter advances by one, or by two when an alert is created |
| Inventory.Store.DeleteMovement | backend/src/controllers/movement.controller.ts:249-307 | not found or access denied with nothing changed; otherwise the movement is removed, the delta reverted with no floor, and an alert raised only when the product is below its minimum and has none, advancing the id counter only then; no alert is resolved |
| Inventory.Store.GetMovement | backend/src/controllers/movement.controller.ts:83-95 | not found for a missing movement, access denied when the product is another user's, otherwise the stored movement |
| Inventory.Store.GetAlert | backend/src/controllers/alert.controller.ts:55-62 | the alert is returned exactly when it exists and is the caller's |
| Inventory.Store.ResolveAlert | backend/src/controllers/alert.controller.ts:84-118 | fails as not found or already resolved with nothing changed, succeeds for the caller's unresolved alert, and changes only that alert |
| Inventory.Store.DeleteAlert | backend/src/controllers/alert.controller.ts:151-170 | removes exactly the caller's alert, or fails as not found with nothing changed |
| Inventory.Store.GetProduct | backend/src/controllers/product.controller.ts:60-67 | the product is returned exactly when it exists and is the caller's |
| Inventory.Store.DrawSku | backend/src/controllers/product.controller.ts:112 | the SKU is the candidate of the draw it reports, every earlier draw's candidate is taken, and no product holds the SKU |
| Inventory.Store.InsertProduct | backend/src/controllers/product.controller.ts:126-135 | stores the product; it has an unresolved alert, and at most one, exactly when it starts below its minimum (the corrected condition); the id counter advances by one, or two with the alert |
| Inventory.Store.CreateProduct | backend/src/controllers/product.controller.ts:76-148 | succeeds exactly for a valid draft in a category the caller owns; the stored product's SKU is the candidate of the first draw whose candidate no product held; it has an unresolved alert exactly when it starts below its minimum; the id counter advances by one, or two with the alert; errors change nothing |
| Inventory.Store.UpdateProduct | backend/src/controllers/product.controller.ts:150-197 | not found for a foreign product or a new foreign category; an owned product whose category is kept or changed to one the caller owns is updated with the patch; alerts are not re-evaluated |
| Inventory.Store.DeleteProduct | backend/src/controllers/product.controller.ts:199-219 | removes the caller's product together with its movements and alerts |
| Inventory.Store.CreateCategory | backend/src/controllers/category.controller.ts:52-72 | a blank name is refused; otherwise a category with the trimmed name is stored for the caller and the id counter advances by one |
| Inventory.Store.UpdateCategory | backend/src/controllers/category.controller.ts:74-100 | the name is checked before ownership; a valid name on the caller's category succeeds, and only the name changes, to the trimmed input |
| Inventory.Store.DeleteCategory | backend/src/controllers/category.controller.ts:102-131 | not found for a foreign category, refused with the product count while products remain; the caller's empty category is removed |
| Scenarios.CreateThenDeleteRestoresStock | backend/src/controllers/movement.controller.ts:150-182 | recording a movement and then deleting it restores the product's stock |
| Scenarios.SalidaOfWholeStockRefused | backend/src/controllers/movement.controller.ts:157-165 | a SALIDA of the entire stock is refused with the stock and the quantity, and nothing changes |
| Scenarios.ResolveTwice | backend/src/controllers/alert.controller.ts:93-103 | the first resolution succeeds and the second is refused as already resolved |
| Scenarios.InitialAlertOnCreation | backend/src/controllers/product.controller.ts:128-135 | with the corrected condition, stock 3 with minimum 5 gives the new product exactly one unresolved alert, and stock 10 with minimum 5 gives it none; the stored SKU is `SKU-` followed by digits |
| Scenarios.AlertOutlivesRestoredStock | backend/src/controllers/movement.controller.ts:267-297 | a SALIDA of one unit at the minimum raises an alert; deleting it restores the stock to the minimum, and the alert stays unresolved |

## Left out

- Listing order: the alert and product lists are maps from id to row, so they carry no order at
  all; the database's `createdAt DESC` order is not modelled. The movement list keeps the order
  of the rows it is given. Category names are compared by code point rather than by the database
  collation.
- The product list's `search` filter (`ILike` on the name) is not modelled: it needs the
  database's case-insensitive pattern matching.
- The JSON shaping of responses (joined relations, selected fields) is not modelled. Neither are
  HTTP status codes beyond the error kind.
- `getCategoryById` is not modelled; it is a plain owner-scoped lookup outside the stock and
  alert rules.
- Authentication, reports, logging, routing and the database configuration are not part of
  this model.
- Concurrency and transactions are not modelled. Each handler runs alone and completes. The
  model does not capture two requests interleaving (for example, two movements reading the
  same stock) or a failure between the movement write and the stock write.
- Each handler reads the clock once (`now`). The source calls `new Date()` per resolved alert.
- JSON `null` is not representable: a request field is present or absent. In the source,
  `description !== undefined` (product.controller.ts:179) lets `null` clear the description,
  and the `price === undefined` check at creation (product.controller.ts:90) lets `null` through.
- Integer width: quantities, stock and minimums are unbounded `int`s, and prices are unbounded
  integer cents. In the source they are 32-bit PostgreSQL `int` columns
  (backend/src/entities/Movement.entity.ts:31, backend/src/entities/Product.entity.ts:33-37), and the price is
  `decimal(10,2)` (backend/src/entities/Product.entity.ts:30). A value out of range makes the database save
  fail, and the request answers 500. In `createMovement` that failure comes at the stock save
  (movement.controller.ts:182), after the movement row is already written (:178), so the
  movement stays recorded and the stock stays unchanged. The model instead succeeds with the
  large value: for example, an ENTRADA of 1,000,000,000 on a stock of 2,000,000,000, or a
  product created with stock 3,000,000,000.
- `parseInt`/`parseFloat` of request values are not modelled. `parseInt` reads a number through
  its string form, so a JSON quantity of 1e21 becomes 1; the model takes the number itself. A
  fractional or non-numeric value is not representable.
- Dates in the movement filter are integers. An unparseable `startDate`/`endDate`, which in
  the source compares as `NaN` and filters everything out, is not modelled.
- Inventory.Store.CreateProduct: covers only runs in which the SKU loop finds a free candidate
  among the given draws (it requires one). The source loops without bound and would never
  return if every candidate were taken.
- SkuGen.GenerateSku: models the unbounded retry loop as a finite sequence of clock and random
  draws. It returns no SKU when the sequence runs out.

## Findings

| source | as written | input that shows it | evidently intended | confidence | as-written member | corrected member |
|---|---|---|---|---|---|---|
| backend/src/controllers/product.controller.ts:129 | the initial alert is created when `currentStock > minStock` | a product created with currentStock 3 and minStock 5 gets no alert; one with 10 and 5 gets one | an alert when the initial stock is already below the minimum (`currentStock < minStock`), as the comment above the check and the movement handlers' rule say | high, not executed | ProductRules.InitialAlertInverted | Inventory.Store.CreateProduct |
| backend/src/controllers/alert.controller.ts:143 | the `resolved` field of the stats response is set to `resolveAlert`, the handler function | any store: the response's `resolved` is a function, which JSON serialisation drops | `resolved: resolvedAlerts`, the count computed just above | high, not executed | AlertRules.StatsAsWrittenOmitsResolved | AlertRules.StatsResponseFor |
