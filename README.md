# Warehouse inventory core, modelled in Dafny

This project models the stock-keeping core of a warehouse management backend. It covers:

- the **movement engine** (`applyInventoryMovement`). This is the only code that changes a product's stock record, which holds a quantity and a weighted-average cost;
- the four **document workflows** built on the engine: an inbound receipt, an outbound dispatch, a bulk inbound CSV and a bulk outbound CSV. Each one runs inside a single transaction: it either commits every row or rolls everything back;
- the **catalogue import**: the file-format dispatch followed by an upsert keyed by SKU;
- the **product lifecycle**: create, update, archive, delete (which archives), lookup by SKU, and the filtered product list;
- the read-only **valuation reports** (total, by category, by product) and **inventory screens** (the stock list, the low-stock list, the audit trail).

## Layout

| file | module | models |
|---|---|---|
| common.dfy | `Common` | `Option`, `Result`, `Outcome`, the error values the controllers raise, JavaScript truthiness of request fields |
| store.dfy | `Store` | the tables as the datatype `Db`, the invariant `Consistent`, and the class `Warehouse` whose fields the workflows update in place |
| text.dfy | `Text` | `trim`, splitting on a bar, `Number(text)` for decimal literals, the PostgreSQL integer cast, `ILIKE`, and code-point string order |
| order.dfy | `Order` | sorted keys, a stable insertion sort by a total preorder, duplicate-freedom, sums |
| inventory_service.dfy | `InventoryService` | `applyInventoryMovement` |
| inbound.dfy / outbound.dfy | `Inbound` / `Outbound` | `createInbound` / `createOutbound` |
| bulk_inbound.dfy / bulk_outbound.dfy | `BulkInbound` / `BulkOutbound` | `bulkInboundUpload` / `bulkOutboundUpload` |
| bulk_inventory.dfy | `BulkInventory` | `parseFile` and `bulkUploadInventory` |
| products.dfy | `Products` | the product handlers |
| inventory_valuation.dfy | `InventoryValuation` | the three valuation reports |
| inventory_reports.dfy | `InventoryReports` | `getInventory`, `getLowStockItems`, `getInventoryAudit` |

## How the model is built

- **State.** `Store.Warehouse` is a class.
  - Products and stock records are maps keyed by product id.
  - Receipts, line items, outbound records and audit entries are sequences the methods append to.
  - Three counters hand out the serial ids.
  - `State()` reads the whole store as a `Db` value.
  - A transaction takes `State()` as a snapshot after BEGIN. On an error it calls `Restore(snapshot)`, which is the ROLLBACK.
- **Workflows.** Every workflow is an imperative method whose loop goes over the items or rows exactly as the controller does. Each method is proved equal to a specification function on `Db`: `CreateInboundSpec`, `CreateOutboundSpec`, `BulkInboundSpec`, `BulkOutboundSpec`, `BulkUploadSpec`, and the `*Spec` functions of `Products`. The lemmas about those functions give each workflow its properties: what a commit appends, which quantities change, that the invariant is kept, and that a failure changes nothing.
- **Numbers.**
  - Quantities are unbounded integers (`int`). Average costs are exact rationals (`real`) rather than JavaScript doubles.
  - A JSON number in a request body is a `real`, wrapped in `Option` for an absent or null field.
  - A unit cost is `Undefined`, `Null`, `Cost(amount)` or `NotANumber`.
  - A CSV cell is a string, or `None` for a missing column.
  - `Number(text)` is modelled for decimal literals with optional sign and surrounding JavaScript white space. Blank text reads as 0 (`Text.NumberOfBlank`), and anything else reads as NaN.
  - Storing a value in an integer column accepts a whole number and refuses anything else with PostgreSQL's "invalid input syntax for type integer" (`Store.IntColumn`, `Text.PgInteger`).
- **Ordering.**
  - `ORDER BY` on text is code-point order (`Text.LexLe`), with NULL last.
  - Reports are sorted by an insertion sort over a total preorder. SQL leaves the order of rows that tie unspecified; the model fixes one.
  - The audit screen's `created_at DESC` is the reverse of the order in which entries were appended.
- **Same behaviour as the code.** Each model keeps the code's behaviour where it deviates from the design's stated intent:
  - The bulk inbound controller checks only that `quantity` is present, not that it is positive. The design says every line must have quantity > 0 and that stock never goes negative. The model follows the code. `BulkInbound.Validation` selects either the code as written or the corrected check (see Findings).
  - Valuation by category groups NULL and empty categories separately, then labels both "Uncategorized", so that label can appear twice (`InventoryValuation.UncategorizedTwice`).
  - In the catalogue import, an empty `low_stock_threshold` cell reaches the integer column as `''`. The cast refuses it, so the whole import rolls back (`BulkInventory.BlankThresholdRefused`).
  - `deleteProduct` archives the product without checking that it exists or is active, and always replies with success (`Products.DeleteProductSpec`).
- **Parameters.** The caller's user id is a parameter. The uploaded file arrives already split into rows of text fields.

## Model

| member | source | states |
|---|---|---|
| InventoryService.Move | backend/src/services/inventory.service.js:37-63 | INBOUND fails with "unit_cost is required" exactly when the cost is missing, null, NaN or negative. On success the quantity grows by q, the stock value grows by exactly q × unit cost, and the average is 0 when the new quantity is 0. OUTBOUND fails with "Insufficient stock" exactly when q exceeds the stock. On success it subtracts q and keeps the average cost. Any other type fails with "Invalid movement type" |
| InventoryService.ApplyMovement | backend/src/services/inventory.service.js:20-74 | with no stock record, "Inventory record not found". Otherwise the record becomes the movement's result. Every other record and every other table are unchanged |
| InventoryService.ApplyInventoryMovement | backend/src/services/inventory.service.js:5-75 | the read-compute-update method reaches exactly the outcome and state of `ApplyMovement`. A failure leaves the store unchanged |
| InventoryService.MoveKeepsNonNegative | backend/src/services/inventory.service.js:47-60 | starting from non-negative stock and average cost, a successful movement of a non-negative quantity leaves both non-negative |
| InventoryService.MovementPreservesConsistent | backend/src/services/inventory.service.js:65-74 | such a movement keeps the store consistent: stock ≥ 0, every record belongs to a product, SKUs unique |
| InventoryService.UnknownProductRefused | backend/src/services/inventory.service.js:30-32 | a product that does not exist has no record, so the movement fails with "Inventory record not found" |
| InventoryValuation.TotalValuation | backend/src/controllers/inventoryValuation.controller.js:10-17 | SUM(quantity × avg_cost) over every inventory row, and 0 (the COALESCE) when there are none |
| InventoryValuation.TotalNonNegative | backend/src/controllers/inventoryValuation.controller.js:10-17 | in a consistent store the total valuation is not negative |
| InventoryValuation.StockTotalAfterSet | backend/src/controllers/inventoryValuation.controller.js:10-14 | replacing one stock record changes the total by the new record's value minus the old one's |
| InventoryValuation.InboundRaisesTotal | backend/src/services/inventory.service.js:47-51 | a successful INBOUND of q units at cost u raises the total valuation by exactly q × u |
| InventoryValuation.OutboundLowersTotal | backend/src/services/inventory.service.js:52-60 | a successful OUTBOUND of q units lowers the total valuation by q × the product's average cost |
| InventoryValuation.RowFor | backend/src/controllers/inventoryValuation.controller.js:59-67 | a product row's total_value is its quantity × average cost |
| InventoryValuation.JoinFrom | backend/src/controllers/inventoryValuation.controller.js:68-69 | the inner join: exactly one row for each stock record whose product exists, and nothing else. Over increasing ids no row appears twice |
| InventoryValuation.ValueDescIsTotalPreorder | backend/src/controllers/inventoryValuation.controller.js:70 | "value descending" is a total preorder, so the sort is well defined |
| InventoryValuation.ValuationByProduct | backend/src/controllers/inventoryValuation.controller.js:57-83 | ordered by value descending; every row is the joined row of its product; every joined product appears, and each product appears once |
| InventoryValuation.JoinFromSum | backend/src/controllers/inventoryValuation.controller.js:59-69 | the joined rows' values add up to the stock values of the same ids |
| InventoryValuation.TotalIsSumOfProducts | backend/src/controllers/inventoryValuation.controller.js:10-67 | in a consistent store, the total valuation equals the sum of the per-product total_value entries |
| InventoryValuation.CategoryList | backend/src/controllers/inventoryValuation.controller.js:37 | the distinct categories of the rows, each once |
| InventoryValuation.GroupsOf | backend/src/controllers/inventoryValuation.controller.js:33-37 | group i sums the values of exactly the rows in category i |
| InventoryValuation.GroupByCategory | backend/src/controllers/inventoryValuation.controller.js:31-37 | GROUP BY p.category: one group for each distinct category of the joined rows, carrying that category's sum |
| InventoryValuation.GroupTotals | backend/src/controllers/inventoryValuation.controller.js:31-37 | GROUP BY gives one group per category present, and each group's total is the sum of its rows |
| InventoryValuation.GroupByCategorySum | backend/src/controllers/inventoryValuation.controller.js:34-37 | the group totals add up to the sum over all rows |
| InventoryValuation.CategoryLabel | backend/src/controllers/inventoryValuation.controller.js:43 | the shown label is "Uncategorized" exactly when the category is NULL, empty, or that word itself |
| InventoryValuation.GroupDescIsTotalPreorder | backend/src/controllers/inventoryValuation.controller.js:38 | "total descending" is a total preorder |
| InventoryValuation.Labelled | backend/src/controllers/inventoryValuation.controller.js:41-46 | the reply maps each group to its label and total, in the same order |
| InventoryValuation.SortedGroups | backend/src/controllers/inventoryValuation.controller.js:38 | the groups ordered by total descending, as a permutation of the unsorted groups |
| InventoryValuation.ValuationByCategory | backend/src/controllers/inventoryValuation.controller.js:29-51 | one entry per group, with totals non-increasing down the list |
| InventoryValuation.CategoryGroupsExact | backend/src/controllers/inventoryValuation.controller.js:31-38 | groups are distinct, each total is its category's sum, and every joined product's category has a group |
| InventoryValuation.TotalIsSumOfCategories | backend/src/controllers/inventoryValuation.controller.js:10-46 | in a consistent store, the category totals add up to the total valuation |
| InventoryValuation.UncategorizedTwice | backend/src/controllers/inventoryValuation.controller.js:37-43 | a NULL category and an empty category form two groups, and both are shown as "Uncategorized" |
| InventoryValuation.UncategorizedLabelledTwice | backend/src/controllers/inventoryValuation.controller.js:41-46 | a NULL group and an empty-text group are two positions of the reply, and both are labelled "Uncategorized" |
| Inbound.CreateInboundSpec | backend/src/controllers/inbound.controller.js:11-93 | a missing supplier or date, or missing or empty items, gives "Invalid inbound payload" with no change. Any error leaves the store as it was. A commit replies with the new receipt id |
| Inbound.CreateInbound | backend/src/controllers/inbound.controller.js:11-93 | the method with its item loop and rollback ends in exactly the reply and state of `CreateInboundSpec` |
| Inbound.LineStep | backend/src/controllers/inbound.controller.js:38-71 | one line fails only with its own errors ("Invalid inbound item", "unit_cost is required", the integer cast) or the engine's (no stock record, unusable cost). A committed line leaves the catalogue and the set of stock records as they were |
| Inbound.ApplyLines | backend/src/controllers/inbound.controller.js:38-72 | the loop stops with one of those errors, or commits every line leaving the catalogue and the set of stock records as they were |
| Inbound.ReceiveLine | backend/src/controllers/inbound.controller.js:38-71 | one loop pass (checks, item row, INBOUND movement, audit row) either fails as the line step does or reaches the line step's state |
| Inbound.LineStepCommits | backend/src/controllers/inbound.controller.js:47-71 | a committed line passed both checks. It appends its item row and then its `+quantity` audit entry, both carrying the receipt id, and its stock record becomes the INBOUND result |
| Inbound.ApplyLinesAllCommit | backend/src/controllers/inbound.controller.js:39-45 | if the request commits, every line had a product, a positive quantity and a unit cost |
| Inbound.ApplyLinesFrame | backend/src/controllers/inbound.controller.js:38-72 | the item loop writes only stock records, inbound items and audit entries |
| Inbound.ApplyLinesItems | backend/src/controllers/inbound.controller.js:47-53 | the loop appends one item row per line, in list order |
| Inbound.ApplyLinesAudit | backend/src/controllers/inbound.controller.js:64-71 | the loop appends one `INBOUND, +quantity, receipt id` audit entry per line, in list order |
| Inbound.ApplyLinesQuantities | backend/src/controllers/inbound.controller.js:54-61 | each product's stock grows by the sum of its lines' quantities, and no record is created or removed |
| Inbound.LineStepConsistent | backend/src/controllers/inbound.controller.js:38-71 | one committed line keeps the store consistent |
| Inbound.ApplyLinesConsistent | backend/src/controllers/inbound.controller.js:38-72 | the whole loop keeps the store consistent |
| Inbound.CreateInboundConsistent | backend/src/controllers/inbound.controller.js:21-89 | the request keeps the store consistent, whether it commits or rolls back |
| Inbound.CreateInboundCommit | backend/src/controllers/inbound.controller.js:25-85 | a commit adds exactly one receipt with the next id, appends the item and audit rows of every line under that id, and changes quantities by the lines' sums. Products and outbound documents are untouched |
| Inbound.LineStepValue | backend/src/controllers/inbound.controller.js:54-61 | over non-negative stock, a committed line changes one stock record, whose value grows by quantity × unit cost |
| Inbound.LineStepTotal | backend/src/controllers/inbound.controller.js:54-61 | over non-negative stock, a committed line raises the total valuation by quantity × unit cost |
| Inbound.LineStepNonNegative | backend/src/controllers/inbound.controller.js:54-61 | a committed line over non-negative stock leaves every stock record non-negative |
| Inbound.ApplyLinesTotal | backend/src/controllers/inbound.controller.js:38-72 | over non-negative stock, in a committed loop every line passed the checks, and the total valuation grows by the sum of quantity × unit cost over the lines |
| Inbound.CreateInboundTotal | backend/src/controllers/inbound.controller.js:21-85 | a committed receipt raises the total valuation by the sum of quantity × unit cost over its lines |
| Inbound.NullCostNeverCommits | backend/src/controllers/inbound.controller.js:43-61 | a null unit cost passes the controller's own check (`null < 0` is false) yet the engine refuses it, so the request never commits and nothing changes |
| Inbound.SingleLineCommits | backend/src/controllers/inbound.controller.js:15-85 | a well-formed one-line request for a product with a record commits, replies with the next receipt id, and adds q to the stock |
| Outbound.CreateOutboundSpec | backend/src/controllers/outbound.controller.js:11-113 | a missing customer or date, or missing or empty items, gives "Invalid outbound payload" with no change. Any error leaves the store as it was. A commit replies with the new record id |
| Outbound.CreateOutbound | backend/src/controllers/outbound.controller.js:11-113 | the method with its item loop and rollback ends in exactly the reply and state of `CreateOutboundSpec` |
| Outbound.LineStep | backend/src/controllers/outbound.controller.js:38-89 | one line fails only with "Invalid outbound item", "Inventory record not found", "Insufficient stock" or the integer cast. A committed line leaves the catalogue and the set of stock records as they were |
| Outbound.ApplyLines | backend/src/controllers/outbound.controller.js:38-90 | the loop stops with one of those errors, or commits every line leaving the catalogue and the set of stock records as they were |
| Outbound.DispatchLine | backend/src/controllers/outbound.controller.js:38-90 | one loop pass (checks, locked read, item row, OUTBOUND movement, audit row) either fails as the line step does or reaches its state |
| Outbound.ShortStockRefused | backend/src/controllers/outbound.controller.js:54-60 | a line fails with "Insufficient stock" exactly when it is well formed, its record exists, and its quantity exceeds the current stock |
| Outbound.MissingRecordRefused | backend/src/controllers/outbound.controller.js:39-56 | a line fails with "Inventory record not found" exactly when it passes the item check and its product has no stock record |
| Outbound.MissingRecordRollsBack | backend/src/controllers/outbound.controller.js:21-109 | a request whose first line names a product without a stock record fails with "Inventory record not found", and nothing changes |
| Outbound.LineStepCommits | backend/src/controllers/outbound.controller.js:62-89 | a committed line fit the stock. It appends its item row and a `-quantity` audit entry under the record id. The stock drops by q and the average cost stays |
| Outbound.ApplyLinesAllCommit | backend/src/controllers/outbound.controller.js:39-41 | if the request commits, every line had a product and a positive quantity |
| Outbound.ApplyLinesFrame | backend/src/controllers/outbound.controller.js:38-90 | the item loop writes only stock records, outbound items and audit entries |
| Outbound.ApplyLinesItems | backend/src/controllers/outbound.controller.js:63-69 | one item row per line, in list order |
| Outbound.ApplyLinesAudit | backend/src/controllers/outbound.controller.js:82-89 | one `OUTBOUND, -quantity, record id` audit entry per line, in list order |
| Outbound.ApplyLinesQuantities | backend/src/controllers/outbound.controller.js:71-78 | each product's stock drops by the sum of its lines' quantities, and average costs are unchanged |
| Outbound.LineStepConsistent | backend/src/controllers/outbound.controller.js:44-78 | one committed line keeps the store consistent, in particular stock ≥ 0 |
| Outbound.ApplyLinesConsistent | backend/src/controllers/outbound.controller.js:38-90 | the whole loop keeps the store consistent |
| Outbound.CreateOutboundConsistent | backend/src/controllers/outbound.controller.js:21-109 | the request keeps the store consistent, whether it commits or rolls back |
| Outbound.CreateOutboundCommit | backend/src/controllers/outbound.controller.js:25-105 | a commit adds exactly one record with the next id, plus the item and audit rows of every line. Quantities drop by the lines' sums, costs stay, and products and inbound documents are untouched |
| Outbound.CommittedWithinStock | backend/src/controllers/outbound.controller.js:44-60 | in a committed request, each product's lines together take no more than its stock before the request |
| Outbound.SecondLineSeesReducedStock | backend/src/controllers/outbound.controller.js:44-78 | two lines for the same product that each fit the stock but together exceed it make the request fail with "Insufficient stock", and nothing changes |
| Outbound.DrainOneValue | backend/src/services/inventory.service.js:52-60 | taking q units lowers a record's value by q × its average cost |
| Outbound.DrainTotal | backend/src/services/inventory.service.js:52-60 | taking a sequence of items lowers the total stock value by the value of the items at their average costs |
| Outbound.ApplyLinesDrain | backend/src/controllers/outbound.controller.js:71-78 | the loop's stock records are those left after taking its item rows in order |
| Outbound.LineStepTotal | backend/src/controllers/outbound.controller.js:71-78 | a committed line lowers the total valuation by quantity × average cost |
| Outbound.LineStepDrains | backend/src/controllers/outbound.controller.js:62-78 | a committed line takes exactly its item row out of stock |
| Outbound.CreateOutboundTotal | backend/src/controllers/outbound.controller.js:71-78 | a committed request lowers the total valuation by the value of its items at the costs before the request |
| BulkInbound.CostOf | backend/src/controllers/bulkInbound.controller.js:84 | `Number(unit_cost)` gives a cost exactly when the text reads as a number, and NaN otherwise |
| BulkInbound.NumberColumn | backend/src/controllers/bulkInbound.controller.js:75 | `Number(quantity)` is stored in an integer column exactly when it is a whole number, and fails with "invalid input syntax" otherwise |
| BulkInbound.RowCheck | backend/src/controllers/bulkInbound.controller.js:39-45 | a row passes only with supplier, product, quantity, date and unit cost present. The corrected check also demands a positive quantity. A failing row fails with the code's message |
| BulkInbound.ParseRow | backend/src/controllers/bulkInbound.controller.js:29-45 | a row is refused only with the code's two messages or the integer-cast error. Under the corrected check an accepted quantity is positive |
| BulkInbound.ParseRowMeaning | backend/src/controllers/bulkInbound.controller.js:29-45 | an accepted row passed the checks. Its ids are the integer casts of its cells, its quantity is `Number(quantity)`, and its cost is `Number(unit_cost)` |
| BulkInbound.Commit | backend/src/controllers/bulkInbound.controller.js:47-98 | one row's writes can fail only with the engine's "Inventory record not found" or unusable cost. A committed row leaves the catalogue and the set of stock records as they were |
| BulkInbound.Step | backend/src/controllers/bulkInbound.controller.js:29-98 | a row fails with its own parse error or one of those two |
| BulkInbound.ApplyParsed | backend/src/controllers/bulkInbound.controller.js:28-99 | the row loop fails with some row's parse error or one of the engine's two errors. A commit leaves the catalogue and the set of stock records as they were |
| BulkInbound.BulkInboundSpec | backend/src/controllers/bulkInbound.controller.js:11-116 | no file gives "CSV file is required". Any error leaves the store as it was. A commit replies `processed = rows.length` |
| BulkInbound.BulkInboundUpload | backend/src/controllers/bulkInbound.controller.js:11-116 | the method ends in exactly the reply and state of `BulkInboundSpec` |
| BulkInbound.UploadRows | backend/src/controllers/bulkInbound.controller.js:28-99 | the row loop stops at the first failing row with its error, or commits every row in file order |
| BulkInbound.UploadRow | backend/src/controllers/bulkInbound.controller.js:29-98 | one loop pass (checks, receipt, item, INBOUND movement, audit) matches the row step |
| BulkInbound.RowsShareReceiptIds | backend/src/controllers/bulkInbound.controller.js:48-98 | row k's receipt, item and audit entry all carry the k-th new receipt id |
| BulkInbound.ApplyParsedAllOk | backend/src/controllers/bulkInbound.controller.js:28-45 | in a file that commits, every row passed validation, and the rows are committed in order |
| BulkInbound.CommitWrites | backend/src/controllers/bulkInbound.controller.js:47-98 | one row appends its own receipt with the next id, then an item and a `+quantity` audit entry under that id, and applies INBOUND to its record |
| BulkInbound.CommitAllFrame | backend/src/controllers/bulkInbound.controller.js:28-99 | the loop writes only stock, receipts, the receipt counter, items and audit entries |
| BulkInbound.CommitAllReceipts | backend/src/controllers/bulkInbound.controller.js:48-63 | one receipt per row, with consecutive ids |
| BulkInbound.CommitAllItems | backend/src/controllers/bulkInbound.controller.js:66-78 | one item per row, under that row's receipt |
| BulkInbound.CommitAllAudit | backend/src/controllers/bulkInbound.controller.js:91-98 | one `+quantity` audit entry per row, under that row's receipt |
| BulkInbound.CommitAllQuantities | backend/src/controllers/bulkInbound.controller.js:81-88 | each product's stock grows by the sum of its rows' quantities |
| BulkInbound.BulkInboundCommit | backend/src/controllers/bulkInbound.controller.js:26-106 | a committed file parsed row by row, replies with its row count, and appends exactly its receipts, items and audit entries. Quantities change by the rows' sums and products are untouched |
| BulkInbound.CorrectedRefusesNonPositive | backend/src/controllers/bulkInbound.controller.js:39-41 | the corrected check refuses a row whose quantity is not a positive number |
| BulkInbound.ChecksAgreeOnPositive | backend/src/controllers/bulkInbound.controller.js:39-41 | on positive quantities, or rows missing a field, the as-written and corrected checks agree |
| BulkInbound.CommitConsistent | backend/src/controllers/bulkInbound.controller.js:47-98 | one committed row with a non-negative quantity keeps the store consistent |
| BulkInbound.CommitAllConsistent | backend/src/controllers/bulkInbound.controller.js:28-99 | rows with non-negative quantities keep the store consistent |
| BulkInbound.BulkInboundConsistent | backend/src/controllers/bulkInbound.controller.js:26-110 | under the corrected check every upload, committed or rolled back, keeps the store consistent |
| BulkInbound.NegativeRowParses | backend/src/controllers/bulkInbound.controller.js:39-45 | as written, a complete row with a negative quantity passes validation |
| BulkInbound.NegativeCommit | backend/src/controllers/bulkInbound.controller.js:81-88 | such a row commits and leaves negative stock |
| BulkInbound.NegativeQuantityAsWritten | backend/src/controllers/bulkInbound.controller.js:39-41 | as written, a one-row file with a negative quantity larger than the stock commits with `processed = 1` and leaves negative stock, breaking the invariant |
| BulkInbound.NegativeQuantityCorrected | backend/src/controllers/bulkInbound.controller.js:39-41 | with the corrected check, the same file is refused with "Invalid CSV row" and nothing changes |
| BulkOutbound.Column | backend/src/controllers/bulkOutbound.controller.js:42-46 | `(cell or "").trim()` |
| BulkOutbound.QuantityOf | backend/src/controllers/bulkOutbound.controller.js:44 | `Number(cell)`, which is NaN for a missing cell |
| BulkOutbound.PartsOf | backend/src/controllers/bulkOutbound.controller.js:42-50 | a valid row has a positive quantity and non-empty customer and date. Its quantity is storable exactly when it is whole |
| BulkOutbound.RowValid | backend/src/controllers/bulkOutbound.controller.js:42-50 | the row check: customer, product id and date non-blank after trimming, and `Number(quantity)` a number above 0, so NaN and 0 fail |
| BulkOutbound.ParseRow | backend/src/controllers/bulkOutbound.controller.js:41-50 | a row is refused only with "Invalid CSV row" or the integer-cast error |
| BulkOutbound.ParseRowMeaning | backend/src/controllers/bulkOutbound.controller.js:42-50 | a row is accepted exactly when customer, product and date are non-blank, the quantity is a positive number, and the product id casts. An invalid row gives "Invalid CSV row" |
| BulkOutbound.Withdraw | backend/src/controllers/bulkOutbound.controller.js:65-105 | after the header, a row fails only with "Inventory record not found", "Insufficient stock" or the integer cast. A committed row leaves the catalogue and the set of stock records as they were |
| BulkOutbound.Commit | backend/src/controllers/bulkOutbound.controller.js:52-105 | the header and then the withdrawal, with the same errors and the same frame |
| BulkOutbound.Step | backend/src/controllers/bulkOutbound.controller.js:41-105 | a row fails with its own parse error or one of those three |
| BulkOutbound.ApplyParsed | backend/src/controllers/bulkOutbound.controller.js:41-108 | the row loop fails with some row's parse error or one of the three. A commit leaves the catalogue and the set of stock records as they were |
| BulkOutbound.MissingRecordRefused | backend/src/controllers/bulkOutbound.controller.js:65-73 | a valid row fails with "Inventory record not found" exactly when its product has no stock record. A one-row file of such a row fails with that error, and nothing changes |
| BulkOutbound.BulkOutboundSpec | backend/src/controllers/bulkOutbound.controller.js:13-125 | no file gives "No file uploaded" and an empty file gives "CSV is empty". Any error leaves the store as it was. A commit replies `processed` = the number of rows, which is positive |
| BulkOutbound.BulkOutboundUpload | backend/src/controllers/bulkOutbound.controller.js:13-125 | the method ends in exactly the reply and state of `BulkOutboundSpec` |
| BulkOutbound.UploadRows | backend/src/controllers/bulkOutbound.controller.js:39-108 | the row loop stops at the first failure, or commits every row with `processed` counted up to the number of rows |
| BulkOutbound.UploadRow | backend/src/controllers/bulkOutbound.controller.js:41-107 | one loop pass matches the row step |
| BulkOutbound.DispatchRow | backend/src/controllers/bulkOutbound.controller.js:65-105 | the stock check, item row, OUTBOUND movement and audit entry of one row match the withdrawal step |
| BulkOutbound.RowsShareOutboundIds | backend/src/controllers/bulkOutbound.controller.js:53-105 | row k's record, item and audit entry all carry the k-th new record id |
| BulkOutbound.ApplyParsedAllOk | backend/src/controllers/bulkOutbound.controller.js:41-50 | in a file that commits, every row passed validation, and the rows are committed in order |
| BulkOutbound.CommitWrites | backend/src/controllers/bulkOutbound.controller.js:52-105 | one row adds its record with the next id. Its quantity is whole and fits the stock. It adds an item and a `-quantity` audit entry, and its stock drops by the quantity with the cost kept |
| BulkOutbound.CommitDocuments | backend/src/controllers/bulkOutbound.controller.js:52-105 | the documents one row appends |
| BulkOutbound.CommitAllFrame | backend/src/controllers/bulkOutbound.controller.js:41-108 | the loop writes only stock, outbound records, the counter, items and audit entries |
| BulkOutbound.CommitAllRecords | backend/src/controllers/bulkOutbound.controller.js:53-63 | one record per row, with consecutive ids |
| BulkOutbound.CommitAllItems | backend/src/controllers/bulkOutbound.controller.js:80-86 | one item per row, under that row's record |
| BulkOutbound.CommitAllAudit | backend/src/controllers/bulkOutbound.controller.js:98-105 | one `-quantity` audit entry per row, under that row's record |
| BulkOutbound.CommitAllQuantities | backend/src/controllers/bulkOutbound.controller.js:89-95 | each product's stock drops by the sum of its rows' quantities, and costs are unchanged |
| BulkOutbound.CommitAllEffects | backend/src/controllers/bulkOutbound.controller.js:41-108 | the documents, quantities and frame of a committed loop, together |
| BulkOutbound.BulkOutboundCommit | backend/src/controllers/bulkOutbound.controller.js:37-111 | a committed file parsed row by row, replies with its row count, and has exactly the committed effects |
| BulkOutbound.CommitConsistent | backend/src/controllers/bulkOutbound.controller.js:52-105 | one committed row keeps the store consistent |
| BulkOutbound.CommitAllConsistent | backend/src/controllers/bulkOutbound.controller.js:41-108 | the loop keeps the store consistent |
| BulkOutbound.BulkOutboundConsistent | backend/src/controllers/bulkOutbound.controller.js:13-118 | every upload keeps the store consistent |
| BulkOutbound.ShortStockRefused | backend/src/controllers/bulkOutbound.controller.js:75-77 | a valid row asking for more than the stock makes the file fail with "Insufficient stock", and nothing changes |
| BulkOutbound.CommittedRowsFitStock | backend/src/controllers/bulkOutbound.controller.js:71-77 | in a committed file, the rows for one product together take no more than its stock |
| Products.SkuOwner | backend/src/controllers/bulkInventory.controller.js:47-50 | the product holding a SKU, found exactly when the SKU is taken |
| Products.SkuOwnerUnique | backend/src/controllers/bulkInventory.controller.js:47-50 | with unique SKUs, that product is the one that has it |
| Products.CreateProductSpec | backend/src/controllers/products.controller.js:70-113 | creation succeeds exactly when the SKU is free, and replies with the new id. A duplicate rolls back with no change |
| Products.CreateProduct | backend/src/controllers/products.controller.js:70-113 | the method (product insert, stock insert, rollback) ends in exactly the reply and state of `CreateProductSpec` |
| Products.CreateProductCommit | backend/src/controllers/products.controller.js:79-96 | a commit adds an active product with the given fields and tags (or `[]`), plus a stock record of quantity 0, and nothing else |
| Products.CreateProductConsistent | backend/src/controllers/products.controller.js:76-109 | creation keeps the store consistent |
| Products.UpdateProductSpec | backend/src/controllers/products.controller.js:118-158 | succeeds exactly for an active product. Otherwise "Product not found or archived" with no change. Only that product's row is replaced |
| Products.UpdateProduct | backend/src/controllers/products.controller.js:118-158 | the method ends in exactly the reply and state of `UpdateProductSpec` |
| Products.UpdateProductEffect | backend/src/controllers/products.controller.js:122-148 | the updated row keeps SKU and status and takes name, category, description, tags (`[]` unless an array) and threshold. Other products and tables stay |
| Products.UpdateConsistent | backend/src/controllers/products.controller.js:122-144 | an update keeps the store consistent |
| Products.ArchiveProductSpec | backend/src/controllers/products.controller.js:163-187 | succeeds exactly for an active product. Otherwise "Product not found or already archived" with no change |
| Products.ArchiveProduct | backend/src/controllers/products.controller.js:163-187 | the method ends in exactly the reply and state of `ArchiveProductSpec` |
| Products.DeleteProductSpec | backend/src/controllers/products.controller.js:193-213 | always replies success and never removes a product |
| Products.DeleteProduct | backend/src/controllers/products.controller.js:193-213 | the method ends in exactly the reply and state of `DeleteProductSpec` |
| Products.ArchiveEffect | backend/src/controllers/products.controller.js:166-203 | archiving sets only that product's status and agrees with delete. A second archive is refused, and archived products can no longer be updated |
| Products.DeleteIdempotent | backend/src/controllers/products.controller.js:196-203 | deleting twice is the same as deleting once |
| Products.ArchiveConsistent | backend/src/controllers/products.controller.js:166-203 | archive and delete keep the store consistent |
| Products.LookupBySku | backend/src/controllers/products.controller.js:286-315 | a missing or blank SKU gives "sku is required". A result is an active product whose SKU equals the trimmed input. "Not found" arises exactly when there is none |
| Products.LookupIgnoresSurroundingSpaces | backend/src/controllers/products.controller.js:289-307 | looking up the trimmed SKU is the same as looking up the raw one |
| Products.LookupFindsActive | backend/src/controllers/products.controller.js:293-314 | an active product is found by its own SKU |
| Products.LookupSkipsArchived | backend/src/controllers/products.controller.js:303-312 | an archived product is never found by its SKU |
| Products.BuildConditions | backend/src/controllers/products.controller.js:11-43 | the `conditions`/`values` arrays built with `idx++` number their placeholders 1, 2, … in step. A product satisfies the WHERE clause exactly when it matches the filters |
| Products.NameOrderIsTotalPreorder | backend/src/controllers/products.controller.js:59 | `ORDER BY name` is a total preorder |
| Products.RowsWhere | backend/src/controllers/products.controller.js:57-58 | the rows returned are exactly the products satisfying the WHERE clause. Over increasing ids no row appears twice |
| Products.Select | backend/src/controllers/products.controller.js:45-62 | those rows, ordered by name, with no row twice |
| Products.GetAllProducts | backend/src/controllers/products.controller.js:8-65 | the product list is ordered by name and holds exactly the products matching every supplied filter, each product once |
| Products.MatchesMeansContains | backend/src/controllers/products.controller.js:15-43 | for filters without wildcards: active, and each supplied filter a case-insensitive substring of its column (q of name or description, tag of some tag) |
| BulkInventory.ParseFile | backend/src/controllers/bulkInventory.controller.js:5-29 | a `.csv` name or the CSV or Excel mimetype gives CSV. The OOXML mimetype alone gives XLSX. Anything else, and only that, gives "Unsupported file type" |
| BulkInventory.TagsOf | backend/src/controllers/bulkInventory.controller.js:44 | no tags text gives `[]`. Otherwise the pieces contain no bar character and join back to the text |
| BulkInventory.ThresholdOf | backend/src/controllers/bulkInventory.controller.js:62-95 | an absent threshold is NULL. A present one is its integer cast, or the "invalid input syntax" error |
| BulkInventory.Imported | backend/src/controllers/bulkInventory.controller.js:62-95 | the product row a record writes, by the reactivating UPDATE or the INSERT: its SKU, name, category, description, tags and threshold, with status active |
| BulkInventory.ThresholdOfDigits | backend/src/controllers/bulkInventory.controller.js:62-95 | a digit string is read as its number |
| BulkInventory.BlankThresholdRefused | backend/src/controllers/bulkInventory.controller.js:62-95 | an empty threshold cell is refused by the integer column |
| BulkInventory.BulkUploadSpec | backend/src/controllers/bulkInventory.controller.js:31-115 | no file gives "File is required" and an unsupported type gives that error, both before BEGIN. Any error leaves the store as it was. Otherwise the commit is the upsert of the parsed records |
| BulkInventory.BulkUploadInventory | backend/src/controllers/bulkInventory.controller.js:31-115 | the method ends in exactly the reply and state of `BulkUploadSpec` |
| BulkInventory.UpsertRecords | backend/src/controllers/bulkInventory.controller.js:43-105 | the record loop stops at the first failure, or upserts every record in order |
| BulkInventory.UpsertRecord | backend/src/controllers/bulkInventory.controller.js:44-104 | one pass (SKU lookup, then reactivation or insertion) matches the upsert step |
| BulkInventory.Step | backend/src/controllers/bulkInventory.controller.js:44-104 | one record fails only with "SKU already exists: <sku>" or its threshold's cast error. A committed record removes no product and no stock record |
| BulkInventory.Apply | backend/src/controllers/bulkInventory.controller.js:43-105 | the loop fails with the error of one of its records, or commits removing no product and no stock record |
| BulkInventory.ActiveSkuRefused | backend/src/controllers/bulkInventory.controller.js:54-57 | a record whose SKU belongs to an active product fails with "SKU already exists: <sku>" |
| BulkInventory.ArchivedSkuReactivated | backend/src/controllers/bulkInventory.controller.js:59-77 | a record whose SKU belongs to an archived product overwrites that product's fields and makes it active. It keeps the SKU and touches no stock |
| BulkInventory.NewSkuCreated | backend/src/controllers/bulkInventory.controller.js:78-103 | a record with a free SKU has the same effect as creating the product: an active product plus a stock record of 0 |
| BulkInventory.BadThresholdRefused | backend/src/controllers/bulkInventory.controller.js:62-95 | a record that is not blocked by an active SKU but has an uncastable threshold fails with the cast error |
| BulkInventory.StepConsistent | backend/src/controllers/bulkInventory.controller.js:43-105 | one upsert keeps the store consistent |
| BulkInventory.StepFrame | backend/src/controllers/bulkInventory.controller.js:43-105 | one upsert keeps every SKU in place, changes only the product with the record's SKU, adds only zero stock and never changes existing stock, and leaves the SKU owned by the imported product |
| BulkInventory.StepKeepsOther | backend/src/controllers/bulkInventory.controller.js:59-77 | products with another SKU are untouched |
| BulkInventory.ApplyConsistent | backend/src/controllers/bulkInventory.controller.js:43-105 | the record loop keeps the store consistent |
| BulkInventory.ApplyFrame | backend/src/controllers/bulkInventory.controller.js:43-105 | the loop never changes a SKU or existing stock. Products whose SKU is not in the file are untouched, and new stock records are 0 |
| BulkInventory.ActiveSkuBlocks | backend/src/controllers/bulkInventory.controller.js:54-57 | a file that commits names no SKU that was active before |
| BulkInventory.ApplyDistinct | backend/src/controllers/bulkInventory.controller.js:41-57 | a file that commits has pairwise distinct SKUs |
| BulkInventory.ApplyWrites | backend/src/controllers/bulkInventory.controller.js:43-105 | after a commit, every record's SKU is owned by a product holding exactly that record's fields, active |
| BulkInventory.BulkUploadConsistent | backend/src/controllers/bulkInventory.controller.js:31-115 | every import, committed or rolled back, keeps the store consistent |
| BulkInventory.BulkUploadCommit | backend/src/controllers/bulkInventory.controller.js:41-108 | a committed import combines the write, frame and consistency facts above |
| BulkInventory.RepeatedSkuRefused | backend/src/controllers/bulkInventory.controller.js:41-111 | a SKU repeated in one file makes the import fail, and nothing changes |
| BulkInventory.ActiveSkuInFileRefused | backend/src/controllers/bulkInventory.controller.js:41-111 | a file naming an active product's SKU fails, and nothing changes |
| InventoryReports.InventoryRowFor | backend/src/controllers/inventory.controller.js:10-21 | a stock-list row carries the product's id, SKU and name, the record's quantity and cost, and total_value = the record's value (quantity × average cost) |
| InventoryReports.ListedIds | backend/src/controllers/inventory.controller.js:20-22 | the ids of exactly the active products that have a stock record |
| InventoryReports.InventoryRows | backend/src/controllers/inventory.controller.js:9-22 | one row per listed id, in order |
| InventoryReports.ListedIdsSelected | backend/src/controllers/inventory.controller.js:20-22 | every listed id is an active product with a record |
| InventoryReports.InventoryRowsExact | backend/src/controllers/inventory.controller.js:20-22 | before ordering, the rows are exactly the listed products' rows |
| InventoryReports.InventoryRowsDistinct | backend/src/controllers/inventory.controller.js:20-21 | each product appears once |
| InventoryReports.ByNameIsTotalPreorder | backend/src/controllers/inventory.controller.js:23 | `ORDER BY p.name` (NULL last) is a total preorder |
| InventoryReports.GetInventory | backend/src/controllers/inventory.controller.js:8-27 | the stock list is ordered by name. It holds the row of every active product with a record and no other row, each once |
| InventoryReports.InventoryRowValues | backend/src/controllers/inventory.controller.js:18-22 | a product with a record is listed exactly when it is active, and every listed total_value is the record's value |
| InventoryReports.LowStockRowFor | backend/src/controllers/inventory.controller.js:31-41 | a low-stock row's quantity is the record's and is at most the threshold |
| InventoryReports.LowStockIds | backend/src/controllers/inventory.controller.js:38-41 | exactly the active products with a record at or below a non-NULL threshold |
| InventoryReports.LowStockRows | backend/src/controllers/inventory.controller.js:30-41 | one row per such id, in order |
| InventoryReports.LowStockIdsSelected | backend/src/controllers/inventory.controller.js:38-41 | every such id passes the WHERE clause |
| InventoryReports.LowStockRowsExact | backend/src/controllers/inventory.controller.js:38-41 | before ordering, the rows are exactly the low-stock products' rows |
| InventoryReports.LowStockRowsDistinct | backend/src/controllers/inventory.controller.js:38-41 | each product appears once |
| InventoryReports.ByQuantityIsTotalPreorder | backend/src/controllers/inventory.controller.js:42 | `ORDER BY i.quantity ASC` is a total preorder |
| InventoryReports.GetLowStockItems | backend/src/controllers/inventory.controller.js:29-46 | the low-stock list is ordered by quantity ascending. It holds exactly the active products at or below their threshold, each once |
| InventoryReports.LowStockIsListed | backend/src/controllers/inventory.controller.js:20-41 | every low-stock product is also on the stock list, with the same quantity |
| InventoryReports.LowStockMeaning | backend/src/controllers/inventory.controller.js:38-41 | a listed product shows as low exactly when it has a threshold and its quantity is at or below it. A NULL threshold never shows |
| InventoryReports.AuditRowFor | backend/src/controllers/inventory.controller.js:54-63 | the audit row of entry i has audit_id i + 1 |
| InventoryReports.NewestFirst | backend/src/controllers/inventory.controller.js:53-65 | at most n rows, with ids in 1..n, strictly decreasing |
| InventoryReports.GetInventoryAudit | backend/src/controllers/inventory.controller.js:52-68 | the audit screen has no more rows than the log, newest first |
| InventoryReports.NewestFirstIsReversed | backend/src/controllers/inventory.controller.js:62-64 | when every entry's product exists, the first n entries appear all, reversed |
| InventoryReports.AuditIsLogReversed | backend/src/controllers/inventory.controller.js:52-68 | in a consistent store, the audit screen is the whole log, newest first |
| Store.IntColumn | backend/src/controllers/bulkOutbound.controller.js:80-86 | a quantity is stored in an integer column exactly when it is whole. Otherwise it gives "invalid input syntax" |
| Store.Warehouse.Restore | backend/src/controllers/inbound.controller.js:86-87 | ROLLBACK: the store becomes the snapshot |
| Store.Warehouse.InsertReceipt | backend/src/controllers/inbound.controller.js:25-35 | appends a receipt and returns the next serial id |
| Store.Warehouse.InsertInboundItem | backend/src/controllers/inbound.controller.js:47-53 | appends an inbound item |
| Store.Warehouse.InsertOutboundRecord | backend/src/controllers/outbound.controller.js:25-35 | appends an outbound record and returns the next serial id |
| Store.Warehouse.InsertOutboundItem | backend/src/controllers/outbound.controller.js:63-69 | appends an outbound item |
| Store.Warehouse.InsertAudit | backend/src/controllers/inbound.controller.js:64-71 | appends an audit entry |
| Store.Warehouse.InsertProduct | backend/src/controllers/products.controller.js:79-89 | adds a product under the next serial id and returns it |
| Store.Warehouse.InsertStock | backend/src/controllers/products.controller.js:91-94 | adds a stock record of quantity 0 (average cost 0) |
| Store.Warehouse.UpdateProduct | backend/src/controllers/products.controller.js:122-144 | replaces one product row |
| Store.Warehouse.UpdateStock | backend/src/services/inventory.service.js:65-74 | replaces one stock record |
| Common.OrNull | backend/src/controllers/inbound.controller.js:32 | `reference_no or null`: the text when it is non-empty, NULL otherwise |
| Text.Trim | backend/src/controllers/products.controller.js:289-307 | `trim()`: the text less its leading and its trailing run of JavaScript white space |
| Text.TrimEnds | backend/src/controllers/products.controller.js:289-307 | the trimmed text neither starts nor ends with white space |
| Text.ToNumber | backend/src/controllers/bulkOutbound.controller.js:44 | `Number(text)`: surrounding white space ignored, blank text is 0, an optional sign and a decimal literal give its value, anything else NaN |
| Text.NumberOfBlank | backend/src/controllers/bulkInbound.controller.js:43 | `Number` of blank text is 0, so a blank `unit_cost` cell passes the check as cost 0 |
| Text.PgInteger | backend/src/controllers/bulkInbound.controller.js:65-78 | the integer cast: surrounding spaces, an optional sign and at least one digit, nothing else |
| Text.PgIntegerOfBlank | backend/src/controllers/bulkInbound.controller.js:65-78 | blank text does not cast as an integer |
| Text.ILike | backend/src/controllers/products.controller.js:15-43 | `ILIKE`: `%` matches any run, `_` one character, a backslash escapes, other characters match ignoring ASCII case |
| Text.LexLe | backend/src/controllers/inventory.controller.js:23 | code-point order on text |
| Text.Split | backend/src/controllers/bulkInventory.controller.js:44 | splitting on the bar character gives at least one piece, and no piece contains a bar |
| Text.JoinSplit | backend/src/controllers/bulkInventory.controller.js:44 | joining the pieces gives back the text |
| Text.SplitJoin | backend/src/controllers/bulkInventory.controller.js:44 | splitting a join of bar-free pieces gives back the pieces |
| Text.TrimEmptyIffBlank | backend/src/controllers/products.controller.js:289 | `!sku.trim()` holds exactly for an all-white-space SKU |
| Text.TrimIdempotent | backend/src/controllers/products.controller.js:307 | trimming twice is trimming once |
| Text.ILikeSubstring | backend/src/controllers/products.controller.js:15-43 | `ILIKE '%x%'` for a wildcard-free x holds exactly when x occurs in the text, ignoring case |
| Text.NumberOfNatText | backend/src/controllers/bulkInbound.controller.js:75-84 | `Number` of a digit string is its value |
| Text.NumberOfNegativeNatText | backend/src/controllers/bulkInbound.controller.js:75-84 | `Number` of "-" followed by digits is the negative value |
| Text.PgIntegerOfNatText | backend/src/controllers/bulkInbound.controller.js:72-74 | the integer cast of a digit string is its value |
| Text.LexLeIsTotalPreorder | backend/src/controllers/inventory.controller.js:23 | code-point order on names is total and transitive |

## Left out

- Concurrency: row locks (`FOR UPDATE`), the connection pool and interleaved requests. Requests run one after another, and a transaction is "apply everything, or restore the snapshot".
- Floating point: JavaScript numbers and PostgreSQL numeric rounding. Costs are exact rationals and quantities unbounded integers. The 32-bit range of the integer columns is not modelled.
- CSV and XLSX parsing and file handling (csv-parser, csv-parse, XLSX, temporary files). A file arrives as its list of rows of text cells. XLSX cells that carry numbers are treated as their text.
- `Number(text)` is modelled for plain decimal literals only. Exponents, hexadecimal and `Infinity` read as NaN here.
- The activity log written after COMMIT. It is I/O, and a failure there reaches a ROLLBACK that cannot undo the commit.
- Clocks: `created_at`, `updated_at`, `NOW()`. The audit screen orders entries by their position in the log, so ties in `created_at` are not modelled, and `audit_id` is taken as position + 1.
- Serial counters: PostgreSQL sequences are not rolled back, so a failed request leaves a gap of ids. The model restores the counters with the rest of the snapshot.
- HTTP status codes and reply texts beyond the error value. Database error messages are reduced to the error kind (duplicate key, invalid integer syntax).
- Foreign keys, NOT NULL and date-format checks of the database schema, which is not part of this model. The only schema facts used are the unique SKU and the integer columns. `INSERT INTO inventory (product_id, quantity) VALUES ($1, 0)` leaves `avg_cost` to its column default, which the model takes to be 0 (`Store.AddStock`, `Store.Warehouse.InsertStock`).
- `:id` route parameters that are not integers. A product id is an `int`. The JSON `low_stock_threshold` of create and update is taken as already an integer or NULL. The JSON `product_id` and `supplier_id` of an inbound or outbound request are numbers or absent (`Option<int>`), so an id sent as text is not expressible. Text such as "0" is truthy and "abc" fails the integer cast, so only the error kind would differ.
- A record or request with no `sku` at all (`undefined`). The SKU of an import record and of a new product is always a string.
- Non-ASCII case folding in `ILIKE` (ASCII letters only) and database collation (code-point order is used).
- `getInboundHistory`, `getOutboundHistory` and `getProductMeta`, which are read-only listings outside the core. Also the QR code and barcode handlers, which call foreign libraries.
- `createProduct`'s reply carries no id. `Products.CreateProductSpec` replies with the new id so that lemmas can name it.
- Dashboards, the audit dashboard, suppliers, attachments, outbound documents, authentication, routes, scripts and the frontend.
- InventoryReports.GetInventoryAudit: its own contract states only the bound and the newest-first order. That every entry appears, reversed, is stated by `AuditIsLogReversed` for a consistent store, where every entry's product exists.
- InventoryValuation.ValuationByCategory: its own contract states the length and the descending order. The group contents are stated by `CategoryGroupsExact` and `Labelled`, and the sum by `TotalIsSumOfCategories`.

## Findings

| source | as written | input that shows it | evidently intended | confidence | as-written member | corrected member |
|---|---|---|---|---|---|---|
| backend/src/controllers/bulkInbound.controller.js:39-41 | a row is checked only for the presence of `quantity`, so a negative quantity passes and the INBOUND movement subtracts stock | stock of 3 units at 5.00 and a one-row file `1,<product>,-5,0,,2024-01-01` commits with `processed = 1` and leaves -2 units at an average cost of -7.50 | every inbound line has quantity > 0, as the single-receipt controller checks at inbound.controller.js:39, so stock never goes negative | not executed | BulkInbound.NegativeQuantityAsWritten | BulkInbound.NegativeQuantityCorrected |
