# Work-order bookkeeping of an auto-repair shop, in Dafny

This project models the bookkeeping core of a workshop-management backend. A
work order consumes parts from stock and records the labor of mechanics. Its
three cost columns are aggregated from those lines. An order can be
completed or cancelled, and cancelling gives the stock back. Around this
core sit four smaller pieces: the `order_number` generator of the
`WorkOrder` creating hook, the transaction and status-event logic of the API
controller, the low-stock rules of the `Part` model and the inventory page,
and the enums and defaults of the `work_orders` schema.

The database is modelled as a value, `Ledger.Tables`. It holds the `parts`
table (part id to `Part`), the `work_orders` table (order id to `WorkOrder`)
and the auto-increment counter. Each order carries its own `work_order_parts`
and `work_order_mechanics` rows as two sequences, `partLines` and
`laborLines`.

For each service operation, `Ledger` defines a function on `Tables` that says
what it does, for example `AddPartsSpec`, `CreateSpec` and `CancelSpec`.
`LedgerFacts` proves what those functions promise:

- stock never goes negative;
- `total_cost = parts_cost + labor_cost`;
- each line total is quantity × price;
- cancelling gives back exactly what was consumed;
- order numbers stay unique.

`Service.WorkOrderService` is a class over the three tables. Its methods work
step by step, as the PHP does: they loop over the input lines, decrement and
increment stock in place, and append child rows. Each method is proved to
compute exactly its `Ledger` function and to keep the class invariant
`Valid`.

`Controller.WorkOrderController` wraps the service in the controller's
transactions. Rollback restores a snapshot of the tables. The dispatched
`WorkOrderStatusChanged` events are modelled as an appended log. Each
controller action is specified by a function that returns the tables, the
result and the emitted events.

Exceptions are modelled as results:

- `Ledger.Error` names why an operation throws;
- `Result` and `Option` carry the error path;
- no caller is required to avoid an error the source reports.

The current year and "now" are parameters, and money is exact `real`.

Files:

- `util.dfy`: `Option` and `Result`.
- `schema.dfy`: the status and priority enums, the row types, the defaults of a fresh row, the unique index and mechanic deletion.
- `inventory.dfy`: `Part`, `isLowStock` and the profit margin.
- `order_numbers.dfy`: decimal text, `str_pad`, and the `WO-<year>-<nnnn>` generator with its hook.
- `stock_view.dfy`: `getStockStatus`, the filter and the counters of the inventory page.
- `ledger.dfy`: the service operations as functions on the tables, with the lemmas about consuming and restocking.
- `ledger_facts.dfy`: what each operation keeps and changes.
- `service.dfy`: the `WorkOrderService` class.
- `controller.dfy`: the `WorkOrderController` class, its specification functions and its lemmas.

## Behaviour worth knowing


- **Status events.** `updateStatus` emits `WorkOrderStatusChanged` on every accepted request, even when the status is unchanged. The general `update` emits it only when the status moved. Both are modelled as written: see `Controller.UpdateStatusAlwaysEmits` and `Controller.UpdateEmitsIffStatusMoved`.
- **Atomicity.** The service methods `create`, `update` and `addParts` are not atomic by themselves: `Ledger.ConsumeStopsAtFailure` and `Controller.CreateAloneLeavesPartialOrder` show the partial writes. The controller's transaction is what makes the calls all-or-nothing. `cancelWorkOrder` opens no transaction, and no controller action calls it, so it is modelled without one.
- **Missing part.** `Part::find` returns null, and reading `->stock_quantity` on null makes Laravel throw. The model turns this into the error `PartNotFound`, which gets the same rollback as a short stock.
- **When the hook generates a number.** The hook tests `!$workOrder->order_number`, which is PHP falsiness. So a supplied `""` or `"0"` is replaced by a generated number, just like a missing one.
- **Year and counter widths.** `date('Y')` and `str_pad` never truncate. A count of 10000 or more gives a suffix longer than four digits, and every year is rendered with at least four digits.
- **Cancel note.** A missing reason concatenates as the empty text, so the note always ends in `"\n\nCancelled: "` followed by the reason or nothing.

## Model

| member | source | states |
|---|---|---|
| Schema.ParseStatus | database/migrations/2025_06_28_142520_create_work_orders_table.php:27 | a recognised text is the name of the status it yields |
| Schema.StatusNamesRoundTrip | database/migrations/2025_06_28_142520_create_work_orders_table.php:27 | the six status names parse back to their status; exactly those six texts are accepted |
| Schema.PriorityNamesRoundTrip | database/migrations/2025_06_28_142520_create_work_orders_table.php:26 | the four priority names parse back to their priority; exactly those four texts are accepted |
| Schema.ParsePriority | database/migrations/2025_06_28_142520_create_work_orders_table.php:26 | a recognised text is the name of the priority it yields |
| Schema.FreshRow | database/migrations/2025_06_28_142520_create_work_orders_table.php:23-27 | a new row has status pending and priority medium unless given, three zero costs that add up, no lines and no completion time |
| Schema.FreshRowDefaults | database/migrations/2025_06_28_142520_create_work_orders_table.php:26-27 | an order created without priority or status is pending with medium priority |
| Schema.InsertKeepsNumbersUnique | database/migrations/2025_06_28_142520_create_work_orders_table.php:16 | inserting under a number no row holds keeps `order_number` unique |
| Schema.MechanicDeleted | database/migrations/2025_06_28_142520_create_work_orders_table.php:19 | deleting a mechanic leaves no order assigned to them, and changes nothing else on any order |
| Schema.MechanicDeletedKeepsNumbersUnique | database/migrations/2025_06_28_142520_create_work_orders_table.php:16-19 | unassigning a deleted mechanic keeps the order numbers unique |
| Inventory.ProfitMargin | app/Models/Part.php:45-51 | the margin is 0 when the cost price is not positive; otherwise it is positive iff selling price exceeds cost, and 0 iff they are equal |
| Inventory.IsLowStock | app/Models/Part.php:40-43 | defines low stock as `stock_quantity <= min_stock_level`; its meaning is stated by the three lemmas below |
| Inventory.LowStockExactly | app/Models/Part.php:40-43 | low stock iff stock ≤ minimum; equality counts as low |
| Inventory.LowStockMonotone | app/Models/Part.php:40-43 | lowering the stock never turns a low-stock part into one that is not low |
| Inventory.EmptyIsLow | app/Models/Part.php:40-43 | with a non-negative minimum, zero stock is always low |
| OrderNumbers.Digits | app/Models/WorkOrder.php:92 | the decimal text is non-empty, all digits, with no leading zero for positive numbers |
| OrderNumbers.PadLeft | app/Models/WorkOrder.php:92 | `str_pad(..., STR_PAD_LEFT)`: length is the larger of the text and the width, the text is kept at the end, the rest is padding |
| OrderNumbers.ValueOfDigits | app/Models/WorkOrder.php:92 | decoding the decimal text of n gives n |
| OrderNumbers.Padded4Decodes | app/Models/WorkOrder.php:92 | the padded count is all digits, at least four long, ends with the plain text, decodes back to the number, and is exactly four long below 10000 |
| OrderNumbers.Padded4Injective | app/Models/WorkOrder.php:92 | two counts pad to the same text iff they are equal |
| OrderNumbers.GeneratedFormat | app/Models/WorkOrder.php:92 | a generated number is `WO-`, the padded year, `-`, then a suffix of at least four digits that denotes count + 1 |
| OrderNumbers.GenerateInjective | app/Models/WorkOrder.php:92 | within a year (or for four-digit years) two generated numbers agree iff year and count agree |
| OrderNumbers.Generate | app/Models/WorkOrder.php:92 | the generated number starts with `WO-` and is four characters longer than the padded year and padded count + 1 together, so at least 12 long |
| OrderNumbers.Falsy | app/Models/WorkOrder.php:91 | defines PHP falsiness of the supplied number: absent, `""` or `"0"`; `HookKeepsSuppliedNumber` states what the hook does with it |
| OrderNumbers.OnCreating | app/Models/WorkOrder.php:90-93 | the number the hook leaves is never falsy, and a truthy supplied number is kept as it is |
| OrderNumbers.HookKeepsSuppliedNumber | app/Models/WorkOrder.php:90-94 | a truthy supplied number is kept unchanged; a missing, empty or "0" one is replaced by the generated number |
| OrderNumbers.PaddedExamples | app/Models/WorkOrder.php:92 | 12 pads to "0012", 2025 stays "2025", and 12345 stays "12345" (no truncation) |
| StockView.StockStatusCases | resources/js/pages/Parts.tsx:108-112 | out of stock iff 0; low stock iff non-zero and ≤ min; in stock iff non-zero and > min (exactly one of the three) |
| StockView.AgreesWithIsLowStock | resources/js/pages/Parts.tsx:108-112 | for a non-negative minimum the page's "not in stock" is exactly `isLowStock` |
| StockView.GetStockStatus | resources/js/pages/Parts.tsx:108-112 | the status is out of stock iff the stock is 0, and in stock only when the stock exceeds the minimum |
| StockView.Lower | resources/js/pages/Parts.tsx:124-126 | lowercasing keeps the length |
| StockView.IncludesEmpty | resources/js/pages/Parts.tsx:124-126 | every text includes the empty search term |
| StockView.FilteredIsSubsequence | resources/js/pages/Parts.tsx:123-131 | the filtered list is an order-preserving subsequence of the parts |
| StockView.FilteredMembership | resources/js/pages/Parts.tsx:123-131 | a part is shown iff it is in the list and matches search, category and status |
| StockView.FilteredCount | resources/js/pages/Parts.tsx:123-131 | a matching card is listed exactly as many times as it is on the page, a non-matching card not at all |
| StockView.MatchesSearch | resources/js/pages/Parts.tsx:124-126 | defines the search match: the lowercased term occurs in the lowercased name, part number or brand |
| StockView.Matches | resources/js/pages/Parts.tsx:124-130 | defines the filter callback: search match, and the category and the status when chosen; `FilteredMembership` and `NoFilterKeepsAll` state its effect |
| StockView.NoFilterKeepsAll | resources/js/pages/Parts.tsx:123-131 | with empty search, category and status the filtered list is the whole list |
| StockView.FilteredParts | resources/js/pages/Parts.tsx:123-131 | the filtered list is no longer than the page, and every card on it matches the search, category and status filters |
| StockView.CountsPartition | resources/js/pages/Parts.tsx:135-136 | the three status counts add up to the number of parts |
| StockView.CountersBounded | resources/js/pages/Parts.tsx:135-136 | low-stock count plus out-of-stock count is at most the number of parts |
| StockView.CountStatus | resources/js/pages/Parts.tsx:135-136 | the number of cards with a status is at most the number of cards, and 0 iff no card has that status |
| StockView.LowStockCount | resources/js/pages/Parts.tsx:135 | the low-stock counter is at most the number of cards |
| StockView.OutOfStockCount | resources/js/pages/Parts.tsx:136 | the out-of-stock counter is at most the number of cards |
| Ledger.ConsumeOnSuccess | app/Services/WorkOrderService.php:57-65 | a run without a throw appends one line per input (total = quantity × price) and lowers each part's stock by exactly what was asked of it, others unchanged |
| Ledger.ConsumeSucceedsIff | app/Services/WorkOrderService.php:50-55 | `addParts` succeeds iff every line's part exists and its stock, already decremented by earlier lines, covers the quantity |
| Ledger.ConsumeStopsAtFailure | app/Services/WorkOrderService.php:50-66 | when line k is the first to fail, it throws and the lines before it stay written with their stock decremented (not all-or-nothing) |
| Ledger.ConsumeKeepsStockValid | app/Services/WorkOrderService.php:50-66 | with non-negative stock and quantities, no stock goes below 0 and every written line names an existing part |
| Ledger.Consume | app/Services/WorkOrderService.php:48-67 | the `addParts` loop keeps the set of parts, and a run without a throw writes exactly one line per input |
| Ledger.Restock | app/Services/WorkOrderService.php:106-108 | giving stock back keeps the set of parts |
| Ledger.RestockAdds | app/Services/WorkOrderService.php:106-108 | each part gets back exactly the total quantity its lines hold |
| Ledger.RestockKeepsNonNegative | app/Services/WorkOrderService.php:106-108 | giving stock back never makes a stock negative |
| Ledger.LinesHoldRequested | app/Services/WorkOrderService.php:57-62 | the lines written for some inputs hold, per part, exactly the quantity requested |
| Ledger.RestockUndoesConsume | app/Services/WorkOrderService.php:50-66 | restocking the lines a successful `addParts` wrote gives back exactly the original stock |
| Ledger.RestockTwice | app/Services/WorkOrderService.php:106-108 | restocking the same lines twice adds twice their quantity, so it changes the stock again |
| Ledger.LaborLinesMeaning | app/Services/WorkOrderService.php:69-80 | one labor line per input, in order, hours defaulting to 0, total = hours × rate |
| Ledger.PartLinesMeaning | app/Services/WorkOrderService.php:57-63 | one part line per input, in order, with the input's part, quantity and unit price, and total = quantity × price |
| Ledger.LineFor | app/Services/WorkOrderService.php:57-63 | the `work_order_parts` row for one input; `PartLinesMeaning` states its fields and total |
| Ledger.LaborLineFor | app/Services/WorkOrderService.php:72-78 | the `work_order_mechanics` row for one input, hours `?? 0`; `LaborLinesMeaning` states its fields and total |
| Ledger.Take | app/Services/WorkOrderService.php:65 | `decrement('stock_quantity', q)` on one part; `ConsumeOnSuccess` states the net effect per part |
| Ledger.Give | app/Services/WorkOrderService.php:107 | `increment('stock_quantity', q)` on one part; `RestockAdds` states the net effect per part |
| Ledger.RecostMeaning | app/Services/WorkOrderService.php:82-92 | after recosting, parts cost and labor cost are the sums of the lines and total = parts + labor; only those three columns change; it is idempotent and leaves current orders alone |
| Ledger.Recost | app/Services/WorkOrderService.php:82-92 | a recosted order has current costs and keeps its part and labor lines |
| Ledger.PartsCostAppend | app/Services/WorkOrderService.php:84 | the parts cost of two line lists together is the sum of their parts costs |
| Ledger.PartsCost | app/Services/WorkOrderService.php:84 | `sum('total_price')` over the order's part lines; `PartsCostAppend` and `RecostMeaning` state its use |
| Ledger.LaborCost | app/Services/WorkOrderService.php:85 | `sum('total_cost')` over the order's labor lines; `RecostMeaning` states its use |
| Ledger.AddPartsSpec | app/Services/WorkOrderService.php:48-67 | `addParts` keeps the orders and the counter |
| Ledger.AssignMechanicsSpec | app/Services/WorkOrderService.php:69-80 | `assignMechanics` keeps the stock, the counter, the orders, the order's part lines and every other order, and adds one labor line per input |
| Ledger.CalculateTotalCostSpec | app/Services/WorkOrderService.php:82-92 | `calculateTotalCost` keeps the stock, the counter and the orders, and makes the order's costs current |
| Ledger.CreateSpec | app/Services/WorkOrderService.php:12-27 | a successful create returns the next id and adds exactly that order |
| Ledger.CountCreatedIn | app/Models/WorkOrder.php:92 | the `whereYear('created_at', Y)->count()` is 0 iff no order was created in that year |
| Ledger.NewOrderNumber | app/Models/WorkOrder.php:90-93 | the hook applied to this year's count; `CreateOnSuccess` states the new order carries it |
| Ledger.MissingRequired | database/migrations/2025_06_28_142520_create_work_orders_table.php:17-20 | `customer_id`, `vehicle_id` and `problem_description` are NOT NULL without default; `CreateFailsIff` states that a missing one makes `create` throw |
| Ledger.InsertedRow | app/Services/WorkOrderService.php:14 | the row `WorkOrder::create($data)` inserts: the given columns and the defaults of `FreshRow` |
| Ledger.Consistent | app/Services/WorkOrderService.php:48-92 | the invariant every operation keeps: ids below the counter, no negative stock, part lines naming existing parts with total = quantity × price, the three costs adding up, unique numbers; the `KeepsConsistent` lemmas state its preservation |
| Ledger.ReplacePartLines | app/Services/WorkOrderService.php:33-36 | replacing an order's part lines keeps the orders and the counter |
| Ledger.ReplaceLaborLines | app/Services/WorkOrderService.php:38-41 | replacing an order's labor lines keeps the orders, the counter and the stock |
| Ledger.Merge | app/Services/WorkOrderService.php:31 | `update($data)` keeps the lines, the three cost columns, `completed_at` and the creation time; each given column (status, customer, vehicle, problem description, assigned mechanic, diagnosis, internal notes) takes the given value, and an absent status, customer, vehicle or problem description stays as it was |
| Ledger.UpdateSpec | app/Services/WorkOrderService.php:29-46 | `update` keeps the orders and the counter |
| Ledger.CompleteSpec | app/Services/WorkOrderService.php:94-102 | completing keeps the stock, the counter and the orders, and leaves the order completed at the given time |
| Ledger.CancelSpec | app/Services/WorkOrderService.php:104-116 | cancelling keeps the set of parts, the counter, the orders and the order's part lines, and leaves the order cancelled |
| Ledger.CancelNote | app/Services/WorkOrderService.php:112 | the note `(internal_notes ?? '') . "\n\nCancelled: " . reason`; `CancelRestoresStock` states the stored value |
| Ledger.SetStatusSpec | app/Http/Controllers/API/WorkOrderController.php:149 | setting the status keeps the stock, the counter and the orders, and the order has the new status |
| Ledger.DestroySpec | app/Http/Controllers/API/WorkOrderController.php:129 | deleting keeps the stock and the counter and removes exactly that order |
| LedgerFacts.ReplaceKeepsConsistent | app/Services/WorkOrderService.php:29-46 | overwriting one order with well-formed lines, adding costs and a free number keeps the tables consistent |
| LedgerFacts.AddPartsKeepsConsistent | app/Services/WorkOrderService.php:48-67 | `addParts`, thrown or not, keeps the tables consistent (in particular no negative stock) |
| LedgerFacts.AssignMechanicsKeepsConsistent | app/Services/WorkOrderService.php:69-80 | `assignMechanics` keeps the tables consistent and never touches part stock |
| LedgerFacts.CalculateKeepsConsistent | app/Services/WorkOrderService.php:82-92 | `calculateTotalCost` keeps the tables consistent and makes the order's costs current |
| LedgerFacts.CalculateIdempotent | app/Services/WorkOrderService.php:82-92 | calling `calculateTotalCost` twice gives the same tables as once |
| LedgerFacts.InsertKeepsConsistent | database/migrations/2025_06_28_142520_create_work_orders_table.php:15-16 | inserting a fresh row with a free number under the next id keeps the tables consistent |
| LedgerFacts.CreateKeepsConsistent | app/Services/WorkOrderService.php:12-27 | `create`, thrown or not, keeps the tables consistent |
| LedgerFacts.CreateFailsIff | app/Services/WorkOrderService.php:12-27 | `create` throws iff a NOT NULL column is missing, the number is taken, or a part line fails its stock check |
| LedgerFacts.CreateOnSuccess | app/Services/WorkOrderService.php:12-27 | a successful create adds one order under the next id with the hook's number, the given or default status and priority, one line per input, current costs, and each part's stock lowered by what was asked; other orders are unchanged |
| LedgerFacts.UpdateKeepsConsistent | app/Services/WorkOrderService.php:29-46 | `update`, thrown or not, keeps the tables consistent |
| LedgerFacts.ReplacePartLinesShape | app/Services/WorkOrderService.php:33-36 | replacing part lines deletes the old lines without restocking, and consumes stock for the new lines only |
| LedgerFacts.ReplaceLaborLinesShape | app/Services/WorkOrderService.php:38-41 | replacing labor lines leaves exactly the new ones |
| LedgerFacts.UpdateShape | app/Services/WorkOrderService.php:29-46 | a successful update yields the merged columns with the new lines and recomputed costs, and the stock consumed only by the new lines |
| LedgerFacts.UpdateOnSuccess | app/Services/WorkOrderService.php:29-46 | after a successful update the given status, priority and number are set (the other merged columns as `Ledger.Merge` states), the costs are current, lines are replaced when given, the old lines' stock does not come back, and other orders are unchanged |
| LedgerFacts.UpdateChangesStatusIff | app/Services/WorkOrderService.php:31 | the status after a successful update differs iff a different status was given |
| LedgerFacts.CompleteChangesOnlyStatus | app/Services/WorkOrderService.php:94-102 | completing sets status completed and the completion time, changes no cost, line or stock, and no other order |
| LedgerFacts.CancelRestoresStock | app/Services/WorkOrderService.php:104-116 | cancelling adds each line's quantity back to its part, keeps the lines and all three cost columns, leaves every other order as it was, sets status cancelled and the note `(old ?? "") + "\n\nCancelled: " + reason` |
| LedgerFacts.CancelKeepsConsistent | app/Services/WorkOrderService.php:104-116 | cancelling keeps the tables consistent |
| LedgerFacts.CancelTwiceRestocksTwice | app/Services/WorkOrderService.php:104-116 | cancelling twice restores an order's parts twice, so it is not idempotent |
| LedgerFacts.CancelUndoesCreate | app/Services/WorkOrderService.php:104-116 | cancelling a freshly created order restores every part's stock to what it was before `create` |
| LedgerFacts.SetStatusKeepsConsistent | app/Http/Controllers/API/WorkOrderController.php:149 | setting the status keeps the tables consistent and changes nothing else on the order |
| LedgerFacts.DestroyKeepsStock | app/Http/Controllers/API/WorkOrderController.php:128-129 | deleting an order keeps the tables consistent, removes the order and gives no consumed stock back |
| Service.WorkOrderService.constructor | database/migrations/2025_06_28_142520_create_work_orders_table.php:15 | an empty `work_orders` table over non-negative stock is valid; ids start at 1 |
| Service.WorkOrderService.AddParts | app/Services/WorkOrderService.php:48-67 | the loop computes exactly `AddPartsSpec` (result and new tables) and keeps `Valid` |
| Service.WorkOrderService.AssignMechanics | app/Services/WorkOrderService.php:69-80 | the loop computes exactly `AssignMechanicsSpec` and keeps `Valid` |
| Service.WorkOrderService.CalculateTotalCost | app/Services/WorkOrderService.php:82-92 | computes `CalculateTotalCostSpec`, leaves the order's costs current and keeps `Valid` |
| Service.WorkOrderService.Create | app/Services/WorkOrderService.php:12-27 | computes exactly `CreateSpec` (the hook, the insert checks, parts, mechanics, costs) and keeps `Valid` |
| Service.WorkOrderService.Update | app/Services/WorkOrderService.php:29-46 | computes exactly `UpdateSpec` and keeps `Valid` |
| Service.WorkOrderService.CompleteWorkOrder | app/Services/WorkOrderService.php:94-102 | computes exactly `CompleteSpec` and keeps `Valid` |
| Service.WorkOrderService.CancelWorkOrder | app/Services/WorkOrderService.php:104-116 | the restocking loop computes exactly `CancelSpec` and keeps `Valid` |
| Service.WorkOrderService.SetStatus | app/Http/Controllers/API/WorkOrderController.php:149 | computes exactly `SetStatusSpec` and keeps `Valid` |
| Service.WorkOrderService.Delete | app/Http/Controllers/API/WorkOrderController.php:129 | computes exactly `DestroySpec` and keeps `Valid` |
| Service.WorkOrderService.RollBack | app/Http/Controllers/API/WorkOrderController.php:73 | after `DB::rollBack()` the tables are exactly the snapshot |
| Controller.StoreSpec | app/Http/Controllers/API/WorkOrderController.php:60-75 | `store` emits nothing, leaves the tables as before when `create` throws, and on success adds exactly the new order |
| Controller.RequestedStatus | app/Http/Controllers/API/WorkOrderController.php:144-146 | a status text the rule accepts is the name of the status it yields; an absent text yields none |
| Controller.ValidAddPartsRequest | app/Http/Controllers/API/WorkOrderController.php:164-169 | defines the `addParts` rules: `parts` present and non-empty, each line naming an existing part, quantity at least 1, price at least 0; `ValidRequestIsWellFormed` and `AddPartsRequestAllOrNothing` state what they guarantee |
| Controller.UpdateRequestSpec | app/Http/Controllers/API/WorkOrderController.php:101-121 | the controller's update keeps the orders |
| Controller.UpdateStatusRequestSpec | app/Http/Controllers/API/WorkOrderController.php:144-151 | `updateStatus` keeps the orders |
| Controller.AddPartsRequestSpec | app/Http/Controllers/API/WorkOrderController.php:164-186 | the controller's `addParts` keeps the orders |
| Controller.AddPartsRecostedSpec | app/Http/Controllers/API/WorkOrderController.php:171-186 | the corrected `addParts` keeps the orders |
| Controller.StoreAllOrNothing | app/Http/Controllers/API/WorkOrderController.php:60-75 | `store` keeps the tables consistent and emits nothing; on failure the tables are as before; on success exactly one order is added, and its costs are current |
| Controller.CreateAloneLeavesPartialOrder | app/Http/Controllers/API/WorkOrderController.php:60-75 | when a part line fails its stock check, the service alone leaves the inserted order behind, but `store` leaves the tables as before |
| Controller.DestroyThenStoreCollides | app/Models/WorkOrder.php:92 | after deleting an order of this year, the next generated number equals the number of the order that received the latest one, so `store` fails on the unique index |
| Controller.CountDropsOnDelete | app/Models/WorkOrder.php:92 | deleting an order created in a year lowers that year's count by one |
| Controller.FreeCount | app/Models/WorkOrder.php:92 | the search for a free count stays within its range, skips only counts whose number is taken, and stops early only at a free one |
| Controller.CorrectedOrderNumber | app/Models/WorkOrder.php:90-93 | the corrected hook: a truthy supplied number is kept, otherwise the count is the starting point and taken numbers are skipped |
| Controller.Counts | app/Models/WorkOrder.php:92 | the candidate counts `c` to `c + n` are exactly `n + 1` values, all within that range |
| Controller.SomeCountFree | app/Models/WorkOrder.php:92 | with more candidate counts than orders, some candidate generates a number none of those orders holds |
| Controller.FreeCountIsFree | app/Models/WorkOrder.php:92 | searching as many places as there are orders always reaches a number no order holds |
| Controller.CorrectedNumberIsFree | app/Models/WorkOrder.php:90-93 | the corrected hook never generates a number an order holds, and it picks the same number as the original hook whenever that one is free |
| Controller.DestroyThenCorrectedNumberIsFree | app/Models/WorkOrder.php:90-93 | after a delete, the corrected hook still generates a number no order holds |
| Controller.UpdateEmitsIffStatusMoved | app/Http/Controllers/API/WorkOrderController.php:101-121 | update keeps the tables consistent and leaves them as before on failure. It emits exactly one event with the old status iff it succeeds and a different status was given, and none otherwise |
| Controller.UpdateStatusAcceptsSixNames | app/Http/Controllers/API/WorkOrderController.php:144-146 | `updateStatus` accepts exactly the six status names; a rejection changes nothing and emits nothing |
| Controller.UpdateStatusAlwaysEmits | app/Http/Controllers/API/WorkOrderController.php:148-151 | an accepted status is set, nothing else changes, and one event with the old status is emitted; this happens even when the status is unchanged, and then the tables stay as they were |
| Controller.ValidRequestIsWellFormed | app/Http/Controllers/API/WorkOrderController.php:164-169 | a request that passes validation has existing parts, quantities of at least 1 and non-negative prices |
| Controller.AddPartsRequestAllOrNothing | app/Http/Controllers/API/WorkOrderController.php:164-186 | validation fails iff the rules are broken, and then nothing changes. A valid request keeps the tables consistent and is all-or-nothing; on success it appends one line per input and lowers each part's stock by what was asked |
| Controller.ConsumeErrorNamesStock | app/Services/WorkOrderService.php:51-55 | `addParts` throws only for a missing part or a short stock |
| Controller.AddPartsLeavesCostsStale | app/Http/Controllers/API/WorkOrderController.php:171-186 | as written, a successful request that adds lines costing something keeps the old `parts_cost` and `total_cost`, so the costs are no longer current |
| Controller.AddPartsStaleExample | app/Http/Controllers/API/WorkOrderController.php:171-186 | two units at 10.0 added to a fresh order leave `parts_cost` and `total_cost` at 0, while the lines cost 20 |
| Controller.AddPartsRecostedKeepsCostsCurrent | app/Http/Controllers/API/WorkOrderController.php:171-186 | with the recomputation, the stock and the result are as in the original; on failure nothing changes; on success the costs are current and `parts_cost` grows by exactly the cost of the new lines |
| Controller.WorkOrderController.constructor | app/Http/Controllers/API/WorkOrderController.php:20 | the controller starts with an empty event log over the given service |
| Controller.WorkOrderController.Store | app/Http/Controllers/API/WorkOrderController.php:58-76 | snapshot, create, roll back on failure: computes exactly `StoreSpec` and keeps `Valid` |
| Controller.WorkOrderController.Update | app/Http/Controllers/API/WorkOrderController.php:97-122 | captures the old status, updates, rolls back on failure, and appends the event only when the status moved: exactly `UpdateRequestSpec` |
| Controller.WorkOrderController.UpdateStatus | app/Http/Controllers/API/WorkOrderController.php:140-158 | validates, sets the status and always appends the event: exactly `UpdateStatusRequestSpec` |
| Controller.WorkOrderController.AddParts | app/Http/Controllers/API/WorkOrderController.php:160-187 | validates, then adds the parts in a transaction without recomputing costs: exactly `AddPartsRequestSpec` |
| Controller.WorkOrderController.AddPartsRecosted | app/Http/Controllers/API/WorkOrderController.php:171-186 | the same action with `calculateTotalCost` before the commit: exactly `AddPartsRecostedSpec` |
| Controller.WorkOrderController.Destroy | app/Http/Controllers/API/WorkOrderController.php:124-138 | deletes the order without a transaction or restocking, and emits nothing: exactly `DestroySpec` |

## Left out

- Caching, authentication and permission middleware, the policy `authorize` calls, the `index`, `show` and `getStatistics` queries, pagination and the JSON responses: these are framework and I/O plumbing.
- Concurrency: each request runs alone. The race between counting this year's orders and inserting one, and stale stock between concurrent requests, are not modelled.
- Decimal storage: money is exact `real`, so the `decimal(10,2)` rounding of stored totals and the float margin are not modelled.
- The profit margin is modelled as `real` division. PHP's float arithmetic and the `toFixed` margin and `totalValue` of the inventory page are out of scope.
- The clock: `now()` and `date('Y')` are parameters. Every order carries the year of its `created_at`.
- StockView.Lower: folds only ASCII letters, while `toLowerCase` follows Unicode case mapping; the search of the inventory page depends on case mapping only through this function.
- The other inventory-page fields and the other UI pages: they render demo data.
- The request validators `StoreWorkOrderRequest` and `UpdateWorkOrderRequest` are not part of this model. Where the service reads part lines, it requires non-negative quantities and prices instead (`WellFormedPartInputs`). Part existence is not required; a missing part is the error `PartNotFound`.
- Nullable columns the core never reads (`work_performed`, `started_at`, `estimated_completion`, `estimated_hours`, `customer_notes`, `images`): `Schema.WorkOrder` omits them.
- `Ledger.OrderData`, the data `create` and `update` receive, has no keys for the fillable `labor_cost`, `parts_cost`, `total_cost` and `completed_at`. The costs are always recomputed from the lines before the service returns, so a supplied value would survive only until `calculateTotalCost`. `completed_at` is set only by `completeWorkOrder`. So in the model `create` and `update` never set `completed_at`, and a new order always starts with `completedAt == None`.
- Ledger.Merge: a key present with an explicit null does not clear its column. A present key is modelled as `Some` of a value, so `update` can set but not clear a nullable column.
- Foreign keys of customers, vehicles and mechanics: their existence is not checked, and deleting a customer or vehicle (which cascades) is not modelled.
- Schema.MechanicDeleted: the cascade that deletes the mechanic's `work_order_mechanics` rows is not modelled. Only the `set null` of `assigned_mechanic_id` is.
- Events: the log records the order id and the old status. Event listeners, and exceptions they might throw, are not modelled.

## Findings

| source | as written | input that shows it | evidently intended | confidence | as-written member | corrected member |
|---|---|---|---|---|---|---|
| app/Http/Controllers/API/WorkOrderController.php:171-186 | `addParts` calls the service's `addParts` and commits without `calculateTotalCost`, so `parts_cost` and `total_cost` keep their old values | a fresh order (no lines, costs 0), a part with 5 in stock, request `[{part 3, quantity 2, unit_price 10.0}]`: the lines then cost 20, and `parts_cost` stays 0 | recompute the costs before the commit, as `create` and `update` do, so `total_cost = parts_cost + labor_cost` and `parts_cost` is the sum of the lines | not executed | Controller.AddPartsLeavesCostsStale | Controller.AddPartsRecostedKeepsCostsCurrent |
| app/Models/WorkOrder.php:92 | the suffix is one more than the number of orders created this year, and deleting an order lowers that count | two orders of this year numbered `WO-Y-0001` and `WO-Y-0002`; delete the first, then `store` an order without a number: the hook generates `WO-Y-0002` again, and the insert fails on the unique index of `order_number` | a generated number is never one an order already holds | not executed | Controller.DestroyThenStoreCollides | Controller.CorrectedNumberIsFree |
