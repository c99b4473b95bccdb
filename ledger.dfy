/**
 * The work-order bookkeeping rules as functions on the tables: consuming
 * stock for part lines, writing labor lines, aggregating costs, completing
 * and cancelling an order. `Service` implements each of these step by step
 * and is proved to compute exactly these functions.
 */
module Ledger {
  import opened Util
  import opened Schema
  import opened Inventory
  import OrderNumbers

  /** Why an operation throws. */
  datatype Error =
    | PartNotFound(partId: PartId)
    | InsufficientStock(partId: PartId, partName: string)
    | MissingRequiredField
    | DuplicateOrderNumber(number: string)
    | ValidationFailed

  /** One entry of the `parts` list handed to the service. */
  datatype PartInput = PartInput(partId: PartId, quantity: int, unitPrice: real)

  /** One entry of the `mechanics` list handed to the service. */
  datatype MechanicInput = MechanicInput(
    mechanicId: MechanicId,
    hoursWorked: Option<real>,
    hourlyRate: real,
    workDescription: Option<string>)

  /** The validated request data: a key is `Some` exactly when it is set. */
  datatype OrderData = OrderData(
    orderNumber: Option<string>,
    customerId: Option<nat>,
    vehicleId: Option<nat>,
    assignedMechanicId: Option<MechanicId>,
    problemDescription: Option<string>,
    diagnosis: Option<string>,
    priority: Option<Priority>,
    status: Option<Status>,
    internalNotes: Option<string>,
    parts: Option<seq<PartInput>>,
    mechanics: Option<seq<MechanicInput>>)

  /** The state of the database the core works on. `nextId` is the auto-increment counter of `work_orders`. */
  datatype Tables = Tables(parts: map<PartId, Part>, orders: map<OrderId, WorkOrder>, nextId: OrderId)

  /** The tables after an operation, and what the operation returned. */
  datatype Step<T> = Step(tables: Tables, result: T)

  // ---------------------------------------------------------------- stock

  predicate NonNegativeStock(stock: map<PartId, Part>) {
    forall p :: p in stock ==> stock[p].stockQuantity >= 0
  }

  /** What the request validators guarantee of part lines: no negative quantity or price. */
  predicate WellFormedPartInputs(inputs: seq<PartInput>) {
    forall k :: 0 <= k < |inputs| ==> inputs[k].quantity >= 0 && inputs[k].unitPrice >= 0.0
  }

  /**
   * Every stored part line names an existing part, holds a non-negative
   * quantity, and its total is quantity times unit price.
   */
  predicate LinesWellFormed(lines: seq<PartLine>, ids: set<PartId>) {
    forall k :: 0 <= k < |lines| ==>
      lines[k].partId in ids && lines[k].quantity >= 0 && lines[k].totalPrice == lines[k].quantity as real * lines[k].unitPrice
  }

  /** The `work_order_parts` row written for one input line. */
  function LineFor(i: PartInput): PartLine {
    PartLine(i.partId, i.quantity, i.unitPrice, i.quantity as real * i.unitPrice)
  }

  function PartLinesFor(inputs: seq<PartInput>): seq<PartLine>
    decreases |inputs|
  {
    if inputs == [] then [] else [LineFor(inputs[0])] + PartLinesFor(inputs[1..])
  }

  /** The total quantity of part `p` the input lines ask for. */
  function Requested(inputs: seq<PartInput>, p: PartId): int
    decreases |inputs|
  {
    if inputs == [] then 0
    else (if inputs[0].partId == p then inputs[0].quantity else 0) + Requested(inputs[1..], p)
  }

  /** The total quantity of part `p` the stored lines hold. */
  function QuantityOf(lines: seq<PartLine>, p: PartId): int
    decreases |lines|
  {
    if lines == [] then 0
    else (if lines[0].partId == p then lines[0].quantity else 0) + QuantityOf(lines[1..], p)
  }

  /** `$part->decrement('stock_quantity', q)`. */
  function Take(stock: map<PartId, Part>, p: PartId, q: int): map<PartId, Part>
    requires p in stock
  {
    stock[p := stock[p].(stockQuantity := stock[p].stockQuantity - q)]
  }

  /** `$part->increment('stock_quantity', line.quantity)`. */
  function Give(stock: map<PartId, Part>, l: PartLine): map<PartId, Part>
    requires l.partId in stock
  {
    stock[l.partId := stock[l.partId].(stockQuantity := stock[l.partId].stockQuantity + l.quantity)]
  }

  /** The stock and lines after `addParts`, and the exception it threw, if any. */
  datatype Consumed = Consumed(stock: map<PartId, Part>, lines: seq<PartLine>, error: Option<Error>)

  /**
   * `addParts`: each input line in turn looks its part up, throws if the part
   * is missing or its current stock is below the quantity, and otherwise
   * appends a line and decrements the stock. Lines already processed stay.
   */
  function Consume(stock: map<PartId, Part>, lines: seq<PartLine>, inputs: seq<PartInput>): (c: Consumed)
    ensures c.stock.Keys == stock.Keys
    ensures c.error.None? ==> |c.lines| == |lines| + |inputs|
    decreases |inputs|
  {
    if inputs == [] then Consumed(stock, lines, None)
    else
      var i := inputs[0];
      if i.partId !in stock then Consumed(stock, lines, Some(PartNotFound(i.partId)))
      else if stock[i.partId].stockQuantity < i.quantity then
        Consumed(stock, lines, Some(InsufficientStock(i.partId, stock[i.partId].name)))
      else Consume(Take(stock, i.partId, i.quantity), lines + [LineFor(i)], inputs[1..])
  }

  /**
   * The stock check input line `i` meets once the lines `done` before it have
   * been consumed: the part exists and what is left of it covers the quantity.
   */
  predicate Available(stock: map<PartId, Part>, done: seq<PartInput>, i: PartInput) {
    i.partId in stock && stock[i.partId].stockQuantity - Requested(done, i.partId) >= i.quantity
  }

  /** The loop body commits a line by reading the already-decremented stock. */
  lemma AvailableShift(stock: map<PartId, Part>, inputs: seq<PartInput>, k: nat)
    requires 0 <= k < |inputs| - 1 && Available(stock, [], inputs[0])
    ensures var i := inputs[0];
      Available(Take(stock, i.partId, i.quantity), inputs[1..][..k], inputs[1..][k])
      <==> Available(stock, inputs[..k + 1], inputs[k + 1])
  {
    assert inputs[..k + 1][1..] == inputs[1..][..k];
  }

  /** After a successful run: one line per input, and each part's stock lowered by what was asked of it. */
  lemma {:induction false} ConsumeOnSuccess(stock: map<PartId, Part>, lines: seq<PartLine>, inputs: seq<PartInput>)
    requires Consume(stock, lines, inputs).error.None?
    ensures var c := Consume(stock, lines, inputs);
      c.lines == lines + PartLinesFor(inputs) && c.stock.Keys == stock.Keys
      && forall p :: p in stock ==>
        c.stock[p] == stock[p].(stockQuantity := stock[p].stockQuantity - Requested(inputs, p))
    decreases |inputs|
  {
    if inputs != [] {
      var i := inputs[0];
      var s1 := Take(stock, i.partId, i.quantity);
      ConsumeOnSuccess(s1, lines + [LineFor(i)], inputs[1..]);
      assert lines + [LineFor(i)] + PartLinesFor(inputs[1..]) == lines + PartLinesFor(inputs);
    }
  }

  /** A run succeeds exactly when every line passes its stock check against the stock its predecessors left. */
  lemma {:induction false} ConsumeSucceedsIff(stock: map<PartId, Part>, lines: seq<PartLine>, inputs: seq<PartInput>)
    ensures Consume(stock, lines, inputs).error.None?
      <==> forall k :: 0 <= k < |inputs| ==> Available(stock, inputs[..k], inputs[k])
    decreases |inputs|
  {
    if inputs != [] {
      var i := inputs[0];
      assert inputs[..0] == [];
      if Available(stock, [], i) {
        var s1 := Take(stock, i.partId, i.quantity);
        ConsumeSucceedsIff(s1, lines + [LineFor(i)], inputs[1..]);
        forall k | 0 <= k < |inputs| - 1
          ensures Available(s1, inputs[1..][..k], inputs[1..][k]) <==> Available(stock, inputs[..k + 1], inputs[k + 1])
        {
          AvailableShift(stock, inputs, k);
        }
        if Consume(stock, lines, inputs).error.None? {
          forall k | 0 <= k < |inputs| ensures Available(stock, inputs[..k], inputs[k]) {
            if k > 0 {
              assert Available(s1, inputs[1..][..k - 1], inputs[1..][k - 1]);
            }
          }
        } else {
          var k :| 0 <= k < |inputs| - 1 && !Available(s1, inputs[1..][..k], inputs[1..][k]);
          assert !Available(stock, inputs[..k + 1], inputs[k + 1]);
        }
      }
    }
  }

  /**
   * `addParts` alone is not all-or-nothing: when line `k` is the first to fail
   * its check, it throws, and the lines before it stay recorded with their
   * stock decremented.
   */
  lemma {:induction false} ConsumeStopsAtFailure(stock: map<PartId, Part>, lines: seq<PartLine>, inputs: seq<PartInput>, k: nat)
    requires k < |inputs|
    requires forall j :: 0 <= j < k ==> Available(stock, inputs[..j], inputs[j])
    requires !Available(stock, inputs[..k], inputs[k])
    ensures var c := Consume(stock, lines, inputs);
      c.error.Some? && c.lines == lines + PartLinesFor(inputs[..k]) && c.stock.Keys == stock.Keys
      && forall p :: p in stock ==>
        c.stock[p] == stock[p].(stockQuantity := stock[p].stockQuantity - Requested(inputs[..k], p))
    decreases k
  {
    var i := inputs[0];
    assert inputs[..0] == [];
    if k > 0 {
      assert Available(stock, [], i);
      var s1 := Take(stock, i.partId, i.quantity);
      forall j | 0 <= j < k - 1 ensures Available(s1, inputs[1..][..j], inputs[1..][j]) {
        AvailableShift(stock, inputs, j);
      }
      AvailableShift(stock, inputs, k - 1);
      ConsumeStopsAtFailure(s1, lines + [LineFor(i)], inputs[1..], k - 1);
      assert inputs[..k][1..] == inputs[1..][..k - 1];
      assert lines + [LineFor(i)] + PartLinesFor(inputs[1..][..k - 1]) == lines + PartLinesFor(inputs[..k]);
    }
  }

  /**
   * Whether or not it throws, `addParts` keeps the set of parts, never drives
   * a stock below 0, and writes only well-formed lines.
   */
  lemma {:induction false} ConsumeKeepsStockValid(stock: map<PartId, Part>, lines: seq<PartLine>, inputs: seq<PartInput>)
    requires NonNegativeStock(stock) && LinesWellFormed(lines, stock.Keys) && WellFormedPartInputs(inputs)
    ensures var c := Consume(stock, lines, inputs);
      c.stock.Keys == stock.Keys && NonNegativeStock(c.stock) && LinesWellFormed(c.lines, c.stock.Keys)
    decreases |inputs|
  {
    if inputs != [] {
      var i := inputs[0];
      if i.partId in stock && stock[i.partId].stockQuantity >= i.quantity {
        var s1 := Take(stock, i.partId, i.quantity);
        assert s1.Keys == stock.Keys;
        ConsumeKeepsStockValid(s1, lines + [LineFor(i)], inputs[1..]);
      }
    }
  }

  /** `cancelWorkOrder`'s loop: give back every line's quantity to its part. */
  function Restock(stock: map<PartId, Part>, lines: seq<PartLine>): (r: map<PartId, Part>)
    requires LinesWellFormed(lines, stock.Keys)
    ensures r.Keys == stock.Keys
    decreases |lines|
  {
    if lines == [] then stock
    else
      var s1 := Give(stock, lines[0]);
      assert s1.Keys == stock.Keys;
      Restock(s1, lines[1..])
  }

  /** Restocking adds to each part exactly the quantity its lines hold. */
  lemma {:induction false} RestockAdds(stock: map<PartId, Part>, lines: seq<PartLine>)
    requires LinesWellFormed(lines, stock.Keys)
    ensures forall p :: p in stock ==>
      Restock(stock, lines)[p] == stock[p].(stockQuantity := stock[p].stockQuantity + QuantityOf(lines, p))
    decreases |lines|
  {
    if lines != [] {
      RestockAdds(Give(stock, lines[0]), lines[1..]);
    }
  }

  lemma RestockKeepsNonNegative(stock: map<PartId, Part>, lines: seq<PartLine>)
    requires LinesWellFormed(lines, stock.Keys) && NonNegativeStock(stock)
    ensures NonNegativeStock(Restock(stock, lines))
  {
    RestockAdds(stock, lines);
    QuantityNonNegative(lines, stock.Keys);
  }

  lemma {:induction false} QuantityNonNegative(lines: seq<PartLine>, ids: set<PartId>)
    requires LinesWellFormed(lines, ids)
    ensures forall p :: QuantityOf(lines, p) >= 0
    decreases |lines|
  {
    if lines != [] {
      QuantityNonNegative(lines[1..], ids);
    }
  }

  /** The lines written for some inputs hold, per part, exactly the quantity requested. */
  lemma {:induction false} LinesHoldRequested(inputs: seq<PartInput>, p: PartId)
    ensures QuantityOf(PartLinesFor(inputs), p) == Requested(inputs, p)
    decreases |inputs|
  {
    if inputs != [] {
      LinesHoldRequested(inputs[1..], p);
    }
  }

  /** Cancelling returns what consuming took: restocking the written lines restores the stock exactly. */
  lemma RestockUndoesConsume(stock: map<PartId, Part>, inputs: seq<PartInput>)
    requires Consume(stock, [], inputs).error.None?
    requires WellFormedPartInputs(inputs) && NonNegativeStock(stock)
    ensures var c := Consume(stock, [], inputs);
      LinesWellFormed(c.lines, c.stock.Keys) && Restock(c.stock, c.lines) == stock
  {
    var c := Consume(stock, [], inputs);
    ConsumeOnSuccess(stock, [], inputs);
    ConsumeKeepsStockValid(stock, [], inputs);
    RestockAdds(c.stock, c.lines);
    assert c.lines == PartLinesFor(inputs);
    forall p | p in stock ensures Restock(c.stock, c.lines)[p] == stock[p] {
      LinesHoldRequested(inputs, p);
    }
  }

  /** Restocking twice gives everything back twice: cancellation is not idempotent. */
  lemma RestockTwice(stock: map<PartId, Part>, lines: seq<PartLine>, p: PartId)
    requires LinesWellFormed(lines, stock.Keys) && p in stock
    ensures LinesWellFormed(lines, Restock(stock, lines).Keys)
    ensures Restock(Restock(stock, lines), lines)[p].stockQuantity
      == stock[p].stockQuantity + 2 * QuantityOf(lines, p)
    ensures QuantityOf(lines, p) != 0 ==> Restock(Restock(stock, lines), lines) != Restock(stock, lines)
  {
    RestockAdds(stock, lines);
    RestockAdds(Restock(stock, lines), lines);
  }

  // ---------------------------------------------------------------- labor

  /** The `work_order_mechanics` row written for one input: hours default to 0. */
  function LaborLineFor(m: MechanicInput): LaborLine {
    var h := m.hoursWorked.GetOr(0.0);
    LaborLine(m.mechanicId, h, m.hourlyRate, h * m.hourlyRate, m.workDescription)
  }

  function LaborLinesFor(inputs: seq<MechanicInput>): seq<LaborLine> {
    seq(|inputs|, k requires 0 <= k < |inputs| => LaborLineFor(inputs[k]))
  }

  /** One part line per input, in order, carrying its part, quantity and price, with `total_price = quantity * unit_price`. */
  lemma {:induction false} PartLinesMeaning(inputs: seq<PartInput>)
    ensures var r := PartLinesFor(inputs);
      |r| == |inputs| && forall k :: 0 <= k < |r| ==>
        && r[k].partId == inputs[k].partId
        && r[k].quantity == inputs[k].quantity
        && r[k].unitPrice == inputs[k].unitPrice
        && r[k].totalPrice == r[k].quantity as real * r[k].unitPrice
    decreases |inputs|
  {
    if inputs != [] {
      PartLinesMeaning(inputs[1..]);
    }
  }

  /** One labor line per input, in order, with the default hours and `total_cost = hours * rate`. */
  lemma LaborLinesMeaning(inputs: seq<MechanicInput>)
    ensures var r := LaborLinesFor(inputs);
      |r| == |inputs| && forall k :: 0 <= k < |r| ==>
        && r[k].mechanicId == inputs[k].mechanicId
        && r[k].hoursWorked == (if inputs[k].hoursWorked.Some? then inputs[k].hoursWorked.value else 0.0)
        && r[k].hourlyRate == inputs[k].hourlyRate
        && r[k].totalCost == r[k].hoursWorked * r[k].hourlyRate
  {
  }

  // ---------------------------------------------------------------- costs

  function PartsCost(lines: seq<PartLine>): real
    decreases |lines|
  {
    if lines == [] then 0.0 else lines[0].totalPrice + PartsCost(lines[1..])
  }

  function LaborCost(lines: seq<LaborLine>): real
    decreases |lines|
  {
    if lines == [] then 0.0 else lines[0].totalCost + LaborCost(lines[1..])
  }

  /** The cost columns agree with the child rows and with each other. */
  predicate CostsCurrent(o: WorkOrder) {
    o.partsCost == PartsCost(o.partLines) && o.laborCost == LaborCost(o.laborLines) && CostsAdd(o)
  }

  /** `calculateTotalCost` on one order. */
  function Recost(o: WorkOrder): (r: WorkOrder)
    ensures CostsCurrent(r) && r.partLines == o.partLines && r.laborLines == o.laborLines
  {
    var pc, lc := PartsCost(o.partLines), LaborCost(o.laborLines);
    o.(partsCost := pc, laborCost := lc, totalCost := pc + lc)
  }

  /**
   * Recomputing makes the costs current, changes nothing but the three cost
   * columns, is idempotent, and leaves an order whose costs are already
   * current as it is.
   */
  lemma RecostMeaning(o: WorkOrder)
    ensures CostsCurrent(Recost(o))
    ensures Recost(o).(partsCost := o.partsCost, laborCost := o.laborCost, totalCost := o.totalCost) == o
    ensures Recost(Recost(o)) == Recost(o)
    ensures CostsCurrent(o) <==> Recost(o) == o
  {
  }

  /** The parts cost of a concatenation is the sum of the parts costs. */
  lemma {:induction false} PartsCostAppend(a: seq<PartLine>, b: seq<PartLine>)
    ensures PartsCost(a + b) == PartsCost(a) + PartsCost(b)
    decreases |a|
  {
    if a != [] {
      assert (a + b)[0] == a[0] && (a + b)[1..] == a[1..] + b;
      PartsCostAppend(a[1..], b);
      assert PartsCost(a + b) == a[0].totalPrice + PartsCost(a[1..] + b);
    } else {
      assert a + b == b;
    }
  }

  // ---------------------------------------------------------------- tables

  /**
   * What every operation keeps: ids below the counter, no negative stock,
   * well-formed part lines, the three cost columns adding up, unique numbers.
   */
  ghost predicate Consistent(t: Tables) {
    && (forall id :: id in t.orders ==> id < t.nextId)
    && NonNegativeStock(t.parts)
    && (forall id :: id in t.orders ==> LinesWellFormed(t.orders[id].partLines, t.parts.Keys))
    && (forall id :: id in t.orders ==> CostsAdd(t.orders[id]))
    && UniqueOrderNumbers(t.orders)
  }

  function WithOrder(t: Tables, id: OrderId, o: WorkOrder): Tables {
    t.(orders := t.orders[id := o])
  }

  /** `WorkOrderService::addParts` on the tables. */
  function AddPartsSpec(t: Tables, id: OrderId, inputs: seq<PartInput>): (r: Step<Option<Error>>)
    requires id in t.orders
    ensures r.tables.orders.Keys == t.orders.Keys && r.tables.nextId == t.nextId
  {
    var o := t.orders[id];
    var c := Consume(t.parts, o.partLines, inputs);
    Step(t.(parts := c.stock, orders := t.orders[id := o.(partLines := c.lines)]), c.error)
  }

  /** `WorkOrderService::assignMechanics` on the tables. */
  function AssignMechanicsSpec(t: Tables, id: OrderId, inputs: seq<MechanicInput>): (r: Tables)
    requires id in t.orders
    ensures r.parts == t.parts && r.nextId == t.nextId && r.orders.Keys == t.orders.Keys
    ensures r.orders[id].partLines == t.orders[id].partLines
    ensures |r.orders[id].laborLines| == |t.orders[id].laborLines| + |inputs|
    ensures forall other :: other in t.orders && other != id ==> r.orders[other] == t.orders[other]
  {
    var o := t.orders[id];
    WithOrder(t, id, o.(laborLines := o.laborLines + LaborLinesFor(inputs)))
  }

  /** `WorkOrderService::calculateTotalCost` on the tables. */
  function CalculateTotalCostSpec(t: Tables, id: OrderId): (r: Tables)
    requires id in t.orders
    ensures r.parts == t.parts && r.nextId == t.nextId && r.orders.Keys == t.orders.Keys
    ensures CostsCurrent(r.orders[id])
  {
    WithOrder(t, id, Recost(t.orders[id]))
  }

  /** `whereYear('created_at', year)->count()`. */
  function CountCreatedIn(orders: map<OrderId, WorkOrder>, year: nat): (r: nat)
    ensures r == 0 <==> forall id :: id in orders ==> orders[id].createdYear != year
  {
    var s := CreatedIn(orders, year);
    assert forall id :: id in orders && orders[id].createdYear == year ==> id in s;
    |s|
  }

  /** The orders `whereYear('created_at', year)` selects. */
  function CreatedIn(orders: map<OrderId, WorkOrder>, year: nat): set<OrderId> {
    set id | id in orders && orders[id].createdYear == year
  }

  /** The number the `creating` hook leaves on a new order. */
  function NewOrderNumber(t: Tables, data: OrderData, year: nat): string {
    OrderNumbers.OnCreating(data.orderNumber, year, CountCreatedIn(t.orders, year))
  }

  /** A column the schema declares NOT NULL without a default is missing from the data. */
  predicate MissingRequired(data: OrderData) {
    data.customerId.None? || data.vehicleId.None? || data.problemDescription.None?
  }

  /** The row `WorkOrder::create($data)` inserts. */
  function InsertedRow(number: string, data: OrderData, year: nat, now: Timestamp): WorkOrder
    requires !MissingRequired(data)
  {
    FreshRow(number, data.customerId.value, data.vehicleId.value, data.assignedMechanicId,
      data.problemDescription.value, data.diagnosis, data.priority, data.status,
      data.internalNotes, now, year)
  }

  function PartsOf(data: OrderData): seq<PartInput> {
    if data.parts.Some? then data.parts.value else []
  }

  function MechanicsOf(data: OrderData): seq<MechanicInput> {
    if data.mechanics.Some? then data.mechanics.value else []
  }

  /**
   * `WorkOrderService::create`: insert the row (the hook picks the number;
   * the NOT NULL columns and the unique index can make the insert throw), add
   * the parts, assign the mechanics, recompute the costs. A throw leaves
   * whatever was written before it.
   */
  function CreateSpec(t: Tables, data: OrderData, year: nat, now: Timestamp): (r: Step<Result<OrderId, Error>>)
    ensures r.result.Success? ==> r.result.value == t.nextId && r.tables.orders.Keys == t.orders.Keys + {t.nextId}
  {
    var number := NewOrderNumber(t, data, year);
    if MissingRequired(data) then Step(t, Failure(MissingRequiredField))
    else if NumberTaken(t.orders, number, None) then Step(t, Failure(DuplicateOrderNumber(number)))
    else
      var id := t.nextId;
      var t1 := Tables(t.parts, t.orders[id := InsertedRow(number, data, year, now)], t.nextId + 1);
      var s2 := if data.parts.Some? then AddPartsSpec(t1, id, data.parts.value) else Step(t1, None);
      if s2.result.Some? then Step(s2.tables, Failure(s2.result.value))
      else
        var t3 := if data.mechanics.Some? then AssignMechanicsSpec(s2.tables, id, data.mechanics.value) else s2.tables;
        Step(CalculateTotalCostSpec(t3, id), Success(id))
  }

  /** `$workOrder->update($data)`: every key that is set overwrites its column. */
  function Merge(o: WorkOrder, d: OrderData): (r: WorkOrder)
    ensures r.partLines == o.partLines && r.laborLines == o.laborLines
    ensures r.partsCost == o.partsCost && r.laborCost == o.laborCost && r.totalCost == o.totalCost
    ensures r.completedAt == o.completedAt && r.createdAt == o.createdAt && r.createdYear == o.createdYear
    ensures d.status.Some? ==> r.status == d.status.value
    ensures d.status.None? ==> r.status == o.status
    ensures r.customerId == (if d.customerId.Some? then d.customerId.value else o.customerId)
    ensures r.vehicleId == (if d.vehicleId.Some? then d.vehicleId.value else o.vehicleId)
    ensures r.problemDescription == (if d.problemDescription.Some? then d.problemDescription.value else o.problemDescription)
    ensures d.assignedMechanicId.Some? ==> r.assignedMechanicId == d.assignedMechanicId
    ensures d.diagnosis.Some? ==> r.diagnosis == d.diagnosis
    ensures d.internalNotes.Some? ==> r.internalNotes == d.internalNotes
  {
    o.(
      orderNumber := d.orderNumber.GetOr(o.orderNumber),
      customerId := d.customerId.GetOr(o.customerId),
      vehicleId := d.vehicleId.GetOr(o.vehicleId),
      assignedMechanicId := if d.assignedMechanicId.Some? then d.assignedMechanicId else o.assignedMechanicId,
      problemDescription := d.problemDescription.GetOr(o.problemDescription),
      diagnosis := if d.diagnosis.Some? then d.diagnosis else o.diagnosis,
      priority := d.priority.GetOr(o.priority),
      status := d.status.GetOr(o.status),
      internalNotes := if d.internalNotes.Some? then d.internalNotes else o.internalNotes)
  }

  /** The tables with order `id`'s part lines deleted (`workOrderParts()->delete()`); stock is not touched. */
  function ClearPartLines(t: Tables, id: OrderId): Tables
    requires id in t.orders
  {
    WithOrder(t, id, t.orders[id].(partLines := []))
  }

  function ClearLaborLines(t: Tables, id: OrderId): Tables
    requires id in t.orders
  {
    WithOrder(t, id, t.orders[id].(laborLines := []))
  }

  /** The part-line stage of `update`: when `parts` is set, delete the old lines and add the new ones. */
  function ReplacePartLines(t: Tables, id: OrderId, parts: Option<seq<PartInput>>): (r: Step<Option<Error>>)
    requires id in t.orders
    ensures r.tables.orders.Keys == t.orders.Keys && r.tables.nextId == t.nextId
  {
    if parts.Some? then AddPartsSpec(ClearPartLines(t, id), id, parts.value) else Step(t, None)
  }

  /** The labor-line stage of `update`: when `mechanics` is set, delete the old lines and assign the new ones. */
  function ReplaceLaborLines(t: Tables, id: OrderId, mechanics: Option<seq<MechanicInput>>): (r: Tables)
    requires id in t.orders
    ensures r.orders.Keys == t.orders.Keys && r.nextId == t.nextId && r.parts == t.parts
  {
    if mechanics.Some? then AssignMechanicsSpec(ClearLaborLines(t, id), id, mechanics.value) else t
  }

  /**
   * `WorkOrderService::update`: merge the columns (the unique index can make
   * this throw), replace the part lines wholesale when `parts` is set (the old
   * lines go without their stock coming back), replace the labor lines when
   * `mechanics` is set, recompute the costs.
   */
  function UpdateSpec(t: Tables, id: OrderId, data: OrderData): (r: Step<Option<Error>>)
    requires id in t.orders
    ensures r.tables.orders.Keys == t.orders.Keys && r.tables.nextId == t.nextId
  {
    if data.orderNumber.Some? && NumberTaken(t.orders, data.orderNumber.value, Some(id)) then
      Step(t, Some(DuplicateOrderNumber(data.orderNumber.value)))
    else
      var s2 := ReplacePartLines(WithOrder(t, id, Merge(t.orders[id], data)), id, data.parts);
      if s2.result.Some? then s2
      else Step(CalculateTotalCostSpec(ReplaceLaborLines(s2.tables, id, data.mechanics), id), None)
  }

  /** `WorkOrderService::completeWorkOrder`. */
  function CompleteSpec(t: Tables, id: OrderId, now: Timestamp): (r: Tables)
    requires id in t.orders
    ensures r.parts == t.parts && r.nextId == t.nextId && r.orders.Keys == t.orders.Keys
    ensures r.orders[id].status == Completed && r.orders[id].completedAt == Some(now)
  {
    WithOrder(t, id, t.orders[id].(status := Completed, completedAt := Some(now)))
  }

  /** `(internal_notes ?? '') . "\n\nCancelled: " . reason`, a null reason reading as "". */
  function CancelNote(notes: Option<string>, reason: Option<string>): string {
    notes.GetOr("") + "\n\nCancelled: " + reason.GetOr("")
  }

  /** `WorkOrderService::cancelWorkOrder`: give the stock back, keep the lines, mark cancelled, append the note. */
  function CancelSpec(t: Tables, id: OrderId, reason: Option<string>): (r: Tables)
    requires id in t.orders && LinesWellFormed(t.orders[id].partLines, t.parts.Keys)
    ensures r.parts.Keys == t.parts.Keys && r.nextId == t.nextId && r.orders.Keys == t.orders.Keys
    ensures r.orders[id].status == Cancelled && r.orders[id].partLines == t.orders[id].partLines
  {
    var o := t.orders[id];
    t.(parts := Restock(t.parts, o.partLines),
       orders := t.orders[id := o.(status := Cancelled, internalNotes := Some(CancelNote(o.internalNotes, reason)))])
  }

  /** `$workOrder->update(['status' => s])`. */
  function SetStatusSpec(t: Tables, id: OrderId, s: Status): (r: Tables)
    requires id in t.orders
    ensures r.parts == t.parts && r.nextId == t.nextId && r.orders.Keys == t.orders.Keys
    ensures r.orders[id].status == s
  {
    WithOrder(t, id, t.orders[id].(status := s))
  }

  /** `$workOrder->delete()`: the row and (by cascade) its child rows go; no stock comes back. */
  function DestroySpec(t: Tables, id: OrderId): (r: Tables)
    ensures r.parts == t.parts && r.nextId == t.nextId && r.orders.Keys == t.orders.Keys - {id}
  {
    t.(orders := t.orders - {id})
  }
}
