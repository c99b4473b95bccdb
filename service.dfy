/**
 * `WorkOrderService` as a class over the tables it writes: each method works
 * step by step, as the PHP does (looping over the input lines, decrementing
 * and incrementing stock in place, appending child rows, overwriting
 * columns), and is proved to compute exactly the matching `Ledger` function.
 * `Valid` is the consistency every method keeps.
 */
module Service {
  import opened Util
  import opened Schema
  import opened Inventory
  import opened Ledger
  import opened LedgerFacts
  import OrderNumbers

  class WorkOrderService {
    /** The `parts` table. */
    var parts: map<PartId, Part>
    /** The `work_orders` table, each order with its `work_order_parts` and `work_order_mechanics` rows. */
    var workOrders: map<OrderId, WorkOrder>
    /** The auto-increment counter of `work_orders`. */
    var nextId: OrderId

    function State(): Tables
      reads this
    {
      Tables(parts, workOrders, nextId)
    }

    ghost predicate Valid()
      reads this
    {
      Consistent(State())
    }

    /** An empty `work_orders` table over a given stock; ids start at 1. */
    constructor (stock: map<PartId, Part>)
      requires NonNegativeStock(stock)
      ensures Valid() && State() == Tables(stock, map[], 1)
    {
      parts := stock;
      workOrders := map[];
      nextId := 1;
    }

    /** `addParts`: per line, look the part up, check its current stock, write the line, decrement. */
    method AddParts(id: OrderId, inputs: seq<PartInput>) returns (error: Option<Error>)
      requires Valid() && id in workOrders && WellFormedPartInputs(inputs)
      modifies this
      ensures Valid()
      ensures Step(State(), error) == AddPartsSpec(old(State()), id, inputs)
    {
      ghost var t0 := State();
      error := None;
      var i := 0;
      while i < |inputs|
        invariant 0 <= i <= |inputs|
        invariant id in workOrders && nextId == t0.nextId
        invariant workOrders == t0.orders[id := t0.orders[id].(partLines := workOrders[id].partLines)]
        invariant Consume(parts, workOrders[id].partLines, inputs[i..]) == Consume(t0.parts, t0.orders[id].partLines, inputs)
        invariant error.None?
      {
        var line := inputs[i];
        assert inputs[i..][0] == line && inputs[i..][1..] == inputs[i + 1..];
        if line.partId !in parts {
          error := Some(PartNotFound(line.partId));
          break;
        }
        var part := parts[line.partId];
        if part.stockQuantity < line.quantity {
          error := Some(InsufficientStock(line.partId, part.name));
          break;
        }
        var o := workOrders[id];
        workOrders := workOrders[id := o.(partLines := o.partLines + [LineFor(line)])];
        parts := parts[line.partId := part.(stockQuantity := part.stockQuantity - line.quantity)];
        i := i + 1;
      }
      AddPartsKeepsConsistent(t0, id, inputs);
    }

    /** `assignMechanics`: one labor line per input, hours defaulting to 0. */
    method AssignMechanics(id: OrderId, inputs: seq<MechanicInput>)
      requires Valid() && id in workOrders
      modifies this
      ensures Valid()
      ensures State() == AssignMechanicsSpec(old(State()), id, inputs)
    {
      ghost var t0 := State();
      var i := 0;
      assert LaborLinesFor(inputs[..0]) == [] && t0.orders[id].laborLines + [] == t0.orders[id].laborLines;
      assert t0.orders[id := t0.orders[id]] == t0.orders;
      while i < |inputs|
        invariant 0 <= i <= |inputs|
        invariant id in workOrders
        invariant parts == t0.parts && nextId == t0.nextId
        invariant workOrders == t0.orders[id := t0.orders[id].(laborLines := t0.orders[id].laborLines + LaborLinesFor(inputs[..i]))]
      {
        assert LaborLinesFor(inputs[..i + 1]) == LaborLinesFor(inputs[..i]) + [LaborLineFor(inputs[i])];
        var o := workOrders[id];
        assert o.laborLines + [LaborLineFor(inputs[i])] == t0.orders[id].laborLines + LaborLinesFor(inputs[..i + 1]);
        workOrders := workOrders[id := o.(laborLines := o.laborLines + [LaborLineFor(inputs[i])])];
        i := i + 1;
      }
      assert inputs[..i] == inputs;
      AssignMechanicsKeepsConsistent(t0, id, inputs);
    }

    /** `calculateTotalCost`: sum both kinds of lines and write the three cost columns. */
    method CalculateTotalCost(id: OrderId)
      requires Valid() && id in workOrders
      modifies this
      ensures Valid() && id in workOrders && CostsCurrent(workOrders[id])
      ensures State() == CalculateTotalCostSpec(old(State()), id)
    {
      CalculateKeepsConsistent(State(), id);
      var o := workOrders[id];
      var partsCost := PartsCost(o.partLines);
      var laborCost := LaborCost(o.laborLines);
      assert o.(partsCost := partsCost, laborCost := laborCost, totalCost := partsCost + laborCost) == Recost(o);
      workOrders := workOrders[id := o.(partsCost := partsCost, laborCost := laborCost, totalCost := partsCost + laborCost)];
    }

    /**
     * `create`: the `creating` hook picks the number, the insert can fail on a
     * NOT NULL column or the unique index, then parts, mechanics and costs.
     * A failure after the insert leaves what was written so far.
     */
    method Create(data: OrderData, year: nat, now: Timestamp) returns (r: Result<OrderId, Error>)
      requires Valid() && WellFormedPartInputs(PartsOf(data))
      modifies this
      ensures Valid()
      ensures Step(State(), r) == CreateSpec(old(State()), data, year, now)
    {
      ghost var t0 := State();
      var number := OrderNumbers.OnCreating(data.orderNumber, year, CountCreatedIn(workOrders, year));
      if MissingRequired(data) {
        return Failure(MissingRequiredField);
      }
      if NumberTaken(workOrders, number, None) {
        return Failure(DuplicateOrderNumber(number));
      }
      var id := nextId;
      InsertKeepsConsistent(t0, InsertedRow(number, data, year, now));
      workOrders := workOrders[id := InsertedRow(number, data, year, now)];
      nextId := nextId + 1;
      if data.parts.Some? {
        var error := AddParts(id, data.parts.value);
        if error.Some? {
          return Failure(error.value);
        }
      }
      if data.mechanics.Some? {
        AssignMechanics(id, data.mechanics.value);
      }
      CalculateTotalCost(id);
      r := Success(id);
    }

    /**
     * `update`: overwrite the columns that are set (the unique index can
     * reject a new number), replace the part lines and the labor lines when
     * given (old part lines go without restocking), recompute the costs.
     */
    method Update(id: OrderId, data: OrderData) returns (error: Option<Error>)
      requires Valid() && id in workOrders && WellFormedPartInputs(PartsOf(data))
      modifies this
      ensures Valid()
      ensures Step(State(), error) == UpdateSpec(old(State()), id, data)
    {
      ghost var t0 := State();
      if data.orderNumber.Some? && NumberTaken(workOrders, data.orderNumber.value, Some(id)) {
        return Some(DuplicateOrderNumber(data.orderNumber.value));
      }
      ReplaceKeepsConsistent(t0, id, Merge(workOrders[id], data));
      workOrders := workOrders[id := Merge(workOrders[id], data)];
      ghost var t1 := State();
      if data.parts.Some? {
        ReplaceKeepsConsistent(t1, id, workOrders[id].(partLines := []));
        workOrders := workOrders[id := workOrders[id].(partLines := [])];
        error := AddParts(id, data.parts.value);
        if error.Some? {
          return;
        }
      }
      assert Step(State(), None) == ReplacePartLines(t1, id, data.parts);
      ghost var t2 := State();
      if data.mechanics.Some? {
        ReplaceKeepsConsistent(t2, id, workOrders[id].(laborLines := []));
        workOrders := workOrders[id := workOrders[id].(laborLines := [])];
        AssignMechanics(id, data.mechanics.value);
      }
      assert State() == ReplaceLaborLines(t2, id, data.mechanics);
      CalculateTotalCost(id);
      error := None;
    }

    /** `completeWorkOrder`. */
    method CompleteWorkOrder(id: OrderId, now: Timestamp)
      requires Valid() && id in workOrders
      modifies this
      ensures Valid()
      ensures State() == CompleteSpec(old(State()), id, now)
    {
      ReplaceKeepsConsistent(State(), id, workOrders[id].(status := Completed, completedAt := Some(now)));
      workOrders := workOrders[id := workOrders[id].(status := Completed, completedAt := Some(now))];
    }

    /** `cancelWorkOrder`: give each line's quantity back to its part, then mark cancelled and append the note. */
    method CancelWorkOrder(id: OrderId, reason: Option<string>)
      requires Valid() && id in workOrders
      modifies this
      ensures Valid()
      ensures State() == CancelSpec(old(State()), id, reason)
    {
      ghost var t0 := State();
      var lines := workOrders[id].partLines;
      var i := 0;
      while i < |lines|
        invariant 0 <= i <= |lines|
        invariant workOrders == t0.orders && nextId == t0.nextId
        invariant parts.Keys == t0.parts.Keys
        invariant LinesWellFormed(lines[i..], parts.Keys)
        invariant Restock(parts, lines[i..]) == Restock(t0.parts, lines)
      {
        var line := lines[i];
        assert lines[i..][0] == line && lines[i..][1..] == lines[i + 1..];
        parts := parts[line.partId := parts[line.partId].(stockQuantity := parts[line.partId].stockQuantity + line.quantity)];
        i := i + 1;
      }
      var o := workOrders[id];
      workOrders := workOrders[id := o.(status := Cancelled, internalNotes := Some(CancelNote(o.internalNotes, reason)))];
      CancelKeepsConsistent(t0, id, reason);
    }

    /** `$workOrder->update(['status' => s])`, as `updateStatus` does it. */
    method SetStatus(id: OrderId, s: Status)
      requires Valid() && id in workOrders
      modifies this
      ensures Valid()
      ensures State() == SetStatusSpec(old(State()), id, s)
    {
      SetStatusKeepsConsistent(State(), id, s);
      workOrders := workOrders[id := workOrders[id].(status := s)];
    }

    /** `$workOrder->delete()`, as `destroy` does it. */
    method Delete(id: OrderId)
      requires Valid()
      modifies this
      ensures Valid()
      ensures State() == DestroySpec(old(State()), id)
    {
      DestroyKeepsStock(State(), id);
      workOrders := workOrders - {id};
    }

    /** `DB::rollBack()`: put back the tables as they were at `DB::beginTransaction()`. */
    method RollBack(snapshot: Tables)
      requires Consistent(snapshot)
      modifies this
      ensures Valid() && State() == snapshot
    {
      parts := snapshot.parts;
      workOrders := snapshot.orders;
      nextId := snapshot.nextId;
    }
  }
}
