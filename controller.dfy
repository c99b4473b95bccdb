/**
 * The decision logic of `WorkOrderController`: the transaction around the
 * service calls (on any exception, `DB::rollBack()` restores the tables), the
 * `WorkOrderStatusChanged` events as an appended log, and the validation
 * rules of `updateStatus` and `addParts`. The functions state what each
 * action does to the tables and the log; the class does it step by step on a
 * `WorkOrderService`.
 */
module Controller {
  import opened Util
  import opened Schema
  import opened Inventory
  import opened Ledger
  import opened LedgerFacts
  import opened Service
  import OrderNumbers

  /** `new WorkOrderStatusChanged($workOrder, $oldStatus)`: the order and the status it had before. */
  datatype StatusChanged = StatusChanged(order: OrderId, oldStatus: Status)

  /** The tables after an action, what it returned, and the events it emitted. */
  datatype Handled<T> = Handled(tables: Tables, result: T, emitted: seq<StatusChanged>)

  /** `store`: `create` inside a transaction; a throw rolls everything back. */
  function StoreSpec(t: Tables, data: OrderData, year: nat, now: Timestamp): (h: Handled<Result<OrderId, Error>>)
    ensures h.emitted == [] && (h.result.Failure? ==> h.tables == t)
    ensures h.result.Success? ==> h.tables.orders.Keys == t.orders.Keys + {t.nextId}
  {
    var s := CreateSpec(t, data, year, now);
    Handled(if s.result.Failure? then t else s.tables, s.result, [])
  }

  /** `update`: the service call inside a transaction, then the event when the status moved. */
  function UpdateRequestSpec(t: Tables, id: OrderId, data: OrderData): (h: Handled<Option<Error>>)
    requires id in t.orders
    ensures h.tables.orders.Keys == t.orders.Keys
  {
    var s := UpdateSpec(t, id, data);
    if s.result.Some? then Handled(t, s.result, [])
    else
      var before := t.orders[id].status;
      Handled(s.tables, None, if s.tables.orders[id].status != before then [StatusChanged(id, before)] else [])
  }

  /** The `status` field as `required|in:pending,...,cancelled` reads it: absent or outside the six names fails. */
  function RequestedStatus(text: Option<string>): (r: Option<Status>)
    ensures r.Some? ==> text == Some(StatusName(r.value))
  {
    if text.Some? then ParseStatus(text.value) else None
  }

  /** `updateStatus`: validate, set the status, emit the event (whether or not the status moved). */
  function UpdateStatusRequestSpec(t: Tables, id: OrderId, text: Option<string>): (h: Handled<Option<Error>>)
    requires id in t.orders
    ensures h.tables.orders.Keys == t.orders.Keys
  {
    var s := RequestedStatus(text);
    if s.None? then Handled(t, Some(ValidationFailed), [])
    else Handled(SetStatusSpec(t, id, s.value), None, [StatusChanged(id, t.orders[id].status)])
  }

  /**
   * The rules `addParts` validates: `parts` present and a non-empty array,
   * each line naming an existing part, with an integer quantity of at least 1
   * and a unit price of at least 0.
   */
  predicate ValidAddPartsRequest(stock: map<PartId, Part>, parts: Option<seq<PartInput>>) {
    && parts.Some? && |parts.value| > 0
    && forall k :: 0 <= k < |parts.value| ==>
      parts.value[k].partId in stock && parts.value[k].quantity >= 1 && parts.value[k].unitPrice >= 0.0
  }

  /** `addParts` as written: validate, then the service's `addParts` inside a transaction, and nothing else. */
  function AddPartsRequestSpec(t: Tables, id: OrderId, parts: Option<seq<PartInput>>): (h: Handled<Option<Error>>)
    requires id in t.orders
    ensures h.tables.orders.Keys == t.orders.Keys
  {
    if !ValidAddPartsRequest(t.parts, parts) then Handled(t, Some(ValidationFailed), [])
    else
      var s := AddPartsSpec(t, id, parts.value);
      Handled(if s.result.Some? then t else s.tables, s.result, [])
  }

  /** `addParts` as evidently intended: the same, followed by `calculateTotalCost` before the commit. */
  function AddPartsRecostedSpec(t: Tables, id: OrderId, parts: Option<seq<PartInput>>): (h: Handled<Option<Error>>)
    requires id in t.orders
    ensures h.tables.orders.Keys == t.orders.Keys
  {
    var h := AddPartsRequestSpec(t, id, parts);
    if h.result.Some? then h else h.(tables := CalculateTotalCostSpec(h.tables, id))
  }

  // ---------------------------------------------------------------- store

  /**
   * `store` is all-or-nothing: it keeps the tables consistent, emits no
   * event, changes nothing when it fails, and on success leaves one new order
   * whose costs are current.
   */
  lemma StoreAllOrNothing(t: Tables, data: OrderData, year: nat, now: Timestamp)
    requires Consistent(t) && WellFormedPartInputs(PartsOf(data))
    ensures var h := StoreSpec(t, data, year, now);
      && Consistent(h.tables) && h.emitted == []
      && (h.result.Failure? ==> h.tables == t)
      && (h.result.Success? ==>
            h.tables.orders.Keys == t.orders.Keys + {t.nextId} && h.result.value !in t.orders
            && CostsCurrent(h.tables.orders[h.result.value]))
  {
    CreateKeepsConsistent(t, data, year, now);
    if CreateSpec(t, data, year, now).result.Success? {
      CreateOnSuccess(t, data, year, now);
    }
  }

  /**
   * Without the transaction a failing `create` is not harmless: when a part
   * line fails its stock check, the service has already inserted the order,
   * and only the rollback in `store` removes it again.
   */
  lemma CreateAloneLeavesPartialOrder(t: Tables, data: OrderData, year: nat, now: Timestamp)
    requires Consistent(t) && !MissingRequired(data)
    requires !NumberTaken(t.orders, NewOrderNumber(t, data, year), None)
    requires data.parts.Some? && Consume(t.parts, [], data.parts.value).error.Some?
    ensures var s := CreateSpec(t, data, year, now);
      s.result.Failure? && t.nextId in s.tables.orders && t.nextId !in t.orders
      && StoreSpec(t, data, year, now).tables == t
  {
    var row := InsertedRow(NewOrderNumber(t, data, year), data, year, now);
    assert row.partLines == [];
  }

  /**
   * Deleting an order lowers this year's count, so the number the hook
   * generates next can be one an existing order already holds: when the
   * order holding the latest generated number survives, the next `store`
   * without a number fails on the unique index.
   */
  lemma DestroyThenStoreCollides(t: Tables, id: OrderId, other: OrderId, n: nat, data: OrderData, year: nat, now: Timestamp)
    requires id in t.orders && t.orders[id].createdYear == year
    requires other in t.orders && other != id
    requires CountCreatedIn(t.orders, year) == n + 1
    requires t.orders[other].orderNumber == OrderNumbers.Generate(year, n)
    requires OrderNumbers.Falsy(data.orderNumber) && !MissingRequired(data)
    ensures StoreSpec(DestroySpec(t, id), data, year, now).result
      == Failure(DuplicateOrderNumber(t.orders[other].orderNumber))
  {
    var t' := DestroySpec(t, id);
    CountDropsOnDelete(t.orders, id, year);
    var number := NewOrderNumber(t', data, year);
    assert number == OrderNumbers.Generate(year, n);
    assert other in t'.orders && Some(other) != None && t'.orders[other].orderNumber == number;
    assert NumberTaken(t'.orders, number, None);
  }

  /**
   * The count a collision-free hook would number with: the first of `c`,
   * `c + 1`, ... (looking at most `fuel` places further) whose generated
   * number no order holds.
   */
  function FreeCount(orders: map<OrderId, WorkOrder>, year: nat, c: nat, fuel: nat): (r: nat)
    ensures c <= r <= c + fuel
    ensures forall j :: c <= j < r ==> NumberTaken(orders, OrderNumbers.Generate(year, j), None)
    ensures r < c + fuel ==> !NumberTaken(orders, OrderNumbers.Generate(year, r), None)
    decreases fuel
  {
    if fuel == 0 || !NumberTaken(orders, OrderNumbers.Generate(year, c), None) then c
    else FreeCount(orders, year, c + 1, fuel - 1)
  }

  /**
   * The hook as evidently intended: a truthy supplied number is kept as
   * before; otherwise the count of this year's orders is the starting point,
   * and taken numbers are skipped.
   */
  function CorrectedOrderNumber(t: Tables, data: OrderData, year: nat): string {
    if OrderNumbers.Falsy(data.orderNumber) then
      OrderNumbers.Generate(year, FreeCount(t.orders, year, CountCreatedIn(t.orders, year), |t.orders|))
    else data.orderNumber.value
  }

  /** The counts `c`, ..., `c + n`. */
  function Counts(c: nat, n: nat): (r: set<nat>)
    ensures |r| == n + 1
    ensures forall j :: j in r ==> c <= j <= c + n
    decreases n
  {
    if n == 0 then {c} else Counts(c, n - 1) + {c + n}
  }

  /**
   * Pigeonhole: among more candidate counts than orders in `ids`, some
   * candidate generates a number none of those orders holds.
   */
  lemma {:induction false} SomeCountFree(orders: map<OrderId, WorkOrder>, ids: set<OrderId>, year: nat, cands: set<nat>)
    requires ids <= orders.Keys && |cands| > |ids|
    ensures exists j :: j in cands && forall id :: id in ids ==> orders[id].orderNumber != OrderNumbers.Generate(year, j)
    decreases ids
  {
    if ids == {} {
      var j :| j in cands;
    } else {
      var id0 :| id0 in ids;
      var rest := Avoiding(cands, year, orders[id0].orderNumber);
      AvoidingSize(cands, year, orders[id0].orderNumber);
      SomeCountFree(orders, ids - {id0}, year, rest);
      var j :| j in rest && forall id :: id in ids - {id0} ==> orders[id].orderNumber != OrderNumbers.Generate(year, j);
      assert j in cands && forall id :: id in ids ==> orders[id].orderNumber != OrderNumbers.Generate(year, j);
    }
  }

  /** The candidate counts whose generated number is not `number`. */
  function Avoiding(cands: set<nat>, year: nat, number: string): (r: set<nat>)
    ensures forall j :: j in r <==> j in cands && OrderNumbers.Generate(year, j) != number
  {
    set j | j in cands && OrderNumbers.Generate(year, j) != number
  }

  /** At most one count generates a given number, so avoiding it drops at most one candidate. */
  lemma AvoidingSize(cands: set<nat>, year: nat, number: string)
    ensures |Avoiding(cands, year, number)| >= |cands| - 1
  {
    var rest := Avoiding(cands, year, number);
    if j1 :| j1 in cands && OrderNumbers.Generate(year, j1) == number {
      forall j | j in cands && j != j1 ensures j in rest {
        OrderNumbers.GenerateInjective(year, j, year, j1);
      }
      assert rest == cands - {j1};
    } else {
      assert rest == cands;
    }
  }

  /**
   * The corrected hook never hands out a number an order already holds, so
   * the insert can no longer fail on the unique index for a generated number;
   * where the count's own number is free it picks exactly what the hook as
   * written picks.
   */
  lemma CorrectedNumberIsFree(t: Tables, data: OrderData, year: nat)
    ensures OrderNumbers.Falsy(data.orderNumber) ==> !NumberTaken(t.orders, CorrectedOrderNumber(t, data, year), None)
    ensures !NumberTaken(t.orders, NewOrderNumber(t, data, year), None) ==>
      CorrectedOrderNumber(t, data, year) == NewOrderNumber(t, data, year)
  {
    FreeCountIsFree(t.orders, year, CountCreatedIn(t.orders, year));
  }

  /** Searching `|orders|` places further always reaches a free number. */
  lemma FreeCountIsFree(orders: map<OrderId, WorkOrder>, year: nat, c: nat)
    ensures !NumberTaken(orders, OrderNumbers.Generate(year, FreeCount(orders, year, c, |orders|)), None)
  {
    var n := |orders|;
    var r := FreeCount(orders, year, c, n);
    if NumberTaken(orders, OrderNumbers.Generate(year, r), None) {
      assert r == c + n;
      assert |orders.Keys| == n;
      SomeCountFree(orders, orders.Keys, year, Counts(c, n));
    }
  }

  /** After the delete of `DestroyThenStoreCollides`, the corrected hook gives a number no order holds. */
  lemma DestroyThenCorrectedNumberIsFree(t: Tables, id: OrderId, data: OrderData, year: nat)
    requires OrderNumbers.Falsy(data.orderNumber)
    ensures !NumberTaken(DestroySpec(t, id).orders, CorrectedOrderNumber(DestroySpec(t, id), data, year), None)
  {
    CorrectedNumberIsFree(DestroySpec(t, id), data, year);
  }

  /** Deleting an order created in `year` lowers that year's count by one. */
  lemma CountDropsOnDelete(orders: map<OrderId, WorkOrder>, id: OrderId, year: nat)
    requires id in orders && orders[id].createdYear == year
    ensures CountCreatedIn(orders - {id}, year) + 1 == CountCreatedIn(orders, year)
  {
    var after := CreatedIn(orders - {id}, year);
    assert CreatedIn(orders, year) == after + {id} && id !in after;
  }

  // ---------------------------------------------------------------- update

  /**
   * `update` is all-or-nothing and keeps the tables consistent; it emits
   * exactly one event, carrying the old status, when and only when the call
   * succeeds and the request sets a different status, and none otherwise.
   */
  lemma UpdateEmitsIffStatusMoved(t: Tables, id: OrderId, data: OrderData)
    requires Consistent(t) && id in t.orders && WellFormedPartInputs(PartsOf(data))
    ensures var h := UpdateRequestSpec(t, id, data);
      && Consistent(h.tables)
      && (h.result.Some? ==> h.tables == t)
      && (h.emitted != [] <==> h.result.None? && data.status.Some? && data.status.value != t.orders[id].status)
      && (h.emitted == [] || h.emitted == [StatusChanged(id, t.orders[id].status)])
  {
    UpdateKeepsConsistent(t, id, data);
    if UpdateSpec(t, id, data).result.None? {
      UpdateChangesStatusIff(t, id, data);
    }
  }

  // ---------------------------------------------------------------- updateStatus

  /** `updateStatus` accepts exactly the six status names, and leaves everything as it was when it rejects. */
  lemma UpdateStatusAcceptsSixNames(t: Tables, id: OrderId, text: Option<string>)
    requires id in t.orders
    ensures var h := UpdateStatusRequestSpec(t, id, text);
      && (h.result.None? <==> (text.Some? && text.value in
           {"pending", "in_progress", "waiting_parts", "waiting_approval", "completed", "cancelled"}))
      && (h.result.Some? ==> h.result == Some(ValidationFailed) && h.tables == t && h.emitted == [])
  {
    if text.Some? {
      var r := ParseStatus(text.value);
      if r.Some? {
        StatusNamesRoundTrip(r.value, text.value);
      } else {
        forall s: Status ensures StatusName(s) != text.value {
          StatusNamesRoundTrip(s, text.value);
        }
      }
    }
  }

  /**
   * An accepted `updateStatus` sets the named status, changes nothing else,
   * keeps the tables consistent and always emits one event with the old
   * status: even a request naming the current status emits it while leaving
   * the tables exactly as they were.
   */
  lemma UpdateStatusAlwaysEmits(t: Tables, id: OrderId, s: Status)
    requires Consistent(t) && id in t.orders
    ensures var h := UpdateStatusRequestSpec(t, id, Some(StatusName(s)));
      && h.result.None? && Consistent(h.tables)
      && h.tables.orders[id].status == s
      && h.tables == WithOrder(t, id, t.orders[id].(status := s))
      && h.emitted == [StatusChanged(id, t.orders[id].status)]
      && (s == t.orders[id].status ==> h.tables == t)
  {
    StatusNamesRoundTrip(s, StatusName(s));
    SetStatusKeepsConsistent(t, id, s);
    if s == t.orders[id].status {
      assert t.orders[id].(status := s) == t.orders[id];
      assert t.orders[id := t.orders[id]] == t.orders;
    }
  }

  // ---------------------------------------------------------------- addParts

  /** A valid request is one the service accepts as well-formed input. */
  lemma ValidRequestIsWellFormed(stock: map<PartId, Part>, parts: Option<seq<PartInput>>)
    requires ValidAddPartsRequest(stock, parts)
    ensures WellFormedPartInputs(parts.value)
    ensures forall k :: 0 <= k < |parts.value| ==> parts.value[k].partId in stock && parts.value[k].quantity > 0
  {
  }

  /**
   * `addParts` rejects exactly the invalid requests, without touching
   * anything; a valid one is all-or-nothing, keeps the tables consistent
   * and, when it succeeds, appends one line per input and takes from each
   * part exactly what was asked of it.
   */
  lemma AddPartsRequestAllOrNothing(t: Tables, id: OrderId, parts: Option<seq<PartInput>>)
    requires Consistent(t) && id in t.orders
    ensures var h := AddPartsRequestSpec(t, id, parts);
      && Consistent(h.tables) && h.emitted == []
      && (h.result == Some(ValidationFailed) <==> !ValidAddPartsRequest(t.parts, parts))
      && (h.result.Some? ==> h.tables == t)
      && (h.result.None? ==>
            && h.tables.orders[id].partLines == t.orders[id].partLines + PartLinesFor(parts.value)
            && h.tables.parts.Keys == t.parts.Keys
            && forall p :: p in t.parts ==>
                 h.tables.parts[p].stockQuantity == t.parts[p].stockQuantity - Requested(parts.value, p))
  {
    if ValidAddPartsRequest(t.parts, parts) {
      AddPartsKeepsConsistent(t, id, parts.value);
      ConsumeErrorNamesStock(t.parts, t.orders[id].partLines, parts.value);
      if Consume(t.parts, t.orders[id].partLines, parts.value).error.None? {
        ConsumeOnSuccess(t.parts, t.orders[id].partLines, parts.value);
      }
    }
  }

  /** A failing `addParts` run throws for a missing part or for a short stock, never for validation. */
  lemma {:induction false} ConsumeErrorNamesStock(stock: map<PartId, Part>, lines: seq<PartLine>, inputs: seq<PartInput>)
    ensures var e := Consume(stock, lines, inputs).error;
      e.None? || e.value.PartNotFound? || e.value.InsufficientStock?
    decreases |inputs|
  {
    if inputs != [] && inputs[0].partId in stock && stock[inputs[0].partId].stockQuantity >= inputs[0].quantity {
      var i := inputs[0];
      ConsumeErrorNamesStock(Take(stock, i.partId, i.quantity), lines + [LineFor(i)], inputs[1..]);
    }
  }

  /**
   * As written, a successful `addParts` request writes new lines but never
   * recomputes the costs: `parts_cost` and `total_cost` keep their old values,
   * so an order whose costs were current no longer has them current once the
   * new lines cost anything.
   */
  lemma AddPartsLeavesCostsStale(t: Tables, id: OrderId, parts: Option<seq<PartInput>>)
    requires Consistent(t) && id in t.orders && CostsCurrent(t.orders[id])
    requires AddPartsRequestSpec(t, id, parts).result.None?
    requires PartsCost(PartLinesFor(parts.value)) != 0.0
    ensures var o := AddPartsRequestSpec(t, id, parts).tables.orders[id];
      && o.partsCost == t.orders[id].partsCost && o.totalCost == t.orders[id].totalCost
      && !CostsCurrent(o)
  {
    AddPartsRequestAllOrNothing(t, id, parts);
    PartsCostAppend(t.orders[id].partLines, PartLinesFor(parts.value));
  }

  /**
   * A concrete request that shows it: on a fresh order (no lines, costs 0)
   * and a part 3 with 5 in stock, two units at 10.0 leave `parts_cost` at 0
   * while the order's lines cost 20.
   */
  lemma AddPartsStaleExample(o: WorkOrder, pad: Part)
    requires o.partLines == [] && o.laborLines == [] && o.partsCost == 0.0 && o.laborCost == 0.0 && o.totalCost == 0.0
    requires pad.stockQuantity == 5
    ensures var t := Tables(map[3 := pad], map[1 := o], 2);
      var h := AddPartsRequestSpec(t, 1, Some([PartInput(3, 2, 10.0)]));
      && h.result.None? && h.tables.orders[1].partsCost == 0.0 && h.tables.orders[1].totalCost == 0.0
      && PartsCost(h.tables.orders[1].partLines) == 20.0
  {
    var t := Tables(map[3 := pad], map[1 := o], 2);
    var inputs := [PartInput(3, 2, 10.0)];
    assert ValidAddPartsRequest(t.parts, Some(inputs));
    assert inputs[1..] == [];
    var c := Consume(t.parts, o.partLines, inputs);
    assert c.lines == [LineFor(PartInput(3, 2, 10.0))];
  }

  /**
   * With `calculateTotalCost` before the commit, a successful request leaves
   * the order's costs current: `parts_cost` grows by exactly the cost of the
   * new lines and `total_cost` is again `parts_cost + labor_cost`. Everything
   * else is as in the request as written.
   */
  lemma AddPartsRecostedKeepsCostsCurrent(t: Tables, id: OrderId, parts: Option<seq<PartInput>>)
    requires Consistent(t) && id in t.orders
    ensures var h := AddPartsRecostedSpec(t, id, parts);
      var w := AddPartsRequestSpec(t, id, parts);
      && Consistent(h.tables) && h.result == w.result && h.tables.parts == w.tables.parts
      && (h.result.Some? ==> h.tables == t)
      && (h.result.None? ==>
            && CostsCurrent(h.tables.orders[id])
            && h.tables.orders[id].partsCost == PartsCost(t.orders[id].partLines) + PartsCost(PartLinesFor(parts.value))
            && h.tables.orders[id].partLines == w.tables.orders[id].partLines)
  {
    AddPartsRequestAllOrNothing(t, id, parts);
    var w := AddPartsRequestSpec(t, id, parts);
    if w.result.None? {
      CalculateKeepsConsistent(w.tables, id);
      PartsCostAppend(t.orders[id].partLines, PartLinesFor(parts.value));
    }
  }

  // ---------------------------------------------------------------- the controller

  class WorkOrderController {
    const service: WorkOrderService
    /** Every `WorkOrderStatusChanged` dispatched so far, oldest first. */
    var events: seq<StatusChanged>

    constructor (service: WorkOrderService)
      ensures this.service == service && events == []
    {
      this.service := service;
      events := [];
    }

    /** `store`. */
    method Store(data: OrderData, year: nat, now: Timestamp) returns (r: Result<OrderId, Error>)
      requires service.Valid() && WellFormedPartInputs(PartsOf(data))
      modifies service
      ensures service.Valid()
      ensures var h := StoreSpec(old(service.State()), data, year, now);
        service.State() == h.tables && r == h.result && events == old(events) + h.emitted
    {
      var snapshot := service.State();
      r := service.Create(data, year, now);
      if r.Failure? {
        service.RollBack(snapshot);
      }
    }

    /** `update`. */
    method Update(id: OrderId, data: OrderData) returns (error: Option<Error>)
      requires service.Valid() && id in service.workOrders && WellFormedPartInputs(PartsOf(data))
      modifies this, service
      ensures service.Valid()
      ensures var h := UpdateRequestSpec(old(service.State()), id, data);
        service.State() == h.tables && error == h.result && events == old(events) + h.emitted
    {
      var snapshot := service.State();
      var oldStatus := service.workOrders[id].status;
      error := service.Update(id, data);
      if error.Some? {
        service.RollBack(snapshot);
      } else if oldStatus != service.workOrders[id].status {
        events := events + [StatusChanged(id, oldStatus)];
      }
    }

    /** `updateStatus`. */
    method UpdateStatus(id: OrderId, text: Option<string>) returns (error: Option<Error>)
      requires service.Valid() && id in service.workOrders
      modifies this, service
      ensures service.Valid()
      ensures var h := UpdateStatusRequestSpec(old(service.State()), id, text);
        service.State() == h.tables && error == h.result && events == old(events) + h.emitted
    {
      var s := RequestedStatus(text);
      if s.None? {
        return Some(ValidationFailed);
      }
      var oldStatus := service.workOrders[id].status;
      service.SetStatus(id, s.value);
      events := events + [StatusChanged(id, oldStatus)];
      error := None;
    }

    /** `addParts` as written: the costs are not recomputed. */
    method AddParts(id: OrderId, parts: Option<seq<PartInput>>) returns (error: Option<Error>)
      requires service.Valid() && id in service.workOrders
      modifies service
      ensures service.Valid()
      ensures var h := AddPartsRequestSpec(old(service.State()), id, parts);
        service.State() == h.tables && error == h.result && events == old(events) + h.emitted
    {
      if !ValidAddPartsRequest(service.parts, parts) {
        return Some(ValidationFailed);
      }
      var snapshot := service.State();
      error := service.AddParts(id, parts.value);
      if error.Some? {
        service.RollBack(snapshot);
      }
    }

    /** `addParts` with `calculateTotalCost` before the commit. */
    method AddPartsRecosted(id: OrderId, parts: Option<seq<PartInput>>) returns (error: Option<Error>)
      requires service.Valid() && id in service.workOrders
      modifies service
      ensures service.Valid()
      ensures var h := AddPartsRecostedSpec(old(service.State()), id, parts);
        service.State() == h.tables && error == h.result && events == old(events) + h.emitted
    {
      if !ValidAddPartsRequest(service.parts, parts) {
        return Some(ValidationFailed);
      }
      var snapshot := service.State();
      error := service.AddParts(id, parts.value);
      if error.Some? {
        service.RollBack(snapshot);
      } else {
        service.CalculateTotalCost(id);
      }
    }

    /** `destroy`: no transaction, no restocking. */
    method Destroy(id: OrderId)
      requires service.Valid()
      modifies service
      ensures service.Valid()
      ensures service.State() == DestroySpec(old(service.State()), id) && events == old(events)
    {
      service.Delete(id);
    }
  }
}
