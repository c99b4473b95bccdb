/**
 * What the bookkeeping operations of `Ledger` guarantee: each keeps the
 * tables consistent, `create` and `update` leave the order's costs current,
 * and cancelling gives back exactly the stock that was consumed.
 */
module LedgerFacts {
  import opened Util
  import opened Schema
  import opened Inventory
  import opened Ledger
  import OrderNumbers

  /** Replacing one order keeps the tables consistent when its lines, costs and number stay acceptable. */
  lemma ReplaceKeepsConsistent(t: Tables, id: OrderId, o: WorkOrder)
    requires Consistent(t) && id in t.orders
    requires LinesWellFormed(o.partLines, t.parts.Keys) && CostsAdd(o)
    requires o.orderNumber == t.orders[id].orderNumber || !NumberTaken(t.orders, o.orderNumber, Some(id))
    ensures Consistent(WithOrder(t, id, o))
  {
    var r := WithOrder(t, id, o);
    forall a, b | a in r.orders && b in r.orders && a != b
      ensures r.orders[a].orderNumber != r.orders[b].orderNumber
    {
      if a == id {
        assert b in t.orders && Some(b) != Some(id);
      } else if b == id {
        assert a in t.orders && Some(a) != Some(id);
      }
    }
  }

  /** `addParts` keeps the tables consistent, whether it throws or not. */
  lemma AddPartsKeepsConsistent(t: Tables, id: OrderId, inputs: seq<PartInput>)
    requires Consistent(t) && id in t.orders && WellFormedPartInputs(inputs)
    ensures Consistent(AddPartsSpec(t, id, inputs).tables)
  {
    var o := t.orders[id];
    ConsumeKeepsStockValid(t.parts, o.partLines, inputs);
    var c := Consume(t.parts, o.partLines, inputs);
    var t' := t.(parts := c.stock);
    assert Consistent(t');
    ReplaceKeepsConsistent(t', id, o.(partLines := c.lines));
  }

  /** `assignMechanics` keeps the tables consistent and touches no stock. */
  lemma AssignMechanicsKeepsConsistent(t: Tables, id: OrderId, inputs: seq<MechanicInput>)
    requires Consistent(t) && id in t.orders
    ensures Consistent(AssignMechanicsSpec(t, id, inputs))
    ensures AssignMechanicsSpec(t, id, inputs).parts == t.parts
  {
    var o := t.orders[id];
    ReplaceKeepsConsistent(t, id, o.(laborLines := o.laborLines + LaborLinesFor(inputs)));
  }

  /** `calculateTotalCost` keeps the tables consistent and leaves the order's costs current. */
  lemma CalculateKeepsConsistent(t: Tables, id: OrderId)
    requires Consistent(t) && id in t.orders
    ensures Consistent(CalculateTotalCostSpec(t, id))
    ensures CostsCurrent(CalculateTotalCostSpec(t, id).orders[id])
  {
    RecostMeaning(t.orders[id]);
    ReplaceKeepsConsistent(t, id, Recost(t.orders[id]));
  }

  /** Calling `calculateTotalCost` twice gives the same tables as calling it once. */
  lemma CalculateIdempotent(t: Tables, id: OrderId)
    requires id in t.orders
    ensures CalculateTotalCostSpec(CalculateTotalCostSpec(t, id), id) == CalculateTotalCostSpec(t, id)
  {
    RecostMeaning(t.orders[id]);
  }

  /** Inserting a fresh order under the next id keeps the tables consistent. */
  lemma InsertKeepsConsistent(t: Tables, o: WorkOrder)
    requires Consistent(t) && o.partLines == [] && CostsAdd(o)
    requires !NumberTaken(t.orders, o.orderNumber, None)
    ensures t.nextId !in t.orders
    ensures Consistent(Tables(t.parts, t.orders[t.nextId := o], t.nextId + 1))
  {
    InsertKeepsNumbersUnique(t.orders, t.nextId, o);
  }

  /** `create` keeps the tables consistent, whether it throws or not. */
  lemma CreateKeepsConsistent(t: Tables, data: OrderData, year: nat, now: Timestamp)
    requires Consistent(t) && WellFormedPartInputs(PartsOf(data))
    ensures Consistent(CreateSpec(t, data, year, now).tables)
  {
    var number := NewOrderNumber(t, data, year);
    if !MissingRequired(data) && !NumberTaken(t.orders, number, None) {
      var id := t.nextId;
      var t1 := Tables(t.parts, t.orders[id := InsertedRow(number, data, year, now)], t.nextId + 1);
      InsertKeepsConsistent(t, InsertedRow(number, data, year, now));
      var s2 := if data.parts.Some? then AddPartsSpec(t1, id, data.parts.value) else Step(t1, None);
      if data.parts.Some? {
        AddPartsKeepsConsistent(t1, id, data.parts.value);
      }
      if s2.result.None? {
        var t3 := if data.mechanics.Some? then AssignMechanicsSpec(s2.tables, id, data.mechanics.value) else s2.tables;
        if data.mechanics.Some? {
          AssignMechanicsKeepsConsistent(s2.tables, id, data.mechanics.value);
        }
        CalculateKeepsConsistent(t3, id);
      }
    }
  }

  /**
   * `create` throws exactly when a NOT NULL column is missing, the number is
   * taken, or some part line fails its stock check.
   */
  lemma CreateFailsIff(t: Tables, data: OrderData, year: nat, now: Timestamp)
    ensures CreateSpec(t, data, year, now).result.Failure? <==>
      MissingRequired(data) || NumberTaken(t.orders, NewOrderNumber(t, data, year), None)
      || Consume(t.parts, [], PartsOf(data)).error.Some?
  {
  }

  /**
   * A successful `create` inserts one order under the next id, with the hook's
   * number, the requested status and priority (pending and medium by default),
   * one line per part and mechanic input, every part's stock lowered by what
   * was asked of it, and costs that are current.
   */
  lemma CreateOnSuccess(t: Tables, data: OrderData, year: nat, now: Timestamp)
    requires Consistent(t)
    requires CreateSpec(t, data, year, now).result.Success?
    ensures var r := CreateSpec(t, data, year, now);
      var id := r.result.value;
      var o := r.tables.orders[id];
      && id == t.nextId && id !in t.orders && r.tables.orders.Keys == t.orders.Keys + {id}
      && (forall other :: other in t.orders ==> r.tables.orders[other] == t.orders[other])
      && o.orderNumber == NewOrderNumber(t, data, year)
      && o.status == data.status.GetOr(Pending) && o.priority == data.priority.GetOr(Medium)
      && o.partLines == PartLinesFor(PartsOf(data)) && o.laborLines == LaborLinesFor(MechanicsOf(data))
      && CostsCurrent(o) && o.completedAt == None && o.createdYear == year
      && r.tables.parts.Keys == t.parts.Keys
      && (forall p :: p in t.parts ==>
            r.tables.parts[p] == t.parts[p].(stockQuantity := t.parts[p].stockQuantity - Requested(PartsOf(data), p)))
  {
    var r := CreateSpec(t, data, year, now);
    var id := t.nextId;
    var number := NewOrderNumber(t, data, year);
    var row := InsertedRow(number, data, year, now);
    assert t.nextId !in t.orders;
    var t1 := Tables(t.parts, t.orders[id := row], t.nextId + 1);
    ConsumeOnSuccess(t.parts, [], PartsOf(data));
    RecostMeaning(r.tables.orders[id]);
    if data.parts.None? {
      assert PartLinesFor([]) == [];
      assert forall p :: Requested([], p) == 0;
    }
    if data.mechanics.None? {
      assert LaborLinesFor([]) == [];
    }
  }

  /**
   * `update` keeps the tables consistent, whether it throws or not (the old
   * part lines are deleted without returning their stock, which loses no
   * consistency: the stock simply stays consumed).
   */
  lemma UpdateKeepsConsistent(t: Tables, id: OrderId, data: OrderData)
    requires Consistent(t) && id in t.orders && WellFormedPartInputs(PartsOf(data))
    ensures Consistent(UpdateSpec(t, id, data).tables)
  {
    if !(data.orderNumber.Some? && NumberTaken(t.orders, data.orderNumber.value, Some(id))) {
      var t1 := WithOrder(t, id, Merge(t.orders[id], data));
      ReplaceKeepsConsistent(t, id, Merge(t.orders[id], data));
      var s2 := ReplacePartLines(t1, id, data.parts);
      if data.parts.Some? {
        ReplaceKeepsConsistent(t1, id, t1.orders[id].(partLines := []));
        AddPartsKeepsConsistent(ClearPartLines(t1, id), id, data.parts.value);
      }
      if s2.result.None? {
        var t2 := s2.tables;
        var t3 := ReplaceLaborLines(t2, id, data.mechanics);
        if data.mechanics.Some? {
          ReplaceKeepsConsistent(t2, id, t2.orders[id].(laborLines := []));
          AssignMechanicsKeepsConsistent(ClearLaborLines(t2, id), id, data.mechanics.value);
        }
        CalculateKeepsConsistent(t3, id);
      }
    }
  }

  /** The part-line stage: the order's lines become the new ones, and only the new ones are taken from stock. */
  lemma ReplacePartLinesShape(t: Tables, id: OrderId, parts: Option<seq<PartInput>>)
    requires id in t.orders
    ensures var c := Consume(t.parts, [], if parts.Some? then parts.value else []);
      var r := ReplacePartLines(t, id, parts);
      && r.result == (if parts.Some? then c.error else None)
      && r.tables == Tables(
        if parts.Some? then c.stock else t.parts,
        t.orders[id := t.orders[id].(partLines := if parts.Some? then c.lines else t.orders[id].partLines)],
        t.nextId)
  {
  }

  /** The labor-line stage: the order's labor lines become exactly the new ones. */
  lemma ReplaceLaborLinesShape(t: Tables, id: OrderId, mechanics: Option<seq<MechanicInput>>)
    requires id in t.orders
    ensures ReplaceLaborLines(t, id, mechanics) ==
      WithOrder(t, id, t.orders[id].(laborLines := if mechanics.Some? then LaborLinesFor(mechanics.value) else t.orders[id].laborLines))
  {
    if mechanics.Some? {
      assert [] + LaborLinesFor(mechanics.value) == LaborLinesFor(mechanics.value);
    }
  }

  /** The tables after a successful `update`, spelled out stage by stage. */
  lemma UpdateShape(t: Tables, id: OrderId, data: OrderData)
    requires id in t.orders
    requires UpdateSpec(t, id, data).result.None?
    ensures var c := Consume(t.parts, [], PartsOf(data));
      var o := t.orders[id];
      var pl := if data.parts.Some? then c.lines else o.partLines;
      var ll := if data.mechanics.Some? then LaborLinesFor(data.mechanics.value) else o.laborLines;
      && (data.parts.Some? ==> c.error.None?)
      && UpdateSpec(t, id, data).tables == Tables(
        if data.parts.Some? then c.stock else t.parts,
        t.orders[id := Recost(Merge(o, data).(partLines := pl, laborLines := ll))],
        t.nextId)
  {
    var t1 := WithOrder(t, id, Merge(t.orders[id], data));
    ReplacePartLinesShape(t1, id, data.parts);
    var s2 := ReplacePartLines(t1, id, data.parts);
    ReplaceLaborLinesShape(s2.tables, id, data.mechanics);
  }

  /**
   * A successful `update` leaves the merged columns with current costs. Given
   * `parts`, the old lines are replaced by the new ones and only the new ones
   * are taken from stock: the old lines' stock does not come back. Given
   * `mechanics`, the labor lines are replaced wholesale. No other order changes.
   */
  lemma UpdateOnSuccess(t: Tables, id: OrderId, data: OrderData)
    requires Consistent(t) && id in t.orders
    requires UpdateSpec(t, id, data).result.None?
    ensures var r := UpdateSpec(t, id, data).tables;
      var o := r.orders[id];
      var old_ := t.orders[id];
      && r.orders.Keys == t.orders.Keys && r.nextId == t.nextId
      && (forall other :: other in t.orders && other != id ==> r.orders[other] == t.orders[other])
      && o.status == data.status.GetOr(old_.status) && o.priority == data.priority.GetOr(old_.priority)
      && o.orderNumber == data.orderNumber.GetOr(old_.orderNumber)
      && CostsCurrent(o)
      && o.partLines == (if data.parts.Some? then PartLinesFor(data.parts.value) else old_.partLines)
      && o.laborLines == (if data.mechanics.Some? then LaborLinesFor(data.mechanics.value) else old_.laborLines)
      && r.parts.Keys == t.parts.Keys
      && (forall p :: p in t.parts ==>
            r.parts[p] == t.parts[p].(stockQuantity := t.parts[p].stockQuantity - Requested(PartsOf(data), p)))
  {
    UpdateShape(t, id, data);
    var c := Consume(t.parts, [], PartsOf(data));
    if data.parts.Some? {
      ConsumeOnSuccess(t.parts, [], data.parts.value);
    } else {
      assert forall p :: Requested([], p) == 0;
    }
    var o := t.orders[id];
    var pl := if data.parts.Some? then c.lines else o.partLines;
    var ll := if data.mechanics.Some? then LaborLinesFor(data.mechanics.value) else o.laborLines;
    RecostMeaning(Merge(o, data).(partLines := pl, laborLines := ll));
  }

  /** The status after a successful `update` differs from the one before exactly when a different status was given. */
  lemma UpdateChangesStatusIff(t: Tables, id: OrderId, data: OrderData)
    requires Consistent(t) && id in t.orders
    requires UpdateSpec(t, id, data).result.None?
    ensures UpdateSpec(t, id, data).tables.orders[id].status != t.orders[id].status
      <==> data.status.Some? && data.status.value != t.orders[id].status
  {
    UpdateOnSuccess(t, id, data);
  }

  /** `completeWorkOrder` sets the status and completion time and changes no cost, line or stock. */
  lemma CompleteChangesOnlyStatus(t: Tables, id: OrderId, now: Timestamp)
    requires Consistent(t) && id in t.orders
    ensures var r := CompleteSpec(t, id, now);
      var o, o' := t.orders[id], r.orders[id];
      && Consistent(r) && r.parts == t.parts && r.orders.Keys == t.orders.Keys
      && o'.status == Completed && o'.completedAt == Some(now)
      && o'.partLines == o.partLines && o'.laborLines == o.laborLines
      && o'.partsCost == o.partsCost && o'.laborCost == o.laborCost && o'.totalCost == o.totalCost
      && (forall other :: other in t.orders && other != id ==> r.orders[other] == t.orders[other])
  {
    ReplaceKeepsConsistent(t, id, t.orders[id].(status := Completed, completedAt := Some(now)));
  }

  /**
   * `cancelWorkOrder` adds each line's quantity back to its part, keeps the
   * lines and the costs, marks the order cancelled and appends the note.
   */
  lemma CancelRestoresStock(t: Tables, id: OrderId, reason: Option<string>)
    requires Consistent(t) && id in t.orders
    ensures var r := CancelSpec(t, id, reason);
      var o, o' := t.orders[id], r.orders[id];
      && Consistent(r) && r.parts.Keys == t.parts.Keys && r.orders.Keys == t.orders.Keys
      && (forall p :: p in t.parts ==>
            r.parts[p].stockQuantity == t.parts[p].stockQuantity + QuantityOf(o.partLines, p)
            && r.parts[p].name == t.parts[p].name && r.parts[p].minStockLevel == t.parts[p].minStockLevel)
      && o'.partLines == o.partLines && o'.laborLines == o.laborLines
      && o'.partsCost == o.partsCost && o'.laborCost == o.laborCost && o'.totalCost == o.totalCost
      && (forall other :: other in t.orders && other != id ==> r.orders[other] == t.orders[other])
      && o'.status == Cancelled
      && o'.internalNotes == Some(o.internalNotes.GetOr("") + "\n\nCancelled: " + reason.GetOr(""))
  {
    RestockAdds(t.parts, t.orders[id].partLines);
    CancelKeepsConsistent(t, id, reason);
  }

  /** `cancelWorkOrder` keeps the tables consistent: restocking never makes a stock negative. */
  lemma CancelKeepsConsistent(t: Tables, id: OrderId, reason: Option<string>)
    requires Consistent(t) && id in t.orders
    ensures Consistent(CancelSpec(t, id, reason))
  {
    var o := t.orders[id];
    RestockKeepsNonNegative(t.parts, o.partLines);
    var t' := t.(parts := Restock(t.parts, o.partLines));
    assert Consistent(t');
    ReplaceKeepsConsistent(t', id, o.(status := Cancelled, internalNotes := Some(CancelNote(o.internalNotes, reason))));
  }

  /** Cancelling twice restores the stock twice: a second cancel of an order with parts changes the stock again. */
  lemma CancelTwiceRestocksTwice(t: Tables, id: OrderId, reason: Option<string>, p: PartId)
    requires Consistent(t) && id in t.orders && p in t.parts
    requires QuantityOf(t.orders[id].partLines, p) > 0
    ensures var once := CancelSpec(t, id, reason);
      id in once.orders && LinesWellFormed(once.orders[id].partLines, once.parts.Keys)
      && var twice := CancelSpec(once, id, reason);
      twice.parts[p].stockQuantity == t.parts[p].stockQuantity + 2 * QuantityOf(t.orders[id].partLines, p)
      && twice.parts != once.parts
  {
    CancelRestoresStock(t, id, reason);
    var once := CancelSpec(t, id, reason);
    CancelRestoresStock(once, id, reason);
  }

  /** Cancelling a freshly created order puts every part's stock back where it was before `create`. */
  lemma CancelUndoesCreate(t: Tables, data: OrderData, year: nat, now: Timestamp, reason: Option<string>)
    requires Consistent(t) && WellFormedPartInputs(PartsOf(data))
    requires CreateSpec(t, data, year, now).result.Success?
    ensures var r := CreateSpec(t, data, year, now);
      var id := r.result.value;
      id in r.tables.orders && LinesWellFormed(r.tables.orders[id].partLines, r.tables.parts.Keys)
      && CancelSpec(r.tables, id, reason).parts == t.parts
  {
    CreateOnSuccess(t, data, year, now);
    CreateKeepsConsistent(t, data, year, now);
    var r := CreateSpec(t, data, year, now);
    var id := r.result.value;
    ConsumeOnSuccess(t.parts, [], PartsOf(data));
    RestockUndoesConsume(t.parts, PartsOf(data));
  }

  /** Setting the status keeps the tables consistent and changes nothing else. */
  lemma SetStatusKeepsConsistent(t: Tables, id: OrderId, s: Status)
    requires Consistent(t) && id in t.orders
    ensures Consistent(SetStatusSpec(t, id, s))
    ensures SetStatusSpec(t, id, s).orders[id].(status := t.orders[id].status) == t.orders[id]
  {
    ReplaceKeepsConsistent(t, id, t.orders[id].(status := s));
  }

  /** Deleting an order keeps the tables consistent and gives none of its consumed stock back. */
  lemma DestroyKeepsStock(t: Tables, id: OrderId)
    requires Consistent(t)
    ensures Consistent(DestroySpec(t, id))
    ensures DestroySpec(t, id).parts == t.parts && id !in DestroySpec(t, id).orders
  {
  }
}
