/**
 * The `work_orders` table and its two child tables: the status and priority
 * enumerations, the row of a work order together with the child rows it owns,
 * the column defaults and the unique index on `order_number`.
 */
module Schema {
  import opened Util

  type PartId = nat
  type OrderId = nat
  type MechanicId = nat

  /** A point in time (`now()`), left abstract. */
  type Timestamp = int

  /** The `status` enum column. */
  datatype Status = Pending | InProgress | WaitingParts | WaitingApproval | Completed | Cancelled

  /** The `priority` enum column. */
  datatype Priority = Low | Medium | High | Urgent

  /** The text stored in the `status` column for each value. */
  function StatusName(s: Status): string {
    match s
    case Pending => "pending"
    case InProgress => "in_progress"
    case WaitingParts => "waiting_parts"
    case WaitingApproval => "waiting_approval"
    case Completed => "completed"
    case Cancelled => "cancelled"
  }

  /** The status whose column text is `t`, if there is one. */
  function ParseStatus(t: string): (r: Option<Status>)
    ensures r.Some? ==> StatusName(r.value) == t
  {
    if t == "pending" then Some(Pending)
    else if t == "in_progress" then Some(InProgress)
    else if t == "waiting_parts" then Some(WaitingParts)
    else if t == "waiting_approval" then Some(WaitingApproval)
    else if t == "completed" then Some(Completed)
    else if t == "cancelled" then Some(Cancelled)
    else None
  }

  /** The text stored in the `priority` column for each value. */
  function PriorityName(p: Priority): string {
    match p
    case Low => "low"
    case Medium => "medium"
    case High => "high"
    case Urgent => "urgent"
  }

  /** The priority whose column text is `t`, if there is one. */
  function ParsePriority(t: string): (r: Option<Priority>)
    ensures r.Some? ==> PriorityName(r.value) == t
  {
    if t == "low" then Some(Low)
    else if t == "medium" then Some(Medium)
    else if t == "high" then Some(High)
    else if t == "urgent" then Some(Urgent)
    else None
  }

  /** Every status text is accepted back, and exactly the six texts are accepted. */
  lemma StatusNamesRoundTrip(s: Status, t: string)
    ensures ParseStatus(StatusName(s)) == Some(s)
    ensures ParseStatus(t).Some? <==>
      t in {"pending", "in_progress", "waiting_parts", "waiting_approval", "completed", "cancelled"}
  {
  }

  /** Every priority text is accepted back, and exactly the four texts are accepted. */
  lemma PriorityNamesRoundTrip(p: Priority, t: string)
    ensures ParsePriority(PriorityName(p)) == Some(p)
    ensures ParsePriority(t).Some? <==> t in {"low", "medium", "high", "urgent"}
  {
  }

  const DefaultStatus: Status := Pending
  const DefaultPriority: Priority := Medium

  /** A row of `work_order_parts`: the unit price is a snapshot taken when the part was consumed. */
  datatype PartLine = PartLine(partId: PartId, quantity: int, unitPrice: real, totalPrice: real)

  /** A row of `work_order_mechanics`. */
  datatype LaborLine = LaborLine(
    mechanicId: MechanicId,
    hoursWorked: real,
    hourlyRate: real,
    totalCost: real,
    workDescription: Option<string>)

  /**
   * A row of `work_orders` together with the child rows it owns
   * (`partLines`, `laborLines`). `createdYear` is the calendar year of
   * `created_at`, which is what the order-number count filters on.
   */
  datatype WorkOrder = WorkOrder(
    orderNumber: string,
    customerId: nat,
    vehicleId: nat,
    assignedMechanicId: Option<MechanicId>,
    problemDescription: string,
    diagnosis: Option<string>,
    laborCost: real,
    partsCost: real,
    totalCost: real,
    priority: Priority,
    status: Status,
    completedAt: Option<Timestamp>,
    internalNotes: Option<string>,
    createdAt: Timestamp,
    createdYear: int,
    partLines: seq<PartLine>,
    laborLines: seq<LaborLine>)

  /** The three cost columns agree: `total_cost = parts_cost + labor_cost`. */
  predicate CostsAdd(o: WorkOrder) {
    o.totalCost == o.partsCost + o.laborCost
  }

  /**
   * The row inserted for a new order: the given columns, and the column
   * defaults for the rest (`priority` medium, `status` pending, all three
   * costs 0, no child rows).
   */
  function FreshRow(
    orderNumber: string, customerId: nat, vehicleId: nat, assignedMechanicId: Option<MechanicId>,
    problemDescription: string, diagnosis: Option<string>, priority: Option<Priority>,
    status: Option<Status>, internalNotes: Option<string>, now: Timestamp, year: int): (r: WorkOrder)
    ensures r.status == status.GetOr(DefaultStatus) && r.priority == priority.GetOr(DefaultPriority)
    ensures r.laborCost == 0.0 && r.partsCost == 0.0 && r.totalCost == 0.0 && CostsAdd(r)
    ensures r.partLines == [] && r.laborLines == [] && r.completedAt == None
    ensures r.orderNumber == orderNumber && r.createdYear == year
  {
    WorkOrder(orderNumber, customerId, vehicleId, assignedMechanicId, problemDescription, diagnosis,
      0.0, 0.0, 0.0, priority.GetOr(DefaultPriority), status.GetOr(DefaultStatus), None,
      internalNotes, now, year, [], [])
  }

  /** A fresh order given no priority or status starts pending with medium priority. */
  lemma FreshRowDefaults(orderNumber: string, customerId: nat, vehicleId: nat, now: Timestamp, year: int)
    ensures var r := FreshRow(orderNumber, customerId, vehicleId, None, "", None, None, None, None, now, year);
      r.status == Pending && r.priority == Medium
  {
  }

  /** The unique index on `order_number`: no two rows carry the same number. */
  ghost predicate UniqueOrderNumbers(orders: map<OrderId, WorkOrder>) {
    forall a, b :: a in orders && b in orders && a != b ==> orders[a].orderNumber != orders[b].orderNumber
  }

  /** Some row other than `except` already carries `number`. */
  predicate NumberTaken(orders: map<OrderId, WorkOrder>, number: string, except: Option<OrderId>) {
    exists id :: id in orders && Some(id) != except && orders[id].orderNumber == number
  }

  /** Inserting a row whose number is not taken keeps the index unique. */
  lemma InsertKeepsNumbersUnique(orders: map<OrderId, WorkOrder>, id: OrderId, o: WorkOrder)
    requires UniqueOrderNumbers(orders) && id !in orders
    requires !NumberTaken(orders, o.orderNumber, None)
    ensures UniqueOrderNumbers(orders[id := o])
  {
  }

  /**
   * Deleting mechanic `m` (`onDelete('set null')`): every order assigned to
   * `m` becomes unassigned, and nothing else about any order changes.
   */
  function MechanicDeleted(orders: map<OrderId, WorkOrder>, m: MechanicId): (r: map<OrderId, WorkOrder>)
    ensures r.Keys == orders.Keys
    ensures forall id :: id in r ==> r[id].assignedMechanicId != Some(m)
    ensures forall id :: id in r ==> r[id].(assignedMechanicId := orders[id].assignedMechanicId) == orders[id]
    ensures forall id :: id in r && orders[id].assignedMechanicId != Some(m) ==> r[id] == orders[id]
  {
    map id | id in orders ::
      if orders[id].assignedMechanicId == Some(m) then orders[id].(assignedMechanicId := None) else orders[id]
  }

  /** Unassigning a mechanic keeps the order numbers unique. */
  lemma MechanicDeletedKeepsNumbersUnique(orders: map<OrderId, WorkOrder>, m: MechanicId)
    requires UniqueOrderNumbers(orders)
    ensures UniqueOrderNumbers(MechanicDeleted(orders, m))
  {
    var r := MechanicDeleted(orders, m);
    forall a, b | a in r && b in r && a != b ensures r[a].orderNumber != r[b].orderNumber {
      assert r[a].orderNumber == orders[a].orderNumber && r[b].orderNumber == orders[b].orderNumber;
    }
  }
}
