/** The order domain's transactions: creation, the five transitions, and the lazy overdue mark. */
module OrderTx {
  import opened Schema
  import opened Sets
  import opened Fees

  /** The pickup UPDATE has three parameter markers; the call beside it binds two arguments, and a statement
      whose counts differ is rejected before it runs. */
  const PICKUP_PLACEHOLDERS: nat := 3
  const PICKUP_ARGS_BOUND: nat := 2

  /** The declared state machine; no transaction below consults it. */
  predicate CanTransition(from: OrderStatus, to: OrderStatus) {
    match from
    case PendingPayment => to == Paid || to == Cancelled
    case Paid => to == AwaitingDeposit
    case AwaitingDeposit => to == InStorage
    case InStorage => to == Overdue || to == Completed
    case Overdue => to == AwaitingPickup
    case AwaitingPickup => to == Completed
    case Cancelled => false
    case Completed => false
  }

  predicate Creatable(db: Db, id: nat, siteId: nat, size: Size) {
    && id in db.cells
    && var c := db.cells[id];
    && c.deviceId in db.devices && db.devices[c.deviceId].siteId == siteId
    && c.size == size && c.status == Idle && c.orderId.None?
  }

  function CreateCandidates(db: Db, siteId: nat, size: Size): set<nat> {
    set id | id in db.cells && Creatable(db, id, siteId, size)
  }

  function NewOrder(siteId: nat, cellId: nat, size: Size, minutes: int, now: int): Order {
    var rent := RentFen(size, minutes);
    Order(siteId, cellId, size, PendingPayment, minutes, rent, 0, 0, rent, 0, None, None, None, None, now)
  }

  /** Validation of the use case, then one transaction: pick a cell, insert the order under the id the database
      assigns, bind the cell, log the creation. */
  function CreateOrder(db: Db, oid: nat, siteId: nat, size: Size, minutes: int, now: int, skip: set<nat>)
    : (Db, Result<Order>)
  {
    if siteId == 0 then (db, Err(InvalidSiteId))
    else if minutes <= 0 then (db, Err(InvalidDuration))
    else if siteId !in db.sites then (db, Err(SiteNotFound))
    else
      var pick := CreateCandidates(db, siteId, size) - skip;
      if pick == {} then (db, Err(NoAvailableCell))
      else
        var cellId := Least(pick);
        var order := NewOrder(siteId, cellId, size, minutes, now);
        (db.(orders := db.orders[oid := order],
             cells := db.cells[cellId := Bound(db.cells[cellId], oid)],
             logs := db.logs + [LogRow(oid, None, PendingPayment, "CREATE", "system", now)]),
         Ok(order))
  }

  function Bound(c: Cell, oid: nat): Cell {
    c.(status := Locked, orderId := Some(oid), version := c.version + 1)
  }

  function Unbound(c: Cell): Cell {
    c.(status := Idle, orderId := None, key := None, lockExpires := None, version := c.version + 1)
  }

  function Filled(c: Cell): Cell {
    c.(status := Occupied, version := c.version + 1)
  }

  /** UPDATE locker_cells ... WHERE id = cellId AND current_order_id = oid: no row, no effect, no error. */
  predicate CellUpdateHits(cells: map<nat, Cell>, cellId: nat, oid: nat) {
    cellId in cells && cells[cellId].orderId == Some(oid)
  }

  function ReleaseCell(cells: map<nat, Cell>, cellId: nat, oid: nat): map<nat, Cell> {
    if CellUpdateHits(cells, cellId, oid) then cells[cellId := Unbound(cells[cellId])] else cells
  }

  function OccupyCell(cells: map<nat, Cell>, cellId: nat, oid: nat): map<nat, Cell> {
    if CellUpdateHits(cells, cellId, oid) then cells[cellId := Filled(cells[cellId])] else cells
  }

  function CancelOrder(db: Db, oid: nat, now: int): (Db, Result<Order>) {
    if oid !in db.orders then (db, Err(OrderNotFound))
    else
      var o := db.orders[oid];
      if o.status != PendingPayment then (db, Err(StateConflict))
      else
        var o' := o.(status := Cancelled);
        (db.(orders := db.orders[oid := o'],
             cells := ReleaseCell(db.cells, o.cellId, oid),
             logs := db.logs + [LogRow(oid, Some(PendingPayment), Cancelled, "CANCEL", "user", now)]),
         Ok(o'))
  }

  function ConfirmPayment(db: Db, oid: nat, now: int): (Db, Result<Order>) {
    if oid !in db.orders then (db, Err(OrderNotFound))
    else
      var o := db.orders[oid];
      if o.status != PendingPayment then (db, Err(StateConflict))
      else
        var o' := o.(status := AwaitingDeposit, paidAt := Some(now));
        (db.(orders := db.orders[oid := o'],
             logs := db.logs
                     + [LogRow(oid, Some(PendingPayment), Paid, "DEV_PAYMENT", "dev-payment", now)]
                     + [LogRow(oid, Some(Paid), AwaitingDeposit, "DEV_PAYMENT", "dev-payment", now)]),
         Ok(o'))
  }

  function OpenDepositDoor(db: Db, oid: nat, now: int): (Db, Result<Order>) {
    if oid !in db.orders then (db, Err(OrderNotFound))
    else
      var o := db.orders[oid];
      if o.status != AwaitingDeposit then (db, Err(StateConflict))
      else
        var o' := o.(status := InStorage, depositedAt := Some(now), expiresAt := Some(Deadline(now, o.minutes)));
        (db.(orders := db.orders[oid := o'],
             cells := OccupyCell(db.cells, o.cellId, oid),
             logs := db.logs + [LogRow(oid, Some(AwaitingDeposit), InStorage, "DEPOSIT", "user", now)]),
         Ok(o'))
  }

  /** `args` is the number of arguments bound to the pickup UPDATE. */
  function OpenPickupDoor(db: Db, oid: nat, now: int, args: nat): (Db, Result<Order>) {
    if oid !in db.orders then (db, Err(OrderNotFound))
    else
      var o := db.orders[oid];
      if o.status != AwaitingPickup && o.status != InStorage then (db, Err(StateConflict))
      else if o.status == InStorage && o.expiresAt.Some? && now > o.expiresAt.value then (db, Err(StateConflict))
      else if args != PICKUP_PLACEHOLDERS then (db, Err(DataUnavailable))
      else
        var o' := o.(status := Completed, completedAt := Some(now));
        (db.(orders := db.orders[oid := o'],
             cells := ReleaseCell(db.cells, o.cellId, oid),
             logs := db.logs + [LogRow(oid, Some(o.status), Completed, "PICKUP", "user", now)]),
         Ok(o'))
  }

  function SettleOverdue(db: Db, oid: nat, now: int): (Db, Result<Order>) {
    if oid !in db.orders then (db, Err(OrderNotFound))
    else
      var o := db.orders[oid];
      if o.status != Overdue then (db, Err(StateConflict))
      else
        var o' := o.(status := AwaitingPickup, overdueFen := 0);
        (db.(orders := db.orders[oid := o'],
             logs := db.logs + [LogRow(oid, Some(Overdue), AwaitingPickup, "SETTLE_OVERDUE", "dev-overdue", now)]),
         Ok(o'))
  }

  /** Idempotent: an order that has left IN_STORAGE is not touched. */
  function MarkOverdue(db: Db, oid: nat, feeFen: int, now: int): Db {
    if oid !in db.orders || db.orders[oid].status != InStorage then db
    else
      db.(orders := db.orders[oid := db.orders[oid].(status := Overdue, overdueFen := feeFen)],
          logs := db.logs + [LogRow(oid, Some(InStorage), Overdue, "OVERDUE_LAZY", "system", now)])
  }

  /** The lazy check of a read: whether the order just read at `now` should be marked overdue. */
  predicate IsLate(o: Order, now: int) {
    o.status == InStorage && o.expiresAt.Some? && now > o.expiresAt.value
  }

  /** A read of one order with its lazy mark, at one instant with nobody in between. */
  function GetOrder(db: Db, oid: nat, now: int): (Db, Result<Order>) {
    if oid !in db.orders then (db, Err(OrderNotFound))
    else
      var o := db.orders[oid];
      if !IsLate(o, now) then (db, Ok(o))
      else
        var fee := OverdueFeeFen(o.size, o.expiresAt.value, now);
        (MarkOverdue(db, oid, fee, now), Ok(o.(status := Overdue, overdueFen := fee)))
  }
}
