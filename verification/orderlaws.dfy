/** What the order transactions answer and write, told from the rows alone, and what every log of every run reads. */
module OrderLaws {
  import opened Schema
  import opened Sets
  import opened Fees
  import opened Runs
  import O = OrderTx
  import W = Ownership
  import B = Ledger

  /** A cell row of the size, idle and without an order. */
  predicate Vacant(row: Cell, size: Size) {
    match row
    case Cell(_, s, Idle, _, _, None, _) => s == size
    case _ => false
  }

  /** An order of that size at that site may be given this cell, whatever state its device is in. */
  predicate Bindable(db: Db, id: nat, siteId: nat, size: Size) {
    && id in db.cells && Vacant(db.cells[id], size)
    && db.cells[id].deviceId in db.devices && db.devices[db.cells[id].deviceId].siteId == siteId
  }

  lemma CandidatesAreBindable(db: Db, siteId: nat, size: Size)
    ensures forall id :: id in O.CreateCandidates(db, siteId, size) <==> Bindable(db, id, siteId, size)
  {
  }

  /** Which answer a creation gets, and what it writes: the order row, the binding of the first bindable cell nobody
      holds locked, and one row of log. */
  lemma CreateAnswer(db: Db, oid: nat, siteId: nat, size: Size, minutes: int, now: int, skip: set<nat>)
    ensures
      var (db', r) := O.CreateOrder(db, oid, siteId, size, minutes, now, skip);
      var vacancy := exists id :: Bindable(db, id, siteId, size) && id !in skip;
      if siteId == 0 then r == Err(InvalidSiteId) && db' == db
      else if minutes <= 0 then r == Err(InvalidDuration) && db' == db
      else if siteId !in db.sites then r == Err(SiteNotFound) && db' == db
      else if !vacancy then r == Err(NoAvailableCell) && db' == db
      else
        && r.Ok?
        && var o := r.value;
        var cell := o.cellId;
        && Bindable(db, cell, siteId, size) && cell !in skip
        && (forall x :: Bindable(db, x, siteId, size) && x !in skip ==> cell <= x)
        && o == Order(siteId, cell, size, PendingPayment, minutes, o.rentFen, 0, 0, o.rentFen, 0,
                      None, None, None, None, now)
        && o.rentFen == RentFen(size, minutes)
        && db' == Db(db.sites, db.devices,
                     db.cells[cell := Cell(db.cells[cell].deviceId, size, Locked, db.cells[cell].key,
                                           db.cells[cell].lockExpires, Some(oid), db.cells[cell].version + 1)],
                     db.orders[oid := o],
                     db.logs + [LogRow(oid, None, PendingPayment, "CREATE", "system", now)])
  {
    var rows := O.CreateCandidates(db, siteId, size);
    CandidatesAreBindable(db, siteId, size);
    LeastIsFirst(rows, skip);
    if rows - skip != {} {
      assert Bindable(db, Least(rows - skip), siteId, size) && Least(rows - skip) !in skip;
    }
    hide RentFen;
  }

  /** The row of a cell given back by its order, and of one filled. */
  function Vacated(row: Cell): Cell { Cell(row.deviceId, row.size, Idle, None, None, None, row.version + 1) }

  function Occupied(row: Cell): Cell
  {
    Cell(row.deviceId, row.size, CellStatus.Occupied, row.key, row.lockExpires, row.orderId, row.version + 1)
  }

  /** The order cancelled, its cell given back; only an unpaid order can be. */
  lemma CancelAnswer(db: Db, oid: nat, now: int)
    requires W.Inv(db)
    ensures
      var (db', r) := O.CancelOrder(db, oid, now);
      if oid !in db.orders then r == Err(OrderNotFound) && db' == db
      else if db.orders[oid].status != PendingPayment then r == Err(StateConflict) && db' == db
      else
        var o := db.orders[oid];
        && r == Ok(o.(status := Cancelled)) && o.cellId in db.cells
        && db' == Db(db.sites, db.devices, db.cells[o.cellId := Vacated(db.cells[o.cellId])], db.orders[oid := r.value],
                     db.logs + [LogRow(oid, Some(PendingPayment), Cancelled, "CANCEL", "user", now)])
  {
    if oid in db.orders && db.orders[oid].status == PendingPayment { W.UncheckedUpdateHitsOneRow(db, oid); }
  }

  /** The order paid and waiting for its parcel, with two rows of log; the cell is not touched. */
  lemma PayAnswer(db: Db, oid: nat, now: int)
    ensures
      var (db', r) := O.ConfirmPayment(db, oid, now);
      if oid !in db.orders then r == Err(OrderNotFound) && db' == db
      else if db.orders[oid].status != PendingPayment then r == Err(StateConflict) && db' == db
      else
        && r == Ok(db.orders[oid].(status := AwaitingDeposit, paidAt := Some(now)))
        && db' == Db(db.sites, db.devices, db.cells, db.orders[oid := r.value],
                     db.logs + [LogRow(oid, Some(PendingPayment), Paid, "DEV_PAYMENT", "dev-payment", now),
                                LogRow(oid, Some(Paid), AwaitingDeposit, "DEV_PAYMENT", "dev-payment", now)])
  {
    var rows := [LogRow(oid, Some(PendingPayment), Paid, "DEV_PAYMENT", "dev-payment", now),
                 LogRow(oid, Some(Paid), AwaitingDeposit, "DEV_PAYMENT", "dev-payment", now)];
    assert db.logs + [rows[0]] + [rows[1]] == db.logs + rows;
  }

  /** The parcel stored, due after the rented time, and its cell occupied. */
  lemma DepositAnswer(db: Db, oid: nat, now: int)
    requires W.Inv(db)
    ensures
      var (db', r) := O.OpenDepositDoor(db, oid, now);
      if oid !in db.orders then r == Err(OrderNotFound) && db' == db
      else if db.orders[oid].status != AwaitingDeposit then r == Err(StateConflict) && db' == db
      else
        var o := db.orders[oid];
        && r.Ok? && o.cellId in db.cells
        && r.value == o.(status := InStorage, depositedAt := Some(now), expiresAt := r.value.expiresAt)
        && r.value.expiresAt.Some?
        && (0 < o.minutes <= 153_722_867 ==> r.value.expiresAt == Some(now + o.minutes * 60_000_000_000))
        && db' == Db(db.sites, db.devices, db.cells[o.cellId := Occupied(db.cells[o.cellId])],
                     db.orders[oid := r.value],
                     db.logs + [LogRow(oid, Some(AwaitingDeposit), InStorage, "DEPOSIT", "user", now)])
  {
    if oid in db.orders && db.orders[oid].status == AwaitingDeposit { W.UncheckedUpdateHitsOneRow(db, oid); }
  }

  /** The order completed and its cell given back: from settlement at any time, from storage up to the deadline
      itself; and only with the statement bound in full. */
  lemma PickupAnswer(db: Db, oid: nat, now: int, args: nat)
    requires W.Inv(db)
    ensures
      var (db', r) := O.OpenPickupDoor(db, oid, now, args);
      if oid !in db.orders then r == Err(OrderNotFound) && db' == db
      else
        var o := db.orders[oid];
        var due := o.status == AwaitingPickup
                   || (o.status == InStorage && (o.expiresAt == None || now <= o.expiresAt.value));
        if !due then r == Err(StateConflict) && db' == db
        else if args != 3 then r == Err(DataUnavailable) && db' == db
        else
          && r == Ok(o.(status := Completed, completedAt := Some(now))) && o.cellId in db.cells
          && db' == Db(db.sites, db.devices, db.cells[o.cellId := Vacated(db.cells[o.cellId])],
                       db.orders[oid := r.value],
                       db.logs + [LogRow(oid, Some(o.status), Completed, "PICKUP", "user", now)])
  {
    if oid in db.orders && !Terminal(db.orders[oid].status) { W.UncheckedUpdateHitsOneRow(db, oid); }
  }

  /** As bound, the pickup statement has two arguments for three markers. */
  lemma BoundArguments()
    ensures O.PICKUP_ARGS_BOUND == 2 && O.PICKUP_PLACEHOLDERS == 3
  {
  }

  /** The fee settled and the parcel free to be picked up. */
  lemma SettleAnswer(db: Db, oid: nat, now: int)
    ensures
      var (db', r) := O.SettleOverdue(db, oid, now);
      if oid !in db.orders then r == Err(OrderNotFound) && db' == db
      else if db.orders[oid].status != Overdue then r == Err(StateConflict) && db' == db
      else
        && r == Ok(db.orders[oid].(status := AwaitingPickup, overdueFen := 0))
        && db' == Db(db.sites, db.devices, db.cells, db.orders[oid := r.value],
                     db.logs + [LogRow(oid, Some(Overdue), AwaitingPickup, "SETTLE_OVERDUE", "dev-overdue", now)])
  {
  }

  /** The mark hits an order in storage only, and then writes its status, its fee and one row of log. */
  lemma MarkAnswer(db: Db, oid: nat, feeFen: int, now: int)
    ensures
      var db' := O.MarkOverdue(db, oid, feeFen, now);
      if oid in db.orders && db.orders[oid].status == InStorage then
        db' == Db(db.sites, db.devices, db.cells,
                  db.orders[oid := db.orders[oid].(status := Overdue, overdueFen := feeFen)],
                  db.logs + [LogRow(oid, Some(InStorage), Overdue, "OVERDUE_LAZY", "system", now)])
      else db' == db
  {
  }

  /** A read marks and shows an order as overdue exactly if it is in storage and past its deadline. */
  lemma ReadAnswer(db: Db, oid: nat, now: int)
    ensures
      var (db', r) := O.GetOrder(db, oid, now);
      if oid !in db.orders then r == Err(OrderNotFound) && db' == db
      else
        match db.orders[oid]
        case Order(_, _, size, InStorage, _, _, _, _, _, _, _, _, Some(deadline), _, _) =>
          if now <= deadline then r == Ok(db.orders[oid]) && db' == db
          else
            var fee := OverdueFeeFen(size, deadline, now);
            && r == Ok(db.orders[oid].(status := Overdue, overdueFen := fee))
            && db' == O.MarkOverdue(db, oid, fee, now)
        case _ => r == Ok(db.orders[oid]) && db' == db
  {
  }

  // ---- what every log reads ----

  /** The rows a log may hold: what happened, and who signs for it. */
  predicate Signed(row: LogRow) {
    match (row.from, row.to)
    case (None, PendingPayment) => row.reason == "CREATE" && row.actor == "system"
    case (Some(PendingPayment), Cancelled) => row.reason == "CANCEL" && row.actor == "user"
    case (Some(PendingPayment), Paid) => row.reason == "DEV_PAYMENT" && row.actor == "dev-payment"
    case (Some(Paid), AwaitingDeposit) => row.reason == "DEV_PAYMENT" && row.actor == "dev-payment"
    case (Some(AwaitingDeposit), InStorage) => row.reason == "DEPOSIT" && row.actor == "user"
    case (Some(InStorage), Overdue) => row.reason == "OVERDUE_LAZY" && row.actor == "system"
    case (Some(Overdue), AwaitingPickup) => row.reason == "SETTLE_OVERDUE" && row.actor == "dev-overdue"
    case (Some(AwaitingPickup), Completed) => row.reason == "PICKUP" && row.actor == "user"
    case (Some(InStorage), Completed) => row.reason == "PICKUP" && row.actor == "user"
    case _ => false
  }

  lemma StepSigns(s: State, a: Action, i: nat)
    requires forall j :: 0 <= j < |s.db.logs| ==> Signed(s.db.logs[j])
    requires i < |Apply(s, a).db.logs|
    ensures Signed(Apply(s, a).db.logs[i])
  {
    hide RentFen, OverdueFeeFen, Deadline;
  }

  /** Every row of every log is one of nine, and is signed as such. */
  lemma {:induction false} RowsAreSigned(s: State, actions: seq<Action>)
    requires W.Installed(s.db)
    ensures forall i :: 0 <= i < |Exec(s, actions).db.logs| ==> Signed(Exec(s, actions).db.logs[i])
  {
    if actions == [] {
    } else {
      var before := Exec(s, actions[..|actions| - 1]);
      RowsAreSigned(s, actions[..|actions| - 1]);
      forall i | 0 <= i < |Exec(s, actions).db.logs| ensures Signed(Exec(s, actions).db.logs[i]) {
        StepSigns(before, actions[|actions| - 1], i);
      }
    }
  }

  /** The statuses a log records, in order. */
  function Statuses(h: seq<LogRow>): seq<OrderStatus> {
    seq(|h|, i requires 0 <= i < |h| => h[i].to)
  }

  /** The three lives of an order, and their beginnings. */
  predicate Lived(path: seq<OrderStatus>) {
    || path <= [PendingPayment, Cancelled]
    || path <= [PendingPayment, Paid, AwaitingDeposit, InStorage, Completed]
    || path <= [PendingPayment, Paid, AwaitingDeposit, InStorage, Overdue, AwaitingPickup, Completed]
  }

  lemma {:induction false} ChainIsALife(h: seq<LogRow>)
    requires B.Chain(h)
    ensures Lived(Statuses(h))
  {
    var n := |h|;
    if n == 1 {
      assert Statuses(h) == [PendingPayment];
    } else {
      ChainIsALife(h[..n - 1]);
      assert Statuses(h) == Statuses(h[..n - 1]) + [h[n - 1].to];
      LifeGoesOn(Statuses(h[..n - 1]), h[n - 1].to);
    }
  }

  lemma LifeGoesOn(path: seq<OrderStatus>, next: OrderStatus)
    requires path != [] && Lived(path) && O.CanTransition(path[|path| - 1], next)
    ensures Lived(path + [next])
  {
  }

  /** In every state of every run an order has lived one of three lives so far: cancelled unpaid; deposited and picked
      up; or deposited, overdue, settled and picked up. Its stored status is where that life has got to. */
  lemma OrdersLiveOneOfThreeLives(s: State, actions: seq<Action>, oid: nat)
    requires B.Fresh(s) && oid in Exec(s, actions).db.orders
    ensures
      var db := Exec(s, actions).db;
      var path := Statuses(History(db.logs, oid));
      Lived(path) && path != [] && path[|path| - 1] == db.orders[oid].status
  {
    B.LogIsTheHistory(s, actions, oid);
    ChainIsALife(History(Exec(s, actions).db.logs, oid));
  }

  /** Money in numbers on every order row of every run: the total is 300, 500 or 800 fen for each hour begun of the
      rented time, and an overdue fee as much for each hour begun between the deadline and a moment `at` up to the
      marking row. */
  lemma PricesOnEveryOrder(s: State, actions: seq<Action>, oid: nat) returns (rented: int, late: int, at: int)
    requires B.Fresh(s) && oid in Exec(s, actions).db.orders
    ensures
      var o := Exec(s, actions).db.orders[oid];
      var price := match o.size case Small => 300 case Medium => 500 case Large => 800;
      && 60 * (rented - 1) < o.minutes <= 60 * rented
      && o.rentFen == o.totalFen == price * rented && o.depositFen == 0 && o.discountFen == 0
      && (if o.status != Overdue then o.overdueFen == 0
          else
            var h := History(Exec(s, actions).db.logs, oid);
            && o.expiresAt.Some? && |h| > 0 && o.expiresAt.value < at <= h[|h| - 1].at
            && o.overdueFen == price * late
            && (at - o.expiresAt.value <= 9_223_368_436_854_775_808 ==>
                  3_600_000_000_000 * (late - 1) < at - o.expiresAt.value <= 3_600_000_000_000 * late)
            && (at - o.expiresAt.value > 9_223_368_436_854_775_808 ==> late == 1))
  {
    B.BooksAlways(s, actions);
    assert B.BookAt(Exec(s, actions), oid);
    var o, h := Exec(s, actions).db.orders[oid], History(Exec(s, actions).db.logs, oid);
    hide B.Chain, B.StampsOk, B.TimesOk, RentFen, OverdueFeeFen;
    rented, late, at := (o.minutes + 59) / 60, 1, 0;
    RentPriceList(o.minutes, rented);
    if o.status == Overdue {
      assert B.FeeCharged(o, h[|h| - 1].at);
      at :| o.expiresAt.value < at <= h[|h| - 1].at && o.overdueFen == OverdueFeeFen(o.size, o.expiresAt.value, at);
      var gone := at - o.expiresAt.value;
      if gone <= 9_223_368_436_854_775_808 { late := (gone + HOUR - 1) / HOUR; }
      OverduePriceList(o.expiresAt.value, at, late);
    }
  }
}
