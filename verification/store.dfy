/** The two repositories over one database, written as the statements they run. Each method is proved against
    the transaction function of the same name and keeps the ownership invariant. */
module Repositories {
  import opened Schema
  import opened Sets
  import opened Fees
  import C = CellTx
  import O = OrderTx
  import W = Ownership
  import R = Runs
  import L = LeaseTheorems
  import Availability

  /** The tables after other transactions have run, by the time the clock reads `now`. */
  function After(db: Db, now: int, setup: Setup, others: seq<R.Action>): Db {
    R.Exec(R.State(db, now, setup, {}), others).db
  }

  class Store {
    var sites: map<nat, SiteStatus>
    var devices: map<nat, Device>
    var cells: map<nat, Cell>
    var orders: map<nat, Order>
    var logs: seq<LogRow>
    const setup: Setup

    function Rows(): Db
      reads this
    {
      Db(sites, devices, cells, orders, logs)
    }

    ghost predicate Valid()
      reads this
    {
      W.Inv(Rows())
    }

    constructor (db: Db, setup: Setup)
      requires W.Inv(db)
      ensures Valid() && Rows() == db && this.setup == setup
    {
      sites, devices, cells, orders, logs := db.sites, db.devices, db.cells, db.orders, db.logs;
      this.setup := setup;
    }

    /** The tables as others have left them. */
    method Adopt(db: Db)
      requires W.Inv(db)
      modifies this
      ensures Valid() && Rows() == db
    {
      sites, devices, cells, orders, logs := db.sites, db.devices, db.cells, db.orders, db.logs;
    }

    /** What everybody else does between two statements of a call. */
    method Meanwhile(now: int, others: seq<R.Action>)
      requires Valid()
      modifies this
      ensures Valid() && Rows() == After(old(Rows()), now, setup, others)
    {
      L.OwnershipAlways(R.State(Rows(), now, setup, {}), others);
      Adopt(After(Rows(), now, setup, others));
    }

    // ---- locker repository ----

    method FindReservation(key: string) returns (r: Result<C.Reservation>)
      ensures r == match C.FindReservation(Rows(), key) case Some(x) => Ok(x) case None => Err(ReservationNotFound)
    {
      var rows := C.Holders(cells, key);
      if rows == {} {
        return Err(ReservationNotFound);
      }
      var id := Least(rows);
      r := Ok(C.Reservation(id, cells[id].size, key, cells[id].lockExpires));
    }

    method ReserveAvailable(req: C.Request, expiresAt: int, now1: int, now2: int, skip: set<nat>)
      returns (r: Result<C.Reservation>)
      requires Valid()
      modifies this`cells
      ensures Valid()
      ensures (Rows(), r) == C.ReserveAvailable(old(Rows()), req, expiresAt, now1, now2, setup.threshold, skip)
    {
      W.ReserveInv(Rows(), req, expiresAt, now1, now2, setup.threshold, skip);
      r := FindReservation(req.key);
      if r.Ok? {
        return;
      }
      r := ReserveUnlocked(req, expiresAt, true, now1, now2, skip);
    }

    /** One pass of the allocation in its own transaction; the pass that skips locked rows falls back to the one
        that waits. */
    method ReserveUnlocked(
      req: C.Request, expiresAt: int, skipLocked: bool, now1: int, now2: int, skip: set<nat>)
      returns (r: Result<C.Reservation>)
      requires C.FindReservation(Rows(), req.key).None?
      modifies this`cells
      ensures (Rows(), r) ==
              if skipLocked then C.ReserveAvailable(old(Rows()), req, expiresAt, now1, now2, setup.threshold, skip)
              else C.FinalPass(old(Rows()), req, expiresAt, now2, setup.threshold)
      decreases skipLocked
    {
      var now := if skipLocked then now1 else now2;
      if !skipLocked {
        var winner := FindReservation(req.key);
        if winner.Ok? {
          return winner;
        }
      }
      var pick := C.Candidates(Rows(), req, now, setup.threshold) - if skipLocked then skip else {};
      if pick == {} {
        var winner := FindReservation(req.key);
        if winner.Ok? {
          return winner;
        }
        if skipLocked {
          r := ReserveUnlocked(req, expiresAt, false, now1, now2, skip);
          return;
        }
        return Err(CellNotAvailable);
      }
      var id := Least(pick);
      var changed := 0;
      if C.Free(cells[id], now) {
        cells := cells[id := C.Taken(cells[id], req.key, expiresAt)];
        changed := 1;
      }
      if changed != 1 {
        return Err(CellNotAvailable);
      }
      r := Ok(C.Reservation(id, cells[id].size, req.key, Some(expiresAt)));
    }

    /** The guarded UPDATE that an allocation whose statements interleave with others comes down to. */
    method TakeRow(cellId: nat, key: string, expiresAt: int, now: int) returns (taken: bool)
      requires Valid()
      modifies this`cells
      ensures Valid()
      ensures Rows() == C.GuardedTake(old(Rows()), cellId, key, expiresAt, now)
      ensures taken <==> C.Takeable(old(Rows()), cellId, key, now)
    {
      hide W.Inv;
      taken := cellId in cells && C.Free(cells[cellId], now) && C.Holders(cells, key) <= {cellId};
      if taken {
        W.TakeCellInv(Rows(), cellId, key, expiresAt, now);
        cells := cells[cellId := C.Taken(cells[cellId], key, expiresAt)];
      }
    }

    method Release(cellId: nat, key: string) returns (r: Result<()>)
      requires Valid()
      modifies this`cells
      ensures Valid()
      ensures (Rows(), r) == C.Release(old(Rows()), cellId, key)
    {
      W.ReleaseInv(Rows(), cellId, key);
      if cellId == 0 {
        return Err(InvalidCellId);
      }
      if cellId !in cells {
        return Err(ReservationNotFound);
      }
      var row := cells[cellId];
      if row.key.None? || row.key.value != key || row.status != Locked || row.orderId.Some? {
        return Err(KeyMismatch);
      }
      var changed := 0;
      if cells[cellId].key == Some(key) && cells[cellId].status == Locked && cells[cellId].orderId.None? {
        cells := cells[cellId := C.Freed(cells[cellId])];
        changed := 1;
      }
      if changed == 0 {
        return Err(KeyMismatch);
      }
      r := Ok(());
    }

    /** Selects one batch of lapsed rows and frees them one guarded UPDATE at a time, counting the rows changed. */
    method ReclaimExpired(now: int, limit: int, skip: set<nat>) returns (r: Result<nat>)
      requires Valid()
      modifies this`cells
      ensures Valid()
      ensures (Rows(), r) == C.ReclaimExpired(old(Rows()), now, limit, skip, setup.openRows)
    {
      hide W.Inv;
      W.ReclaimInv(Rows(), now, limit, skip, setup.openRows);
      if limit <= 0 {
        return Ok(0);
      }
      var rows := FirstN(C.LapsedCells(cells, now) - skip, limit);
      FirstNOrdered(C.LapsedCells(cells, now) - skip, limit);
      r := FreeRows(rows);
    }

    /** The first UPDATE fails if the driver does not allow it while the rows are open; nothing is written then. */
    method FreeRows(rows: seq<nat>) returns (r: Result<nat>)
      requires Ascending(rows) && forall id :: id in rows ==> id in cells && W.Reserved(cells[id])
      modifies this`cells
      ensures rows != [] && !setup.openRows ==> r == Err(DataUnavailable) && cells == old(cells)
      ensures rows == [] || setup.openRows ==> r == Ok(|rows|) && cells == C.FreeAll(old(cells), Elements(rows))
    {
      var selected := cells;
      var n := 0;
      for i := 0 to |rows|
        invariant n == i && (i > 0 ==> setup.openRows)
        invariant cells == C.FreeAll(selected, Elements(rows[..i]))
      {
        var id := rows[i];
        if !setup.openRows {
          return Err(DataUnavailable);
        }
        FreeOneMore(selected, rows, i);
        if cells[id].key == selected[id].key && cells[id].status == Locked && cells[id].orderId.None? {
          cells := cells[id := C.Freed(cells[id])];
          n := n + 1;
        }
      }
      assert rows[..|rows|] == rows;
      r := Ok(n);
    }

    /** Groups the idle cells of online devices by size, smallest size first, leaving out empty groups. */
    method GetAvailabilitySummary(siteId: nat, now: int) returns (rows: seq<(Size, nat)>)
      ensures
        var cutoff := now - setup.threshold;
        forall size :: GroupOk(rows, size, |Availability.Counted(Rows(), siteId, size, cutoff)|)
      ensures forall i, j :: 0 <= i < j < |rows| ==> SizeRank(rows[i].0) < SizeRank(rows[j].0)
    {
      rows := [];
      var cutoff := now - setup.threshold;
      var sizes := [Small, Medium, Large];
      for i := 0 to |sizes|
        invariant forall j :: 0 <= j < |rows| ==> SizeRank(rows[j].0) < i
        invariant forall j, k :: 0 <= j < k < |rows| ==> SizeRank(rows[j].0) < SizeRank(rows[k].0)
        invariant forall size :: SizeRank(size) < i ==>
                    GroupOk(rows, size, |Availability.Counted(Rows(), siteId, size, cutoff)|)
      {
        var count := |Availability.Counted(Rows(), siteId, sizes[i], cutoff)|;
        ghost var shorter := rows;
        if count > 0 {
          rows := rows + [(sizes[i], count)];
          assert rows[|shorter|] == (sizes[i], count);
        }
        assert forall j :: 0 <= j < |shorter| ==> rows[j] == shorter[j];
      }
    }

    // ---- order repository ----

    /** The transaction works on its own copies; returning before they are assigned is the rollback. */
    method CreateOrder(oid: nat, siteId: nat, size: Size, minutes: int, now: int, skip: set<nat>)
      returns (r: Result<Order>)
      requires Valid() && oid !in orders
      modifies this`cells, this`orders, this`logs
      ensures Valid()
      ensures (Rows(), r) == O.CreateOrder(old(Rows()), oid, siteId, size, minutes, now, skip)
    {
      hide W.Inv;
      W.CreateInv(Rows(), oid, siteId, size, minutes, now, skip);
      if siteId == 0 {
        return Err(InvalidSiteId);
      }
      if minutes <= 0 {
        return Err(InvalidDuration);
      }
      if siteId !in sites {
        return Err(SiteNotFound);
      }
      var pick := O.CreateCandidates(Rows(), siteId, size) - skip;
      if pick == {} {
        return Err(NoAvailableCell);
      }
      var cellId := Least(pick);
      var order := O.NewOrder(siteId, cellId, size, minutes, now);
      var txOrders, txCells := orders[oid := order], cells;
      var affected := 0;
      if txCells[cellId].status == Idle && txCells[cellId].orderId.None? {
        txCells := txCells[cellId := O.Bound(txCells[cellId], oid)];
        affected := 1;
      }
      if affected != 1 {
        return Err(NoAvailableCell);
      }
      orders, cells := txOrders, txCells;
      AppendLog(oid, None, PendingPayment, "CREATE", "system", now);
      r := Ok(order);
    }

    method AppendLog(oid: nat, from: Option<OrderStatus>, to: OrderStatus, reason: string, actor: string, now: int)
      modifies this`logs
      ensures logs == old(logs) + [LogRow(oid, from, to, reason, actor, now)]
    {
      logs := logs + [LogRow(oid, from, to, reason, actor, now)];
    }

    /** Nobody reads `affected`; the invariant makes it one whenever a transition calls this. */
    method ReleaseCell(cellId: nat, oid: nat) returns (affected: nat)
      modifies this`cells
      ensures cells == O.ReleaseCell(old(cells), cellId, oid)
      ensures affected == if O.CellUpdateHits(old(cells), cellId, oid) then 1 else 0
    {
      affected := 0;
      if cellId in cells && cells[cellId].orderId == Some(oid) {
        cells := cells[cellId := O.Unbound(cells[cellId])];
        affected := 1;
      }
    }

    method OccupyCell(cellId: nat, oid: nat) returns (affected: nat)
      modifies this`cells
      ensures cells == O.OccupyCell(old(cells), cellId, oid)
      ensures affected == if O.CellUpdateHits(old(cells), cellId, oid) then 1 else 0
    {
      affected := 0;
      if cellId in cells && cells[cellId].orderId == Some(oid) {
        cells := cells[cellId := O.Filled(cells[cellId])];
        affected := 1;
      }
    }

    method CancelOrder(oid: nat, now: int) returns (r: Result<Order>)
      requires Valid()
      modifies this`cells, this`orders, this`logs
      ensures Valid()
      ensures (Rows(), r) == O.CancelOrder(old(Rows()), oid, now)
    {
      hide W.Inv;
      W.TransitionsInv(Rows(), oid, now, setup.pickupArgs);
      if oid !in orders {
        return Err(OrderNotFound);
      }
      var order := orders[oid];
      if order.status != PendingPayment {
        return Err(StateConflict);
      }
      W.UncheckedUpdateHitsOneRow(Rows(), oid);
      orders := orders[oid := order.(status := Cancelled)];
      var affected := ReleaseCell(order.cellId, oid);
      assert affected == 1;
      AppendLog(oid, Some(order.status), Cancelled, "CANCEL", "user", now);
      r := Ok(orders[oid]);
    }

    method OpenDepositDoor(oid: nat, now: int) returns (r: Result<Order>)
      requires Valid()
      modifies this`cells, this`orders, this`logs
      ensures Valid()
      ensures (Rows(), r) == O.OpenDepositDoor(old(Rows()), oid, now)
    {
      hide W.Inv;
      W.DepositInv(Rows(), oid, now);
      if oid !in orders {
        return Err(OrderNotFound);
      }
      var order := orders[oid];
      if order.status != AwaitingDeposit {
        return Err(StateConflict);
      }
      W.UncheckedUpdateHitsOneRow(Rows(), oid);
      var expiresAt := now + Wrap64(order.minutes * MINUTE);
      orders := orders[oid := order.(status := InStorage, depositedAt := Some(now), expiresAt := Some(expiresAt))];
      var affected := OccupyCell(order.cellId, oid);
      assert affected == 1;
      AppendLog(oid, Some(order.status), InStorage, "DEPOSIT", "user", now);
      r := Ok(orders[oid]);
    }

    method OpenPickupDoor(oid: nat, now: int) returns (r: Result<Order>)
      requires Valid()
      modifies this`cells, this`orders, this`logs
      ensures Valid()
      ensures (Rows(), r) == O.OpenPickupDoor(old(Rows()), oid, now, setup.pickupArgs)
    {
      hide W.Inv;
      W.TransitionsInv(Rows(), oid, now, setup.pickupArgs);
      if oid !in orders {
        return Err(OrderNotFound);
      }
      var order := orders[oid];
      match order.status {
        case AwaitingPickup =>
        case InStorage =>
          if order.expiresAt.Some? && now > order.expiresAt.value {
            return Err(StateConflict);
          }
        case _ =>
          return Err(StateConflict);
      }
      if setup.pickupArgs != O.PICKUP_PLACEHOLDERS {
        return Err(DataUnavailable);
      }
      W.UncheckedUpdateHitsOneRow(Rows(), oid);
      orders := orders[oid := order.(status := Completed, completedAt := Some(now))];
      var affected := ReleaseCell(order.cellId, oid);
      assert affected == 1;
      AppendLog(oid, Some(order.status), Completed, "PICKUP", "user", now);
      r := Ok(orders[oid]);
    }

    method ConfirmDevelopmentPayment(oid: nat, now: int) returns (r: Result<Order>)
      requires Valid()
      modifies this`orders, this`logs
      ensures Valid()
      ensures (Rows(), r) == O.ConfirmPayment(old(Rows()), oid, now)
    {
      hide W.Inv;
      W.TransitionsInv(Rows(), oid, now, setup.pickupArgs);
      if oid !in orders {
        return Err(OrderNotFound);
      }
      var order := orders[oid];
      if order.status != PendingPayment {
        return Err(StateConflict);
      }
      orders := orders[oid := order.(status := AwaitingDeposit, paidAt := Some(now))];
      AppendLog(oid, Some(PendingPayment), Paid, "DEV_PAYMENT", "dev-payment", now);
      AppendLog(oid, Some(Paid), AwaitingDeposit, "DEV_PAYMENT", "dev-payment", now);
      r := Ok(orders[oid]);
    }

    method SettleOverdue(oid: nat, now: int) returns (r: Result<Order>)
      requires Valid()
      modifies this`orders, this`logs
      ensures Valid()
      ensures (Rows(), r) == O.SettleOverdue(old(Rows()), oid, now)
    {
      hide W.Inv;
      W.TransitionsInv(Rows(), oid, now, setup.pickupArgs);
      if oid !in orders {
        return Err(OrderNotFound);
      }
      var order := orders[oid];
      if order.status != Overdue {
        return Err(StateConflict);
      }
      orders := orders[oid := order.(status := AwaitingPickup, overdueFen := 0)];
      AppendLog(oid, Some(Overdue), AwaitingPickup, "SETTLE_OVERDUE", "dev-overdue", now);
      r := Ok(orders[oid]);
    }

    method MarkOverdue(oid: nat, feeFen: int, now: int)
      requires Valid()
      modifies this`orders, this`logs
      ensures Valid()
      ensures Rows() == O.MarkOverdue(old(Rows()), oid, feeFen, now)
    {
      hide W.Inv;
      W.MarkOverdueInv(Rows(), oid, feeFen, now);
      var affected := 0;
      if oid in orders && orders[oid].status == InStorage {
        orders := orders[oid := orders[oid].(status := Overdue, overdueFen := feeFen)];
        affected := 1;
      }
      if affected == 0 {
        return;
      }
      AppendLog(oid, Some(InStorage), Overdue, "OVERDUE_LAZY", "system", now);
    }
  }

  /** Freeing the next row of a list extends the part already freed. */
  lemma FreeOneMore(selected: map<nat, Cell>, rows: seq<nat>, i: nat)
    requires i < |rows| && Ascending(rows) && rows[i] in selected
    ensures
      var part := C.FreeAll(selected, Elements(rows[..i]));
      && part[rows[i]] == selected[rows[i]]
      && C.FreeAll(selected, Elements(rows[..i + 1])) == part[rows[i] := C.Freed(part[rows[i]])]
  {
    assert rows[i] !in rows[..i];
    assert rows[..i + 1] == rows[..i] + [rows[i]];
  }

  /** One group of the summary: absent when empty, else listed with its count. */
  predicate GroupOk(rows: seq<(Size, nat)>, size: Size, n: nat) {
    if n == 0 then forall i :: 0 <= i < |rows| ==> rows[i].0 != size else (size, n) in rows
  }

  function SizeRank(s: Size): nat {
    match s
    case Small => 0
    case Medium => 1
    case Large => 2
  }
}
