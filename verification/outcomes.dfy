/** What single transactions achieve on the cell table, stated without their statements. */
module Outcomes {
  import opened Schema
  import opened Sets
  import C = CellTx
  import O = OrderTx
  import W = Ownership

  ghost predicate CellsSameExcept(db: Db, db': Db, ids: set<nat>) {
    && db'.cells.Keys == db.cells.Keys
    && forall id :: id in db.cells && id !in ids ==> db'.cells[id] == db.cells[id]
  }

  /** The cells of a set that a transaction wrote. */
  function Written(db: Db, db': Db, ids: set<nat>): set<nat> {
    set id | id in ids && id in db.cells && id in db'.cells && db'.cells[id] != db.cells[id]
  }

  /** A reclaim batch fails, changing nothing, exactly when it has rows to free and the driver does not take an
      UPDATE beside an open result set. Otherwise it frees exactly the lapsed, unlocked cells with the lowest ids,
      as many as the limit allows, reports their number, and touches nothing else. */
  lemma ReclaimFreesTheLowest(db: Db, now: int, limit: int, skip: set<nat>, openRows: bool)
    ensures
      var (db', r) := C.ReclaimExpired(db, now, limit, skip, openRows);
      var open := C.LapsedCells(db.cells, now) - skip;
      var freed := Written(db, db', open);
      && (r.Ok? <==> openRows || limit <= 0 || open == {})
      && (r.Err? ==> r.error == DataUnavailable && db' == db)
      && (r.Ok? ==> r.value == |freed| == (if limit <= 0 then 0 else if limit <= |open| then limit else |open|))
      && CellsSameExcept(db, db', freed)
      && (forall id :: id in freed ==> db'.cells[id].status == Idle && W.NoLease(db'.cells[id]))
      && (r.Ok? && limit > 0 ==> forall x, y :: x in freed && y in open && y !in freed ==> x < y)
      && db'.orders == db.orders && db'.logs == db.logs
  {
    var (db', r) := C.ReclaimExpired(db, now, limit, skip, openRows);
    var open := C.LapsedCells(db.cells, now) - skip;
    ReclaimCases(db, now, limit, skip, openRows);
    NothingWritten(db, open);
    if r.Ok? && limit > 0 {
      LapsedExist(db, now, skip);
      hide *;
      BatchWritten(db, open, limit);
    }
  }

  lemma LapsedExist(db: Db, now: int, skip: set<nat>)
    ensures C.LapsedCells(db.cells, now) - skip <= db.cells.Keys
  {
  }

  lemma NothingWritten(db: Db, ids: set<nat>)
    ensures Written(db, db, ids) == {}
  {
  }

  lemma ReclaimCases(db: Db, now: int, limit: int, skip: set<nat>, openRows: bool)
    ensures
      var (db', r) := C.ReclaimExpired(db, now, limit, skip, openRows);
      var open := C.LapsedCells(db.cells, now) - skip;
      && (r.Ok? <==> openRows || limit <= 0 || open == {})
      && (r.Err? ==> r.error == DataUnavailable && db' == db)
      && (limit <= 0 ==> r == Ok(0) && db' == db)
      && (r.Ok? && limit > 0 ==>
            && r.value == |FirstN(open, limit)|
            && db' == db.(cells := C.FreeAll(db.cells, Elements(FirstN(open, limit)))))
  {
    if limit > 0 && FirstN(C.LapsedCells(db.cells, now) - skip, limit) == [] {
      assert C.LapsedCells(db.cells, now) - skip == {};
      assert Elements([]) == {};
    }
  }

  lemma BatchWritten(db: Db, open: set<nat>, limit: nat)
    requires open <= db.cells.Keys
    ensures
      var batch := FirstN(open, limit);
      var db' := db.(cells := C.FreeAll(db.cells, Elements(batch)));
      var freed := Written(db, db', open);
      && |freed| == |batch|
      && CellsSameExcept(db, db', freed)
      && (forall id :: id in freed ==> db'.cells[id].status == Idle && W.NoLease(db'.cells[id]))
      && (forall x, y :: x in freed && y in open && y !in freed ==> x < y)
  {
    var db' := db.(cells := C.FreeAll(db.cells, Elements(FirstN(open, limit))));
    FirstNOrdered(open, limit);
    ElementsSize(FirstN(open, limit));
    assert Written(db, db', open) == Elements(FirstN(open, limit));
  }

  /** An accepted order binds the lowest-numbered idle cell of its size at its site and nothing else; a refusal
      changes nothing, and NoAvailableCell means there was no such cell left unlocked. */
  lemma CreateBindsTheLowest(db: Db, oid: nat, siteId: nat, size: Size, minutes: int, now: int, skip: set<nat>)
    requires W.Inv(db) && oid !in db.orders
    ensures
      var (db', r) := O.CreateOrder(db, oid, siteId, size, minutes, now, skip);
      var rows := O.CreateCandidates(db, siteId, size);
      match r
      case Ok(o) =>
        && IsFirst(o.cellId, rows, skip)
        && CellsSameExcept(db, db', {o.cellId})
        && db'.cells[o.cellId].status == Locked && db'.cells[o.cellId].orderId == Some(oid)
        && db'.orders == db.orders[oid := o]
        && o.status == PendingPayment && o.siteId == siteId && o.size == size && o.minutes == minutes
      case Err(e) => db' == db && (e == NoAvailableCell ==> rows <= skip)
  {
    LeastIsFirst(O.CreateCandidates(db, siteId, size), skip);
  }

  predicate FreedOf(db: Db, cell: nat) {
    cell in db.cells && W.NoLease(db.cells[cell]) && db.cells[cell].status == Idle && db.cells[cell].orderId.None?
  }

  /** The cell side of every accepted transition: finishing frees exactly the order's own cell, a deposit
      occupies exactly it, and the others leave the cell table alone. */
  lemma TransitionsTouchTheirOwnCell(db: Db, oid: nat, now: int, args: nat)
    requires W.Inv(db) && oid in db.orders
    ensures
      var cell := db.orders[oid].cellId;
      var (c, rc) := O.CancelOrder(db, oid, now);
      var (p, rp) := O.OpenPickupDoor(db, oid, now, args);
      var (d, rd) := O.OpenDepositDoor(db, oid, now);
      && (rc.Ok? ==> CellsSameExcept(db, c, {cell}) && FreedOf(c, cell))
      && (rp.Ok? ==> CellsSameExcept(db, p, {cell}) && FreedOf(p, cell))
      && (rd.Ok? ==> CellsSameExcept(db, d, {cell}) && cell in d.cells
                     && d.cells[cell].status == Occupied && d.cells[cell].orderId == Some(oid))
      && O.ConfirmPayment(db, oid, now).0.cells == db.cells
      && O.SettleOverdue(db, oid, now).0.cells == db.cells
      && O.GetOrder(db, oid, now).0.cells == db.cells
  {
    if !Terminal(db.orders[oid].status) {
      W.UncheckedUpdateHitsOneRow(db, oid);
      assert W.CellOk(db, db.orders[oid].cellId, db.cells[db.orders[oid].cellId]);
    }
  }

  /** The cell as it would be had nobody ever held it, but for its version. */
  predicate BackToIdle(c: Cell, before: Cell, writes: nat) {
    && c.status == Idle && W.NoLease(c) && c.orderId.None?
    && c.size == before.size && c.deviceId == before.deviceId && c.version == before.version + writes
  }

  /** Releasing a new reservation gives the cell back: it is accepted, nothing else has changed, and the key finds
      nothing any more. Any other key is refused there and changes nothing. Cell ids start at one. */
  lemma ReleaseUndoesReserve(
    db: Db, req: C.Request, expiresAt: int, t1: int, t2: int, threshold: int, skip: set<nat>, other: string)
    requires W.Inv(db) && 0 !in db.cells && other != req.key
    requires C.Holders(db.cells, req.key) == {}
    requires C.ReserveAvailable(db, req, expiresAt, t1, t2, threshold, skip).1.Ok?
    ensures
      var (held, got) := C.ReserveAvailable(db, req, expiresAt, t1, t2, threshold, skip);
      var id := got.value.cellId;
      var (after, r) := C.Release(held, id, req.key);
      && r == Ok(())
      && id in db.cells && id in after.cells && BackToIdle(after.cells[id], db.cells[id], 2)
      && after == db.(cells := db.cells[id := after.cells[id]])
      && C.FindReservation(after, req.key) == None
      && C.Release(held, id, other) == (held, Err(KeyMismatch))
  {
    var (held, got) := C.ReserveAvailable(db, req, expiresAt, t1, t2, threshold, skip);
    var id := got.value.cellId;
    var after := C.Release(held, id, req.key).0;
    assert after.cells == db.cells[id := after.cells[id]];
    forall x | x in after.cells ensures after.cells[x].key != Some(req.key) {
      assert x !in C.Holders(db.cells, req.key);
    }
  }

  /** Cancelling an order just created gives its cell back and leaves every other row as it was; the order
      stays, cancelled, with two rows of log. */
  lemma CancelUndoesCreate(db: Db, oid: nat, siteId: nat, size: Size, minutes: int, t1: int, t2: int, skip: set<nat>)
    requires W.Inv(db) && oid !in db.orders
    requires O.CreateOrder(db, oid, siteId, size, minutes, t1, skip).1.Ok?
    ensures
      var (held, o) := O.CreateOrder(db, oid, siteId, size, minutes, t1, skip);
      var (after, r) := O.CancelOrder(held, oid, t2);
      var id := o.value.cellId;
      && r == Ok(o.value.(status := Cancelled))
      && id in db.cells && id in after.cells && BackToIdle(after.cells[id], db.cells[id], 2)
      && after.cells == db.cells[id := after.cells[id]]
      && after.orders == db.orders[oid := r.value]
      && after.logs == db.logs + [LogRow(oid, None, PendingPayment, "CREATE", "system", t1)]
                               + [LogRow(oid, Some(PendingPayment), Cancelled, "CANCEL", "user", t2)]
      && after.sites == db.sites && after.devices == db.devices
  {
    var (held, o) := O.CreateOrder(db, oid, siteId, size, minutes, t1, skip);
    var (after, r) := O.CancelOrder(held, oid, t2);
    var id := o.value.cellId;
    assert W.CellOk(db, id, db.cells[id]);
    assert after.cells == db.cells[id := after.cells[id]];
    assert after.orders == db.orders[oid := r.value];
  }
}
