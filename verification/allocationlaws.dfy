/** What reservations, releases, reclaims and the summary answer, told from the rows alone: the columns of a cell, of
    its device and of its site. */
module AllocationLaws {
  import opened Schema
  import opened Sets
  import C = CellTx
  import R = Runs
  import E = Outcomes
  import W = Ownership
  import M = Marker
  import Availability

  /** A device row of the site that is in service and was heard since the cutoff. */
  predicate Ready(row: Device, siteId: nat, cutoff: int) {
    match row
    case Device(site, true, DeviceActive, Some(beat)) => site == siteId && beat >= cutoff
    case _ => false
  }

  /** A cell row of the size that carries no order and is idle, or locked until before now. */
  predicate Open(row: Cell, size: Size, now: int) {
    match row
    case Cell(_, s, Idle, _, _, None, _) => s == size
    case Cell(_, s, Locked, _, Some(expiry), None, _) => s == size && expiry < now
    case _ => false
  }

  predicate OnReadyDevice(db: Db, id: nat, siteId: nat, cutoff: int) {
    && id in db.cells && db.cells[id].deviceId in db.devices
    && Ready(db.devices[db.cells[id].deviceId], siteId, cutoff)
  }

  /** A reservation may be given this row. */
  predicate Grantable(db: Db, id: nat, req: C.Request, now: int, threshold: int) {
    && req.siteId in db.sites && db.sites[req.siteId] == SiteActive
    && OnReadyDevice(db, id, req.siteId, now - threshold)
    && Open(db.cells[id], req.size, now)
  }

  lemma CandidatesAreGrantable(db: Db, req: C.Request, now: int, threshold: int)
    ensures forall id :: id in C.Candidates(db, req, now, threshold) <==> Grantable(db, id, req, now, threshold)
  {
  }

  /** The first row a pass can take. */
  ghost predicate FirstGrantable(db: Db, id: nat, req: C.Request, now: int, threshold: int, skip: set<nat>) {
    && Grantable(db, id, req, now, threshold) && id !in skip
    && forall x :: Grantable(db, x, req, now, threshold) && x !in skip ==> id <= x
  }

  /** The row of a new lease. */
  function Leased(row: Cell, key: string, expiresAt: int): Cell {
    Cell(row.deviceId, row.size, Locked, Some(key), Some(expiresAt), None, row.version + 1)
  }

  /** A key some row carries is replayed from that row. A new key is granted exactly if the first pass finds a
      grantable row nobody holds locked, or else the second finds a grantable row; it gets the first such row, and
      nothing but that row changes. Takeovers of expired locks are grants like any other. */
  lemma ReserveAnswer(db: Db, req: C.Request, expiresAt: int, t1: int, t2: int, threshold: int, skip: set<nat>)
    requires W.Inv(db)
    ensures forall holder :: holder in db.cells && db.cells[holder].key == Some(req.key) ==>
              C.ReserveAvailable(db, req, expiresAt, t1, t2, threshold, skip)
              == (db, Ok(C.Reservation(holder, db.cells[holder].size, req.key, db.cells[holder].lockExpires)))
    ensures (forall id :: id in db.cells ==> db.cells[id].key != Some(req.key)) ==>
              var (db', r) := C.ReserveAvailable(db, req, expiresAt, t1, t2, threshold, skip);
              var free1 := exists id :: Grantable(db, id, req, t1, threshold) && id !in skip;
              var free2 := exists id :: Grantable(db, id, req, t2, threshold);
              match r
              case Ok(got) =>
                && (if free1 then FirstGrantable(db, got.cellId, req, t1, threshold, skip)
                    else FirstGrantable(db, got.cellId, req, t2, threshold, {}))
                && got == C.Reservation(got.cellId, req.size, req.key, Some(expiresAt))
                && db' == db.(cells := db.cells[got.cellId := Leased(db.cells[got.cellId], req.key, expiresAt)])
              case Err(e) => e == CellNotAvailable && db' == db && !free1 && !free2
  {
    hide W.Inv;
    forall holder | holder in db.cells && db.cells[holder].key == Some(req.key)
      ensures C.ReserveAvailable(db, req, expiresAt, t1, t2, threshold, skip)
           == (db, Ok(C.Reservation(holder, db.cells[holder].size, req.key, db.cells[holder].lockExpires)))
    {
      W.HoldersSingle(db, req.key, holder);
    }
    if forall id :: id in db.cells ==> db.cells[id].key != Some(req.key) {
      assert C.Holders(db.cells, req.key) == {};
      NewKeyAnswer(db, req, expiresAt, t1, t2, threshold, skip);
    }
  }

  lemma NewKeyAnswer(db: Db, req: C.Request, expiresAt: int, t1: int, t2: int, threshold: int, skip: set<nat>)
    requires C.Holders(db.cells, req.key) == {}
    ensures
      var (db', r) := C.ReserveAvailable(db, req, expiresAt, t1, t2, threshold, skip);
      var free1 := exists id :: Grantable(db, id, req, t1, threshold) && id !in skip;
      var free2 := exists id :: Grantable(db, id, req, t2, threshold);
      match r
      case Ok(got) =>
        && (if free1 then FirstGrantable(db, got.cellId, req, t1, threshold, skip)
            else FirstGrantable(db, got.cellId, req, t2, threshold, {}))
        && got == C.Reservation(got.cellId, req.size, req.key, Some(expiresAt))
        && db' == db.(cells := db.cells[got.cellId := Leased(db.cells[got.cellId], req.key, expiresAt)])
      case Err(e) => e == CellNotAvailable && db' == db && !free1 && !free2
  {
    var one, two := C.Candidates(db, req, t1, threshold), C.Candidates(db, req, t2, threshold);
    CandidatesAreGrantable(db, req, t1, threshold);
    CandidatesAreGrantable(db, req, t2, threshold);
    LeastIsFirst(one, skip);
    LeastIsFirst(two, {});
    FirstOfGrantable(db, req, t1, threshold, skip);
    FirstOfGrantable(db, req, t2, threshold, {});
    assert two - {} == two;
    hide C.Candidates, Grantable;
    if one - skip != {} {
      var id := Least(one - skip);
      assert Grantable(db, id, req, t1, threshold) && id !in skip;
    } else if two != {} {
      assert Grantable(db, Least(two), req, t2, threshold);
    }
  }

  lemma FirstOfGrantable(db: Db, req: C.Request, now: int, threshold: int, skip: set<nat>)
    ensures
      var rows := C.Candidates(db, req, now, threshold) - skip;
      rows != {} ==>
        && FirstGrantable(db, Least(rows), req, now, threshold, skip)
        && db.cells[Least(rows)].size == req.size && db.cells[Least(rows)].orderId == None
  {
    CandidatesAreGrantable(db, req, now, threshold);
    var rows := C.Candidates(db, req, now, threshold) - skip;
    if rows != {} {
      LeastIsFirst(C.Candidates(db, req, now, threshold), skip);
      assert Grantable(db, Least(rows), req, now, threshold);
      hide OnReadyDevice, C.Candidates;
      forall x | Grantable(db, x, req, now, threshold) && x !in skip ensures Least(rows) <= x {
        assert x in rows;
      }
    }
  }

  /** An expired lock is taken over: reserve under "a" until 5, let it pass, reserve under "b" at 6. */
  lemma ExpiredLockIsTakenOver()
    ensures
      var s := R.Exec(R.Installation(), [R.Reserve(C.Request(1, Small, "a"), 5, 0, 0, {}), R.Tick(6)]);
      var (db', r) := C.ReserveAvailable(s.db, C.Request(1, Small, "b"), 36, 6, 6, 6, {});
      && 1 in s.db.cells && s.db.cells[1].key == Some("a") && s.db.cells[1].lockExpires == Some(5)
      && r == Ok(C.Reservation(1, Small, "b", Some(36)))
      && C.FindReservation(db', "a") == None
  {
    hide C.ReserveAvailable, C.FindReservation, R.Exec;
    FirstTaker();
    TakenAndPassed(R.Installation());
    SecondTaker();
  }

  lemma TakenAndPassed(s: R.State)
    requires s.clock == 0
    ensures
      R.Exec(s, [R.Reserve(C.Request(1, Small, "a"), 5, 0, 0, {}), R.Tick(6)])
      == s.(db := C.ReserveAvailable(s.db, C.Request(1, Small, "a"), 5, 0, 0, s.setup.threshold, {}).0, clock := 6)
  {
    hide C.ReserveAvailable, R.Exec;
    TwoSteps(s, R.Reserve(C.Request(1, Small, "a"), 5, 0, 0, {}), R.Tick(6));
  }

  lemma TwoSteps(s: R.State, a: R.Action, b: R.Action)
    ensures R.Exec(s, [a, b]) == R.Apply(R.Apply(s, a), b)
  {
    hide R.Apply;
    R.ExecOne(s, [], a);
    R.ExecOne(s, [a], b);
    assert [] + [a] == [a] && [a] + [b] == [a, b];
  }

  lemma FirstTaker()
    ensures C.ReserveAvailable(R.Installation().db, C.Request(1, Small, "a"), 5, 0, 0, 1, {}).0
         == C.TakeCell(R.Installation().db, 1, "a", 5)
  {
    var db := R.Installation().db;
    assert C.Holders(db.cells, "a") == {};
    assert C.Candidates(db, C.Request(1, Small, "a"), 0, 1) - {} == {1};
  }

  lemma SecondTaker()
    ensures
      var db := C.TakeCell(R.Installation().db, 1, "a", 5);
      var (db', r) := C.ReserveAvailable(db, C.Request(1, Small, "b"), 36, 6, 6, 6, {});
      && r == Ok(C.Reservation(1, Small, "b", Some(36))) && C.FindReservation(db', "a") == None
  {
    var db := C.TakeCell(R.Installation().db, 1, "a", 5);
    assert C.Holders(db.cells, "b") == {};
    assert C.Candidates(db, C.Request(1, Small, "b"), 6, 6) - {} == {1};
    assert C.Holders(C.TakeCell(db, 1, "b", 36).cells, "a") == {};
  }

  /** A guarded UPDATE takes its row exactly if the row is open at the reading, whatever its size, and no other row
      carries the key. */
  lemma TakeAnswer(db: Db, id: nat, key: string, expiresAt: int, now: int)
    ensures
      var db' := C.GuardedTake(db, id, key, expiresAt, now);
      if id in db.cells && Open(db.cells[id], db.cells[id].size, now)
         && (forall x :: x in db.cells && x != id ==> db.cells[x].key != Some(key))
      then db' == db.(cells := db.cells[id := Leased(db.cells[id], key, expiresAt)])
      else db' == db
  {
    assert C.Holders(db.cells, key) <= {id}
      <==> forall x :: x in db.cells && x != id ==> x !in C.Holders(db.cells, key);
  }

  /** A release is accepted exactly for a cell locked by that key without an order; the row is then idle, and nothing
      else has changed. Which refusal: */
  lemma ReleaseAnswer(db: Db, cellId: nat, key: string)
    ensures
      var (db', r) := C.Release(db, cellId, key);
      if cellId == 0 then r == Err(InvalidCellId) && db' == db
      else if cellId !in db.cells then r == Err(ReservationNotFound) && db' == db
      else
        match db.cells[cellId]
        case Cell(_, _, Locked, Some(k), _, None, _) =>
          if k != key then r == Err(KeyMismatch) && db' == db
          else r == Ok(()) && db' == db.(cells := db.cells[cellId := Freed(db.cells[cellId])])
        case _ => r == Err(KeyMismatch) && db' == db
  {
  }

  /** The row of a cell given back. */
  function Freed(row: Cell): Cell { Cell(row.deviceId, row.size, Idle, None, None, None, row.version + 1) }

  /** A cell row the reclaimer may free. */
  predicate Overrun(row: Cell, now: int) {
    match row
    case Cell(_, _, Locked, _, Some(expiry), None, _) => expiry < now
    case _ => false
  }

  function Due(db: Db, now: int, skip: set<nat>): set<nat> {
    set id | id in db.cells && Overrun(db.cells[id], now) && id !in skip
  }

  /** A batch frees overrun rows only, as many as there are and the limit allows, the first ones, and reports their
      number; it fails exactly if it has one to free and the driver refuses. */
  lemma ReclaimAnswer(db: Db, now: int, limit: int, skip: set<nat>, openRows: bool)
    ensures
      var (db', r) := C.ReclaimExpired(db, now, limit, skip, openRows);
      var due := Due(db, now, skip);
      var freed := E.Written(db, db', due);
      && (r.Err? <==> !openRows && limit > 0 && due != {})
      && (r.Err? ==> r.error == DataUnavailable && db' == db)
      && (r.Ok? ==> r.value == |freed| == (if limit <= 0 then 0 else if limit < |due| then limit else |due|))
      && db'.cells.Keys == db.cells.Keys && db' == db.(cells := db'.cells)
      && (forall id :: id in db.cells ==>
            db'.cells[id] == (if id in freed then Freed(db.cells[id]) else db.cells[id]))
      && (forall x, y :: x in freed && y in due && y !in freed && r.Ok? && limit > 0 ==> x < y)
  {
    hide *;
    DueIsLapsed(db, now, skip);
    E.ReclaimFreesTheLowest(db, now, limit, skip, openRows);
    FreedRows(db, now, limit, skip, openRows);
  }

  lemma DueIsLapsed(db: Db, now: int, skip: set<nat>)
    ensures Due(db, now, skip) == C.LapsedCells(db.cells, now) - skip
  {
  }

  /** The rows of a batch: those it wrote were overrun, and are idle now. */
  lemma FreedRows(db: Db, now: int, limit: int, skip: set<nat>, openRows: bool)
    ensures
      var db' := C.ReclaimExpired(db, now, limit, skip, openRows).0;
      var due := C.LapsedCells(db.cells, now) - skip;
      && db'.cells.Keys == db.cells.Keys && db' == db.(cells := db'.cells)
      && forall id :: id in db.cells ==>
           db'.cells[id] == (if id in E.Written(db, db', due) then Freed(db.cells[id]) else db.cells[id])
  {
    E.ReclaimFreesTheLowest(db, now, limit, skip, openRows);
    WrittenRows(db, now, limit, skip, openRows);
  }

  lemma WrittenRows(db: Db, now: int, limit: int, skip: set<nat>, openRows: bool)
    ensures
      var db' := C.ReclaimExpired(db, now, limit, skip, openRows).0;
      && db' == db.(cells := db'.cells) && db'.cells.Keys == db.cells.Keys
      && forall id :: id in db.cells && db'.cells[id] != db.cells[id] ==>
           Overrun(db.cells[id], now) && db'.cells[id] == Freed(db.cells[id])
  {
    hide FirstN;
    assert forall id :: id in C.LapsedCells(db.cells, now) ==> Overrun(db.cells[id], now);
  }

  // ---- the availability summary ----

  /** The summary counts exactly the idle rows of the size on ready devices of the site. */
  lemma SummaryAnswer(db: Db, siteId: nat, size: Size, cutoff: int)
    ensures forall id ::
              id in Availability.Counted(db, siteId, size, cutoff)
              <==> && siteId in db.sites && OnReadyDevice(db, id, siteId, cutoff)
                   && db.cells[id].status == Idle && db.cells[id].size == size
  {
  }

  predicate AtSite(db: Db, id: nat, siteId: nat) {
    && id in db.cells && db.cells[id].deviceId in db.devices && db.devices[db.cells[id].deviceId].siteId == siteId
  }

  /** The two databases agree on a site: its row, its devices and the cells of its devices. */
  ghost predicate SameSite(a: Db, b: Db, siteId: nat) {
    && (siteId in a.sites <==> siteId in b.sites) && (siteId in a.sites ==> a.sites[siteId] == b.sites[siteId])
    && (forall id :: AtSite(a, id, siteId) <==> AtSite(b, id, siteId))
    && (forall id :: AtSite(a, id, siteId) ==>
          a.cells[id] == b.cells[id] && a.devices[a.cells[id].deviceId] == b.devices[b.cells[id].deviceId])
  }

  /** Whatever happens to other sites, their devices and their cells, changes neither the summary of a site nor what a
      reservation there is answered, as long as nobody elsewhere carries its key. */
  lemma OtherSitesDoNotMatter(
    a: Db, b: Db, size: Size, cutoff: int, req: C.Request, expiresAt: int, t1: int, t2: int, threshold: int,
    skip: set<nat>)
    requires SameSite(a, b, req.siteId) && C.FindReservation(a, req.key) == C.FindReservation(b, req.key)
    ensures Availability.Counted(a, req.siteId, size, cutoff) == Availability.Counted(b, req.siteId, size, cutoff)
    ensures C.ReserveAvailable(a, req, expiresAt, t1, t2, threshold, skip).1
         == C.ReserveAvailable(b, req, expiresAt, t1, t2, threshold, skip).1
  {
    SameCandidates(a, b, req, t1, threshold);
    SameCandidates(a, b, req, t2, threshold);
    SummaryAnswer(a, req.siteId, size, cutoff);
    SummaryAnswer(b, req.siteId, size, cutoff);
    forall id
      ensures id in Availability.Counted(a, req.siteId, size, cutoff)
         <==> id in Availability.Counted(b, req.siteId, size, cutoff)
    {
      assert OnReadyDevice(a, id, req.siteId, cutoff) ==> AtSite(a, id, req.siteId);
      assert OnReadyDevice(b, id, req.siteId, cutoff) ==> AtSite(b, id, req.siteId);
    }
  }

  lemma SameCandidates(a: Db, b: Db, req: C.Request, now: int, threshold: int)
    requires SameSite(a, b, req.siteId)
    ensures C.Candidates(a, req, now, threshold) == C.Candidates(b, req, now, threshold)
    ensures forall id :: id in C.Candidates(a, req, now, threshold) ==>
              id in a.cells && id in b.cells && a.cells[id] == b.cells[id]
  {
    CandidatesAreGrantable(a, req, now, threshold);
    CandidatesAreGrantable(b, req, now, threshold);
    forall id ensures Grantable(a, id, req, now, threshold) <==> Grantable(b, id, req, now, threshold) {
      assert Grantable(a, id, req, now, threshold) ==> AtSite(a, id, req.siteId);
      assert Grantable(b, id, req, now, threshold) ==> AtSite(b, id, req.siteId);
    }
  }

  // ---- the use case ----

  /** What the reservation use case accepts, and how long a new lease lasts: as long as asked for, five minutes if
      nothing was asked, between thirty seconds and fifteen minutes. */
  lemma LeaseLastsItsTtl(m: M.Cached, req: C.Request, ttl: int, at: M.Readings, skip: set<nat>, redisUp: bool)
    requires forall id :: id in m.s.db.cells ==> m.s.db.cells[id].key != Some(req.key)
    ensures
      var (m', r) := M.Reserve(m, req, ttl, at, skip, redisUp);
      if Blank(req.key) then r == Err(KeyRequired) && m' == m
      else if ttl != 0 && !(30_000_000_000 <= ttl <= 900_000_000_000) then r == Err(InvalidTtl) && m' == m
      else
        var expiresAt := at.start + if ttl == 0 then 300_000_000_000 else ttl;
        && r == C.ReserveAvailable(m.s.db, req, expiresAt, at.first, at.second, m.s.setup.threshold, skip).1
        && (r.Ok? ==>
             && r.value.expiresAt == Some(expiresAt)
             && r.value.cellId in m'.s.db.cells
             && m'.s.db.cells[r.value.cellId].key == Some(req.key)
             && m'.s.db.cells[r.value.cellId].lockExpires == Some(expiresAt))
        && m'.markers == (if r.Ok? && redisUp && at.mark < expiresAt
                          then m.markers[req.key := M.Entry(r.value, m.s.clock + (expiresAt - at.mark))] else m.markers)
  {
    assert C.Holders(m.s.db.cells, req.key) == {};
  }

  /** A key the table carries is replayed without writing anything, the marker included. */
  lemma ReplayWritesNothing(m: M.Cached, req: C.Request, ttl: int, at: M.Readings, skip: set<nat>, redisUp: bool)
    requires C.FindReservation(m.s.db, req.key).Some? && !Blank(req.key)
    requires ttl == 0 || 30_000_000_000 <= ttl <= 900_000_000_000
    ensures M.Reserve(m, req, ttl, at, skip, redisUp) == (m, Ok(C.FindReservation(m.s.db, req.key).value))
  {
  }

  /** A release asks for a cell id and a key, then releases in the table, and deletes the marker of the key only after
      that, and only if the DEL works. */
  lemma ReleaseCallAnswer(m: M.Cached, cellId: nat, key: string, deleted: bool)
    ensures
      var (m', r) := M.Release(m, cellId, key, deleted);
      if cellId == 0 then r == Err(InvalidCellId) && m' == m
      else if Blank(key) then r == Err(KeyRequired) && m' == m
      else
        var (db', freed) := C.Release(m.s.db, cellId, key);
        && r == freed && m'.s == m.s.(db := db')
        && m'.markers == (if freed.Ok? && deleted then m.markers - {key} else m.markers)
  {
  }

  /** White space by code point: what a key must contain more than. */
  lemma BlankByCodePoint(key: string)
    ensures Blank(key) <==>
              forall i :: 0 <= i < |key| ==>
                var p := key[i] as int;
                || 9 <= p <= 13 || p == 32 || p == 133 || p == 160 || p == 5760 || 8192 <= p <= 8202
                || p == 8232 || p == 8233 || p == 8239 || p == 8287 || p == 12288
  {
  }
}
