/** Whole runs of the two domains over one database: every transaction is an atomic action, and an action list
    carries all nondeterminism (order, clock readings, rows skipped because others hold them, assigned ids).
    A failed transaction changes nothing, so it is simply absent from the list. Payment and settlement go through
    the gate of their services, which only a development deployment passes; a redeployment may open or close it.
    Reserve is a whole reservation run without interruption; Take is the commit of one whose steps interleave with
    others. */
module Runs {
  import opened Schema
  import opened Fees
  import C = CellTx
  import O = OrderTx

  /** A read that found its order late and has not yet written the mark. */
  datatype PendingMark = PendingMark(orderId: nat, feeFen: int, readAt: int)

  datatype State = State(db: Db, clock: int, setup: Setup, pending: set<PendingMark>)

  datatype Action =
    | Tick(to: int)
    | Fleet(sites: map<nat, SiteStatus>, devices: map<nat, Device>)
    | Redeploy(development: bool)
    | Reserve(req: C.Request, expiresAt: int, t1: int, t2: int, skip: set<nat>)
    | Take(cellId: nat, key: string, expiresAt: int, t: int)
    | Release(cellId: nat, key: string)
    | Reclaim(t: int, limit: int, skip: set<nat>)
    | Create(oid: nat, siteId: nat, size: Size, minutes: int, t: int, skip: set<nat>)
    | Cancel(oid: nat, t: int)
    | Pay(oid: nat, t: int)
    | Deposit(oid: nat, t: int)
    | Pickup(oid: nat, t: int)
    | Settle(oid: nat, t: int)
    | LateRead(oid: nat, t: int)
    | LateMark(mark: PendingMark, t: int)

  /** A transaction may act on a clock reading taken earlier, never on a later one. */
  predicate Past(s: State, t: int) { t <= s.clock }

  function LateReadOf(s: State, oid: nat, t: int): State {
    if oid in s.db.orders && O.IsLate(s.db.orders[oid], t) then
      var o := s.db.orders[oid];
      s.(pending := s.pending + {PendingMark(oid, OverdueFeeFen(o.size, o.expiresAt.value, t), t)})
    else s
  }

  function Apply(s: State, a: Action): State {
    match a
    case Tick(to) => if s.clock <= to then s.(clock := to) else s
    case Fleet(sites, devices) => s.(db := s.db.(sites := sites, devices := devices))
    case Redeploy(development) => s.(setup := s.setup.(development := development))
    case Reserve(req, expiresAt, t1, t2, skip) =>
      if Past(s, t1) && Past(s, t2)
      then s.(db := C.ReserveAvailable(s.db, req, expiresAt, t1, t2, s.setup.threshold, skip).0) else s
    case Take(cellId, key, expiresAt, t) =>
      if Past(s, t) then s.(db := C.GuardedTake(s.db, cellId, key, expiresAt, t)) else s
    case Release(cellId, key) => s.(db := C.Release(s.db, cellId, key).0)
    case Reclaim(t, limit, skip) =>
      if Past(s, t) then s.(db := C.ReclaimExpired(s.db, t, limit, skip, s.setup.openRows).0) else s
    case Create(oid, siteId, size, minutes, t, skip) =>
      if Past(s, t) && oid !in s.db.orders && Int32(minutes)
      then s.(db := O.CreateOrder(s.db, oid, siteId, size, minutes, t, skip).0) else s
    case Cancel(oid, t) => if Past(s, t) then s.(db := O.CancelOrder(s.db, oid, t).0) else s
    case Pay(oid, t) => if Past(s, t) && s.setup.development then s.(db := O.ConfirmPayment(s.db, oid, t).0) else s
    case Deposit(oid, t) => if Past(s, t) then s.(db := O.OpenDepositDoor(s.db, oid, t).0) else s
    case Pickup(oid, t) => if Past(s, t) then s.(db := O.OpenPickupDoor(s.db, oid, t, s.setup.pickupArgs).0) else s
    case Settle(oid, t) => if Past(s, t) && s.setup.development then s.(db := O.SettleOverdue(s.db, oid, t).0) else s
    case LateRead(oid, t) => if Past(s, t) then LateReadOf(s, oid, t) else s
    case LateMark(m, t) =>
      if m in s.pending && m.readAt <= t && Past(s, t)
      then s.(db := O.MarkOverdue(s.db, m.orderId, m.feeFen, t), pending := s.pending - {m}) else s
  }

  function Exec(s: State, actions: seq<Action>): State {
    if actions == [] then s
    else Apply(Exec(s, actions[..|actions| - 1]), actions[|actions| - 1])
  }

  lemma {:induction false} ExecSplit(s: State, a: seq<Action>, b: seq<Action>)
    ensures Exec(s, a + b) == Exec(Exec(s, a), b)
  {
    if b == [] {
      assert a + b == a;
    } else {
      ExecSplit(s, a, b[..|b| - 1]);
      assert (a + b)[..|a + b| - 1] == a + b[..|b| - 1];
    }
  }

  lemma ExecOne(s: State, actions: seq<Action>, a: Action)
    ensures Exec(s, actions + [a]) == Apply(Exec(s, actions), a)
  {
    assert (actions + [a])[..|actions|] == actions;
  }

  /** A fresh installation in development: one ready device with one idle cell. */
  function Installation(): State {
    var cell := Cell(1, Small, Idle, None, None, None, 0);
    var device := Device(1, true, DeviceActive, Some(0));
    State(Db(map[1 := SiteActive], map[1 := device], map[1 := cell], map[], []), 0, Setup(1, 2, true, true), {})
  }

  lemma {:induction false} ClockIsMonotone(s: State, actions: seq<Action>)
    ensures s.clock <= Exec(s, actions).clock
    ensures Exec(s, actions).setup == s.setup.(development := Exec(s, actions).setup.development)
  {
    if actions == [] {
    } else {
      ClockIsMonotone(s, actions[..|actions| - 1]);
    }
  }
}

/** The ownership invariant, the lease and the version stamp, along every run. */
module LeaseTheorems {
  import opened Schema
  import opened Fees
  import opened Sets
  import opened Runs
  import C = CellTx
  import W = Ownership

  lemma StepInv(s: State, a: Action)
    requires W.Inv(s.db)
    ensures W.Inv(Apply(s, a).db)
  {
    hide W.Inv;
    match a
    case Tick(to) =>
    case Fleet(sites, devices) => W.FleetInv(s.db, sites, devices);
    case Redeploy(development) =>
    case Reserve(req, expiresAt, t1, t2, skip) => W.ReserveInv(s.db, req, expiresAt, t1, t2, s.setup.threshold, skip);
    case Take(cellId, key, expiresAt, t) =>
      if C.GuardedTake(s.db, cellId, key, expiresAt, t) != s.db { W.TakeCellInv(s.db, cellId, key, expiresAt, t); }
    case Release(cellId, key) => W.ReleaseInv(s.db, cellId, key);
    case Reclaim(t, limit, skip) => W.ReclaimInv(s.db, t, limit, skip, s.setup.openRows);
    case Create(oid, siteId, size, minutes, t, skip) =>
      if oid !in s.db.orders { W.CreateInv(s.db, oid, siteId, size, minutes, t, skip); }
    case Cancel(oid, t) => W.TransitionsInv(s.db, oid, t, s.setup.pickupArgs);
    case Pay(oid, t) => W.TransitionsInv(s.db, oid, t, s.setup.pickupArgs);
    case Deposit(oid, t) => W.DepositInv(s.db, oid, t);
    case Pickup(oid, t) => W.TransitionsInv(s.db, oid, t, s.setup.pickupArgs);
    case Settle(oid, t) => W.TransitionsInv(s.db, oid, t, s.setup.pickupArgs);
    case LateRead(oid, t) =>
    case LateMark(m, t) => W.MarkOverdueInv(s.db, m.orderId, m.feeFen, t);
  }

  /** The ownership invariant holds in every state of every run. */
  lemma {:induction false} OwnershipAlways(s: State, actions: seq<Action>)
    requires W.Inv(s.db)
    ensures W.Inv(Exec(s, actions).db)
  {
    if actions == [] {
    } else {
      OwnershipAlways(s, actions[..|actions| - 1]);
      StepInv(Exec(s, actions[..|actions| - 1]), actions[|actions| - 1]);
    }
  }

  /** One step leaves a cell untouched or writes it once, raising its version by one. */
  lemma StepCell(s: State, a: Action, id: nat)
    requires id in s.db.cells
    ensures id in Apply(s, a).db.cells
    ensures
      var c, c' := s.db.cells[id], Apply(s, a).db.cells[id];
      c' == c || (c'.version == c.version + 1 && c'.size == c.size && c'.deviceId == c.deviceId)
  {
  }

  /** Along a run a cell's version never decreases, and equal versions mean an unchanged cell. */
  lemma {:induction false} VersionStamps(s: State, actions: seq<Action>, id: nat)
    requires id in s.db.cells
    ensures id in Exec(s, actions).db.cells
    ensures
      var c, c' := s.db.cells[id], Exec(s, actions).db.cells[id];
      c.version <= c'.version && (c.version == c'.version ==> c == c')
  {
    if actions == [] {
    } else {
      VersionStamps(s, actions[..|actions| - 1], id);
      StepCell(Exec(s, actions[..|actions| - 1]), actions[|actions| - 1], id);
    }
  }

  /** The cell is under lease: locked by this key, without an order, until the given expiry. */
  predicate Leased(db: Db, id: nat, key: string, expiry: int) {
    && id in db.cells
    && C.OwnedBy(db.cells[id], key)
    && db.cells[id].lockExpires == Some(expiry)
  }

  lemma ReserveKeepsLease(
    db: Db, req: C.Request, expiresAt: int, t1: int, t2: int, threshold: int, skip: set<nat>, id: nat, key: string,
    expiry: int)
    requires Leased(db, id, key, expiry) && t1 <= expiry && t2 <= expiry
    ensures
      var db' := C.ReserveAvailable(db, req, expiresAt, t1, t2, threshold, skip).0;
      id in db'.cells && db'.cells[id] == db.cells[id]
  {
  }

  lemma ReclaimKeepsLease(db: Db, t: int, limit: int, skip: set<nat>, openRows: bool, id: nat, key: string, expiry: int)
    requires Leased(db, id, key, expiry) && t <= expiry
    ensures
      var db' := C.ReclaimExpired(db, t, limit, skip, openRows).0;
      id in db'.cells && db'.cells[id] == db.cells[id]
  {
    assert id !in C.LapsedCells(db.cells, t);
  }

  lemma StepKeepsLease(s: State, a: Action, id: nat, key: string, expiry: int)
    requires Leased(s.db, id, key, expiry) && s.clock <= expiry
    requires a != Release(id, key)
    ensures id in Apply(s, a).db.cells && Apply(s, a).db.cells[id] == s.db.cells[id]
  {
    hide C.ReserveAvailable, C.ReclaimExpired, RentFen, OverdueFeeFen, Deadline;
    match a
    case Reserve(req, expiresAt, t1, t2, skip) =>
      if Past(s, t1) && Past(s, t2) {
        ReserveKeepsLease(s.db, req, expiresAt, t1, t2, s.setup.threshold, skip, id, key, expiry);
      }
    case Reclaim(t, limit, skip) =>
      if Past(s, t) { ReclaimKeepsLease(s.db, t, limit, skip, s.setup.openRows, id, key, expiry); }
    case _ =>
  }

  /** Lease safety. While the clock has not passed the expiry and the holder has not released it, nothing any
      other reservation, takeover, reclaim, replay or order does touches a leased cell. */
  lemma {:induction false} LeaseSafety(s: State, actions: seq<Action>, id: nat, key: string, expiry: int)
    requires Leased(s.db, id, key, expiry)
    requires Release(id, key) !in actions
    requires Exec(s, actions).clock <= expiry
    ensures id in Exec(s, actions).db.cells && Exec(s, actions).db.cells[id] == s.db.cells[id]
    ensures Leased(Exec(s, actions).db, id, key, expiry)
  {
    if actions == [] {
    } else {
      var before, last := actions[..|actions| - 1], actions[|actions| - 1];
      assert Exec(s, before).clock <= Exec(s, actions).clock;
      LeaseSafety(s, before, id, key, expiry);
      StepKeepsLease(Exec(s, before), last, id, key, expiry);
    }
  }

  /** What a successful reservation returns is a lease, or a replay of the row that already carries the key. */
  lemma ReserveReturnsALease(
    db: Db, req: C.Request, expiresAt: int, t1: int, t2: int, threshold: int, skip: set<nat>)
    requires W.Inv(db)
    ensures
      var (db', r) := C.ReserveAvailable(db, req, expiresAt, t1, t2, threshold, skip);
      match r
      case Ok(got) =>
        && got.expiresAt.Some? && got.key == req.key
        && Leased(db', got.cellId, req.key, got.expiresAt.value)
        && db'.cells[got.cellId].size == got.size
        && (forall id :: id in db.cells && id != got.cellId ==> id in db'.cells && db'.cells[id] == db.cells[id])
        && (if C.Holders(db.cells, req.key) != {} then db' == db
            else got.expiresAt == Some(expiresAt) && got.size == req.size
                 && (if C.Candidates(db, req, t1, threshold) <= skip
                     then IsFirst(got.cellId, C.Candidates(db, req, t2, threshold), {})
                     else IsFirst(got.cellId, C.Candidates(db, req, t1, threshold), skip)))
      case Err(e) =>
        && e == CellNotAvailable && db' == db
        && C.Holders(db.cells, req.key) == {}
        && C.Candidates(db, req, t1, threshold) <= skip
        && C.Candidates(db, req, t2, threshold) == {}
  {
    var found := C.Holders(db.cells, req.key);
    if found != {} {
      W.HoldersSingle(db, req.key, Least(found));
    } else {
      var one, two := C.Candidates(db, req, t1, threshold) - skip, C.Candidates(db, req, t2, threshold) - {};
      assert two == C.Candidates(db, req, t2, threshold);
      LeastIsFirst(C.Candidates(db, req, t1, threshold), skip);
      LeastIsFirst(C.Candidates(db, req, t2, threshold), {});
    }
  }

  /** A caller keeps the reservation it was returned: same cell, same expiry, at every later moment of the
      lease, and every later reservation with that key replays it. */
  lemma ReservationIsKept(
    s: State, req: C.Request, expiresAt: int, t1: int, t2: int, skip: set<nat>, later: seq<Action>)
    requires W.Inv(s.db) && Past(s, t1) && Past(s, t2)
    requires C.ReserveAvailable(s.db, req, expiresAt, t1, t2, s.setup.threshold, skip).1.Ok?
    ensures
      var got := C.ReserveAvailable(s.db, req, expiresAt, t1, t2, s.setup.threshold, skip).1.value;
      var run := [Reserve(req, expiresAt, t1, t2, skip)] + later;
      && got.expiresAt.Some?
      && (Release(got.cellId, req.key) !in later && Exec(s, run).clock <= got.expiresAt.value ==>
            && Leased(Exec(s, run).db, got.cellId, req.key, got.expiresAt.value)
            && C.FindReservation(Exec(s, run).db, req.key) == Some(got))
  {
    var got := C.ReserveAvailable(s.db, req, expiresAt, t1, t2, s.setup.threshold, skip).1.value;
    var first := [Reserve(req, expiresAt, t1, t2, skip)];
    ReserveReturnsALease(s.db, req, expiresAt, t1, t2, s.setup.threshold, skip);
    ExecSplit(s, first, later);
    assert first[..0] == [];
    assert Exec(s, first) == Apply(s, first[0]);
    if Release(got.cellId, req.key) !in later && Exec(s, first + later).clock <= got.expiresAt.value {
      LeaseSafety(Exec(s, first), later, got.cellId, req.key, got.expiresAt.value);
      OwnershipAlways(s, first + later);
      W.HoldersSingle(Exec(s, first + later).db, req.key, got.cellId);
    }
  }
}
