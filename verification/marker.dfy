/** The use cases of reservations with their Redis marker: an expiring copy that must agree with the table. Here
    each call, table and Redis together, is one step; MarkerRace takes them apart. */
module Marker {
  import opened Schema
  import opened Runs
  import C = CellTx
  import W = Ownership
  import L = LeaseTheorems

  const SECOND: int := 1_000_000_000
  const DEFAULT_TTL: int := 300 * SECOND
  const MIN_TTL: int := 30 * SECOND
  const MAX_TTL: int := 900 * SECOND

  /** What a marker stores, and the instant Redis drops it. */
  datatype Entry = Entry(copy: C.Reservation, deadline: int)

  datatype Cached = Cached(s: State, markers: map<string, Entry>)

  /** A request may omit the TTL; otherwise it must lie within the bounds. */
  function EffectiveTtl(ttl: int): Result<int> {
    var t := if ttl == 0 then DEFAULT_TTL else ttl;
    if t < MIN_TTL || t > MAX_TTL then Err(InvalidTtl) else Ok(t)
  }

  /** The clock readings of one Reserve call: for the expiry, for either pass of the allocation, for the TTL. */
  datatype Readings = Readings(start: int, first: int, second: int, mark: int)

  /** SET at instant `at` with a TTL of expiry minus the reading taken before it; a reservation already expired is
      not marked. */
  function Mark(markers: map<string, Entry>, r: C.Reservation, reading: int, at: int): map<string, Entry> {
    if r.expiresAt.None? || r.expiresAt.value - reading <= 0 then markers
    else markers[r.key := Entry(r, at + (r.expiresAt.value - reading))]
  }

  function Get(markers: map<string, Entry>, key: string, now: int): Option<C.Reservation> {
    if key in markers && now < markers[key].deadline then Some(markers[key].copy) else None
  }

  /** Reserve: validate, replay without marking, else allocate and mark; `redisUp` says whether the SET worked. */
  function Reserve(m: Cached, req: C.Request, ttl: int, at: Readings, skip: set<nat>, redisUp: bool)
    : (Cached, Result<C.Reservation>)
  {
    if Blank(req.key) then (m, Err(KeyRequired))
    else if EffectiveTtl(ttl).Err? then (m, Err(InvalidTtl))
    else
      match C.FindReservation(m.s.db, req.key)
      case Some(existing) => (m, Ok(existing))
      case None =>
        var expiresAt := at.start + EffectiveTtl(ttl).value;
        var (db', r) :=
          C.ReserveAvailable(m.s.db, req, expiresAt, at.first, at.second, m.s.setup.threshold, skip);
        var markers' := if r.Ok? && redisUp then Mark(m.markers, r.value, at.mark, m.s.clock) else m.markers;
        (Cached(m.s.(db := db'), markers'), r)
  }

  /** Release: the table first, then the marker; `deleted` says whether the DEL worked. */
  function Release(m: Cached, cellId: nat, key: string, deleted: bool): (Cached, Result<()>) {
    if cellId == 0 then (m, Err(InvalidCellId))
    else if Blank(key) then (m, Err(KeyRequired))
    else
      var (db', r) := C.Release(m.s.db, cellId, key);
      (Cached(m.s.(db := db'), if r.Ok? && deleted then m.markers - {key} else m.markers), r)
  }

  datatype Call =
    | CallReserve(req: C.Request, ttl: int, at: Readings, skip: set<nat>, redisUp: bool)
    | CallRelease(cellId: nat, key: string)
    | Other(a: Action)

  /** The allocation's readings are past, and the TTL is computed at the SET. */
  predicate Timely(m: Cached, at: Readings) {
    Past(m.s, at.first) && Past(m.s, at.second) && at.mark == m.s.clock
  }

  /** A step of the system when no DEL fails; releases go through the use case. */
  function ApplyCall(m: Cached, c: Call): Cached {
    match c
    case CallReserve(req, ttl, at, skip, redisUp) =>
      if Timely(m, at) then Reserve(m, req, ttl, at, skip, redisUp).0 else m
    case CallRelease(cellId, key) => Release(m, cellId, key, true).0
    case Other(a) => if a.Release? then m else m.(s := Apply(m.s, a))
  }

  function ExecCalls(m: Cached, calls: seq<Call>): Cached {
    if calls == [] then m else ApplyCall(ExecCalls(m, calls[..|calls| - 1]), calls[|calls| - 1])
  }

  predicate EntryOk(m: Cached, key: string, e: Entry) {
    m.s.clock < e.deadline ==>
      && e.copy.key == key && e.copy.expiresAt == Some(e.deadline)
      && L.Leased(m.s.db, e.copy.cellId, key, e.deadline)
      && m.s.db.cells[e.copy.cellId].size == e.copy.size
  }

  /** Every marker except the given ones says what the table says. */
  ghost predicate CoherentBut(m: Cached, but: set<Entry>) {
    W.Inv(m.s.db) && forall k :: k in m.markers ==> m.markers[k] in but || EntryOk(m, k, m.markers[k])
  }

  ghost predicate Coherent(m: Cached) {
    CoherentBut(m, {})
  }

  /** A table step that does not release the key keeps its marker coherent. */
  lemma StepKeepsEntry(m: Cached, a: Action, key: string, e: Entry)
    requires EntryOk(m, key, e) && a != Action.Release(e.copy.cellId, key)
    ensures EntryOk(Cached(Apply(m.s, a), m.markers), key, e)
  {
    if m.s.clock < e.deadline {
      L.StepKeepsLease(m.s, a, e.copy.cellId, key, e.deadline);
    }
  }

  lemma ReserveCoherent(
    m: Cached, req: C.Request, ttl: int, at: Readings, skip: set<nat>, redisUp: bool, but: set<Entry>)
    requires CoherentBut(m, but) && Timely(m, at)
    ensures CoherentBut(Reserve(m, req, ttl, at, skip, redisUp).0, but)
  {
    var (m', r) := Reserve(m, req, ttl, at, skip, redisUp);
    if m' != m {
      var expiresAt := at.start + EffectiveTtl(ttl).value;
      var a := Action.Reserve(req, expiresAt, at.first, at.second, skip);
      assert m'.s == Apply(m.s, a);
      L.StepInv(m.s, a);
      L.ReserveReturnsALease(m.s.db, req, expiresAt, at.first, at.second, m.s.setup.threshold, skip);
      forall k | k in m'.markers ensures m'.markers[k] in but || EntryOk(m', k, m'.markers[k]) {
        if k in m.markers && m'.markers[k] == m.markers[k] && m.markers[k] !in but {
          StepKeepsEntry(m, a, k, m.markers[k]);
        }
      }
    }
  }

  lemma ReleaseCoherent(m: Cached, cellId: nat, key: string, but: set<Entry>)
    requires CoherentBut(m, but)
    ensures CoherentBut(Release(m, cellId, key, true).0, but)
  {
    var (m', r) := Release(m, cellId, key, true);
    if r.Ok? {
      var a := Action.Release(cellId, key);
      assert m'.s == Apply(m.s, a);
      L.StepInv(m.s, a);
      forall k | k in m'.markers ensures m'.markers[k] in but || EntryOk(m', k, m'.markers[k]) {
        if m.markers[k] !in but { StepKeepsEntry(m, a, k, m.markers[k]); }
      }
    }
  }

  lemma StepCoherent(m: Cached, c: Call, but: set<Entry>)
    requires CoherentBut(m, but)
    ensures CoherentBut(ApplyCall(m, c), but)
  {
    match c
    case CallReserve(req, ttl, at, skip, redisUp) =>
      if Timely(m, at) { ReserveCoherent(m, req, ttl, at, skip, redisUp, but); }
    case CallRelease(cellId, key) => ReleaseCoherent(m, cellId, key, but);
    case Other(a) =>
      if !a.Release? {
        L.StepInv(m.s, a);
        forall k | k in m.markers && m.markers[k] !in but ensures EntryOk(ApplyCall(m, c), k, m.markers[k]) {
          StepKeepsEntry(m, a, k, m.markers[k]);
        }
      }
  }

  lemma {:induction false} CoherentThroughout(m: Cached, calls: seq<Call>, but: set<Entry>)
    requires CoherentBut(m, but)
    ensures CoherentBut(ExecCalls(m, calls), but)
  {
    if calls == [] {
    } else {
      CoherentThroughout(m, calls[..|calls| - 1], but);
      StepCoherent(ExecCalls(m, calls[..|calls| - 1]), calls[|calls| - 1], but);
    }
  }

  lemma CoherentAlways(m: Cached, calls: seq<Call>)
    requires W.Installed(m.s.db) && m.markers == map[]
    ensures Coherent(ExecCalls(m, calls))
  {
    W.InstalledInv(m.s.db);
    CoherentThroughout(m, calls, {});
  }

  /** Marker coherence: while no DEL fails, whatever a live marker says is what the table says, cell, size, key
      and expiry alike. */
  lemma MarkerAgreesWithTable(m: Cached, calls: seq<Call>, key: string)
    requires W.Installed(m.s.db) && m.markers == map[]
    ensures
      var now := ExecCalls(m, calls);
      var got := Get(now.markers, key, now.s.clock);
      got.Some? ==> C.FindReservation(now.s.db, key) == got
  {
    CoherentAlways(m, calls);
    var now := ExecCalls(m, calls);
    if Get(now.markers, key, now.s.clock).Some? {
      assert EntryOk(now, key, now.markers[key]);
      W.HoldersSingle(now.s.db, key, now.markers[key].copy.cellId);
    }
  }

  /** A release keeps markers and table coherent exactly when its DEL works, or it is refused, or there is no live
      marker to delete. */
  lemma ReleaseCoherentExactly(m: Cached, cellId: nat, key: string, deleted: bool)
    requires Coherent(m)
    ensures Coherent(Release(m, cellId, key, deleted).0)
       <==> deleted || Release(m, cellId, key, deleted).1.Err? || Get(m.markers, key, m.s.clock).None?
  {
    var (m', r) := Release(m, cellId, key, deleted);
    if deleted {
      ReleaseCoherent(m, cellId, key, {});
    } else if r.Ok? {
      var a := Action.Release(cellId, key);
      assert m'.s == Apply(m.s, a);
      L.StepInv(m.s, a);
      if Get(m.markers, key, m.s.clock).Some? {
        LostDeleteLeavesAFalseMarker(m, cellId, key);
        assert !EntryOk(m', key, m'.markers[key]);
      } else {
        forall k | k in m'.markers ensures EntryOk(m', k, m'.markers[k]) {
          if k != key { StepKeepsEntry(m, a, k, m.markers[k]); }
        }
      }
    }
  }

  /** When the DEL after a successful release fails, a live marker of that key names a reservation the table no
      longer has. */
  lemma LostDeleteLeavesAFalseMarker(m: Cached, cellId: nat, key: string)
    requires Coherent(m) && Get(m.markers, key, m.s.clock).Some?
    requires Release(m, cellId, key, false).1.Ok?
    ensures
      var m' := Release(m, cellId, key, false).0;
      && Get(m'.markers, key, m'.s.clock).Some?
      && C.FindReservation(m'.s.db, key) == None
  {
    var m' := Release(m, cellId, key, false).0;
    W.HoldersSingle(m.s.db, key, cellId);
    forall id | id in m'.s.db.cells ensures m'.s.db.cells[id].key != Some(key) {
      assert id in C.Holders(m.s.db.cells, key) ==> id == cellId;
    }
  }

  /** The damage ends with the marker: whatever calls follow, everything is coherent again from the marker's own
      deadline on. */
  lemma FalseMarkerExpires(m: Cached, cellId: nat, key: string, calls: seq<Call>)
    requires Coherent(m) && key in m.markers
    ensures
      var later := ExecCalls(Release(m, cellId, key, false).0, calls);
      m.markers[key].deadline <= later.s.clock ==> Coherent(later)
  {
    var m' := Release(m, cellId, key, false).0;
    var e := m.markers[key];
    if Release(m, cellId, key, false).1.Ok? {
      var a := Action.Release(cellId, key);
      assert m'.s == Apply(m.s, a);
      L.StepInv(m.s, a);
      forall k | k in m'.markers && m'.markers[k] != e ensures EntryOk(m', k, m'.markers[k]) {
        StepKeepsEntry(m, a, k, m.markers[k]);
      }
    }
    CoherentThroughout(m', calls, {e});
  }

  // ---- a reachable example ----

  function OneCell(): Cached {
    Cached(Installation(), map[])
  }

  const REQUEST: C.Request := C.Request(1, Small, "k")

  lemma OneCellTaken(expiresAt: int)
    requires expiresAt >= 0
    ensures
      var db := OneCell().s.db;
      && W.Installed(db)
      && C.FindReservation(db, "k") == None
      && C.ReserveAvailable(db, REQUEST, expiresAt, 0, 0, 1, {})
         == (C.TakeCell(db, 1, "k", expiresAt), Ok(C.Reservation(1, Small, "k", Some(expiresAt))))
  {
    var db := OneCell().s.db;
    assert C.Holders(db.cells, "k") == {};
    assert C.Candidates(db, REQUEST, 0, 1) == {1};
    assert C.Candidates(db, REQUEST, 0, 1) - {} == {1};
  }

  /** From a fresh installation: reserve, then release with a lost DEL. */
  lemma FalseMarkerIsReachable()
    ensures
      var reserve := CallReserve(REQUEST, 0, Readings(0, 0, 0, 0), {}, true);
      var m := ExecCalls(OneCell(), [reserve]);
      && W.Installed(OneCell().s.db)
      && Release(m, 1, "k", false).1.Ok?
      && !Coherent(Release(m, 1, "k", false).0)
  {
    var reserve := CallReserve(REQUEST, 0, Readings(0, 0, 0, 0), {}, true);
    var m := ExecCalls(OneCell(), [reserve]);
    OneCellTaken(DEFAULT_TTL);
    assert !IsSpace("k"[0]);
    assert [reserve][..0] == [];
    assert m == ApplyCall(ExecCalls(OneCell(), []), reserve);
    CoherentAlways(OneCell(), [reserve]);
    ReleaseCoherentExactly(m, 1, "k", false);
  }
}
