/** The marker with its calls taken apart: a Reserve commits in the table and later sets the marker, a Release frees
    the cell and later deletes the marker, and anything may happen in between. */
module MarkerRace {
  import opened Schema
  import opened Runs
  import C = CellTx
  import W = Ownership
  import L = LeaseTheorems
  import M = Marker

  datatype Lease = Lease(cellId: nat, key: string, expiry: int)

  /** `toSet` and `toDelete` are the calls between their two steps. `released` records history: the leases given
      back by a Release and not granted again. */
  datatype Race = Race(m: M.Cached, toSet: map<nat, C.Reservation>, toDelete: map<nat, string>, released: set<Lease>)

  /** Commit is a whole allocation, CommitRow the commit of one whose statements interleave with others. A call whose
      table step takes effect but whose reply is lost (`replies` is false) returns an error and leaves Redis alone. */
  datatype Step =
    | Commit(id: nat, req: C.Request, expiresAt: int, t1: int, t2: int, skip: set<nat>, replies: bool)
    | CommitRow(id: nat, cellId: nat, key: string, expiresAt: int, t: int, replies: bool)
    | SetMarker(id: nat, reading: int, lands: bool)
    | Free(id: nat, cellId: nat, key: string, replies: bool)
    | DeleteMarker(id: nat, lands: bool)
    | World(a: Action)

  function LeaseOf(r: C.Reservation): Lease
    requires r.expiresAt.Some?
  {
    Lease(r.cellId, r.key, r.expiresAt.value)
  }

  predicate Standing(db: Db, l: Lease) { L.Leased(db, l.cellId, l.key, l.expiry) }

  /** The table now grants r; its marker is still to be set. */
  function Granted(x: Race, id: nat, db: Db, r: C.Reservation, replies: bool): Race {
    x.(m := x.m.(s := x.m.s.(db := db)), toSet := if replies then x.toSet[id := r] else x.toSet,
       released := if r.expiresAt.Some? then x.released - {LeaseOf(r)} else x.released)
  }

  function ApplyCommit(
    x: Race, id: nat, req: C.Request, expiresAt: int, t1: int, t2: int, skip: set<nat>, replies: bool): Race
  {
    var (db', r) := C.ReserveAvailable(x.m.s.db, req, expiresAt, t1, t2, x.m.s.setup.threshold, skip);
    if r.Err? then x else Granted(x, id, db', r.value, replies)
  }

  function ApplyCommitRow(x: Race, id: nat, cellId: nat, key: string, expiresAt: int, t: int, replies: bool): Race {
    var db := x.m.s.db;
    if C.Takeable(db, cellId, key, t) then
      var r := C.Reservation(cellId, db.cells[cellId].size, key, Some(expiresAt));
      Granted(x, id, C.GuardedTake(db, cellId, key, expiresAt, t), r, replies)
    else x
  }

  function ApplyFree(x: Race, id: nat, cellId: nat, key: string, replies: bool): Race {
    var (db', r) := C.Release(x.m.s.db, cellId, key);
    if r.Err? then x
    else
      var expiry := x.m.s.db.cells[cellId].lockExpires;
      x.(m := x.m.(s := x.m.s.(db := db')), toDelete := if replies then x.toDelete[id := key] else x.toDelete,
         released := if expiry.Some? then x.released + {Lease(cellId, key, expiry.value)} else x.released)
  }

  function ApplyStep(x: Race, a: Step): Race {
    match a
    case Commit(id, req, expiresAt, t1, t2, skip, replies) =>
      if id !in x.toSet && Past(x.m.s, t1) && Past(x.m.s, t2)
      then ApplyCommit(x, id, req, expiresAt, t1, t2, skip, replies) else x
    case CommitRow(id, cellId, key, expiresAt, t, replies) =>
      if id !in x.toSet && Past(x.m.s, t) then ApplyCommitRow(x, id, cellId, key, expiresAt, t, replies) else x
    case SetMarker(id, reading, lands) =>
      if id in x.toSet && Past(x.m.s, reading) then
        x.(toSet := x.toSet - {id},
           m := if lands then x.m.(markers := M.Mark(x.m.markers, x.toSet[id], reading, x.m.s.clock)) else x.m)
      else x
    case Free(id, cellId, key, replies) => if id !in x.toDelete then ApplyFree(x, id, cellId, key, replies) else x
    case DeleteMarker(id, lands) =>
      if id in x.toDelete then
        x.(toDelete := x.toDelete - {id},
           m := if lands then x.m.(markers := x.m.markers - {x.toDelete[id]}) else x.m)
      else x
    case World(w) => if w.Reserve? || w.Take? || w.Release? then x else x.(m := x.m.(s := Apply(x.m.s, w)))
  }

  function Exec(x: Race, steps: seq<Step>): Race {
    if steps == [] then x else ApplyStep(Exec(x, steps[..|steps| - 1]), steps[|steps| - 1])
  }

  ghost predicate Start(x: Race) {
    W.Installed(x.m.s.db) && x.m.markers == map[] && x.toSet == map[] && x.toDelete == map[] && x.released == {}
  }

  lemma {:induction false} ExecSplit(x: Race, a: seq<Step>, b: seq<Step>)
    ensures Exec(x, a + b) == Exec(Exec(x, a), b)
  {
    if b == [] {
      assert a + b == a;
    } else {
      ExecSplit(x, a, b[..|b| - 1]);
      assert (a + b)[..|a + b| - 1] == a + b[..|b| - 1];
    }
  }

  lemma ExecOne(x: Race, a: Step)
    ensures Exec(x, [a]) == ApplyStep(x, a)
  {
    assert [a][..0] == [];
  }

  lemma StepKeepsTables(x: Race, a: Step)
    ensures x.m.s.clock <= ApplyStep(x, a).m.s.clock
    ensures ApplyStep(x, a).m.s.setup == x.m.s.setup.(development := ApplyStep(x, a).m.s.setup.development)
    ensures W.Inv(x.m.s.db) ==> W.Inv(ApplyStep(x, a).m.s.db)
  {
    hide W.Inv, C.ReserveAvailable, C.Release, C.GuardedTake;
    var s := x.m.s;
    if W.Inv(s.db) {
      match a
      case Commit(id, req, expiresAt, t1, t2, skip, replies) =>
        W.ReserveInv(s.db, req, expiresAt, t1, t2, s.setup.threshold, skip);
      case CommitRow(id, cellId, key, expiresAt, t, replies) =>
        if Past(s, t) { L.StepInv(s, Take(cellId, key, expiresAt, t)); }
      case Free(id, cellId, key, replies) => W.ReleaseInv(s.db, cellId, key);
      case World(w) => L.StepInv(s, w);
      case _ =>
    }
  }

  /** Time passes, the joint invariant stays, and nothing of the setup but the deployment changes. */
  lemma {:induction false} ExecKeepsTables(x: Race, steps: seq<Step>)
    ensures x.m.s.clock <= Exec(x, steps).m.s.clock
    ensures Exec(x, steps).m.s.setup == x.m.s.setup.(development := Exec(x, steps).m.s.setup.development)
    ensures W.Inv(x.m.s.db) ==> W.Inv(Exec(x, steps).m.s.db)
  {
    hide W.Inv, ApplyStep;
    if steps == [] {
    } else {
      ExecKeepsTables(x, steps[..|steps| - 1]);
      StepKeepsTables(Exec(x, steps[..|steps| - 1]), steps[|steps| - 1]);
    }
  }

  /** Steps of other calls. */
  predicate NotBy(id: nat, steps: seq<Step>) {
    forall i :: 0 <= i < |steps| ==> steps[i].World? || steps[i].id != id
  }

  lemma {:induction false} OthersLeaveCall(x: Race, steps: seq<Step>, id: nat)
    requires NotBy(id, steps)
    ensures
      var y := Exec(x, steps);
      && (if id in x.toSet then id in y.toSet && y.toSet[id] == x.toSet[id] else id !in y.toSet)
      && (if id in x.toDelete then id in y.toDelete && y.toDelete[id] == x.toDelete[id] else id !in y.toDelete)
  {
    hide C.ReserveAvailable, C.Release, C.GuardedTake, M.Mark;
    if steps == [] {
    } else {
      OthersLeaveCall(x, steps[..|steps| - 1], id);
    }
  }

  // ---- which leases stand ----

  /** A reservation handed out: until its expiry the lease stands unless it was given back. */
  predicate Issued(x: Race, r: C.Reservation) {
    && r.expiresAt.Some?
    && r.cellId in x.m.s.db.cells && x.m.s.db.cells[r.cellId].size == r.size
    && (x.m.s.clock <= r.expiresAt.value ==> Standing(x.m.s.db, LeaseOf(r)) || LeaseOf(r) in x.released)
  }

  ghost predicate ReleasedOk(x: Race) {
    forall l :: l in x.released ==> !Standing(x.m.s.db, l)
  }

  ghost predicate IssuedOk(x: Race) {
    && (forall id :: id in x.toSet ==> Issued(x, x.toSet[id]))
    && (forall k :: k in x.m.markers ==> x.m.markers[k].copy.key == k && Issued(x, x.m.markers[k].copy))
  }

  ghost predicate Inv(x: Race) {
    W.Inv(x.m.s.db) && ReleasedOk(x) && IssuedOk(x)
  }

  /** Granting r with a table step that makes no other lease stand keeps the invariant. */
  lemma GrantedInv(x: Race, id: nat, a: Action, r: C.Reservation, replies: bool)
    requires Inv(x)
    requires a.Reserve? || a.Take?
    requires r.expiresAt.Some? && Standing(Apply(x.m.s, a).db, LeaseOf(r))
    requires Apply(x.m.s, a).db.cells[r.cellId].size == r.size
    requires Apply(x.m.s, a).clock == x.m.s.clock && Apply(x.m.s, a) == x.m.s.(db := Apply(x.m.s, a).db)
    requires forall l :: Standing(Apply(x.m.s, a).db, l) && l != LeaseOf(r) ==> Standing(x.m.s.db, l)
    ensures Inv(Granted(x, id, Apply(x.m.s, a).db, r, replies))
  {
    L.StepInv(x.m.s, a);
    hide W.Inv, Apply, Standing;
    var x' := Granted(x, id, Apply(x.m.s, a).db, r, replies);
    forall q: C.Reservation | Issued(x, q) ensures Issued(x', q) {
      StepKeepsIssued(x, x', a, q, {LeaseOf(r)});
    }
    assert Issued(x', r);
  }

  lemma CommitInv(
    x: Race, id: nat, req: C.Request, expiresAt: int, t1: int, t2: int, skip: set<nat>, replies: bool)
    requires Inv(x) && Past(x.m.s, t1) && Past(x.m.s, t2)
    ensures Inv(ApplyCommit(x, id, req, expiresAt, t1, t2, skip, replies))
  {
    hide Inv, W.Inv;
    assert W.Inv(x.m.s.db) by { Owned(x); }
    L.ReserveReturnsALease(x.m.s.db, req, expiresAt, t1, t2, x.m.s.setup.threshold, skip);
    var r := C.ReserveAvailable(x.m.s.db, req, expiresAt, t1, t2, x.m.s.setup.threshold, skip).1;
    if r.Ok? {
      GrantedInv(x, id, Action.Reserve(req, expiresAt, t1, t2, skip), r.value, replies);
    }
  }

  lemma Owned(x: Race)
    requires Inv(x)
    ensures W.Inv(x.m.s.db)
  {
  }

  lemma CommitRowInv(x: Race, id: nat, cellId: nat, key: string, expiresAt: int, t: int, replies: bool)
    requires Inv(x) && Past(x.m.s, t)
    ensures Inv(ApplyCommitRow(x, id, cellId, key, expiresAt, t, replies))
  {
    hide Inv, W.Inv;
    var db := x.m.s.db;
    if C.Takeable(db, cellId, key, t) {
      var r := C.Reservation(cellId, db.cells[cellId].size, key, Some(expiresAt));
      GrantedInv(x, id, Take(cellId, key, expiresAt, t), r, replies);
    }
  }

  /** A table step that is not the lease's own release keeps it standing; `granted` are leases that now stand. */
  lemma StepKeepsIssued(x: Race, x': Race, a: Action, r: C.Reservation, granted: set<Lease>)
    requires Issued(x, r) && x'.m.s == Apply(x.m.s, a)
    requires forall l :: l in granted ==> Standing(x'.m.s.db, l)
    requires x.released - granted <= x'.released
    requires a == Action.Release(r.cellId, r.key) && Standing(x.m.s.db, LeaseOf(r)) ==> LeaseOf(r) in x'.released
    ensures Issued(x', r)
  {
    L.StepCell(x.m.s, a, r.cellId);
    ClockOf(x.m.s, a);
    if x'.m.s.clock <= r.expiresAt.value && Standing(x.m.s.db, LeaseOf(r)) && a != Action.Release(r.cellId, r.key) {
      L.StepKeepsLease(x.m.s, a, r.cellId, r.key, r.expiresAt.value);
    }
  }

  lemma ClockOf(s: State, a: Action)
    ensures s.clock <= Apply(s, a).clock
  {
    hide C.ReserveAvailable, C.ReclaimExpired;
  }

  lemma FreeInv(x: Race, id: nat, cellId: nat, key: string, replies: bool)
    requires Inv(x)
    ensures Inv(ApplyFree(x, id, cellId, key, replies))
  {
    var x' := ApplyFree(x, id, cellId, key, replies);
    var a := Action.Release(cellId, key);
    if x' != x {
      assert x'.m.s == Apply(x.m.s, a);
      L.StepInv(x.m.s, a);
      W.HoldersSingle(x.m.s.db, key, cellId);
      hide W.Inv;
      forall r: C.Reservation | Issued(x, r) ensures Issued(x', r) {
        StepKeepsIssued(x, x', a, r, {});
      }
    }
  }

  lemma WorldGrantsNothing(s: State, w: Action, l: Lease)
    requires !w.Reserve? && !w.Take? && Standing(Apply(s, w).db, l)
    ensures Standing(s.db, l)
  {
    hide C.ReserveAvailable;
  }

  lemma WorldInv(x: Race, w: Action)
    requires Inv(x)
    ensures Inv(ApplyStep(x, World(w)))
  {
    var x' := ApplyStep(x, World(w));
    if !w.Reserve? && !w.Take? && !w.Release? {
      L.StepInv(x.m.s, w);
      hide W.Inv, Apply;
      forall l | l in x'.released ensures !Standing(x'.m.s.db, l) {
        if Standing(x'.m.s.db, l) { WorldGrantsNothing(x.m.s, w, l); }
      }
      forall r: C.Reservation | Issued(x, r) ensures Issued(x', r) {
        StepKeepsIssued(x, x', w, r, {});
      }
    }
  }

  lemma StepInv(x: Race, a: Step)
    requires Inv(x)
    ensures Inv(ApplyStep(x, a))
  {
    hide W.Inv, Standing, ApplyCommit, ApplyCommitRow, ApplyFree;
    match a
    case Commit(id, req, expiresAt, t1, t2, skip, replies) =>
      if Past(x.m.s, t1) && Past(x.m.s, t2) { CommitInv(x, id, req, expiresAt, t1, t2, skip, replies); }
    case CommitRow(id, cellId, key, expiresAt, t, replies) =>
      if Past(x.m.s, t) { CommitRowInv(x, id, cellId, key, expiresAt, t, replies); }
    case SetMarker(id, reading, lands) => SetInv(x, id, reading, lands);
    case Free(id, cellId, key, replies) => FreeInv(x, id, cellId, key, replies);
    case DeleteMarker(id, lands) =>
    case World(w) => WorldInv(x, w);
  }

  lemma SetInv(x: Race, id: nat, reading: int, lands: bool)
    requires Inv(x)
    ensures Inv(ApplyStep(x, SetMarker(id, reading, lands)))
  {
    hide W.Inv, Standing;
    var x' := ApplyStep(x, SetMarker(id, reading, lands));
    forall r: C.Reservation | Issued(x, r) ensures Issued(x', r) {
    }
  }

  lemma {:induction false} InvAlways(x: Race, steps: seq<Step>)
    requires Start(x)
    ensures Inv(Exec(x, steps))
  {
    if steps == [] {
      W.InstalledInv(x.m.s.db);
    } else {
      InvAlways(x, steps[..|steps| - 1]);
      StepInv(Exec(x, steps[..|steps| - 1]), steps[|steps| - 1]);
    }
  }

  // ---- when a marker tells the truth ----

  function Seen(x: Race, key: string): Option<C.Reservation> {
    M.Get(x.m.markers, key, x.m.s.clock)
  }

  predicate Agrees(x: Race, key: string) {
    C.FindReservation(x.m.s.db, key) == Seen(x, key)
  }

  lemma AgreesIffStanding(x: Race, key: string)
    requires Inv(x) && Seen(x, key).Some?
    ensures Seen(x, key).value.expiresAt.Some?
    ensures Agrees(x, key) <==> Standing(x.m.s.db, LeaseOf(Seen(x, key).value))
  {
    var r := Seen(x, key).value;
    assert Issued(x, r) && r.key == key;
    if Standing(x.m.s.db, LeaseOf(r)) {
      W.HoldersSingle(x.m.s.db, key, r.cellId);
    } else if Agrees(x, key) {
      var id :| id in C.Holders(x.m.s.db.cells, key);
      W.HoldersSingle(x.m.s.db, key, id);
    }
  }

  /** Within its lease a marker tells the truth exactly when the lease it was set for has not been released, in
      whatever order the steps of all calls came and whichever Redis commands were lost. */
  lemma MarkerTruth(x: Race, steps: seq<Step>, key: string)
    requires Start(x)
    ensures
      var y := Exec(x, steps);
      Seen(y, key).Some? ==>
        && Seen(y, key).value.expiresAt.Some?
        && (y.m.s.clock <= Seen(y, key).value.expiresAt.value ==>
              (Agrees(y, key) <==> LeaseOf(Seen(y, key).value) !in y.released))
  {
    InvAlways(x, steps);
    var y := Exec(x, steps);
    if Seen(y, key).Some? {
      AgreesIffStanding(y, key);
      assert Issued(y, Seen(y, key).value);
    }
  }

  /** A SET that lands with time left makes a live marker, which is true exactly when nobody released the lease
      between the commit and the SET; it outlives the lease by the time that passed since its clock reading. */
  lemma SetTruth(x: Race, steps: seq<Step>, id: nat, reading: int)
    requires Start(x) && id in Exec(x, steps).toSet && Past(Exec(x, steps).m.s, reading)
    requires Exec(x, steps).toSet[id].expiresAt.Some?
    requires Exec(x, steps).m.s.clock <= Exec(x, steps).toSet[id].expiresAt.value
    requires reading < Exec(x, steps).toSet[id].expiresAt.value
    ensures
      var y := Exec(x, steps);
      var r := y.toSet[id];
      var y' := ApplyStep(y, SetMarker(id, reading, true));
      && Seen(y', r.key) == Some(r)
      && y'.m.markers[r.key].deadline == r.expiresAt.value + (y.m.s.clock - reading)
      && (Agrees(y', r.key) <==> LeaseOf(r) !in y.released)
  {
    InvAlways(x, steps);
    var y := Exec(x, steps);
    StepInv(y, SetMarker(id, reading, true));
    AgreesIffStanding(ApplyStep(y, SetMarker(id, reading, true)), y.toSet[id].key);
    assert Issued(y, y.toSet[id]);
  }

  /** Nothing goes wrong here: a release gets its reply, a DEL lands, and a SET that lands does so on its clock
      reading and before any release of its lease. */
  predicate Orderly(x: Race, a: Step) {
    match a
    case SetMarker(id, reading, lands) =>
      id in x.toSet && lands && x.toSet[id].expiresAt.Some? ==>
        reading == x.m.s.clock && LeaseOf(x.toSet[id]) !in x.released
    case DeleteMarker(id, lands) => lands
    case Free(id, cellId, key, replies) => replies
    case _ => true
  }

  ghost predicate OrderlyRun(x: Race, steps: seq<Step>) {
    forall i :: 0 <= i < |steps| ==> Orderly(Exec(x, steps[..i]), steps[i])
  }

  predicate Awaited(x: Race, key: string) {
    exists id :: id in x.toDelete && x.toDelete[id] == key
  }

  /** A marker that is live ends with its lease, and stands for it unless its DEL is still to come. */
  ghost predicate Orderliness(x: Race) {
    forall k :: k in x.m.markers ==> EntryFine(x, k, x.m.markers[k])
  }

  predicate EntryFine(x: Race, k: string, e: M.Entry) {
    && e.copy.expiresAt == Some(e.deadline)
    && (x.m.s.clock <= e.deadline && LeaseOf(e.copy) in x.released ==> Awaited(x, k))
  }

  lemma AwaitedStays(x: Race, a: Step, key: string)
    requires Awaited(x, key) && Orderly(x, a)
    ensures Awaited(ApplyStep(x, a), key) || key !in ApplyStep(x, a).m.markers
  {
    var x' := ApplyStep(x, a);
    var id :| id in x.toDelete && x.toDelete[id] == key;
    if id in x'.toDelete { assert x'.toDelete[id] == key; }
  }

  lemma OrderlyStep(x: Race, a: Step)
    requires Inv(x) && Orderliness(x) && Orderly(x, a)
    ensures Orderliness(ApplyStep(x, a))
  {
    var x' := ApplyStep(x, a);
    forall k | k in x'.m.markers ensures EntryFine(x', k, x'.m.markers[k]) {
      OrderlyEntry(x, a, k);
    }
  }

  lemma OrderlyEntry(x: Race, a: Step, k: string)
    requires Inv(x) && Orderliness(x) && Orderly(x, a) && k in ApplyStep(x, a).m.markers
    ensures EntryFine(ApplyStep(x, a), k, ApplyStep(x, a).m.markers[k])
  {
    hide W.Inv, Standing, C.ReserveAvailable, C.Release, C.GuardedTake, M.Mark, Issued;
    var x' := ApplyStep(x, a);
    if a.SetMarker? {
      SetEntry(x, a.id, a.reading, a.lands, k);
    } else {
      assert k in x.m.markers && x'.m.markers[k] == x.m.markers[k];
      KeptEntry(x, a, k);
    }
  }

  lemma SetEntry(x: Race, id: nat, reading: int, lands: bool, k: string)
    requires Orderliness(x) && Orderly(x, SetMarker(id, reading, lands))
    requires k in ApplyStep(x, SetMarker(id, reading, lands)).m.markers
    ensures
      var x' := ApplyStep(x, SetMarker(id, reading, lands));
      EntryFine(x', k, x'.m.markers[k])
  {
    if k in x.m.markers { assert EntryFine(x, k, x.m.markers[k]); }
  }

  lemma KeptEntry(x: Race, a: Step, k: string)
    requires Inv(x) && Orderliness(x) && Orderly(x, a) && !a.SetMarker?
    requires k in x.m.markers && k in ApplyStep(x, a).m.markers
    requires ApplyStep(x, a).m.markers[k] == x.m.markers[k]
    ensures EntryFine(ApplyStep(x, a), k, x.m.markers[k])
  {
    var x', e := ApplyStep(x, a), x.m.markers[k];
    assert EntryFine(x, k, e) && e.copy.key == k;
    hide Inv, Orderliness, W.Inv, C.ReserveAvailable, C.Release, C.GuardedTake, C.Takeable;
    StepKeepsTables(x, a);
    if Awaited(x, k) { AwaitedStays(x, a, k); }
    if LeaseOf(e.copy) in x'.released { ReleasedBy(x, a, LeaseOf(e.copy)); }
  }

  /** Only a release that succeeds adds to the released leases, and its DEL is then to come. */
  lemma ReleasedBy(x: Race, a: Step, l: Lease)
    requires Orderly(x, a) && l in ApplyStep(x, a).released
    ensures l in x.released || Awaited(ApplyStep(x, a), l.key)
  {
    hide C.ReserveAvailable, C.Release, C.GuardedTake, C.Takeable;
    var x' := ApplyStep(x, a);
    if a.Free? && x' != x { assert x'.toDelete[a.id] == a.key; }
  }

  lemma {:induction false} OrderlyAlways(x: Race, steps: seq<Step>)
    requires Start(x) && OrderlyRun(x, steps)
    ensures Orderliness(Exec(x, steps))
  {
    if steps == [] {
    } else {
      var before, last := steps[..|steps| - 1], steps[|steps| - 1];
      forall i | 0 <= i < |before| ensures Orderly(Exec(x, before[..i]), before[i]) {
        assert before[..i] == steps[..i];
      }
      OrderlyAlways(x, before);
      InvAlways(x, before);
      OrderlyStep(Exec(x, before), last);
    }
  }

  /** When every release gets its reply, every DEL lands, and every SET that lands comes on its reading and before a
      release of its lease, a live marker disagrees with the table only while the DEL of a release of its key is still
      to come. */
  lemma FalseMarkersAwaitTheirDelete(x: Race, steps: seq<Step>, key: string)
    requires Start(x) && OrderlyRun(x, steps)
    ensures
      var y := Exec(x, steps);
      Seen(y, key).Some? && !Agrees(y, key) ==> Awaited(y, key)
  {
    OrderlyAlways(x, steps);
    MarkerTruth(x, steps, key);
    var y := Exec(x, steps);
    if Seen(y, key).Some? {
      assert EntryFine(y, key, y.m.markers[key]);
    }
  }

  /** Another one: the release takes effect and its reply is lost, so its caller never deletes the marker. */
  lemma LostReleaseStaysFalse()
    ensures
      var x := Race(M.OneCell(), map[], map[], {});
      var y := Exec(x, [Commit(0, M.REQUEST, M.DEFAULT_TTL, 0, 0, {}, true), SetMarker(0, 0, true),
                        Free(1, 1, "k", false)]);
      && Start(x) && y.toSet == map[] && y.toDelete == map[]
      && Seen(y, "k").Some? && C.FindReservation(y.m.s.db, "k") == None
  {
    var x := Race(M.OneCell(), map[], map[], {});
    var steps := [Commit(0, M.REQUEST, M.DEFAULT_TTL, 0, 0, {}, true), SetMarker(0, 0, true), Free(1, 1, "k", false)];
    M.OneCellTaken(M.DEFAULT_TTL);
    var x1 := ApplyStep(x, steps[0]);
    var x2 := ApplyStep(x1, steps[1]);
    var x3 := ApplyStep(x2, steps[2]);
    assert steps[..0] == [] && Exec(x, steps[..0]) == x;
    assert steps[..1][..0] == [] && Exec(x, steps[..1]) == x1;
    assert steps[..2][..1] == steps[..1] && Exec(x, steps[..2]) == x2;
    assert steps[..3] == steps;
    assert C.Holders(x3.m.s.db.cells, "k") == {};
  }

  /** The false marker nobody deletes, without any lost command: the Release runs between the commit of the Reserve
      and its SET. */
  lemma SetAfterDeleteStaysFalse()
    ensures
      var x := Race(M.OneCell(), map[], map[], {});
      var y := Exec(x, [Commit(0, M.REQUEST, M.DEFAULT_TTL, 0, 0, {}, true), Free(0, 1, "k", true),
                        DeleteMarker(0, true), SetMarker(0, 0, true)]);
      && Start(x) && y.toSet == map[] && y.toDelete == map[]
      && Seen(y, "k").Some? && C.FindReservation(y.m.s.db, "k") == None
  {
    var x := Race(M.OneCell(), map[], map[], {});
    var steps := [Commit(0, M.REQUEST, M.DEFAULT_TTL, 0, 0, {}, true), Free(0, 1, "k", true), DeleteMarker(0, true),
                  SetMarker(0, 0, true)];
    M.OneCellTaken(M.DEFAULT_TTL);
    var x1 := ApplyStep(x, steps[0]);
    var x2 := ApplyStep(x1, steps[1]);
    var x3 := ApplyStep(x2, steps[2]);
    assert steps[..0] == [] && Exec(x, steps[..0]) == x;
    assert steps[..1][..0] == [] && Exec(x, steps[..1]) == x1;
    assert steps[..2][..1] == steps[..1] && Exec(x, steps[..2]) == x2;
    assert steps[..3][..2] == steps[..2] && Exec(x, steps[..3]) == x3;
    assert steps[..4] == steps;
    assert C.Holders(x3.m.s.db.cells, "k") == {};
  }
}
