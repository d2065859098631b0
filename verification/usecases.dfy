/** The use cases on top of the repositories: reservations with their marker, and orders with the lazy overdue mark.
    What everybody else does between the statements of a call arrives as a parameter. */
module UseCases {
  import opened Schema
  import opened Fees
  import opened Repositories
  import C = CellTx
  import O = OrderTx
  import W = Ownership
  import B = Ledger
  import D = Desk
  import M = Marker
  import MR = MarkerRace
  import RS = Race
  import RT = RaceTheorems
  import R = Runs

  /** How the repository allocates: in one piece, skipping these rows at first; or with its statements interleaved
      with others, which comes down to a lookup that replays the key, or to a guarded UPDATE of some row on an earlier
      clock reading. */
  datatype Allocation = Whole(skip: set<nat>) | Replayed | Interleaved(cellId: nat, at: int)

  /** What a Reserve call meets: its number among the calls, the allocation and its fault, whether the SET works, and
      what the others do after its lookup, after it has dated the reservation, after the grant, and after it has read
      the clock for the marker. */
  datatype ReserveWorld = ReserveWorld(
    id: nat, allocation: Allocation, fault: Fault, redisUp: bool,
    sought: seq<MR.Step>, dated: seq<MR.Step>, granted: seq<MR.Step>, timed: seq<MR.Step>)

  function Earlier(at: int, now: int): int { if at <= now then at else now }

  predicate Foreign(w: ReserveWorld) {
    MR.NotBy(w.id, w.sought) && MR.NotBy(w.id, w.dated) && MR.NotBy(w.id, w.granted) && MR.NotBy(w.id, w.timed)
  }

  /** The commit of a Reserve call that missed its key in x. */
  function CommitOf(x: MR.Race, req: C.Request, ttl: int, w: ReserveWorld): MR.Step {
    var x1 := MR.Exec(x, w.sought);
    var s := MR.Exec(x1, w.dated).m.s;
    var expiresAt, replies, nothing := x1.m.s.clock + ttl, w.fault == NoFault, MR.World(R.Tick(s.clock));
    if w.fault == NotApplied then nothing
    else
      match w.allocation
      case Whole(skip) => MR.Commit(w.id, req, expiresAt, s.clock, s.clock, skip, replies)
      case Replayed =>
        if C.FindReservation(s.db, req.key).Some?
        then MR.Commit(w.id, req, expiresAt, s.clock, s.clock, {}, replies) else nothing
      case Interleaved(cellId, at) =>
        MR.CommitRow(w.id, cellId, req.key, expiresAt, Earlier(at, s.clock), replies)
  }

  /** The SET of a call granted in y. */
  function SetOf(y: MR.Race, w: ReserveWorld): MR.Step {
    MR.SetMarker(w.id, MR.Exec(y, w.granted).m.s.clock, w.redisUp)
  }

  /** What that commit is granted on the tables it meets. */
  function Grant(s: R.State, req: C.Request, expiresAt: int, allocation: Allocation): Result<C.Reservation> {
    match allocation
    case Whole(skip) =>
      C.ReserveAvailable(s.db, req, expiresAt, s.clock, s.clock, s.setup.threshold, skip).1
    case Replayed =>
      (match C.FindReservation(s.db, req.key)
       case Some(existing) => Ok(existing)
       case None => Err(CellNotAvailable))
    case Interleaved(cellId, at) =>
      if C.Takeable(s.db, cellId, req.key, Earlier(at, s.clock))
      then Ok(C.Reservation(cellId, s.db.cells[cellId].size, req.key, Some(expiresAt))) else Err(CellNotAvailable)
  }

  /** What it leaves of the tables. */
  function TablesAfter(s: R.State, req: C.Request, expiresAt: int, allocation: Allocation): Db {
    match allocation
    case Whole(skip) =>
      C.ReserveAvailable(s.db, req, expiresAt, s.clock, s.clock, s.setup.threshold, skip).0
    case Replayed => s.db
    case Interleaved(cellId, at) => C.GuardedTake(s.db, cellId, req.key, expiresAt, Earlier(at, s.clock))
  }

  /** The whole system after it. */
  function AfterCommit(x: MR.Race, req: C.Request, expiresAt: int, w: ReserveWorld): MR.Race {
    var grant := Grant(x.m.s, req, expiresAt, w.allocation);
    if grant.Err? || w.fault == NotApplied then x
    else MR.Granted(x, w.id, TablesAfter(x.m.s, req, expiresAt, w.allocation), grant.value, w.fault == NoFault)
  }

  /** What a grant comes to when its transaction may fail or lose its reply. */
  function Reported<T>(grant: Result<T>, fault: Fault): Result<T> {
    if fault == NotApplied || (grant.Ok? && fault == ReplyLost) then Err(DataUnavailable) else grant
  }

  /** What the call returns. */
  function Granted(x: MR.Race, req: C.Request, ttl: int, w: ReserveWorld): Result<C.Reservation> {
    var x1 := MR.Exec(x, w.sought);
    Reported(Grant(MR.Exec(x1, w.dated).m.s, req, x1.m.s.clock + ttl, w.allocation), w.fault)
  }

  /** Every way a reservation succeeds in the race of statements is such a grant: a replay that writes nothing, or the
      guarded UPDATE of its row on its reading. */
  lemma RaceReturnsAreGrants(r: RS.State, id: nat, in_: RS.Input, got: C.Reservation) returns (allocation: Allocation)
    requires RT.Inv(r) && RT.Returns(r, id, in_, got)
    ensures Grant(r.s, r.callers[id].req, r.callers[id].expiresAt, allocation) == Ok(got)
    ensures
      var c, s' := r.callers[id], RS.Apply(r, RS.Step(id, in_)).s;
      match allocation
      case Whole(_) => false
      case Replayed => s' == r.s
      case Interleaved(cellId, at) =>
        s'.db == C.GuardedTake(r.s.db, cellId, c.req.key, c.expiresAt, Earlier(at, r.s.clock))
  {
    var c := r.callers[id];
    assert RT.CallerOk(r, c);
    allocation := if c.pc.AtCommit? then Interleaved(c.pc.cell, c.pc.now) else Replayed;
  }

  /** The two steps of the call among everybody else's. */
  function ReserveSteps(x: MR.Race, req: C.Request, ttl: int, w: ReserveWorld): seq<MR.Step> {
    var commit := w.sought + w.dated + [CommitOf(x, req, ttl, w)];
    var y := MR.Exec(x, commit);
    if w.id in y.toSet then commit + (w.granted + w.timed + [SetOf(y, w)]) else commit
  }

  lemma ReserveRun(x: MR.Race, req: C.Request, ttl: int, w: ReserveWorld)
    ensures
      var x2 := MR.Exec(MR.Exec(x, w.sought), w.dated);
      var y := MR.ApplyStep(x2, CommitOf(x, req, ttl, w));
      MR.Exec(x, ReserveSteps(x, req, ttl, w))
      == if w.id in y.toSet then MR.ApplyStep(MR.Exec(MR.Exec(y, w.granted), w.timed), SetOf(y, w)) else y
  {
    hide MR.Exec, MR.ApplyStep;
    var commit := CommitOf(x, req, ttl, w);
    MR.ExecSplit(x, w.sought, w.dated);
    MR.ExecSplit(x, w.sought + w.dated, [commit]);
    MR.ExecOne(MR.Exec(x, w.sought + w.dated), commit);
    var upTo := w.sought + w.dated + [commit];
    var y := MR.Exec(x, upTo);
    MR.ExecSplit(x, upTo, w.granted + w.timed + [SetOf(y, w)]);
    MR.ExecSplit(y, w.granted + w.timed, [SetOf(y, w)]);
    MR.ExecSplit(y, w.granted, w.timed);
    MR.ExecOne(MR.Exec(y, w.granted + w.timed), SetOf(y, w));
  }

  lemma RefusedWritesNothing(
    db: Db, req: C.Request, expiresAt: int, t1: int, t2: int, threshold: int, skip: set<nat>)
    ensures
      var (db', r) := C.ReserveAvailable(db, req, expiresAt, t1, t2, threshold, skip);
      r.Err? ==> db' == db
  {
  }

  /** The commit writes what is granted, and nothing when nothing is. */
  lemma CommitGrants(x: MR.Race, req: C.Request, ttl: int, w: ReserveWorld)
    ensures
      var x1 := MR.Exec(x, w.sought);
      var x2, expiresAt := MR.Exec(x1, w.dated), x1.m.s.clock + ttl;
      w.id !in x2.toSet ==> MR.ApplyStep(x2, CommitOf(x, req, ttl, w)) == AfterCommit(x2, req, expiresAt, w)
  {
    var x1 := MR.Exec(x, w.sought);
    var x2, expiresAt := MR.Exec(x1, w.dated), x1.m.s.clock + ttl;
    var s := x2.m.s;
    hide MR.Exec;
    if w.fault == NotApplied { return; }
    match w.allocation
    case Whole(skip) =>
      hide C.ReserveAvailable;
    case Replayed =>
      ReplayGrants(s.db, req, expiresAt, s.clock, s.setup.threshold);
      hide C.ReserveAvailable, C.FindReservation;
    case Interleaved(cellId, at) =>
  }

  lemma ReplayGrants(db: Db, req: C.Request, expiresAt: int, t: int, threshold: int)
    ensures
      var found := C.FindReservation(db, req.key);
      found.Some? ==> C.ReserveAvailable(db, req, expiresAt, t, t, threshold, {}) == (db, Ok(found.value))
  {
  }

  /** A commit that fails, or that takes effect and loses its reply, is reported as unavailable. */
  lemma FaultyCommitIsReported(x: MR.Race, req: C.Request, ttl: int, w: ReserveWorld)
    requires Foreign(w) && w.id !in x.toSet && w.fault != NoFault
    ensures Granted(x, req, ttl, w).Err?
    ensures
      var x2 := MR.Exec(MR.Exec(x, w.sought), w.dated);
      w.fault == NotApplied || MR.ApplyStep(x2, CommitOf(x, req, ttl, w)).m.s.db != x2.m.s.db ==>
        Granted(x, req, ttl, w) == Err(DataUnavailable)
  {
    hide MR.Exec, MR.ApplyStep, MR.NotBy, Grant, AfterCommit, Reported, CommitOf;
    var x1 := MR.Exec(x, w.sought);
    var x2 := MR.Exec(x1, w.dated);
    CommitGrants(x, req, ttl, w);
    MR.OthersLeaveCall(x, w.sought, w.id);
    MR.OthersLeaveCall(x1, w.dated, w.id);
    WrittenIsReported(x2, req, x1.m.s.clock + ttl, w);
  }

  lemma WrittenIsReported(x: MR.Race, req: C.Request, expiresAt: int, w: ReserveWorld)
    requires w.fault != NoFault
    ensures
      var reported := Reported(Grant(x.m.s, req, expiresAt, w.allocation), w.fault);
      && reported.Err?
      && (w.fault == NotApplied || AfterCommit(x, req, expiresAt, w).m.s.db != x.m.s.db ==>
            reported == Err(DataUnavailable))
  {
    hide Grant, TablesAfter;
  }

  /** A call whose commit fails or loses its reply reports an error and sets no marker. */
  lemma FaultyCommitSetsNothing(x: MR.Race, req: C.Request, ttl: int, w: ReserveWorld)
    requires Foreign(w) && w.id !in x.toSet && w.fault != NoFault
    ensures Granted(x, req, ttl, w).Err?
    ensures w.id !in MR.Exec(x, ReserveSteps(x, req, ttl, w)).toSet
    ensures ReserveSteps(x, req, ttl, w) == w.sought + w.dated + [CommitOf(x, req, ttl, w)]
  {
    ReserveRun(x, req, ttl, w);
    CommitGrants(x, req, ttl, w);
    var x1 := MR.Exec(x, w.sought);
    MR.OthersLeaveCall(x, w.sought, w.id);
    MR.OthersLeaveCall(x1, w.dated, w.id);
    hide MR.Exec, MR.ApplyStep, Grant, TablesAfter, CommitOf;
    MR.ExecSplit(x, w.sought + w.dated, [CommitOf(x, req, ttl, w)]);
    MR.ExecSplit(x, w.sought, w.dated);
    MR.ExecOne(MR.Exec(x1, w.dated), CommitOf(x, req, ttl, w));
  }

  /** With nobody else, the two steps are the whole call. */
  lemma ReserveIsOneStep(x: MR.Race, req: C.Request, ttl: int, w: ReserveWorld)
    requires w.sought == w.dated == w.granted == w.timed == [] && w.id !in x.toSet
    requires w.allocation.Whole? && w.fault == NoFault
    requires !Blank(req.key) && M.EffectiveTtl(ttl).Ok? && C.FindReservation(x.m.s.db, req.key) == None
    ensures
      var now := x.m.s.clock;
      MR.Exec(x, ReserveSteps(x, req, M.EffectiveTtl(ttl).value, w)).m
      == M.Reserve(x.m, req, ttl, M.Readings(now, now, now, now), w.allocation.skip, w.redisUp).0
    ensures
      var now := x.m.s.clock;
      Granted(x, req, M.EffectiveTtl(ttl).value, w)
      == M.Reserve(x.m, req, ttl, M.Readings(now, now, now, now), w.allocation.skip, w.redisUp).1
  {
    hide C.ReserveAvailable, C.FindReservation, M.Mark;
    var now, t := x.m.s.clock, M.EffectiveTtl(ttl).value;
    assert CommitOf(x, req, t, w) == MR.Commit(w.id, req, now + t, now, now, w.allocation.skip, true);
    ReserveRun(x, req, t, w);
    CommitAndSet(x, req, now + t, w.id, w.allocation.skip, w.redisUp);
    hide MR.ApplyStep;
  }

  /** A commit and its SET at one instant. */
  lemma CommitAndSet(x: MR.Race, req: C.Request, expiresAt: int, id: nat, skip: set<nat>, redisUp: bool)
    requires id !in x.toSet
    ensures
      var now := x.m.s.clock;
      var y := MR.ApplyStep(x, MR.Commit(id, req, expiresAt, now, now, skip, true));
      var (db', r) := C.ReserveAvailable(x.m.s.db, req, expiresAt, now, now, x.m.s.setup.threshold, skip);
      var marked := if r.Ok? && redisUp then M.Mark(x.m.markers, r.value, now, now) else x.m.markers;
      && y.m.s.clock == now
      && (if id in y.toSet then MR.ApplyStep(y, MR.SetMarker(id, now, redisUp)) else y).m
         == M.Cached(x.m.s.(db := db'), marked)
  {
    hide C.ReserveAvailable, M.Mark;
    var now := x.m.s.clock;
    RefusedWritesNothing(x.m.s.db, req, expiresAt, now, now, x.m.s.setup.threshold, skip);
    var y := MR.ApplyStep(x, MR.Commit(id, req, expiresAt, now, now, skip, true));
    var (db', r) := C.ReserveAvailable(x.m.s.db, req, expiresAt, now, now, x.m.s.setup.threshold, skip);
    assert y == MR.ApplyCommit(x, id, req, expiresAt, now, now, skip, true);
    if r.Ok? {
      assert y == MR.Granted(x, id, db', r.value, true);
    } else {
      assert y == x && x.m == M.Cached(x.m.s.(db := db'), x.m.markers);
    }
  }

  /** One call among others; time, tables, markers and calls in flight are those of the whole system. */
  class LockerUseCase {
    const store: Store
    var clock: int
    var pending: set<R.PendingMark>
    var development: bool
    var markers: map<string, M.Entry>
    var toSet: map<nat, C.Reservation>
    var toDelete: map<nat, string>
    var released: set<MR.Lease>

    constructor (store: Store, clock: int)
      ensures this.store == store
      ensures System() == MR.Race(M.Cached(R.State(store.Rows(), clock, store.setup, {}), map[]), map[], map[], {})
    {
      this.store, this.clock, this.development := store, clock, store.setup.development;
      pending, markers, toSet, toDelete, released := {}, map[], map[], map[], {};
    }

    function System(): MR.Race
      reads this, store
    {
      var s := R.State(store.Rows(), clock, store.setup.(development := development), pending);
      MR.Race(M.Cached(s, markers), toSet, toDelete, released)
    }

    /** What everybody else does between two statements. */
    method Meanwhile(others: seq<MR.Step>)
      requires store.Valid()
      modifies this, store
      ensures store.Valid() && System() == MR.Exec(old(System()), others)
    {
      hide W.Inv, MR.Exec;
      var y := MR.Exec(System(), others);
      MR.ExecKeepsTables(System(), others);
      store.Adopt(y.m.s.db);
      clock, pending, development := y.m.s.clock, y.m.s.pending, y.m.s.setup.development;
      markers, toSet, toDelete, released := y.m.markers, y.toSet, y.toDelete, y.released;
    }

    /** Refused and replayed calls write nothing. Any other is the run of its own two steps among everybody else's,
        and returns what its commit was granted or that no cell is available. With nobody else it is the whole call
        in one step. */
    method Reserve(req: C.Request, ttl: int, w: ReserveWorld) returns (r: Result<C.Reservation>)
      requires store.Valid() && Foreign(w) && w.id !in toSet
      modifies this, store
      ensures store.Valid()
      ensures Blank(req.key) ==> r == Err(KeyRequired) && System() == old(System())
      ensures !Blank(req.key) && M.EffectiveTtl(ttl).Err? ==> r == Err(InvalidTtl) && System() == old(System())
      ensures !Blank(req.key) && M.EffectiveTtl(ttl).Ok? && C.FindReservation(old(store.Rows()), req.key).Some? ==>
                r == Ok(C.FindReservation(old(store.Rows()), req.key).value) && System() == old(System())
      ensures !Blank(req.key) && M.EffectiveTtl(ttl).Ok? && C.FindReservation(old(store.Rows()), req.key).None? ==>
                var x, t := old(System()), M.EffectiveTtl(ttl).value;
                && System() == MR.Exec(x, ReserveSteps(x, req, t, w))
                && r == Granted(x, req, t, w)
                && (w.fault != NoFault ==> r.Err? && w.id !in toSet)
      ensures w.sought == w.dated == w.granted == w.timed == [] && w.allocation.Whole? && w.fault == NoFault ==>
                var at := M.Readings(old(clock), old(clock), old(clock), old(clock));
                (System().m, r) == M.Reserve(old(System()).m, req, ttl, at, w.allocation.skip, w.redisUp)
    {
      hide W.Inv, C.ReserveAvailable, C.FindReservation, MR.Exec, MR.ApplyStep, Granted, ReserveSteps;
      if Blank(req.key) {
        return Err(KeyRequired);
      }
      var effective := ttl;
      if effective == 0 {
        effective := M.DEFAULT_TTL;
      }
      if effective < M.MIN_TTL || effective > M.MAX_TTL {
        return Err(InvalidTtl);
      }
      r := store.FindReservation(req.key);
      if r.Ok? {
        return;
      }
      if w.sought == w.dated == w.granted == w.timed == [] && w.allocation.Whole? && w.fault == NoFault {
        ReserveIsOneStep(System(), req, ttl, w);
      }
      if w.fault != NoFault {
        FaultyCommitSetsNothing(System(), req, effective, w);
      }
      r := Allocate(req, effective, w);
    }

    method Allocate(req: C.Request, ttl: int, w: ReserveWorld) returns (r: Result<C.Reservation>)
      requires store.Valid() && Foreign(w) && w.id !in toSet
      modifies this, store
      ensures store.Valid()
      ensures System() == MR.Exec(old(System()), ReserveSteps(old(System()), req, ttl, w))
      ensures r == Granted(old(System()), req, ttl, w)
    {
      hide W.Inv, MR.Exec, MR.ApplyStep, ReserveSteps, CommitOf, SetOf, Grant, AfterCommit;
      ReserveRun(System(), req, ttl, w);
      CommitGrants(System(), req, ttl, w);
      MR.OthersLeaveCall(System(), w.sought, w.id);
      MR.ExecKeepsTables(System(), w.sought);
      Meanwhile(w.sought);
      var expiresAt := clock + ttl;
      MR.OthersLeaveCall(System(), w.dated, w.id);
      MR.ExecKeepsTables(System(), w.dated);
      Meanwhile(w.dated);
      r := CommitAndMark(req, expiresAt, w);
    }

    /** The commit, and the SET of what it granted if its reply arrives. */
    method CommitAndMark(req: C.Request, expiresAt: int, w: ReserveWorld) returns (r: Result<C.Reservation>)
      requires store.Valid() && Foreign(w) && w.id !in toSet
      modifies this, store
      ensures store.Valid()
      ensures
        var y := AfterCommit(old(System()), req, expiresAt, w);
        System() == if w.id in y.toSet then MR.ApplyStep(MR.Exec(MR.Exec(y, w.granted), w.timed), SetOf(y, w)) else y
      ensures r == Reported(Grant(old(System()).m.s, req, expiresAt, w.allocation), w.fault)
    {
      hide W.Inv, MR.Exec, MR.ApplyStep, SetOf, Grant, TablesAfter;
      if w.fault == NotApplied {
        return Err(DataUnavailable);
      }
      r := AllocateRow(req, expiresAt, w.allocation);
      if r.Err? {
        return;
      }
      released := if r.value.expiresAt.Some? then released - {MR.LeaseOf(r.value)} else released;
      if w.fault == ReplyLost {
        return Err(DataUnavailable);
      }
      toSet := toSet[w.id := r.value];
      SetMarker(r.value, w);
    }

    /** The repository's part: the tables after it, and what it grants. */
    method AllocateRow(req: C.Request, expiresAt: int, allocation: Allocation) returns (r: Result<C.Reservation>)
      requires store.Valid()
      modifies store`cells
      ensures store.Valid() && r == Grant(old(System()).m.s, req, expiresAt, allocation)
      ensures store.Rows() == TablesAfter(old(System()).m.s, req, expiresAt, allocation)
      ensures r.Err? ==> store.Rows() == old(store.Rows())
    {
      hide W.Inv, C.ReserveAvailable;
      match allocation {
        case Whole(skip) =>
          RefusedWritesNothing(store.Rows(), req, expiresAt, clock, clock, store.setup.threshold, skip);
          r := store.ReserveAvailable(req, expiresAt, clock, clock, skip);
        case Replayed =>
          r := store.FindReservation(req.key);
          if r.Err? {
            r := Err(CellNotAvailable);
          }
        case Interleaved(cellId, at) =>
          var taken := store.TakeRow(cellId, req.key, expiresAt, Earlier(at, clock));
          if !taken {
            return Err(CellNotAvailable);
          }
          r := Ok(C.Reservation(cellId, store.cells[cellId].size, req.key, Some(expiresAt)));
      }
    }

    method SetMarker(r: C.Reservation, w: ReserveWorld)
      requires store.Valid() && Foreign(w) && w.id in toSet && toSet[w.id] == r
      modifies this, store
      ensures store.Valid()
      ensures System() == MR.ApplyStep(MR.Exec(MR.Exec(old(System()), w.granted), w.timed), SetOf(old(System()), w))
    {
      hide W.Inv, MR.Exec, M.Mark;
      MR.OthersLeaveCall(System(), w.granted, w.id);
      Meanwhile(w.granted);
      var reading := clock;
      MR.OthersLeaveCall(System(), w.timed, w.id);
      MR.ExecKeepsTables(System(), w.timed);
      Meanwhile(w.timed);
      if w.redisUp {
        markers := M.Mark(markers, r, reading, clock);
      }
      toSet := toSet - {w.id};
    }

    /** A refused or failed call writes nothing. Any other frees the cell. If its reply arrives it then deletes the
        marker, after everybody else's `others`, and with nobody else it is the whole call in one step; if not it
        reports an error and leaves the marker. */
    method Release(id: nat, cellId: nat, key: string, fault: Fault, others: seq<MR.Step>, redisUp: bool)
      returns (r: Result<()>)
      requires store.Valid() && MR.NotBy(id, others) && id !in toDelete
      modifies this, store
      ensures store.Valid()
      ensures
        var freed := M.Release(old(System()).m, cellId, key, redisUp).1;
        && r == (if cellId == 0 || Blank(key) then freed
                 else if fault == NotApplied || (fault == ReplyLost && freed.Ok?) then Err(DataUnavailable)
                 else freed)
        && (freed.Err? || fault == NotApplied ==> System() == old(System()))
        && (freed.Ok? && fault == ReplyLost ==> System() == MR.Exec(old(System()), [MR.Free(id, cellId, key, false)]))
      ensures r.Ok? ==>
                System() == MR.Exec(old(System()), [MR.Free(id, cellId, key, true)] + others
                                                   + [MR.DeleteMarker(id, redisUp)])
      ensures fault == NoFault && others == [] ==> System().m == M.Release(old(System()).m, cellId, key, redisUp).0
    {
      hide W.Inv, MR.Exec;
      if cellId == 0 {
        return Err(InvalidCellId);
      }
      if Blank(key) {
        return Err(KeyRequired);
      }
      if fault == NotApplied {
        return Err(DataUnavailable);
      }
      ghost var x := System();
      var lease := if cellId in store.cells then store.cells[cellId].lockExpires else None;
      r := store.Release(cellId, key);
      if r.Err? {
        return;
      }
      released := if lease.Some? then released + {MR.Lease(cellId, key, lease.value)} else released;
      if fault == ReplyLost {
        MR.ExecOne(x, MR.Free(id, cellId, key, false));
        return Err(DataUnavailable);
      }
      toDelete := toDelete[id := key];
      ghost var y := System();
      assert y == MR.ApplyStep(x, MR.Free(id, cellId, key, true));
      ReleaseRun(x, id, cellId, key, others, redisUp);
      MR.OthersLeaveCall(y, others, id);
      Meanwhile(others);
      if redisUp {
        markers := markers - {key};
      }
      toDelete := toDelete - {id};
    }
  }

  lemma ReleaseRun(x: MR.Race, id: nat, cellId: nat, key: string, others: seq<MR.Step>, redisUp: bool)
    ensures
      var y := MR.ApplyStep(x, MR.Free(id, cellId, key, true));
      && MR.Exec(x, [MR.Free(id, cellId, key, true)] + others + [MR.DeleteMarker(id, redisUp)])
         == MR.ApplyStep(MR.Exec(y, others), MR.DeleteMarker(id, redisUp))
      && (others == [] ==> MR.Exec(y, others) == y)
  {
    hide MR.ApplyStep;
    var free, delete := MR.Free(id, cellId, key, true), MR.DeleteMarker(id, redisUp);
    MR.ExecSplit(x, [free] + others, [delete]);
    MR.ExecSplit(x, [free], others);
    MR.ExecOne(x, free);
    MR.ExecOne(MR.Exec(x, [free] + others), delete);
  }

  /** A read with its lazy mark: when the order was judged late, when it was marked, whether the mark worked, and
      what everybody else did in between. */
  datatype Reading = Reading(now: int, markAt: int, marks: bool, others: seq<R.Action>)

  /** The order as shown after a read. */
  function Shown(o: Order, at: Reading): Order {
    if O.IsLate(o, at.now) && at.marks
    then o.(status := Overdue, overdueFen := OverdueFeeFen(o.size, o.expiresAt.value, at.now)) else o
  }

  /** The tables after it. */
  function Marked(db: Db, oid: nat, o: Order, at: Reading, setup: Setup): Db {
    if !O.IsLate(o, at.now) then db
    else
      var mid := After(db, at.markAt, setup, at.others);
      if at.marks then O.MarkOverdue(mid, oid, OverdueFeeFen(o.size, o.expiresAt.value, at.now), at.markAt) else mid
  }

  /** What a read shows, from the columns of its row: an order in storage past its deadline is shown overdue, with the
      fee of the moment it was read, if the mark works; any other as it is. */
  lemma ShownAnswer(o: Order, at: Reading)
    ensures
      match o
      case Order(_, _, size, InStorage, _, _, _, _, _, _, _, _, Some(deadline), _, _) =>
        Shown(o, at) == (if deadline < at.now && at.marks
                         then o.(status := Overdue, overdueFen := OverdueFeeFen(size, deadline, at.now)) else o)
      case _ => Shown(o, at) == o
  {
  }

  /** What it stores: nothing but what the others did, unless it was late and the mark works; then the mark of an order
      still in storage, with the fee of the first reading and a row of log dated by the second. */
  lemma MarkedAnswer(db: Db, oid: nat, o: Order, at: Reading, setup: Setup)
    ensures
      var db', mid := Marked(db, oid, o, at, setup), After(db, at.markAt, setup, at.others);
      match o
      case Order(_, _, size, InStorage, _, _, _, _, _, _, _, _, Some(deadline), _, _) =>
        if at.now <= deadline then db' == db
        else if !at.marks || oid !in mid.orders || mid.orders[oid].status != InStorage then db' == mid
        else
          var fee := OverdueFeeFen(size, deadline, at.now);
          db' == Db(mid.sites, mid.devices, mid.cells,
                    mid.orders[oid := mid.orders[oid].(status := Overdue, overdueFen := fee)],
                    mid.logs + [LogRow(oid, Some(InStorage), Overdue, "OVERDUE_LAZY", "system", at.markAt)])
      case _ => db' == db
  {
    hide After, OverdueFeeFen;
  }

  /** The marks of a list read as `rows`, one after another. */
  function MarkEach(db: Db, rows: map<nat, Order>, ids: seq<nat>, at: nat -> Reading, setup: Setup): Db
    requires forall i :: 0 <= i < |ids| ==> ids[i] in rows
  {
    if ids == [] then db
    else
      var last := |ids| - 1;
      Marked(MarkEach(db, rows, ids[..last], at, setup), ids[last], rows[ids[last]], at(last), setup)
  }

  /** With nobody in between, what is shown is what is stored, and a mark touches no other order. */
  lemma QuietMark(db: Db, oid: nat, at: Reading, setup: Setup, x: nat)
    requires oid in db.orders && x in db.orders && at.others == []
    ensures
      var db' := Marked(db, oid, db.orders[oid], at, setup);
      && x in db'.orders
      && db'.orders[x] == if x == oid then Shown(db.orders[oid], at) else db.orders[x]
  {
  }

  lemma {:induction false} QuietMarks(db: Db, ids: seq<nat>, at: nat -> Reading, setup: Setup, x: nat)
    requires forall i :: 0 <= i < |ids| ==> ids[i] in db.orders && at(i).others == []
    requires forall i, j :: 0 <= i < j < |ids| ==> ids[i] != ids[j]
    requires x in db.orders
    ensures
      var db' := MarkEach(db, db.orders, ids, at, setup);
      && x in db'.orders
      && (x !in ids ==> db'.orders[x] == db.orders[x])
      && (forall i :: 0 <= i < |ids| && ids[i] == x ==> db'.orders[x] == Shown(db.orders[x], at(i)))
  {
    if ids == [] {
    } else {
      var last := |ids| - 1;
      QuietMarks(db, ids[..last], at, setup, x);
      QuietMarks(db, ids[..last], at, setup, ids[last]);
      assert ids[last] !in ids[..last];
      QuietMark(MarkEach(db, db.orders, ids[..last], at, setup), ids[last], at(last), setup, x);
    }
  }

  class OrderUseCase {
    const store: Store

    constructor (store: Store)
      ensures this.store == store
    {
      this.store := store;
    }

    /** Marks an order read in storage past its deadline, and shows it as marked; if the mark fails it is shown as it
        was read. */
    method ApplyLazyOverdue(oid: nat, order: Order, at: Reading) returns (shown: Order)
      requires store.Valid()
      modifies store
      ensures store.Valid()
      ensures store.Rows() == Marked(old(store.Rows()), oid, order, at, store.setup) && shown == Shown(order, at)
    {
      if order.status != InStorage || order.expiresAt.None? {
        return order;
      }
      if !(at.now > order.expiresAt.value) {
        return order;
      }
      var fee := OverdueFeeFen(order.size, order.expiresAt.value, at.now);
      store.Meanwhile(at.markAt, at.others);
      shown := order;
      if at.marks {
        store.MarkOverdue(oid, fee, at.markAt);
        shown := order.(status := Overdue, overdueFen := fee);
      }
    }

    /** With nobody in between, what is returned is stored. Otherwise an order shown as overdue is stored so exactly
        when at its mark it was still in storage or already marked with the same fee. */
    method GetOrder(oid: nat, at: Reading) returns (r: Result<Order>)
      requires store.Valid()
      modifies store
      ensures store.Valid()
      ensures oid == 0 ==> r == Err(InvalidOrderId) && store.Rows() == old(store.Rows())
      ensures oid != 0 && oid !in old(store.orders) ==> r == Err(OrderNotFound) && store.Rows() == old(store.Rows())
      ensures oid != 0 && oid in old(store.orders) ==>
                && r == Ok(Shown(old(store.orders)[oid], at))
                && store.Rows() == Marked(old(store.Rows()), oid, old(store.orders)[oid], at, store.setup)
      ensures r.Ok? && at.marks ==> !O.IsLate(r.value, at.now)
      ensures r.Ok? && at.others == [] ==> oid in store.orders && r.value == store.orders[oid]
      ensures r.Ok? && at.marks && O.IsLate(old(store.orders)[oid], at.now) ==>
                var mid := After(old(store.Rows()), at.markAt, store.setup, at.others);
                && oid in mid.orders && oid in store.orders
                && (store.orders[oid] == r.value
                    <==> || mid.orders[oid].status == InStorage
                         || (mid.orders[oid].status == Overdue && mid.orders[oid].overdueFen == r.value.overdueFen))
    {
      hide W.Inv, OverdueFeeFen, R.Apply;
      if oid == 0 {
        return Err(InvalidOrderId);
      }
      if oid !in store.orders {
        return Err(OrderNotFound);
      }
      var order := store.orders[oid];
      if O.IsLate(order, at.now) {
        B.ShownOverdueIsStored(R.State(store.Rows(), at.markAt, store.setup, {}), oid, at.now, at.others, at.markAt);
      }
      var shown := ApplyLazyOverdue(oid, order, at);
      r := Ok(shown);
    }

    /** The rows arrive in the query's order `ids`. Each is shown as a read of its row shows it; with nobody in
        between, that is what is stored after the whole loop. */
    method ListOrders(ids: seq<nat>, at: nat -> Reading) returns (listed: seq<Order>)
      requires store.Valid()
      requires forall i :: 0 <= i < |ids| ==> ids[i] in store.orders
      requires forall i, j :: 0 <= i < j < |ids| ==> ids[i] != ids[j]
      modifies store
      ensures store.Valid()
      ensures store.Rows() == MarkEach(old(store.Rows()), old(store.orders), ids, at, store.setup)
      ensures |listed| == |ids|
      ensures forall i :: 0 <= i < |ids| ==> listed[i] == Shown(old(store.orders)[ids[i]], at(i))
      ensures (forall i :: 0 <= i < |ids| ==> at(i).others == []) ==>
                forall i :: 0 <= i < |ids| ==> ids[i] in store.orders && listed[i] == store.orders[ids[i]]
    {
      hide W.Inv, Marked, Shown;
      ghost var before := store.Rows();
      var rows := store.orders;
      listed := [];
      for i := 0 to |ids|
        invariant store.Valid() && |listed| == i
        invariant store.Rows() == MarkEach(before, rows, ids[..i], at, store.setup)
        invariant forall j :: 0 <= j < i ==> listed[j] == Shown(rows[ids[j]], at(j))
      {
        var shown := ApplyLazyOverdue(ids[i], rows[ids[i]], at(i));
        listed := listed + [shown];
        assert ids[..i + 1][..i] == ids[..i];
      }
      assert ids[..|ids|] == ids;
      if forall i :: 0 <= i < |ids| ==> at(i).others == [] {
        forall i | 0 <= i < |ids| ensures ids[i] in store.orders && listed[i] == store.orders[ids[i]] {
          QuietMarks(before, ids, at, store.setup, ids[i]);
        }
      }
    }

    /** The door is commanded exactly for a stored order awaiting its parcel. The deposit is judged again on what is
        stored once the door is open. */
    method OpenDepositDoor(oid: nat, now: int, doorOpens: bool, others: seq<R.Action>) returns (r: Result<Order>)
      requires store.Valid()
      modifies store
      ensures store.Valid()
      ensures
        var before := old(store.Rows());
        if oid == 0 then r == Err(InvalidOrderId) && store.Rows() == before
        else if oid !in before.orders then r == Err(OrderNotFound) && store.Rows() == before
        else if D.DepositDoor !in D.OfferedActions(before.orders[oid].status)
        then r == Err(StateConflict) && store.Rows() == before
        else if !doorOpens then r == Err(DoorUnavailable) && store.Rows() == before
        else (store.Rows(), r) == O.OpenDepositDoor(After(before, now, store.setup, others), oid, now)
      ensures doorOpens && others == [] ==>
                (store.Rows(), r) == D.Handle(old(store.Rows()), oid, D.DepositDoor, now, store.setup.pickupArgs)
    {
      if oid == 0 {
        return Err(InvalidOrderId);
      }
      if oid !in store.orders {
        return Err(OrderNotFound);
      }
      if store.orders[oid].status != AwaitingDeposit {
        return Err(StateConflict);
      }
      if !doorOpens {
        return Err(DoorUnavailable);
      }
      store.Meanwhile(now, others);
      r := store.OpenDepositDoor(oid, now);
    }

    /** The door is commanded exactly for the statuses that offer it, late or not. The pickup is judged again on what
        is stored once the door is open. */
    method OpenPickupDoor(oid: nat, now: int, doorOpens: bool, others: seq<R.Action>) returns (r: Result<Order>)
      requires store.Valid()
      modifies store
      ensures store.Valid()
      ensures
        var before := old(store.Rows());
        if oid == 0 then r == Err(InvalidOrderId) && store.Rows() == before
        else if oid !in before.orders then r == Err(OrderNotFound) && store.Rows() == before
        else if D.PickupDoor !in D.OfferedActions(before.orders[oid].status)
        then r == Err(StateConflict) && store.Rows() == before
        else if !doorOpens then r == Err(DoorUnavailable) && store.Rows() == before
        else (store.Rows(), r)
             == O.OpenPickupDoor(After(before, now, store.setup, others), oid, now, store.setup.pickupArgs)
      ensures doorOpens && others == [] ==>
                (store.Rows(), r) == D.Handle(old(store.Rows()), oid, D.PickupDoor, now, store.setup.pickupArgs)
    {
      if oid == 0 {
        return Err(InvalidOrderId);
      }
      if oid !in store.orders {
        return Err(OrderNotFound);
      }
      match store.orders[oid].status {
        case InStorage =>
        case AwaitingPickup =>
        case _ =>
          return Err(StateConflict);
      }
      if !doorOpens {
        return Err(DoorUnavailable);
      }
      store.Meanwhile(now, others);
      r := store.OpenPickupDoor(oid, now);
    }

    /** A late order is marked and settled in one call. With nobody in between that works exactly for an order that
        is overdue, or late with a mark that works. */
    method SettleOverdue(oid: nat, at: Reading, settleAt: int, others: seq<R.Action>) returns (r: Result<Order>)
      requires store.Valid()
      modifies store
      ensures store.Valid()
      ensures oid == 0 ==> r == Err(InvalidOrderId) && store.Rows() == old(store.Rows())
      ensures oid != 0 && oid !in old(store.orders) ==> r == Err(OrderNotFound) && store.Rows() == old(store.Rows())
      ensures oid != 0 && oid in old(store.orders) ==>
                var marked := Marked(old(store.Rows()), oid, old(store.orders)[oid], at, store.setup);
                (store.Rows(), r) == O.SettleOverdue(After(marked, settleAt, store.setup, others), oid, settleAt)
      ensures at.others == [] && others == [] ==>
                (r.Ok? <==>
                  && oid != 0 && oid in old(store.orders)
                  && (old(store.orders)[oid].status == Overdue
                      || (O.IsLate(old(store.orders)[oid], at.now) && at.marks)))
    {
      hide W.Inv, OverdueFeeFen, R.Apply;
      if oid == 0 {
        return Err(InvalidOrderId);
      }
      if oid !in store.orders {
        return Err(OrderNotFound);
      }
      var shown := ApplyLazyOverdue(oid, store.orders[oid], at);
      store.Meanwhile(settleAt, others);
      r := store.SettleOverdue(oid, settleAt);
    }
  }
}
