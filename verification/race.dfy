/** The reservation race: concurrent Reserve calls interleaved at every statement, with row locks held to commit
    and collisions on the unique reservation key resolved by re-reading the winner. */
module Race {
  import opened Schema
  import opened Sets
  import R = Runs
  import C = CellTx

  /** Where a call stands. A caller at AtUpdate or AtCommit holds the lock of its row; one at AtCommit has
      written its uncommitted key. */
  datatype Pc =
    | AtUseCaseFind
    | AtFind
    | AtBegin(first: bool)
    | AtKeyLock(now: int)
    | AtSelect(first: bool, now: int)
    | AtUpdate(cell: nat, now: int)
    | AtCommit(cell: nat, now: int)
    | AtRefind(first: bool)
    | AtDuplicate
    | Done(result: Result<C.Reservation>)

  datatype Caller = Caller(req: C.Request, expiresAt: int, pc: Pc)

  datatype State = State(s: R.State, callers: map<nat, Caller>)

  predicate HoldsRow(pc: Pc) { pc.AtUpdate? || pc.AtCommit? }

  /** Rows locked by the other callers. */
  function LockedByOthers(r: State, id: nat): set<nat> {
    set j | j in r.callers && j != id && HoldsRow(r.callers[j].pc) :: r.callers[j].pc.cell
  }

  /** Rows of locker_devices locked by the other callers: their SELECT locks every table it joins. */
  predicate DeviceLocked(r: State, id: nat, device: nat) {
    exists j :: j in r.callers && j != id && HoldsRow(r.callers[j].pc) && r.callers[j].pc.cell in r.s.db.cells
      && r.s.db.cells[r.callers[j].pc.cell].deviceId == device
  }

  /** ... and of sites. */
  predicate SiteLocked(r: State, id: nat, site: nat) {
    exists j :: j in r.callers && j != id && HoldsRow(r.callers[j].pc) && r.callers[j].req.siteId == site
  }

  /** Cells of an unlocked site that a locking SELECT cannot return now. */
  function Barred(r: State, id: nat): set<nat> {
    set x | x in r.s.db.cells && (x in LockedByOthers(r, id) || DeviceLocked(r, id, r.s.db.cells[x].deviceId))
  }

  /** Another caller has written the key and not committed. */
  predicate KeyPending(r: State, id: nat, key: string) {
    exists j :: j in r.callers && j != id && r.callers[j].pc.AtCommit? && r.callers[j].req.key == key
  }

  function Found(db: Db, key: string, otherwise: Pc): Pc {
    match C.FindReservation(db, key)
    case Some(existing) => Done(Ok(existing))
    case None => otherwise
  }

  /** Which row a locking SELECT returns, the fault a statement meets, and whether a failure says "duplicate"; `none`
      lets a SKIP LOCKED statement come back empty although candidates exist, because other transactions may lock
      rows too. */
  datatype Input = Input(pick: nat, none: bool, fault: Fault, duplicate: bool)

  function Failed(in_: Input): Pc {
    if in_.fault == NotApplied && in_.duplicate then AtDuplicate else Done(Err(DataUnavailable))
  }

  /** The next point of a call; the same point when the statement has to wait. */
  function Next(r: State, id: nat, in_: Input): Pc
    requires id in r.callers
  {
    var c := r.callers[id];
    var db, clock := r.s.db, r.s.clock;
    match c.pc
    case AtUseCaseFind => if in_.fault != NoFault then Done(Err(DataUnavailable)) else Found(db, c.req.key, AtFind)
    case AtFind => if in_.fault != NoFault then Done(Err(DataUnavailable)) else Found(db, c.req.key, AtBegin(true))
    case AtBegin(first) =>
      if in_.fault != NoFault then Done(Err(DataUnavailable))
      else if first then AtSelect(true, clock) else AtKeyLock(clock)
    case AtKeyLock(now) =>
      if in_.fault != NoFault then Done(Err(DataUnavailable))
      else if KeyPending(r, id, c.req.key) then c.pc
      else if C.Holders(db.cells, c.req.key) == {} then AtSelect(false, now)
      else if Least(C.Holders(db.cells, c.req.key)) in Barred(r, id) then c.pc
      else Found(db, c.req.key, c.pc)
    case AtSelect(first, now) =>
      var candidates := C.Candidates(db, c.req, now, r.s.setup.threshold);
      if in_.fault != NoFault then Done(Err(DataUnavailable))
      else if SiteLocked(r, id, c.req.siteId) then (if first then AtRefind(true) else c.pc)
      else if (first && in_.none) || candidates <= (if first then Barred(r, id) else {}) then AtRefind(first)
      else if in_.pick in candidates - Barred(r, id) then AtUpdate(in_.pick, now)
      else c.pc
    case AtUpdate(cell, now) =>
      if in_.fault != NoFault then Failed(in_)
      else if C.Holders(db.cells, c.req.key) - {cell} != {} then AtDuplicate
      else if KeyPending(r, id, c.req.key) then c.pc
      else AtCommit(cell, now)
    case AtCommit(cell, now) =>
      if in_.fault != NoFault || cell !in db.cells then Failed(in_)
      else Done(Ok(C.Reservation(cell, db.cells[cell].size, c.req.key, Some(c.expiresAt))))
    case AtRefind(first) =>
      var otherwise := if first then AtBegin(false) else Done(Err(CellNotAvailable));
      if in_.fault != NoFault then otherwise else Found(db, c.req.key, otherwise)
    case AtDuplicate =>
      if in_.fault != NoFault then Done(Err(DataUnavailable)) else Found(db, c.req.key, Done(Err(DataUnavailable)))
    case Done(_) => c.pc
  }

  datatype Action =
    | World(a: R.Action)
    | Begin(id: nat, req: C.Request, expiresAt: int)
    | Step(id: nat, in_: Input)

  predicate Commits(r: State, id: nat, in_: Input)
    requires id in r.callers
  {
    && r.callers[id].pc.AtCommit? && r.callers[id].pc.cell in r.s.db.cells
    && (in_.fault == NoFault || in_.fault == ReplyLost)
  }

  predicate SameRow<T(==)>(a: map<nat, T>, b: map<nat, T>, row: nat) {
    if row in a then row in b && a[row] == b[row] else row !in b
  }

  /** The transaction would write a row this caller holds locked. */
  predicate Disturbs(db: Db, db': Db, c: Caller)
    requires HoldsRow(c.pc)
  {
    || (c.pc.cell in db.cells && !SameRow(db.devices, db'.devices, db.cells[c.pc.cell].deviceId))
    || !SameRow(db.cells, db'.cells, c.pc.cell) || !SameRow(db.sites, db'.sites, c.req.siteId)
  }

  /** Every other transaction of either domain is one atomic action; it waits while it needs a locked row. */
  predicate Waits(r: State, a: R.Action) {
    exists j :: j in r.callers && HoldsRow(r.callers[j].pc) && Disturbs(r.s.db, R.Apply(r.s, a).db, r.callers[j])
  }

  function Apply(r: State, a: Action): State {
    match a
    case World(w) => if w.Reserve? || w.Take? || Waits(r, w) then r else r.(s := R.Apply(r.s, w))
    case Begin(id, req, expiresAt) =>
      if id in r.callers then r else r.(callers := r.callers[id := Caller(req, expiresAt, AtUseCaseFind)])
    case Step(id, in_) =>
      if id !in r.callers then r
      else
        var c := r.callers[id];
        var s' := if Commits(r, id, in_)
                  then r.s.(db := C.TakeCell(r.s.db, c.pc.cell, c.req.key, c.expiresAt)) else r.s;
        State(s', r.callers[id := c.(pc := Next(r, id, in_))])
  }

  function Exec(r: State, actions: seq<Action>): State {
    if actions == [] then r else Apply(Exec(r, actions[..|actions| - 1]), actions[|actions| - 1])
  }
}

module RaceTheorems {
  import opened Schema
  import opened Sets
  import opened Race
  import R = Runs
  import C = CellTx
  import W = Ownership
  import L = LeaseTheorems

  /** A row locked for update stays as the SELECT saw it. */
  predicate CallerOk(r: State, c: Caller) {
    && (HoldsRow(c.pc) ==>
          && c.pc.cell in r.s.db.cells && c.pc.now <= r.s.clock
          && C.Free(r.s.db.cells[c.pc.cell], c.pc.now)
          && r.s.db.cells[c.pc.cell].size == c.req.size)
    && (c.pc.AtCommit? ==> C.Holders(r.s.db.cells, c.req.key) <= {c.pc.cell})
    && (c.pc.AtSelect? || c.pc.AtKeyLock? ==> c.pc.now <= r.s.clock)
  }

  ghost predicate LocksExclusive(callers: map<nat, Caller>) {
    forall i, j :: i in callers && j in callers && i != j && HoldsRow(callers[i].pc) && HoldsRow(callers[j].pc)
      ==> callers[i].pc.cell != callers[j].pc.cell
  }

  ghost predicate PendingKeysDistinct(callers: map<nat, Caller>) {
    forall i, j :: i in callers && j in callers && i != j && callers[i].pc.AtCommit? && callers[j].pc.AtCommit?
      ==> callers[i].req.key != callers[j].req.key
  }

  ghost predicate Inv(r: State) {
    && W.Inv(r.s.db)
    && (forall id :: id in r.callers ==> CallerOk(r, r.callers[id]))
    && LocksExclusive(r.callers)
    && PendingKeysDistinct(r.callers)
  }

  /** The action on the table that a step of the race amounts to. */
  function Amounts(r: State, a: Action): seq<R.Action> {
    match a
    case World(w) => if w.Reserve? || w.Take? || Waits(r, w) then [] else [w]
    case Begin(_, _, _) => []
    case Step(id, in_) =>
      if id in r.callers && Commits(r, id, in_)
      then [R.Take(r.callers[id].pc.cell, r.callers[id].req.key, r.callers[id].expiresAt, r.callers[id].pc.now)]
      else []
  }

  lemma OneAction(s: R.State, a: R.Action)
    ensures R.Exec(s, [a]) == R.Apply(s, a)
  {
    assert [a][..0] == [];
  }

  /** Refinement: under the locks, every step of the race is one atomic action on the table or none. */
  lemma StepRefines(r: State, a: Action)
    requires Inv(r)
    ensures Apply(r, a).s == R.Exec(r.s, Amounts(r, a))
  {
    match a
    case World(w) => OneAction(r.s, w);
    case Begin(_, _, _) =>
    case Step(id, in_) =>
      if id in r.callers && Commits(r, id, in_) {
        assert CallerOk(r, r.callers[id]);
        OneAction(r.s, Amounts(r, a)[0]);
      }
  }

  lemma WorldAddsNoKeys(s: R.State, w: R.Action, key: string)
    requires !w.Reserve? && !w.Take?
    ensures C.Holders(R.Apply(s, w).db.cells, key) <= C.Holders(s.db.cells, key)
  {
    forall id | id in C.Holders(R.Apply(s, w).db.cells, key) ensures id in C.Holders(s.db.cells, key) {
    }
  }

  lemma WorldInv(r: State, w: R.Action)
    requires Inv(r)
    ensures Inv(Apply(r, World(w)))
  {
    var r' := Apply(r, World(w));
    if r' != r {
      L.StepInv(r.s, w);
      forall id | id in r'.callers ensures CallerOk(r', r'.callers[id]) {
        var c := r.callers[id];
        assert CallerOk(r, c);
        WorldAddsNoKeys(r.s, w, c.req.key);
        if HoldsRow(c.pc) {
          L.StepCell(r.s, w, c.pc.cell);
        }
      }
    }
  }

  lemma NextOk(r: State, id: nat, in_: Input)
    requires Inv(r) && id in r.callers
    ensures CallerOk(r, r.callers[id].(pc := Next(r, id, in_)))
    ensures HoldsRow(Next(r, id, in_)) ==> Next(r, id, in_).cell !in LockedByOthers(r, id)
    ensures Next(r, id, in_).AtCommit? ==> !KeyPending(r, id, r.callers[id].req.key)
  {
    var c := r.callers[id];
    assert CallerOk(r, c);
    if HoldsRow(c.pc) {
      assert c.pc.cell !in LockedByOthers(r, id);
    }
    if c.pc.AtUpdate? && Next(r, id, in_).AtCommit? {
      assert C.Holders(r.s.db.cells, c.req.key) - {c.pc.cell} == {};
      assert forall x :: x in C.Holders(r.s.db.cells, c.req.key) && x != c.pc.cell
               ==> x in C.Holders(r.s.db.cells, c.req.key) - {c.pc.cell};
    }
  }

  /** Committing one reservation disturbs no other caller's locked row or pending key. */
  lemma CommitKeepsCallers(r: State, id: nat, in_: Input, j: nat)
    requires Inv(r) && id in r.callers && j in r.callers && j != id && Commits(r, id, in_)
    ensures CallerOk(Apply(r, Step(id, in_)), r.callers[j])
  {
    var c, d := r.callers[id], r.callers[j];
    var db' := Apply(r, Step(id, in_)).s.db;
    assert CallerOk(r, d) && CallerOk(r, c);
    if d.pc.AtCommit? {
      forall x | x in C.Holders(db'.cells, d.req.key) ensures x in C.Holders(r.s.db.cells, d.req.key) {
        assert x != c.pc.cell;
      }
    }
  }

  lemma StepInv(r: State, a: Action)
    requires Inv(r)
    ensures Inv(Apply(r, a))
  {
    match a
    case World(w) => WorldInv(r, w);
    case Begin(id, req, expiresAt) =>
      var r' := Apply(r, a);
      forall j | j in r'.callers ensures CallerOk(r', r'.callers[j]) {
        if j in r.callers { assert CallerOk(r, r.callers[j]); }
      }
    case Step(id, in_) =>
      if id in r.callers {
        CallerStepInv(r, id, in_);
      }
  }

  lemma CallerStepInv(r: State, id: nat, in_: Input)
    requires Inv(r) && id in r.callers
    ensures Inv(Apply(r, Step(id, in_)))
  {
    var r' := Apply(r, Step(id, in_));
    NextOk(r, id, in_);
    if Commits(r, id, in_) {
      var c := r.callers[id];
      assert CallerOk(r, c);
      W.TakeCellInv(r.s.db, c.pc.cell, c.req.key, c.expiresAt, c.pc.now);
    }
    forall j | j in r'.callers ensures CallerOk(r', r'.callers[j]) {
      if j != id {
        if Commits(r, id, in_) { CommitKeepsCallers(r, id, in_, j); }
        else { assert CallerOk(r, r.callers[j]); }
      }
    }
    LocksStayExclusive(r, id, Next(r, id, in_));
  }

  lemma LocksStayExclusive(r: State, id: nat, pc: Pc)
    requires id in r.callers && LocksExclusive(r.callers) && PendingKeysDistinct(r.callers)
    requires HoldsRow(pc) ==> pc.cell !in LockedByOthers(r, id)
    requires pc.AtCommit? ==> !KeyPending(r, id, r.callers[id].req.key)
    ensures LocksExclusive(r.callers[id := r.callers[id].(pc := pc)])
    ensures PendingKeysDistinct(r.callers[id := r.callers[id].(pc := pc)])
  {
    if HoldsRow(pc) {
      forall j | j in r.callers && j != id && HoldsRow(r.callers[j].pc) ensures r.callers[j].pc.cell != pc.cell {
        assert r.callers[j].pc.cell in LockedByOthers(r, id);
      }
    }
  }

  lemma {:induction false} InvAlways(r: State, actions: seq<Action>)
    requires Inv(r)
    ensures Inv(Exec(r, actions))
  {
    if actions == [] {
    } else {
      InvAlways(r, actions[..|actions| - 1]);
      StepInv(Exec(r, actions[..|actions| - 1]), actions[|actions| - 1]);
    }
  }

  /** The atomic actions a whole race amounts to. */
  function Trace(r: State, actions: seq<Action>): seq<R.Action> {
    if actions == [] then []
    else Trace(r, actions[..|actions| - 1]) + Amounts(Exec(r, actions[..|actions| - 1]), actions[|actions| - 1])
  }

  /** Every interleaving of reservations at statement level leaves the table exactly where some run of atomic
      actions leaves it, so every theorem about those runs holds of the race. */
  lemma {:induction false} RaceRefinesRuns(r: State, actions: seq<Action>)
    requires Inv(r)
    ensures Exec(r, actions).s == R.Exec(r.s, Trace(r, actions))
  {
    if actions == [] {
    } else {
      var before, last := actions[..|actions| - 1], actions[|actions| - 1];
      RaceRefinesRuns(r, before);
      InvAlways(r, before);
      StepRefines(Exec(r, before), last);
      R.ExecSplit(r.s, Trace(r, before), Amounts(Exec(r, before), last));
    }
  }

  lemma {:induction false} TraceReleases(r: State, actions: seq<Action>, release: R.Action)
    requires release.Release? && World(release) !in actions
    ensures release !in Trace(r, actions)
  {
    if actions == [] {
    } else {
      TraceReleases(r, actions[..|actions| - 1], release);
    }
  }

  /** The caller returns at this step, successfully. */
  predicate Returns(r: State, id: nat, in_: Input, got: C.Reservation) {
    id in r.callers && !r.callers[id].pc.Done? && Next(r, id, in_) == Done(Ok(got))
  }

  /** Whichever way a call succeeds, what it returns is what the table then says about its key. */
  lemma ReturnIsLease(r: State, id: nat, in_: Input, got: C.Reservation)
    requires Inv(r) && Returns(r, id, in_, got)
    ensures
      var db' := Apply(r, Step(id, in_)).s.db;
      && got.expiresAt.Some? && got.key == r.callers[id].req.key
      && L.Leased(db', got.cellId, got.key, got.expiresAt.value)
      && C.FindReservation(db', got.key) == Some(got)
  {
    var c := r.callers[id];
    var r' := Apply(r, Step(id, in_));
    StepInv(r, Step(id, in_));
    if c.pc.AtCommit? {
      assert CallerOk(r, c);
      W.HoldersSingle(r'.s.db, c.req.key, c.pc.cell);
    } else {
      assert r'.s == r.s;
      assert C.Holders(r.s.db.cells, c.req.key) != {};
      W.HoldersSingle(r.s.db, c.req.key, Least(C.Holders(r.s.db.cells, c.req.key)));
    }
  }

  /** The interleaved race is settled: if one call has returned a reservation, then any call that returns while
      that lease runs and its key has not been released returns the same cell and expiry when it uses the same
      key, and another cell when it uses another key. */
  lemma ConcurrentReservesAgree(
    r: State, i: nat, in1: Input, got1: C.Reservation, between: seq<Action>, j: nat, in2: Input, got2: C.Reservation)
    requires Inv(r) && Returns(r, i, in1, got1) && got1.expiresAt.Some?
    requires Returns(Exec(Apply(r, Step(i, in1)), between), j, in2, got2)
    requires World(R.Release(got1.cellId, got1.key)) !in between
    requires Exec(Apply(r, Step(i, in1)), between).s.clock <= got1.expiresAt.value
    ensures if got2.key == got1.key then got2 == got1 else got2.cellId != got1.cellId
  {
    ReturnIsLease(r, i, in1, got1);
    StepInv(r, Step(i, in1));
    LeaseSettlesReturns(Apply(r, Step(i, in1)), got1, between, j, in2, got2);
  }

  /** A standing lease decides what later calls return. */
  lemma LeaseSettlesReturns(
    r: State, lease: C.Reservation, between: seq<Action>, j: nat, in_: Input, got: C.Reservation)
    requires Inv(r) && lease.expiresAt.Some?
    requires L.Leased(r.s.db, lease.cellId, lease.key, lease.expiresAt.value)
    requires r.s.db.cells[lease.cellId].size == lease.size
    requires Returns(Exec(r, between), j, in_, got)
    requires World(R.Release(lease.cellId, lease.key)) !in between
    requires Exec(r, between).s.clock <= lease.expiresAt.value
    ensures if got.key == lease.key then got == lease else got.cellId != lease.cellId
    ensures C.Holders(Apply(Exec(r, between), Step(j, in_)).s.db.cells, lease.key) == {lease.cellId}
  {
    var all := between + [Step(j, in_)];
    var r2 := Exec(r, between);
    assert all[..|all| - 1] == between;
    assert Exec(r, all) == Apply(r2, Step(j, in_));
    InvAlways(r, between);
    RaceRefinesRuns(r, all);
    TraceReleases(r, all, R.Release(lease.cellId, lease.key));
    assert Apply(r2, Step(j, in_)).s.clock == r2.s.clock;
    L.LeaseSafety(r.s, Trace(r, all), lease.cellId, lease.key, lease.expiresAt.value);
    ReturnIsLease(r2, j, in_, got);
    InvAlways(r, all);
    W.HoldersSingle(Exec(r, all).s.db, lease.key, lease.cellId);
  }

  /** A commit that took effect and lost its reply is reported as an error, yet nothing is lost: while its lease runs
      unreleased, a call with the same key that succeeds returns exactly it, no second cell carries the key, and
      calls with other keys get other cells. */
  lemma LostCommitIsReplayed(
    r: State, i: nat, in1: Input, between: seq<Action>, j: nat, in2: Input, got: C.Reservation)
    requires Inv(r) && i in r.callers && r.callers[i].pc.AtCommit? && in1.fault == ReplyLost
    requires Returns(Exec(Apply(r, Step(i, in1)), between), j, in2, got)
    requires World(R.Release(r.callers[i].pc.cell, r.callers[i].req.key)) !in between
    requires Exec(Apply(r, Step(i, in1)), between).s.clock <= r.callers[i].expiresAt
    ensures
      var c := r.callers[i];
      && Next(r, i, in1) == Done(Err(DataUnavailable))
      && c.pc.cell in r.s.db.cells
      && var lease := C.Reservation(c.pc.cell, r.s.db.cells[c.pc.cell].size, c.req.key, Some(c.expiresAt));
      && (if got.key == c.req.key then got == lease else got.cellId != c.pc.cell)
      && C.Holders(Apply(Exec(Apply(r, Step(i, in1)), between), Step(j, in2)).s.db.cells, c.req.key) == {c.pc.cell}
  {
    var c := r.callers[i];
    assert CallerOk(r, c);
    StepInv(r, Step(i, in1));
    var lease := C.Reservation(c.pc.cell, r.s.db.cells[c.pc.cell].size, c.req.key, Some(c.expiresAt));
    LeaseSettlesReturns(Apply(r, Step(i, in1)), lease, between, j, in2, got);
  }

  /** A locking lookup of a key waits for a call that has written it and not committed, and so does another UPDATE that
      would write it. */
  lemma UncommittedKeyIsWaitedFor(r: State, id: nat, other: nat, in_: Input)
    requires id in r.callers && other in r.callers && other != id && r.callers[other].pc.AtCommit?
    requires r.callers[other].req.key == r.callers[id].req.key && in_.fault == NoFault
    requires r.callers[id].pc.AtKeyLock?
          || (r.callers[id].pc.AtUpdate?
              && forall x :: x in r.s.db.cells && x != r.callers[id].pc.cell ==>
                   r.s.db.cells[x].key != Some(r.callers[id].req.key))
    ensures Apply(r, Step(id, in_)) == r
  {
    assert KeyPending(r, id, r.callers[id].req.key);
    if r.callers[id].pc.AtUpdate? {
      assert C.Holders(r.s.db.cells, r.callers[id].req.key) - {r.callers[id].pc.cell} == {};
    }
    assert r.callers[id := r.callers[id]] == r.callers;
  }

  /** A collision on the key is resolved by re-reading its owner: the UPDATE of a row while another one carries the key
      writes nothing, and the call then returns that other row's reservation. */
  lemma CollisionReturnsTheOwner(r: State, id: nat, in1: Input, in2: Input, owner: nat)
    requires Inv(r) && id in r.callers && r.callers[id].pc.AtUpdate?
    requires in1.fault == NoFault && in2.fault == NoFault
    requires owner in r.s.db.cells && r.s.db.cells[owner].key == Some(r.callers[id].req.key)
    requires owner != r.callers[id].pc.cell
    ensures
      var r1 := Apply(r, Step(id, in1));
      var r2 := Apply(r1, Step(id, in2));
      var got := C.Reservation(owner, r.s.db.cells[owner].size, r.callers[id].req.key, r.s.db.cells[owner].lockExpires);
      r2.s == r.s && id in r2.callers && r2.callers[id].pc == Done(Ok(got))
  {
    W.HoldersSingle(r.s.db, r.callers[id].req.key, owner);
    assert owner in C.Holders(r.s.db.cells, r.callers[id].req.key) - {r.callers[id].pc.cell};
  }

  /** Statements a Reserve call can still run. */
  function Remaining(pc: Pc): nat {
    match pc
    case AtUseCaseFind => 12
    case AtFind => 11
    case AtBegin(first) => if first then 10 else 7
    case AtKeyLock(_) => 6
    case AtSelect(first, _) => if first then 9 else 5
    case AtRefind(first) => if first then 8 else 4
    case AtUpdate(_, _) => 3
    case AtCommit(_, _) => 2
    case AtDuplicate => 1
    case Done(_) => 0
  }

  /** The two passes end: a statement of a call either waits, leaving everything as it is, or brings the call
      strictly closer to returning. */
  lemma ReserveTerminates(r: State, id: nat, in_: Input)
    requires id in r.callers && !r.callers[id].pc.Done?
    ensures
      var pc, pc' := r.callers[id].pc, Next(r, id, in_);
      pc' == pc || Remaining(pc') < Remaining(pc) <= 12
  {
  }

  ghost predicate CanMove(r: State, id: nat) {
    id in r.callers && exists pick :: Moves(r, id, pick)
  }

  predicate Moves(r: State, id: nat, pick: nat)
    requires id in r.callers
  {
    Next(r, id, Input(pick, false, NoFault, false)) != r.callers[id].pc
  }

  /** The holder of a row can go on, unless it waits for a key another holder is about to commit. */
  lemma HolderMoves(r: State, id: nat) returns (mover: nat)
    requires Inv(r) && id in r.callers && HoldsRow(r.callers[id].pc)
    ensures CanMove(r, mover)
  {
    mover := id;
    if r.callers[id].pc.AtUpdate? && KeyPending(r, id, r.callers[id].req.key) {
      mover :| mover in r.callers && mover != id && r.callers[mover].pc.AtCommit?
            && r.callers[mover].req.key == r.callers[id].req.key;
    }
    assert Moves(r, mover, 0);
  }

  /** No deadlock: while some call has not returned, some call can run its next statement without failing. */
  lemma SomeoneMoves(r: State, id: nat) returns (mover: nat)
    requires Inv(r) && id in r.callers && !r.callers[id].pc.Done?
    ensures CanMove(r, mover)
  {
    if HoldsRow(r.callers[id].pc) {
      mover := HolderMoves(r, id);
    } else if j :| j in r.callers && j != id && HoldsRow(r.callers[j].pc) {
      mover := HolderMoves(r, j);
    } else {
      mover := id;
      NobodyInTheWay(r, id);
    }
  }

  lemma NobodyInTheWay(r: State, id: nat)
    requires Inv(r) && id in r.callers && !r.callers[id].pc.Done? && !HoldsRow(r.callers[id].pc)
    requires forall j :: j in r.callers && j != id ==> !HoldsRow(r.callers[j].pc)
    ensures CanMove(r, id)
  {
    var c := r.callers[id];
    assert Barred(r, id) == {} && !SiteLocked(r, id, c.req.siteId) && !KeyPending(r, id, c.req.key);
    var pick := 0;
    if c.pc.AtSelect? && C.Candidates(r.s.db, c.req, c.pc.now, r.s.setup.threshold) != {} {
      pick :| pick in C.Candidates(r.s.db, c.req, c.pc.now, r.s.setup.threshold);
    }
    assert Moves(r, id, pick);
  }

  // ---- a call with nobody in its way ----

  /** The row an unhindered SELECT returns: the first candidate. */
  function FirstPick(r: State, id: nat): nat
    requires id in r.callers
  {
    var c := r.callers[id];
    if c.pc.AtSelect? && C.Candidates(r.s.db, c.req, c.pc.now, r.s.setup.threshold) != {}
    then Least(C.Candidates(r.s.db, c.req, c.pc.now, r.s.setup.threshold)) else 0
  }

  function Alone(s: R.State, id: nat, req: C.Request, expiresAt: int, pc: Pc): State {
    State(s, map[id := Caller(req, expiresAt, pc)])
  }

  lemma AloneNeverWaits(s: R.State, id: nat, req: C.Request, expiresAt: int, pc: Pc)
    requires !pc.Done?
    ensures
      var r := Alone(s, id, req, expiresAt, pc);
      var in_ := Input(FirstPick(r, id), false, NoFault, false);
      Remaining(Next(r, id, in_)) < Remaining(pc)
  {
    var r := Alone(s, id, req, expiresAt, pc);
    assert LockedByOthers(r, id) == {} && Barred(r, id) == {};
    ReserveTerminates(r, id, Input(FirstPick(r, id), false, NoFault, false));
    if pc.AtSelect? {
      var candidates := C.Candidates(s.db, req, pc.now, s.setup.threshold);
      assert candidates - {} == candidates;
    }
  }

  /** The table and result of a call that runs by itself to its end. */
  function RunAlone(s: R.State, id: nat, req: C.Request, expiresAt: int, pc: Pc): (R.State, Result<C.Reservation>)
    decreases Remaining(pc)
  {
    if pc.Done? then (s, pc.result)
    else
      var r := Alone(s, id, req, expiresAt, pc);
      var in_ := Input(FirstPick(r, id), false, NoFault, false);
      AloneNeverWaits(s, id, req, expiresAt, pc);
      RunAlone(Apply(r, Step(id, in_)).s, id, req, expiresAt, Next(r, id, in_))
  }

  lemma CommitAlone(s: R.State, id: nat, req: C.Request, expiresAt: int, cell: nat)
    requires cell in s.db.cells
    ensures RunAlone(s, id, req, expiresAt, AtCommit(cell, s.clock))
         == (s.(db := C.TakeCell(s.db, cell, req.key, expiresAt)),
             Ok(C.Reservation(cell, s.db.cells[cell].size, req.key, Some(expiresAt))))
  {
    var r := Alone(s, id, req, expiresAt, AtCommit(cell, s.clock));
    assert Commits(r, id, Input(FirstPick(r, id), false, NoFault, false));
  }

  lemma SelectAlone(s: R.State, id: nat, req: C.Request, expiresAt: int, first: bool)
    requires C.Holders(s.db.cells, req.key) == {}
    requires C.Candidates(s.db, req, s.clock, s.setup.threshold) != {}
    ensures
      var id0 := Least(C.Candidates(s.db, req, s.clock, s.setup.threshold));
      RunAlone(s, id, req, expiresAt, AtSelect(first, s.clock))
      == (s.(db := C.TakeCell(s.db, id0, req.key, expiresAt)),
          Ok(C.Reservation(id0, s.db.cells[id0].size, req.key, Some(expiresAt))))
  {
    var candidates := C.Candidates(s.db, req, s.clock, s.setup.threshold);
    var id0 := Least(candidates);
    var r := Alone(s, id, req, expiresAt, AtSelect(first, s.clock));
    assert LockedByOthers(r, id) == {} && Barred(r, id) == {} && candidates - {} == candidates;
    assert Next(r, id, Input(FirstPick(r, id), false, NoFault, false)) == AtUpdate(id0, s.clock);
    var r1 := Alone(s, id, req, expiresAt, AtUpdate(id0, s.clock));
    assert C.Holders(s.db.cells, req.key) - {id0} == {};
    assert Next(r1, id, Input(FirstPick(r1, id), false, NoFault, false)) == AtCommit(id0, s.clock);
    assert RunAlone(s, id, req, expiresAt, AtSelect(first, s.clock))
        == RunAlone(s, id, req, expiresAt, AtUpdate(id0, s.clock));
    assert RunAlone(s, id, req, expiresAt, AtUpdate(id0, s.clock))
        == RunAlone(s, id, req, expiresAt, AtCommit(id0, s.clock));
    CommitAlone(s, id, req, expiresAt, id0);
  }

  /** The protocol refines the plain description: a call that meets nobody does what ReserveAvailable says. */
  lemma AloneIsReserveAvailable(s: R.State, id: nat, req: C.Request, expiresAt: int)
    ensures
      var (db', result) := C.ReserveAvailable(s.db, req, expiresAt, s.clock, s.clock, s.setup.threshold, {});
      RunAlone(s, id, req, expiresAt, AtFind) == (s.(db := db'), result)
  {
    var candidates := C.Candidates(s.db, req, s.clock, s.setup.threshold);
    assert candidates - {} == candidates;
    if C.Holders(s.db.cells, req.key) == {} {
      assert RunAlone(s, id, req, expiresAt, AtFind) == RunAlone(s, id, req, expiresAt, AtBegin(true));
      assert RunAlone(s, id, req, expiresAt, AtBegin(true)) == RunAlone(s, id, req, expiresAt, AtSelect(true, s.clock));
      if candidates != {} {
        SelectAlone(s, id, req, expiresAt, true);
      } else {
        EmptyAlone(s, id, req, expiresAt);
      }
    }
  }

  lemma EmptyAlone(s: R.State, id: nat, req: C.Request, expiresAt: int)
    requires C.Holders(s.db.cells, req.key) == {}
    requires C.Candidates(s.db, req, s.clock, s.setup.threshold) == {}
    ensures RunAlone(s, id, req, expiresAt, AtSelect(true, s.clock)) == (s, Err(CellNotAvailable))
  {
    EmptyStep(s, id, req, expiresAt, AtRefind(false));
    EmptyStep(s, id, req, expiresAt, AtSelect(false, s.clock));
    EmptyStep(s, id, req, expiresAt, AtKeyLock(s.clock));
    EmptyStep(s, id, req, expiresAt, AtBegin(false));
    EmptyStep(s, id, req, expiresAt, AtRefind(true));
    EmptyStep(s, id, req, expiresAt, AtSelect(true, s.clock));
  }

  /** Where a call goes that finds neither its key nor a cell. */
  function EmptyNext(pc: Pc, clock: int): Pc {
    match pc
    case AtSelect(first, _) => AtRefind(first)
    case AtRefind(first) => if first then AtBegin(false) else Done(Err(CellNotAvailable))
    case AtBegin(first) => if first then AtSelect(true, clock) else AtKeyLock(clock)
    case AtKeyLock(now) => AtSelect(false, now)
    case _ => pc
  }

  lemma EmptyStep(s: R.State, id: nat, req: C.Request, expiresAt: int, pc: Pc)
    requires C.Holders(s.db.cells, req.key) == {}
    requires C.Candidates(s.db, req, s.clock, s.setup.threshold) == {}
    requires pc.AtRefind? || pc.AtBegin? || ((pc.AtSelect? || pc.AtKeyLock?) && pc.now == s.clock)
    ensures RunAlone(s, id, req, expiresAt, pc) == RunAlone(s, id, req, expiresAt, EmptyNext(pc, s.clock))
  {
    var r := Alone(s, id, req, expiresAt, pc);
    assert LockedByOthers(r, id) == {} && Barred(r, id) == {};
    assert Next(r, id, Input(FirstPick(r, id), false, NoFault, false)) == EmptyNext(pc, s.clock);
    assert Apply(r, Step(id, Input(FirstPick(r, id), false, NoFault, false))).s == s;
  }
}
