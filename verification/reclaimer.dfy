/** The reclaimer's drain loop. Each pass is a transaction of its own, taken with SKIP LOCKED, and everybody but new
    reservations may act between passes. */
module Reclaiming {
  import opened Schema
  import opened Sets
  import opened Repositories
  import C = CellTx
  import E = Outcomes
  import W = Ownership
  import R = Runs

  /** What a pass meets: what the others do before it, its clock reading, the rows they hold locked then, and the
      fault of its transaction. */
  datatype Pass = Pass(others: seq<R.Action>, at: int, skip: set<nat>, fault: Fault)

  /** The others do anything but lock cells under a reservation key. */
  predicate NoReservations(actions: seq<R.Action>) {
    forall i :: 0 <= i < |actions| ==> !actions[i].Reserve? && !actions[i].Take?
  }

  function ReservedCells(cells: map<nat, Cell>): set<nat> {
    set id | id in cells && W.Reserved(cells[id])
  }

  lemma StepAddsNoLocks(s: R.State, a: R.Action)
    requires !a.Reserve? && !a.Take?
    ensures ReservedCells(R.Apply(s, a).db.cells) <= ReservedCells(s.db.cells)
  {
    hide C.ReserveAvailable;
  }

  lemma {:induction false} OthersAddNoLocks(s: R.State, actions: seq<R.Action>)
    requires NoReservations(actions)
    ensures ReservedCells(R.Exec(s, actions).db.cells) <= ReservedCells(s.db.cells)
  {
    if actions == [] {
    } else {
      OthersAddNoLocks(s, actions[..|actions| - 1]);
      StepAddsNoLocks(R.Exec(s, actions[..|actions| - 1]), actions[|actions| - 1]);
    }
  }

  // ---- a run, pass by pass ----

  /** What a run is started on: the tables, the setup and the batch size. */
  datatype Job = Job(db: Db, setup: Setup, batch: nat)

  /** The tables when pass n is due ... */
  function StartOf(job: Job, world: nat -> Pass, n: nat): Db
    decreases n, 0
  {
    if n == 0 then job.db else LeftBy(job, world, n - 1)
  }

  /** ... as it finds them, after the others ... */
  function FoundBy(job: Job, world: nat -> Pass, n: nat): Db
    decreases n, 1
  {
    After(StartOf(job, world, n), world(n).at, job.setup, world(n).others)
  }

  /** ... and as its transaction leaves them. */
  function LeftBy(job: Job, world: nat -> Pass, n: nat): Db
    decreases n, 2
  {
    C.ReclaimExpired(FoundBy(job, world, n), world(n).at, job.batch, world(n).skip, job.setup.openRows).0
  }

  /** The lapsed rows pass n can see. */
  function Visible(job: Job, world: nat -> Pass, n: nat): set<nat> {
    C.LapsedCells(FoundBy(job, world, n).cells, world(n).at) - world(n).skip
  }

  /** The rows of a batch, if the driver lets it be freed. */
  function BatchOf(visible: set<nat>, batch: nat, openRows: bool): (freed: set<nat>)
    ensures freed <= visible
  {
    if openRows then Elements(FirstN(visible, batch)) else {}
  }

  /** The rows pass n frees. */
  function FreedBy(job: Job, world: nat -> Pass, n: nat): set<nat> {
    BatchOf(Visible(job, world, n), job.batch, job.setup.openRows)
  }

  /** The rows the first n passes free. */
  function FreedUpTo(job: Job, world: nat -> Pass, n: nat): set<nat> {
    if n == 0 then {} else FreedUpTo(job, world, n - 1) + FreedBy(job, world, n - 1)
  }

  /** A freed cell had lapsed when its pass found it, was not skipped, and is idle without key or expiry. */
  lemma FreedHadLapsed(job: Job, world: nat -> Pass, n: nat, id: nat)
    requires job.batch > 0 && id in FreedBy(job, world, n)
    ensures
      var found, left := FoundBy(job, world, n).cells, LeftBy(job, world, n).cells;
      && id in found && C.Lapsed(found[id], world(n).at) && id !in world(n).skip
      && id in left && left[id].status == Idle && W.NoLease(left[id])
  {
    assert id in Visible(job, world, n);
    PassResult(FoundBy(job, world, n), world(n).at, job.batch, world(n).skip, job.setup.openRows);
  }

  /** One transaction: what it reports and writes ... */
  lemma PassResult(db: Db, t: int, batch: nat, skip: set<nat>, openRows: bool)
    requires batch > 0
    ensures
      var visible := C.LapsedCells(db.cells, t) - skip;
      var freed := BatchOf(visible, batch, openRows);
      var (db', r) := C.ReclaimExpired(db, t, batch, skip, openRows);
      && (r.Ok? <==> openRows || visible == {})
      && db' == db.(cells := C.FreeAll(db.cells, freed))
      && (if r.Ok? then r.value == |freed| else freed == {})
  {
    var visible := C.LapsedCells(db.cells, t) - skip;
    var r := C.ReclaimExpired(db, t, batch, skip, openRows).1;
    E.ReclaimCases(db, t, batch, skip, openRows);
    hide C.ReclaimExpired, C.LapsedCells, C.FreeAll;
    EmptyBatch(db.cells, visible, batch);
    BatchRows(visible, batch);
    if r.Ok? && !openRows {
      assert FirstN(visible, batch) == [] && Elements(FirstN(visible, batch)) == {};
    }
  }

  /** ... and what that does to the cells held and lapsed. */
  lemma PassOutcome(cells: map<nat, Cell>, t: int, batch: nat, skip: set<nat>, openRows: bool)
    ensures
      var lapsed := C.LapsedCells(cells, t);
      var freed := BatchOf(lapsed - skip, batch, openRows);
      var after := C.FreeAll(cells, freed);
      && ReservedCells(after) == ReservedCells(cells) - freed
      && freed <= ReservedCells(cells) && |ReservedCells(after)| == |ReservedCells(cells)| - |freed|
      && C.LapsedCells(after, t) == lapsed - freed
      && (|freed| < batch && (openRows || lapsed - skip == {}) ==> C.LapsedCells(after, t) == lapsed * skip)
  {
    var lapsed := C.LapsedCells(cells, t);
    var freed := BatchOf(lapsed - skip, batch, openRows);
    BatchRows(lapsed - skip, batch);
    FreedCells(cells, freed, t);
    hide C.FreeAll, C.LapsedCells, ReservedCells, FirstN;
    RestSize(ReservedCells(cells), freed);
  }

  lemma BatchRows(visible: set<nat>, batch: nat)
    ensures
      var rows := FirstN(visible, batch);
      |Elements(rows)| == |rows| && Elements(rows) <= visible && (|rows| < batch ==> Elements(rows) == visible)
  {
    FirstNOrdered(visible, batch);
    ElementsSize(FirstN(visible, batch));
  }

  lemma RestSize(all: set<nat>, part: set<nat>)
    requires part <= all
    ensures |all - part| == |all| - |part|
  {
  }

  lemma EmptyBatch(cells: map<nat, Cell>, visible: set<nat>, batch: nat)
    requires batch > 0
    ensures FirstN(visible, batch) == [] <==> visible == {}
    ensures Elements([]) == {} && C.FreeAll(cells, {}) == cells
  {
  }

  lemma FreedCells(cells: map<nat, Cell>, freed: set<nat>, t: int)
    requires freed <= C.LapsedCells(cells, t)
    ensures ReservedCells(C.FreeAll(cells, freed)) == ReservedCells(cells) - freed
    ensures C.LapsedCells(C.FreeAll(cells, freed), t) == C.LapsedCells(cells, t) - freed
    ensures freed <= ReservedCells(cells)
  {
    var after := C.FreeAll(cells, freed);
    assert forall id :: id in cells && id in freed ==> after[id].status == Idle;
  }

  // ---- a run nobody disturbs ----

  /** No others, no locked rows, and a clock that never goes back. */
  ghost predicate Undisturbed(world: nat -> Pass) {
    && (forall n: nat :: world(n).others == [] && world(n).skip == {})
    && (forall i: nat, j: nat :: i <= j ==> world(i).at <= world(j).at)
  }

  lemma FreeInTwo(cells: map<nat, Cell>, a: set<nat>, b: set<nat>)
    requires a !! b
    ensures C.FreeAll(cells, {}) == cells
    ensures C.FreeAll(C.FreeAll(cells, a), b) == C.FreeAll(cells, a + b)
  {
  }

  lemma LaterLapsed(cells: map<nat, Cell>, t: int, t': int)
    requires t <= t'
    ensures C.LapsedCells(cells, t) <= C.LapsedCells(cells, t')
  {
  }

  /** Undisturbed passes free one growing set of cells that have all lapsed, and write nothing else. */
  lemma {:induction false} OneSweep(job: Job, world: nat -> Pass, n: nat)
    requires Undisturbed(world) && job.batch > 0
    ensures
      var freed, freed' := FreedUpTo(job, world, n), FreedUpTo(job, world, n + 1);
      && FoundBy(job, world, n) == job.db.(cells := C.FreeAll(job.db.cells, freed))
      && LeftBy(job, world, n) == job.db.(cells := C.FreeAll(job.db.cells, freed'))
      && freed <= freed' <= C.LapsedCells(job.db.cells, world(n).at)
  {
    hide C.ReclaimExpired, C.FreeAll, C.LapsedCells, FirstN, FreedBy;
    var freed := FreedUpTo(job, world, n);
    var t := world(n).at;
    if n == 0 {
      FreeInTwo(job.db.cells, {}, {});
    } else {
      OneSweep(job, world, n - 1);
      LaterLapsed(job.db.cells, world(n - 1).at, t);
    }
    NobodyActs(job, world, n);
    assert FoundBy(job, world, n) == job.db.(cells := C.FreeAll(job.db.cells, freed));
    PassOnRest(job, world, n, freed);
  }

  lemma NobodyActs(job: Job, world: nat -> Pass, n: nat)
    requires world(n).others == []
    ensures FoundBy(job, world, n) == if n == 0 then job.db else LeftBy(job, world, n - 1)
  {
    hide C.ReclaimExpired;
  }

  lemma PassOnRest(job: Job, world: nat -> Pass, n: nat, freed: set<nat>)
    requires job.batch > 0 && freed <= C.LapsedCells(job.db.cells, world(n).at)
    requires FoundBy(job, world, n) == job.db.(cells := C.FreeAll(job.db.cells, freed))
    ensures
      var freed' := freed + FreedBy(job, world, n);
      && LeftBy(job, world, n) == job.db.(cells := C.FreeAll(job.db.cells, freed'))
      && freed' <= C.LapsedCells(job.db.cells, world(n).at)
  {
    hide C.ReclaimExpired, C.FreeAll, C.LapsedCells, BatchOf;
    var t := world(n).at;
    PassResult(FoundBy(job, world, n), t, job.batch, world(n).skip, job.setup.openRows);
    FreedCells(job.db.cells, freed, t);
    FreeInTwo(job.db.cells, freed, FreedBy(job, world, n));
  }

  lemma Swept(job: Job, world: nat -> Pass, n: nat)
    requires job.batch > 0
    ensures Undisturbed(world) ==>
              var lapsed := C.LapsedCells(job.db.cells, world(n).at);
              && FreedUpTo(job, world, n) <= FreedUpTo(job, world, n + 1) <= lapsed
              && FoundBy(job, world, n).cells == C.FreeAll(job.db.cells, FreedUpTo(job, world, n))
              && LeftBy(job, world, n).cells == C.FreeAll(job.db.cells, FreedUpTo(job, world, n + 1))
              && (|FreedBy(job, world, n)| < job.batch && (job.setup.openRows || Visible(job, world, n) == {}) ==>
                    && FreedUpTo(job, world, n + 1) == lapsed
                    && C.LapsedCells(LeftBy(job, world, n).cells, world(n).at) == {})
  {
    hide C.ReclaimExpired, C.FreeAll, C.LapsedCells, BatchOf, FoundBy;
    if Undisturbed(world) {
      OneSweep(job, world, n);
      var found := FoundBy(job, world, n);
      PassResult(found, world(n).at, job.batch, world(n).skip, job.setup.openRows);
      PassOutcome(found.cells, world(n).at, job.batch, world(n).skip, job.setup.openRows);
      assert C.LapsedCells(found.cells, world(n).at) * {} == {};
      FreedCells(job.db.cells, FreedUpTo(job, world, n + 1), world(n).at);
    }
  }

  /** What one pass does to the tables, and what it reports. */
  ghost predicate PassDid(job: Job, world: nat -> Pass, n: nat, start: Db, db: Db, count: Result<nat>) {
    && db == (if world(n).fault == NotApplied then FoundBy(job, world, n) else LeftBy(job, world, n))
    && (count.Ok? <==> world(n).fault == NoFault && (job.setup.openRows || Visible(job, world, n) == {}))
    && ReservedCells(db.cells) <= ReservedCells(start.cells)
    && (count.Ok? ==>
          && count.value == |FreedBy(job, world, n)| && FreedBy(job, world, n) <= ReservedCells(start.cells)
          && FreedBy(job, world, n) !! ReservedCells(db.cells)
          && |ReservedCells(db.cells)| + count.value <= |ReservedCells(start.cells)|
          && (!job.setup.openRows ==> count.value == 0)
          && (count.value < job.batch ==>
                C.LapsedCells(db.cells, world(n).at)
                == C.LapsedCells(FoundBy(job, world, n).cells, world(n).at) * world(n).skip))
  }

  /** A run before pass n. */
  ghost predicate Underway(job: Job, world: nat -> Pass, db: Db, total: nat, freed: set<nat>, n: nat) {
    && db == StartOf(job, world, n) && freed == FreedUpTo(job, world, n) && total == |freed|
    && freed <= ReservedCells(job.db.cells) && freed !! ReservedCells(db.cells)
    && ReservedCells(db.cells) <= ReservedCells(job.db.cells)
    && (forall i :: 0 <= i < n ==> world(i).fault == NoFault && |FreedBy(job, world, i)| == job.batch)
    && (!job.setup.openRows ==> n == 0 && freed == {})
  }

  lemma Begins(job: Job, world: nat -> Pass)
    ensures Underway(job, world, job.db, 0, {}, 0)
  {
  }

  lemma DueAt(job: Job, world: nat -> Pass, db: Db, total: nat, freed: set<nat>, n: nat)
    requires Underway(job, world, db, total, freed, n)
    ensures db == StartOf(job, world, n)
  {
  }

  /** A run in which pass n has just ended. */
  ghost predicate Passed(
    job: Job, world: nat -> Pass, start: Db, db: Db, total: nat, freed: set<nat>, n: nat, count: Result<nat>)
  {
    Underway(job, world, start, total, freed, n) && PassDid(job, world, n, start, db, count)
  }

  /** A full batch leads to the next pass with fewer cells held; anything else ends the run. */
  lemma GoesOn(
    job: Job, world: nat -> Pass, start: Db, db: Db, total: nat, freed: set<nat>, n: nat, count: Result<nat>)
    requires job.batch > 0
    ensures Passed(job, world, start, db, total, freed, n, count) ==>
              var freed' := freed + FreedBy(job, world, n);
              match count
              case Err(e) =>
                EndsAt(job, world, db, total, false, freed, n) && (!job.setup.openRows ==> n == 0 && freed == {})
              case Ok(c) =>
                if c < job.batch
                then EndsAt(job, world, db, total + c, true, freed', n)
                     && (!job.setup.openRows ==> n == 0 && freed' == {})
                else Underway(job, world, db, total + c, freed', n + 1)
                     && |ReservedCells(db.cells)| < |ReservedCells(start.cells)|
  {
    hide EndsAt, Underway, PassDid, FreedBy, ReservedCells, Passed;
    if count.Err? {
      EndsBadly(job, world, start, db, total, freed, n, count);
    } else if count.value < job.batch {
      EndsWell(job, world, start, db, total, freed, n, count);
    } else {
      FullBatch(job, world, start, db, total, freed, n, count);
    }
  }

  lemma EndsBadly(
    job: Job, world: nat -> Pass, start: Db, db: Db, total: nat, freed: set<nat>, n: nat, count: Result<nat>)
    requires count.Err?
    ensures Passed(job, world, start, db, total, freed, n, count) ==>
              EndsAt(job, world, db, total, false, freed, n) && (!job.setup.openRows ==> n == 0 && freed == {})
  {
    hide C.LapsedCells, C.ReclaimExpired, FoundBy, LeftBy, ReservedCells, FreedBy, Visible;
  }

  lemma Adds(freed: set<nat>, more: set<nat>, before: set<nat>, after: set<nat>)
    requires freed !! before && more <= before && more !! after && after <= before
    ensures |freed + more| == |freed| + |more| && freed + more !! after
  {
  }

  lemma EndsWell(
    job: Job, world: nat -> Pass, start: Db, db: Db, total: nat, freed: set<nat>, n: nat, count: Result<nat>)
    requires count.Ok? && count.value < job.batch
    ensures Passed(job, world, start, db, total, freed, n, count) ==>
              var freed' := freed + FreedBy(job, world, n);
              && EndsAt(job, world, db, total + count.value, true, freed', n)
              && (!job.setup.openRows ==> n == 0 && freed' == {})
  {
    hide C.LapsedCells, C.ReclaimExpired, FoundBy, LeftBy, ReservedCells, FreedBy, Visible;
    if Passed(job, world, start, db, total, freed, n, count) {
      Adds(freed, FreedBy(job, world, n), ReservedCells(start.cells), ReservedCells(db.cells));
      assert FreedUpTo(job, world, n + 1) == freed + FreedBy(job, world, n);
    }
  }

  lemma FullBatch(
    job: Job, world: nat -> Pass, start: Db, db: Db, total: nat, freed: set<nat>, n: nat, count: Result<nat>)
    requires count.Ok? && count.value >= job.batch > 0
    ensures Passed(job, world, start, db, total, freed, n, count) ==>
              && |ReservedCells(db.cells)| < |ReservedCells(start.cells)|
              && Underway(job, world, db, total + count.value, freed + FreedBy(job, world, n), n + 1)
  {
    hide C.LapsedCells, C.ReclaimExpired, FoundBy, LeftBy, ReservedCells, Visible, BatchOf, FreedBy;
    BatchIsBounded(job, world, n);
    if Passed(job, world, start, db, total, freed, n, count) {
      Adds(freed, FreedBy(job, world, n), ReservedCells(start.cells), ReservedCells(db.cells));
      assert FreedUpTo(job, world, n + 1) == freed + FreedBy(job, world, n);
    }
  }

  lemma BatchIsBounded(job: Job, world: nat -> Pass, n: nat)
    ensures |FreedBy(job, world, n)| <= job.batch
  {
    BatchRows(Visible(job, world, n), job.batch);
  }

  /** What the definitions of a pass come to. */
  lemma PassDoes(job: Job, world: nat -> Pass, n: nat)
    requires job.batch > 0 && NoReservations(world(n).others)
    ensures
      var p, found := world(n), FoundBy(job, world, n);
      var r := C.ReclaimExpired(found, p.at, job.batch, p.skip, job.setup.openRows).1;
      var count := if p.fault == NoFault then r else Err(DataUnavailable);
      PassDid(job, world, n, StartOf(job, world, n),
              if p.fault == NotApplied then found else LeftBy(job, world, n), count)
  {
    hide C.ReclaimExpired, C.LapsedCells, ReservedCells, BatchOf, FoundBy, LeftBy, StartOf, FreedBy, Visible;
    BeforePass(job, world, n);
    if world(n).fault != NotApplied {
      TransactionDoes(job, world, n);
      RefusedFreesNothing(job, world, n);
    }
  }

  lemma BeforePass(job: Job, world: nat -> Pass, n: nat)
    requires NoReservations(world(n).others)
    ensures
      var held := ReservedCells(StartOf(job, world, n).cells);
      ReservedCells(FoundBy(job, world, n).cells) <= held && |ReservedCells(FoundBy(job, world, n).cells)| <= |held|
  {
    hide ReservedCells, R.Exec;
    var start := StartOf(job, world, n);
    OthersAddNoLocks(R.State(start, world(n).at, job.setup, {}), world(n).others);
    SubsetSize(ReservedCells(FoundBy(job, world, n).cells), ReservedCells(start.cells));
  }

  lemma TransactionDoes(job: Job, world: nat -> Pass, n: nat)
    requires job.batch > 0
    ensures
      var p, found, left := world(n), FoundBy(job, world, n), LeftBy(job, world, n);
      var (visible, freed) := (Visible(job, world, n), FreedBy(job, world, n));
      var r := C.ReclaimExpired(found, p.at, job.batch, p.skip, job.setup.openRows).1;
      && (r.Ok? <==> job.setup.openRows || visible == {})
      && (r.Ok? ==> r.value == |freed|)
      && freed <= ReservedCells(found.cells) && freed !! ReservedCells(left.cells)
      && ReservedCells(left.cells) <= ReservedCells(found.cells)
      && |ReservedCells(left.cells)| == |ReservedCells(found.cells)| - |freed|
      && (r.Ok? && |freed| < job.batch ==>
            C.LapsedCells(left.cells, p.at) == C.LapsedCells(found.cells, p.at) * p.skip)
  {
    hide C.ReclaimExpired, C.FreeAll, C.LapsedCells, ReservedCells, BatchOf, FoundBy;
    var p, found := world(n), FoundBy(job, world, n);
    PassResult(found, p.at, job.batch, p.skip, job.setup.openRows);
    PassOutcome(found.cells, p.at, job.batch, p.skip, job.setup.openRows);
  }

  /** How a run ends at pass `last`, with the tables db: every pass before it was a full batch; each cell is freed and
      counted once; the run ends well exactly if its last transaction works; and what has lapsed and is left then is
      what that pass had to skip. */
  ghost predicate EndsAt(
    job: Job, world: nat -> Pass, db: Db, total: nat, ok: bool, freed: set<nat>, last: nat)
  {
    && db == (if !ok && world(last).fault == NotApplied then FoundBy(job, world, last) else LeftBy(job, world, last))
    && freed == FreedUpTo(job, world, if ok then last + 1 else last) && total == |freed|
    && freed <= ReservedCells(job.db.cells) && freed !! ReservedCells(db.cells)
    && (forall i :: 0 <= i < last ==> world(i).fault == NoFault && |FreedBy(job, world, i)| == job.batch)
    && (ok <==> world(last).fault == NoFault && (job.setup.openRows || Visible(job, world, last) == {}))
    && (ok ==> |FreedBy(job, world, last)| < job.batch)
    && (ok ==> C.LapsedCells(db.cells, world(last).at)
               == C.LapsedCells(FoundBy(job, world, last).cells, world(last).at) * world(last).skip)
  }

  /** Undisturbed, a run that ends well is one exact sweep at its last reading. */
  lemma UndisturbedRunIsOneSweep(
    job: Job, world: nat -> Pass, db: Db, total: nat, ok: bool, freed: set<nat>, last: nat)
    requires job.batch > 0 && EndsAt(job, world, db, total, ok, freed, last)
    requires Undisturbed(world) && (ok || world(last).fault != ReplyLost)
    ensures
      var lapsed := C.LapsedCells(job.db.cells, world(last).at);
      && db.cells == C.FreeAll(job.db.cells, freed) && freed <= lapsed
      && (ok ==> freed == lapsed && C.LapsedCells(db.cells, world(last).at) == {})
  {
    hide C.ReclaimExpired, C.FreeAll, C.LapsedCells, BatchOf, FoundBy, LeftBy, ReservedCells;
    Swept(job, world, last);
    if !ok && world(last).fault == NoFault { RefusedFreesNothing(job, world, last); }
  }

  lemma Sweep(job: Job, world: nat -> Pass, db: Db, total: nat, ok: bool, freed: set<nat>, last: nat)
    requires job.batch > 0 && EndsAt(job, world, db, total, ok, freed, last)
    ensures Undisturbed(world) && (ok || world(last).fault != ReplyLost) ==>
              var lapsed := C.LapsedCells(job.db.cells, world(last).at);
              && db.cells == C.FreeAll(job.db.cells, freed) && freed <= lapsed
              && (ok ==> freed == lapsed && C.LapsedCells(db.cells, world(last).at) == {})
  {
    if Undisturbed(world) && (ok || world(last).fault != ReplyLost) {
      UndisturbedRunIsOneSweep(job, world, db, total, ok, freed, last);
    }
  }

  lemma RefusedFreesNothing(job: Job, world: nat -> Pass, n: nat)
    ensures !job.setup.openRows ==> FreedBy(job, world, n) == {}
  {
  }

  /** A lapsed row another worker holds locked is left over by a run that ends well: a reservation from an
      installation, its expiry, and one pass that has to skip it. */
  lemma SkippedRowIsLeft()
    ensures
      var s := R.Exec(R.Installation(), [R.Reserve(C.Request(1, Small, "k"), 30, 0, 0, {}), R.Tick(31)]);
      && C.ReclaimExpired(s.db, s.clock, 100, {1}, true) == (s.db, Ok(0))
      && C.LapsedCells(s.db.cells, s.clock) == {1}
  {
    var s0 := R.Installation();
    var reserve := R.Reserve(C.Request(1, Small, "k"), 30, 0, 0, {});
    OnlyCandidate();
    R.ExecOne(s0, [], reserve);
    R.ExecOne(s0, [reserve], R.Tick(31));
    assert [] + [reserve] == [reserve] && [reserve] + [R.Tick(31)] == [reserve, R.Tick(31)];
    hide C.ReserveAvailable, C.ReclaimExpired;
    var s := R.Exec(s0, [reserve, R.Tick(31)]);
    assert s.db == C.TakeCell(s0.db, 1, "k", 30) && s.clock == 31;
    assert C.LapsedCells(s.db.cells, 31) == {1};
    PassResult(s.db, 31, 100, {1}, true);
    EmptyBatch(s.db.cells, {}, 100);
  }

  lemma OnlyCandidate()
    ensures C.ReserveAvailable(R.Installation().db, C.Request(1, Small, "k"), 30, 0, 0, 1, {}).0
         == C.TakeCell(R.Installation().db, 1, "k", 30)
  {
    var db := R.Installation().db;
    assert C.Holders(db.cells, "k") == {};
    assert C.Candidates(db, C.Request(1, Small, "k"), 0, 1) - {} == {1};
  }

  class Reclaimer {
    const store: Store
    const batch: nat

    constructor (store: Store, batch: nat)
      ensures this.store == store && this.batch == batch
    {
      this.store, this.batch := store, batch;
    }

    /** Drains lapsed locks in bounded batches until a batch comes back short, whatever the batch size, the clock
        readings, the rows others hold locked and the other steps between passes. The loop ends because nothing but a
        reservation adds a reservation-held cell and each full batch uses some up. The total counts each freed cell
        once; a run that ends well leaves lapsed only rows that its last pass had to skip. A pass fails for reasons of
        its own, or because the driver refuses its UPDATEs; it ends the run with the total so far. Undisturbed, a run
        that ends well is one exact sweep at its last reading. */
    method RunOnce(world: nat -> Pass) returns (total: nat, ok: bool, ghost freed: set<nat>, ghost last: nat)
      requires store.Valid() && batch > 0
      requires forall n: nat :: NoReservations(world(n).others)
      modifies store
      ensures store.Valid()
      ensures EndsAt(Job(old(store.Rows()), store.setup, batch), world, store.Rows(), total, ok, freed, last)
      ensures !store.setup.openRows ==> last == 0 && freed == {}
      ensures Undisturbed(world) && (ok || world(last).fault != ReplyLost) ==>
                && store.cells == C.FreeAll(old(store.cells), freed)
                && freed <= C.LapsedCells(old(store.cells), world(last).at)
                && (ok ==> freed == C.LapsedCells(old(store.cells), world(last).at)
                           && C.LapsedCells(store.cells, world(last).at) == {})
    {
      hide W.Inv, Underway, PassDid, EndsAt, Undisturbed, StartOf, FreedBy, ReservedCells;
      hide C.LapsedCells, C.FreeAll, NoReservations;
      ghost var job := Job(store.Rows(), store.setup, batch);
      last, freed, total := 0, {}, 0;
      var pass: nat := 0;
      Begins(job, world);
      while true
        invariant store.Valid() && last == pass
        invariant Underway(job, world, store.Rows(), total, freed, pass)
        decreases |ReservedCells(store.cells)|
      {
        DueAt(job, world, store.Rows(), total, freed, pass);
        ghost var start := store.Rows();
        var count := RunPass(job, world, pass);
        GoesOn(job, world, start, store.Rows(), total, freed, pass, count);
        if count.Err? {
          Sweep(job, world, store.Rows(), total, false, freed, last);
          return total, false, freed, last;
        }
        freed := freed + FreedBy(job, world, pass);
        total := total + count.value;
        if count.value < batch {
          Sweep(job, world, store.Rows(), total, true, freed, last);
          return total, true, freed, last;
        }
        pass := pass + 1;
        last := pass;
      }
    }

    /** One pass: everybody else's steps, then its transaction. */
    method RunPass(ghost job: Job, world: nat -> Pass, n: nat) returns (count: Result<nat>)
      requires store.Valid() && batch > 0 && NoReservations(world(n).others)
      requires job.setup == store.setup && job.batch == batch && store.Rows() == StartOf(job, world, n)
      modifies store
      ensures store.Valid() && PassDid(job, world, n, old(store.Rows()), store.Rows(), count)
    {
      hide W.Inv, C.ReclaimExpired, PassDid, R.Exec;
      PassDoes(job, world, n);
      var p := world(n);
      store.Meanwhile(p.at, p.others);
      if p.fault == NotApplied {
        return Err(DataUnavailable);
      }
      count := store.ReclaimExpired(p.at, batch, p.skip);
      if p.fault == ReplyLost {
        count := Err(DataUnavailable);
      }
    }
  }
}
