/** One Execute call as the code runs it, over the command repository and amid everything others do, proved to be the
    protocol's run of that caller; and what such a run achieves. `world` gives what each step meets, indexed by how many
    steps can still follow: what the others do before it, and the input of its call. */
module Devices {
  import opened Schema
  import opened Commands
  import Laws = CommandLaws
  import T = CommandTheorems

  datatype Moment = Moment(others: seq<Action>, in_: Input)

  predicate NotBy(id: nat, actions: seq<Action>) {
    forall i :: 0 <= i < |actions| ==> !(actions[i].Step? && actions[i].client == id)
  }

  /** The system after the others have acted, time passing included. */
  function Meantime(cfg: Config, s: State, id: nat, m: Moment): State {
    if NotBy(id, m.others) then Exec(cfg, s, m.others) else s
  }

  lemma {:induction false} OthersLeaveCaller(cfg: Config, s: State, id: nat, actions: seq<Action>)
    requires id in s.clients && NotBy(id, actions)
    ensures id in Exec(cfg, s, actions).clients && Exec(cfg, s, actions).clients[id] == s.clients[id]
  {
    hide Move;
    if actions == [] {
    } else {
      OthersLeaveCaller(cfg, s, id, actions[..|actions| - 1]);
    }
  }

  lemma MeantimeLeavesCaller(cfg: Config, s: State, id: nat, m: Moment)
    requires id in s.clients
    ensures id in Meantime(cfg, s, id, m).clients && Meantime(cfg, s, id, m).clients[id] == s.clients[id]
  {
    if NotBy(id, m.others) { OthersLeaveCaller(cfg, s, id, m.others); }
  }

  /** The run of one caller to its end, the others acting before each of its steps. */
  function Course(cfg: Config, s: State, id: nat, world: nat -> Moment): State
    requires id in s.clients
    decreases T.Remaining(s.clients[id].pc)
  {
    if s.clients[id].pc.Done? then s
    else
      var m := world(T.Remaining(s.clients[id].pc));
      var t := Meantime(cfg, s, id, m);
      MeantimeLeavesCaller(cfg, s, id, m);
      T.ExecuteTerminates(cfg, t, id, m.in_);
      Course(cfg, Apply(cfg, t, Step(id, m.in_)), id, world)
  }

  /** The caller at a point of its call, among others. */
  function Among(
    rows: map<string, Command>, devices: map<string, Device>, clock: int, peers: map<nat, Client>,
    marked: map<string, Winner>, calls: seq<Call>, id: nat, req: Request, pc: Pc): State
  {
    State(rows, devices, clock, peers[id := Client(req, pc)], marked, calls)
  }

  lemma CourseStep(cfg: Config, s: State, id: nat, req: Request, pc: Pc, world: nat -> Moment)
    requires id in s.clients && s.clients[id] == Client(req, pc) && !pc.Done?
    ensures
      var t := Meantime(cfg, s, id, world(T.Remaining(pc)));
      && id in t.clients && t.clients[id] == Client(req, pc)
      && var e := Move(cfg, t, id, world(T.Remaining(pc)).in_);
      var t' := Among(e.rows, t.devices, t.clock, t.clients, e.marked, e.calls, id, req, e.pc);
      Course(cfg, s, id, world) == if e.pc.Done? then t' else Course(cfg, t', id, world)
  {
    hide Move, Meantime;
    var m := world(T.Remaining(pc));
    MeantimeLeavesCaller(cfg, s, id, m);
    T.ExecuteTerminates(cfg, Meantime(cfg, s, id, m), id, m.in_);
  }

  lemma MissedMark(rows: map<string, Command>, no: string, now: int)
    ensures MarkHits(rows, no, now) == {} ==> Commands.MarkRunning(rows, no, now) == rows
  {
    assert forall k :: k in rows && Markable(rows[k], no, now) ==> k in MarkHits(rows, no, now);
  }

  /** Seen from a caller with time and attempts left, the compare-and-set has three outcomes. */
  lemma MarkEffect(s: State, id: nat, cmd: Command, now: int, in_: Input)
    requires now < cmd.expiresAt && cmd.attempts < MAX_ATTEMPTS
    ensures
      var e := Mark(s, id, cmd, now, in_);
      && e.calls == s.calls
      && e.rows == (if in_.fault == NotApplied then s.rows else MarkRunning(s.rows, cmd.no, now))
      && e.pc == if in_.fault != NoFault then Done(Some(cmd), Some(Unavailable))
                 else if MarkHits(s.rows, cmd.no, now) != {} then AtGateway(cmd.(attempts := cmd.attempts + 1))
                 else Done(Some(cmd), Some(Busy))
  {
    MissedMark(s.rows, cmd.no, now);
  }

  lemma RefusedAtOnce(cfg: Config, s: State, id: nat, world: nat -> Moment)
    requires id in s.clients
    ensures s.clients[id].pc.Done? ==> Course(cfg, s, id, world) == s
  {
  }

  class CommandRepository {
    const cfg: Config
    var rows: map<string, Command>
    var devices: map<string, Device>

    constructor (cfg: Config, rows: map<string, Command>, devices: map<string, Device>)
      ensures this.cfg == cfg && this.rows == rows && this.devices == devices
    {
      this.cfg, this.rows, this.devices := cfg, rows, devices;
    }

    /** The INSERT alone; the new row is read back by a separate statement. */
    method InsertCommand(cmd: Command, fault: Fault) returns (failure: Option<Failure>)
      modifies this`rows
      ensures failure == InsertFailure(cfg, old(rows), devices, cmd, fault)
      ensures rows == InsertRows(cfg, old(rows), devices, cmd, fault)
    {
      if cfg.parse(cmd.payload).None? {
        return Some(InvalidPayload);
      }
      if fault == NotApplied {
        return Some(Unavailable);
      }
      if cmd.deviceNo !in devices {
        return Some(DeviceNotFound);
      }
      if cmd.key in rows || (exists k :: k in rows && rows[k].no == cmd.no) {
        return Some(KeyConflict);
      }
      rows := rows[cmd.key := cmd];
      failure := if fault == ReplyLost then Some(Unavailable) else None;
    }

    method MarkRunning(no: string, now: int, fault: Fault) returns (marked: bool, failure: Option<Failure>)
      modifies this`rows
      ensures rows == if fault == NotApplied then old(rows) else Commands.MarkRunning(old(rows), no, now)
      ensures failure == if fault == NoFault then None else Some(Unavailable)
      ensures marked <==> fault == NoFault && MarkHits(old(rows), no, now) != {}
    {
      if fault == NotApplied {
        return false, Some(Unavailable);
      }
      var affected := MarkHits(rows, no, now);
      rows := Commands.MarkRunning(rows, no, now);
      marked := fault == NoFault && affected != {};
      failure := if fault == NoFault then None else Some(Unavailable);
    }

    method CompleteCommand(no: string, status: Status, outcome: Outcome, code: Code, fault: Fault)
      returns (failure: Option<Failure>)
      modifies this`rows
      ensures rows == if fault == NotApplied then old(rows) else Complete(old(rows), no, status, outcome, code)
      ensures failure == if fault != NoFault then Some(Unavailable)
                         else if CompleteHits(old(rows), no, status) != {} then None else Some(NotRunning)
    {
      if fault == NotApplied {
        return Some(Unavailable);
      }
      var affected := CompleteHits(rows, no, status);
      rows := Complete(rows, no, status, outcome, code);
      if fault == ReplyLost {
        return Some(Unavailable);
      }
      if affected != {} {
        return None;
      }
      failure := Some(NotRunning);
    }
  }

  /** `clock` is what the clock reads; `peers`, `marked` and `calls` are the other callers and the recorded history. */
  class CommandUseCase {
    const repo: CommandRepository
    var clock: int
    var peers: map<nat, Client>
    var marked: map<string, Winner>
    var calls: seq<Call>

    constructor (repo: CommandRepository, clock: int)
      ensures this.repo == repo && this.clock == clock && peers == map[] && marked == map[] && calls == []
    {
      this.repo, this.clock := repo, clock;
      peers, marked, calls := map[], map[], [];
    }

    function Sys(id: nat, req: Request, pc: Pc): State
      reads this, repo
    {
      Among(repo.rows, repo.devices, clock, peers, marked, calls, id, req, pc)
    }

    /** What everybody else does before the caller's next step. */
    method Meanwhile(id: nat, req: Request, pc: Pc, m: Moment)
      modifies this, repo`rows, repo`devices
      ensures
        var t := Meantime(repo.cfg, old(Sys(id, req, pc)), id, m);
        && repo.rows == t.rows && repo.devices == t.devices && clock == t.clock
        && peers == t.clients && marked == t.marked && calls == t.calls
    {
      var t := Meantime(repo.cfg, Sys(id, req, pc), id, m);
      repo.rows, repo.devices := t.rows, t.devices;
      clock, peers, marked, calls := t.clock, t.clients, t.marked, t.calls;
    }

    method Execute(id: nat, req: Request, world: nat -> Moment)
      returns (returned: Option<Command>, failure: Option<Failure>)
      modifies this, repo`rows, repo`devices
      ensures Sys(id, req, Done(returned, failure)) == Course(repo.cfg, old(Sys(id, req, Start(req))), id, world)
    {
      hide Course, Meantime;
      RefusedAtOnce(repo.cfg, Sys(id, req, Start(req)), id, world);
      if Blank(req.key) {
        return None, Some(KeyMissing);
      }
      if req.verb == UnknownVerb {
        return None, Some(InvalidVerb);
      }
      CourseStep(repo.cfg, Sys(id, req, AtLookup), id, req, AtLookup, world);
      Meanwhile(id, req, AtLookup, world(14));
      if world(14).in_.fault != NoFault {
        return None, Some(Unavailable);
      }
      if req.key in repo.rows {
        var existing := repo.rows[req.key];
        if !SameRequest(repo.cfg, existing, req) {
          return Some(existing), Some(KeyConflict);
        }
        if existing.status != Pending {
          return Some(existing), None;
        }
        if existing.attempts >= MAX_ATTEMPTS {
          return Some(existing), Some(MaxAttempts);
        }
        returned, failure := Decide(id, req, existing, world);
        return;
      }
      returned, failure := Create(id, req, world);
    }

    method Decide(id: nat, req: Request, existing: Command, world: nat -> Moment)
      returns (returned: Option<Command>, failure: Option<Failure>)
      modifies this, repo`rows, repo`devices
      ensures Sys(id, req, Done(returned, failure))
           == Course(repo.cfg, old(Sys(id, req, AtDecide(existing))), id, world)
    {
      hide Course, Meantime;
      CourseStep(repo.cfg, Sys(id, req, AtDecide(existing)), id, req, AtDecide(existing), world);
      Meanwhile(id, req, AtDecide(existing), world(9));
      if clock >= existing.expiresAt {
        returned, failure := Expire(id, req, existing, world);
        return;
      }
      returned, failure := Run(id, req, existing, world);
    }

    /** The rest of Execute when the key is new: check the device, insert, read back, run. */
    method Create(id: nat, req: Request, world: nat -> Moment)
      returns (returned: Option<Command>, failure: Option<Failure>)
      modifies this, repo`rows, repo`devices
      ensures Sys(id, req, Done(returned, failure)) == Course(repo.cfg, old(Sys(id, req, AtDevice)), id, world)
    {
      hide Course, Meantime;
      CourseStep(repo.cfg, Sys(id, req, AtDevice), id, req, AtDevice, world);
      Meanwhile(id, req, AtDevice, world(13));
      if world(13).in_.fault != NoFault {
        return None, Some(Unavailable);
      }
      if req.deviceNo !in repo.devices {
        return None, Some(DeviceNotFound);
      }
      returned, failure := CheckAndInsert(id, req, repo.devices[req.deviceNo], world);
    }

    method CheckAndInsert(id: nat, req: Request, device: Device, world: nat -> Moment)
      returns (returned: Option<Command>, failure: Option<Failure>)
      modifies this, repo`rows, repo`devices
      ensures Sys(id, req, Done(returned, failure)) == Course(repo.cfg, old(Sys(id, req, AtCheck(device))), id, world)
    {
      hide Course, Meantime;
      CourseStep(repo.cfg, Sys(id, req, AtCheck(device)), id, req, AtCheck(device), world);
      Meanwhile(id, req, AtCheck(device), world(12));
      var invalid := ValidateDevice(repo.cfg, device, clock);
      if invalid.Some? {
        return None, invalid;
      }
      CourseStep(repo.cfg, Sys(id, req, AtPrepare), id, req, AtPrepare, world);
      Meanwhile(id, req, AtPrepare, world(11));
      var command := NewCommand(req, world(11).in_.no, clock);
      returned, failure := InsertAndRun(id, req, command, clock, world);
    }

    method InsertAndRun(id: nat, req: Request, command: Command, now: int, world: nat -> Moment)
      returns (returned: Option<Command>, failure: Option<Failure>)
      modifies this, repo`rows, repo`devices
      ensures Sys(id, req, Done(returned, failure))
           == Course(repo.cfg, old(Sys(id, req, AtInsert(command, now))), id, world)
    {
      hide Course, Meantime, InsertFailure, InsertRows;
      CourseStep(repo.cfg, Sys(id, req, AtInsert(command, now)), id, req, AtInsert(command, now), world);
      Meanwhile(id, req, AtInsert(command, now), world(10));
      var refused := repo.InsertCommand(command, world(10).in_.fault);
      if refused == Some(KeyConflict) {
        returned, failure := Reread(id, req, world);
        return;
      }
      if refused.Some? {
        return None, refused;
      }
      returned, failure := ReadBackAndRun(id, req, now, world);
    }

    method ReadBackAndRun(id: nat, req: Request, now: int, world: nat -> Moment)
      returns (returned: Option<Command>, failure: Option<Failure>)
      modifies this, repo`rows, repo`devices
      ensures Sys(id, req, Done(returned, failure)) == Course(repo.cfg, old(Sys(id, req, AtReadBack(now))), id, world)
    {
      hide Course, Meantime;
      CourseStep(repo.cfg, Sys(id, req, AtReadBack(now)), id, req, AtReadBack(now), world);
      Meanwhile(id, req, AtReadBack(now), world(9));
      if world(9).in_.fault != NoFault || req.key !in repo.rows {
        return None, Some(Unavailable);
      }
      var created := repo.rows[req.key];
      if now >= created.expiresAt {
        returned, failure := Expire(id, req, created, world);
        return;
      }
      returned, failure := Run(id, req, created, world);
    }

    /** Another caller took the key first: adopt its command if the requests agree. */
    method Reread(id: nat, req: Request, world: nat -> Moment)
      returns (returned: Option<Command>, failure: Option<Failure>)
      modifies this, repo`rows, repo`devices
      ensures Sys(id, req, Done(returned, failure)) == Course(repo.cfg, old(Sys(id, req, AtReread)), id, world)
    {
      hide Course, Meantime;
      CourseStep(repo.cfg, Sys(id, req, AtReread), id, req, AtReread, world);
      Meanwhile(id, req, AtReread, world(9));
      if world(9).in_.fault != NoFault || req.key !in repo.rows {
        return None, Some(KeyConflict);
      }
      var existing := repo.rows[req.key];
      if !SameRequest(repo.cfg, existing, req) {
        return Some(existing), Some(KeyConflict);
      }
      if existing.status != Pending {
        return Some(existing), None;
      }
      returned, failure := Run(id, req, existing, world);
    }

    method Run(id: nat, req: Request, command: Command, world: nat -> Moment)
      returns (returned: Option<Command>, failure: Option<Failure>)
      modifies this, repo`rows, repo`devices
      ensures Sys(id, req, Done(returned, failure)) == Course(repo.cfg, old(Sys(id, req, AtRun(command))), id, world)
    {
      hide Course, Meantime;
      CourseStep(repo.cfg, Sys(id, req, AtRun(command)), id, req, AtRun(command), world);
      Meanwhile(id, req, AtRun(command), world(8));
      var now := clock;
      if now >= command.expiresAt {
        returned, failure := Expire(id, req, command, world);
        return;
      }
      if command.attempts >= MAX_ATTEMPTS {
        return Some(command), Some(MaxAttempts);
      }
      var at := AtRunDevice(command, now);
      CourseStep(repo.cfg, Sys(id, req, at), id, req, at, world);
      Meanwhile(id, req, at, world(7));
      if world(7).in_.fault != NoFault {
        return Some(command), Some(Unavailable);
      }
      if command.deviceNo !in repo.devices {
        return Some(command), Some(DeviceNotFound);
      }
      returned, failure := CheckAndMark(id, req, command, now, repo.devices[command.deviceNo], world);
    }

    /** The device as read is judged at a later reading than the one that found the command in time. */
    method CheckAndMark(id: nat, req: Request, command: Command, now: int, device: Device, world: nat -> Moment)
      returns (returned: Option<Command>, failure: Option<Failure>)
      requires now < command.expiresAt && command.attempts < MAX_ATTEMPTS
      modifies this, repo`rows, repo`devices
      ensures Sys(id, req, Done(returned, failure))
           == Course(repo.cfg, old(Sys(id, req, AtRunCheck(command, now, device))), id, world)
    {
      hide Course, Meantime;
      var at := AtRunCheck(command, now, device);
      CourseStep(repo.cfg, Sys(id, req, at), id, req, at, world);
      Meanwhile(id, req, at, world(6));
      var invalid := ValidateDevice(repo.cfg, device, clock);
      if invalid.Some? {
        return Some(command), invalid;
      }
      returned, failure := MarkAndCall(id, req, command, now, world);
    }

    /** The compare-and-set; only the caller that wins it goes on to the gateway. */
    method MarkAndCall(id: nat, req: Request, command: Command, now: int, world: nat -> Moment)
      returns (returned: Option<Command>, failure: Option<Failure>)
      requires now < command.expiresAt && command.attempts < MAX_ATTEMPTS
      modifies this, repo`rows, repo`devices
      ensures Sys(id, req, Done(returned, failure))
           == Course(repo.cfg, old(Sys(id, req, AtMark(command, now))), id, world)
    {
      hide Course, Meantime;
      var at := AtMark(command, now);
      CourseStep(repo.cfg, Sys(id, req, at), id, req, at, world);
      ghost var t := Meantime(repo.cfg, Sys(id, req, at), id, world(5));
      Meanwhile(id, req, at, world(5));
      var hit := MarkHits(repo.rows, command.no, now) != {} && world(5).in_.fault != NotApplied;
      MarkEffect(t, id, command, now, world(5).in_);
      var won, fault := repo.MarkRunning(command.no, now, world(5).in_.fault);
      if hit {
        marked := marked[command.no := Winner(id, now)];
      }
      if fault.Some? {
        return Some(command), fault;
      }
      if !won {
        return Some(command), Some(Busy);
      }
      returned, failure := CallGateway(id, req, command.(attempts := command.attempts + 1), world);
    }

    method CallGateway(id: nat, req: Request, running: Command, world: nat -> Moment)
      returns (returned: Option<Command>, failure: Option<Failure>)
      modifies this, repo`rows, repo`devices
      ensures Sys(id, req, Done(returned, failure))
           == Course(repo.cfg, old(Sys(id, req, AtGateway(running))), id, world)
    {
      hide Course, Meantime;
      CourseStep(repo.cfg, Sys(id, req, AtGateway(running)), id, req, AtGateway(running), world);
      Meanwhile(id, req, AtGateway(running), world(4));
      calls :=
        calls + [Call(id, running.no, running.key, running.deviceNo, running.verb, running.cellNo, running.payload,
                      world(4).in_.answer, world(4).in_.outcome)];
      var outcome := world(4).in_.outcome;
      match world(4).in_.answer {
        case Answered =>
          returned, failure := Finish(id, req, running, Succeeded, outcome, NoCode, None, world);
        case TimeoutAnswer =>
          returned, failure := Finish(
            id, req, running, TimedOut, outcome.(retryable := true), CommandTimeout, Some(GatewayTimedOut), world);
        case ErrorAnswer =>
          returned, failure := Finish(id, req, running, Failed, outcome, CommandFailed, Some(GatewayFailed), world);
      }
    }

    /** Persists the ending; it is reported only if the statement hit. */
    method Finish(
      id: nat, req: Request, running: Command, status: Status, outcome: Outcome, code: Code,
      gatewayFailure: Option<Failure>, world: nat -> Moment)
      returns (returned: Option<Command>, failure: Option<Failure>)
      modifies this, repo`rows, repo`devices
      ensures Sys(id, req, Done(returned, failure))
           == Course(repo.cfg, old(Sys(id, req, AtComplete(running, status, outcome, code, gatewayFailure))), id, world)
    {
      hide Course, Meantime, Complete, CompleteHits;
      var at := AtComplete(running, status, outcome, code, gatewayFailure);
      CourseStep(repo.cfg, Sys(id, req, at), id, req, at, world);
      Meanwhile(id, req, at, world(3));
      failure := repo.CompleteCommand(running.no, status, outcome, code, world(3).in_.fault);
      if failure.Some? {
        return Some(running), failure;
      }
      return Some(running.(status := status, outcome := outcome, code := code)), gatewayFailure;
    }

    method Expire(id: nat, req: Request, command: Command, world: nat -> Moment)
      returns (returned: Option<Command>, failure: Option<Failure>)
      modifies this, repo`rows, repo`devices
      ensures Sys(id, req, Done(returned, failure)) == Course(repo.cfg, old(Sys(id, req, AtExpire(command))), id, world)
    {
      hide Course, Meantime, Complete, CompleteHits;
      CourseStep(repo.cfg, Sys(id, req, AtExpire(command)), id, req, AtExpire(command), world);
      Meanwhile(id, req, AtExpire(command), world(3));
      failure := repo.CompleteCommand(command.no, Expired, NO_OUTCOME, CommandExpired, world(3).in_.fault);
      if failure.Some? {
        return Some(command), failure;
      }
      return Some(command.(status := Expired, code := CommandExpired)), Some(PastExpiry);
    }
  }

  // ---- what a call achieves ----

  /** Nothing but time passes before the step. */
  predicate Lull(m: Moment) { m.others == [] || (|m.others| == 1 && m.others[0].Tick?) }

  function Tock(clock: int, m: Moment): int {
    if m.others != [] && m.others[0].Tick? && clock <= m.others[0].to then m.others[0].to else clock
  }

  /** What the clock reads at the step that n steps can follow, in a call that begins at `now`. */
  function ClockAt(now: int, world: nat -> Moment, n: nat): (t: int)
    ensures now <= t
    decreases 15 - n
  {
    if n >= 15 then now else Tock(ClockAt(now, world, n + 1), world(n))
  }

  /** Nobody interferes and every statement works; the gateway may answer anything. */
  ghost predicate Healthy(world: nat -> Moment) {
    forall n: nat :: Lull(world(n)) && world(n).in_.fault == NoFault
  }

  lemma LullIsTime(cfg: Config, s: State, id: nat, m: Moment)
    requires Lull(m)
    ensures Meantime(cfg, s, id, m) == s.(clock := Tock(s.clock, m))
  {
    hide Move;
    if m.others == [] {
    } else {
      assert m.others == [m.others[0]] && m.others[..0] == [];
      assert Exec(cfg, s, m.others) == Apply(cfg, Exec(cfg, s, []), m.others[0]);
    }
  }

  function Alone(rows: map<string, Command>, s: State, clock: int, id: nat, req: Request, pc: Pc): State {
    Among(rows, s.devices, clock, map[], s.marked, s.calls, id, req, pc)
  }

  ghost predicate StandsAlone(s: State, id: nat, req: Request, pc: Pc) {
    s == Alone(s.rows, s, s.clock, id, req, pc)
  }

  /** A step that only moves on. */
  lemma LoneStep(cfg: Config, s: State, id: nat, req: Request, pc: Pc, next: Pc, world: nat -> Moment)
    requires StandsAlone(s, id, req, pc) && Healthy(world) && !pc.Done? && !next.Done?
    requires
      var t := s.(clock := Tock(s.clock, world(T.Remaining(pc))));
      Move(cfg, t, id, world(T.Remaining(pc)).in_) == Goto(t, next)
    ensures Course(cfg, s, id, world)
         == Course(cfg, Alone(s.rows, s, Tock(s.clock, world(T.Remaining(pc))), id, req, next), id, world)
  {
    LoneEffect(cfg, s, id, req, pc, world);
  }

  lemma LoneEffect(cfg: Config, s: State, id: nat, req: Request, pc: Pc, world: nat -> Moment)
    requires StandsAlone(s, id, req, pc) && Healthy(world) && !pc.Done?
    ensures
      var t := s.(clock := Tock(s.clock, world(T.Remaining(pc))));
      var e := Move(cfg, t, id, world(T.Remaining(pc)).in_);
      var t' := Among(e.rows, s.devices, t.clock, map[], e.marked, e.calls, id, req, e.pc);
      Course(cfg, s, id, world) == if e.pc.Done? then t' else Course(cfg, t', id, world)
  {
    hide Course, Move, Meantime;
    var m := world(T.Remaining(pc));
    CourseStep(cfg, s, id, req, pc, world);
    LullIsTime(cfg, s, id, m);
    var t := s.(clock := Tock(s.clock, m));
    var e := Move(cfg, t, id, m.in_);
    assert map[id := Client(req, pc)][id := Client(req, e.pc)] == map[id := Client(req, e.pc)];
  }

  lemma Faultless(world: nat -> Moment)
    requires Healthy(world)
    ensures forall n: nat :: world(n).in_.fault == NoFault
  {
  }

  /** The ending the gateway gives a command, and the error that goes with it. */
  function Ended(c: Command, in_: Input): Command {
    match in_.answer
    case Answered => c.(status := Succeeded, outcome := in_.outcome, code := NoCode)
    case TimeoutAnswer =>
      c.(status := TimedOut, outcome := in_.outcome.(retryable := true), code := CommandTimeout)
    case ErrorAnswer => c.(status := Failed, outcome := in_.outcome, code := CommandFailed)
  }

  function Trouble(in_: Input): Option<Failure> {
    match in_.answer
    case Answered => None
    case TimeoutAnswer => Some(GatewayTimedOut)
    case ErrorAnswer => Some(GatewayFailed)
  }

  /** What a lone caller leaves behind when its command is run: the ended row, which it returns, and one call. */
  function Served(
    s: State, clock: int, id: nat, req: Request, c: Command, marked: map<string, Winner>, in_: Input): State
  {
    var call := Call(id, c.no, c.key, c.deviceNo, c.verb, c.cellNo, c.payload, in_.answer, in_.outcome);
    Among(s.rows[c.key := Ended(c, in_)], s.devices, clock, map[], marked, s.calls + [call], id, req,
          Done(Some(Ended(c, in_)), Trouble(in_)))
  }

  ghost predicate OnlyNumber(rows: map<string, Command>, c: Command) {
    c.key in rows && forall k :: k in rows && rows[k].no == c.no ==> k == c.key
  }

  lemma LoneCall(cfg: Config, s: State, id: nat, req: Request, c: Command, world: nat -> Moment)
    requires StandsAlone(s, id, req, AtGateway(c)) && Healthy(world)
    requires OnlyNumber(s.rows, c) && s.rows[c.key] == c.(status := Running)
    ensures Course(cfg, s, id, world)
         == Served(s, Tock(Tock(s.clock, world(4)), world(3)), id, req, c, s.marked, world(4).in_)
  {
    hide Course, Tock;
    var in_ := world(4).in_;
    var e := Ended(c, in_);
    var call := Call(id, c.no, c.key, c.deviceNo, c.verb, c.cellNo, c.payload, in_.answer, in_.outcome);
    var pc := AtComplete(c, e.status, e.outcome, e.code, Trouble(in_));
    LoneEffect(cfg, s, id, req, AtGateway(c), world);
    var t := s.(calls := s.calls + [call]);
    LoneEnding(cfg, Alone(s.rows, t, Tock(s.clock, world(4)), id, req, pc), id, req, c, e, Trouble(in_), world);
  }

  lemma LoneEnding(
    cfg: Config, s: State, id: nat, req: Request, c: Command, e: Command, failure: Option<Failure>,
    world: nat -> Moment)
    requires StandsAlone(s, id, req, AtComplete(c, e.status, e.outcome, e.code, failure)) && Healthy(world)
    requires OnlyNumber(s.rows, c) && s.rows[c.key] == c.(status := Running)
    requires e == c.(status := e.status, outcome := e.outcome, code := e.code)
    ensures Course(cfg, s, id, world)
         == Alone(s.rows[c.key := e], s, Tock(s.clock, world(3)), id, req, Done(Some(e), failure))
  {
    hide Course, Tock;
    LoneComplete(s.rows, c, e.status, e.outcome, e.code);
    Faultless(world);
    LoneEffect(cfg, s, id, req, AtComplete(c, e.status, e.outcome, e.code, failure), world);
  }

  lemma LoneComplete(rows: map<string, Command>, c: Command, status: Status, outcome: Outcome, code: Code)
    requires OnlyNumber(rows, c) && rows[c.key] == c.(status := Running)
    ensures CompleteHits(rows, c.no, status) != {}
    ensures Complete(rows, c.no, status, outcome, code)
         == rows[c.key := c.(status := status, outcome := outcome, code := code)]
  {
    assert c.key in CompleteHits(rows, c.no, status);
  }

  /** The compare-and-set wins, whatever the clock reads by then: its guard uses the earlier reading. */
  lemma LoneMark(cfg: Config, s: State, id: nat, req: Request, c: Command, now: int, world: nat -> Moment)
    requires StandsAlone(s, id, req, AtMark(c, now)) && Healthy(world)
    requires OnlyNumber(s.rows, c) && s.rows[c.key] == c
    requires c.status == Pending && c.attempts == 0 && now < c.expiresAt
    ensures Course(cfg, s, id, world)
         == Served(s, Tock(Tock(Tock(s.clock, world(5)), world(4)), world(3)), id, req, c.(attempts := 1),
                   s.marked[c.no := Winner(id, now)], world(4).in_)
  {
    hide Course, Tock, Healthy;
    var copy := c.(attempts := 1);
    var rows' := s.rows[c.key := copy.(status := Running)];
    LoneWin(cfg, s, id, req, c, now, world);
    var t := s.(marked := s.marked[c.no := Winner(id, now)]);
    LoneCall(cfg, Alone(rows', t, Tock(s.clock, world(5)), id, req, AtGateway(copy)), id, req, copy, world);
    var done := Ended(copy, world(4).in_);
    assert rows'[c.key := done] == s.rows[c.key := done];
  }

  lemma LoneWin(cfg: Config, s: State, id: nat, req: Request, c: Command, now: int, world: nat -> Moment)
    requires StandsAlone(s, id, req, AtMark(c, now)) && Healthy(world)
    requires OnlyNumber(s.rows, c) && s.rows[c.key] == c
    requires c.status == Pending && c.attempts == 0 && now < c.expiresAt
    ensures
      var copy := c.(attempts := 1);
      var t := s.(marked := s.marked[c.no := Winner(id, now)]);
      Course(cfg, s, id, world)
      == Course(cfg, Alone(s.rows[c.key := copy.(status := Running)], t, Tock(s.clock, world(5)), id, req,
                           AtGateway(copy)), id, world)
  {
    hide Course, Tock, MarkRunning, MarkHits;
    LoneHit(s.rows, c, now);
    LoneEffect(cfg, s, id, req, AtMark(c, now), world);
  }

  lemma LoneHit(rows: map<string, Command>, c: Command, now: int)
    requires OnlyNumber(rows, c) && rows[c.key] == c && c.status == Pending && c.attempts == 0 && now < c.expiresAt
    ensures MarkHits(rows, c.no, now) != {}
    ensures MarkRunning(rows, c.no, now) == rows[c.key := c.(status := Running, attempts := 1)]
  {
    assert c.key in MarkHits(rows, c.no, now);
  }

  /** From the expiry check to the judgement of the device. */
  lemma LoneJudged(cfg: Config, s: State, id: nat, req: Request, c: Command, world: nat -> Moment)
    requires StandsAlone(s, id, req, AtRun(c)) && Healthy(world)
    requires c.attempts == 0 && Tock(s.clock, world(8)) < c.expiresAt && c.deviceNo in s.devices
    ensures
      var now := Tock(s.clock, world(8));
      var check := AtRunCheck(c, now, s.devices[c.deviceNo]);
      Course(cfg, s, id, world)
      == Course(cfg, Alone(s.rows, s, Tock(now, world(7)), id, req, check), id, world)
  {
    hide Course, Tock, Healthy;
    Faultless(world);
    var now := Tock(s.clock, world(8));
    var check := AtRunCheck(c, now, s.devices[c.deviceNo]);
    LoneStep(cfg, s, id, req, AtRun(c), AtRunDevice(c, now), world);
    LoneStep(cfg, Alone(s.rows, s, now, id, req, AtRunDevice(c, now)), id, req, AtRunDevice(c, now), check, world);
  }

  /** The device, when an existing command comes to be run. */
  function JudgedAt(clock: int, world: nat -> Moment): int {
    Tock(Tock(Tock(clock, world(8)), world(7)), world(6))
  }

  /** A pending command in time whose device is then ready is run to its end. */
  lemma LoneRun(cfg: Config, s: State, id: nat, req: Request, c: Command, world: nat -> Moment)
    requires StandsAlone(s, id, req, AtRun(c)) && Healthy(world)
    requires OnlyNumber(s.rows, c) && s.rows[c.key] == c && c.status == Pending && c.attempts == 0
    requires Tock(s.clock, world(8)) < c.expiresAt && c.deviceNo in s.devices
    requires Laws.Commandable(cfg, s.devices[c.deviceNo], JudgedAt(s.clock, world))
    ensures
      var end := Tock(Tock(Tock(JudgedAt(s.clock, world), world(5)), world(4)), world(3));
      Course(cfg, s, id, world)
      == Served(s, end, id, req, c.(attempts := 1), s.marked[c.no := Winner(id, Tock(s.clock, world(8)))], world(4).in_)
  {
    hide Course, Tock, Laws.Commandable;
    var now, judged := Tock(s.clock, world(8)), JudgedAt(s.clock, world);
    var check := AtRunCheck(c, now, s.devices[c.deviceNo]);
    LoneJudged(cfg, s, id, req, c, world);
    Laws.DeviceAnswer(cfg, s.devices[c.deviceNo], judged);
    LoneStep(cfg, Alone(s.rows, s, Tock(now, world(7)), id, req, check), id, req, check, AtMark(c, now), world);
    LoneMark(cfg, Alone(s.rows, s, judged, id, req, AtMark(c, now)), id, req, c, now, world);
  }

  /** One whose device is not, stays as it is: the caller reports why, and nothing is written or called. */
  lemma LoneRefusal(cfg: Config, s: State, id: nat, req: Request, c: Command, world: nat -> Moment)
    requires StandsAlone(s, id, req, AtRun(c)) && Healthy(world)
    requires c.attempts == 0 && Tock(s.clock, world(8)) < c.expiresAt && c.deviceNo in s.devices
    requires !Laws.Commandable(cfg, s.devices[c.deviceNo], JudgedAt(s.clock, world))
    ensures
      var why := ValidateDevice(cfg, s.devices[c.deviceNo], JudgedAt(s.clock, world));
      why.Some? && Course(cfg, s, id, world) == Alone(s.rows, s, JudgedAt(s.clock, world), id, req, Done(Some(c), why))
  {
    hide Course, Tock, Laws.Commandable, ValidateDevice;
    var now := Tock(s.clock, world(8));
    var check := AtRunCheck(c, now, s.devices[c.deviceNo]);
    LoneJudged(cfg, s, id, req, c, world);
    Laws.DeviceAnswer(cfg, s.devices[c.deviceNo], JudgedAt(s.clock, world));
    LoneEffect(cfg, Alone(s.rows, s, Tock(now, world(7)), id, req, check), id, req, check, world);
  }

  lemma LoneInsert(cfg: Config, s: State, id: nat, req: Request, c: Command, now: int, world: nat -> Moment)
    requires StandsAlone(s, id, req, AtInsert(c, now)) && Healthy(world)
    requires c.key == req.key && c.key !in s.rows && (forall k :: k in s.rows ==> s.rows[k].no != c.no)
    requires cfg.parse(c.payload).Some? && c.deviceNo in s.devices && now < c.expiresAt
    ensures
      var begun := Tock(Tock(s.clock, world(10)), world(9));
      Course(cfg, s, id, world)
      == Course(cfg, Alone(s.rows[c.key := c], s, begun, id, req, AtRun(c)), id, world)
  {
    hide Course, Tock;
    LoneStored(cfg, s, id, req, c, now, world);
    var t := Alone(s.rows[c.key := c], s, Tock(s.clock, world(10)), id, req, AtReadBack(now));
    LoneStep(cfg, t, id, req, AtReadBack(now), AtRun(c), world);
  }

  lemma LoneStored(cfg: Config, s: State, id: nat, req: Request, c: Command, now: int, world: nat -> Moment)
    requires StandsAlone(s, id, req, AtInsert(c, now)) && Healthy(world)
    requires c.key == req.key && c.key !in s.rows && (forall k :: k in s.rows ==> s.rows[k].no != c.no)
    requires cfg.parse(c.payload).Some? && c.deviceNo in s.devices
    ensures
      var t := Alone(s.rows[c.key := c], s, Tock(s.clock, world(10)), id, req, AtReadBack(now));
      Course(cfg, s, id, world) == Course(cfg, t, id, world)
  {
    hide Course, Tock;
    Faultless(world);
    LoneEffect(cfg, s, id, req, AtInsert(c, now), world);
  }

  /** A new key leads to the judgement of its device. */
  lemma LoneLookup(cfg: Config, s: State, id: nat, req: Request, world: nat -> Moment)
    requires StandsAlone(s, id, req, AtLookup) && Healthy(world) && req.key !in s.rows && req.deviceNo in s.devices
    ensures
      var check := AtCheck(s.devices[req.deviceNo]);
      Course(cfg, s, id, world)
      == Course(cfg, Alone(s.rows, s, ClockAt(s.clock, world, 13), id, req, check), id, world)
  {
    hide Course, Tock, NewCommand;
    var check := AtCheck(s.devices[req.deviceNo]);
    LoneStep(cfg, s, id, req, AtLookup, AtDevice, world);
    LoneStep(cfg, Alone(s.rows, s, ClockAt(s.clock, world, 14), id, req, AtDevice), id, req, AtDevice, check, world);
  }

  lemma LoneCheck(cfg: Config, s: State, id: nat, req: Request, device: Device, world: nat -> Moment)
    requires StandsAlone(s, id, req, AtCheck(device)) && Healthy(world)
    requires Laws.Commandable(cfg, device, Tock(s.clock, world(12)))
    ensures
      var now := Tock(Tock(s.clock, world(12)), world(11));
      var at := AtInsert(NewCommand(req, world(11).in_.no, now), now);
      Course(cfg, s, id, world) == Course(cfg, Alone(s.rows, s, now, id, req, at), id, world)
  {
    hide Course, Tock, ValidateDevice, NewCommand, Laws.Commandable;
    var judged := Tock(s.clock, world(12));
    var now := Tock(judged, world(11));
    var at := AtInsert(NewCommand(req, world(11).in_.no, now), now);
    Laws.DeviceAnswer(cfg, device, judged);
    LoneStep(cfg, s, id, req, AtCheck(device), AtPrepare, world);
    LoneStep(cfg, Alone(s.rows, s, judged, id, req, AtPrepare), id, req, AtPrepare, at, world);
  }

  /** A caller nobody interferes with, with a new key, a payload that parses, an unused number, a device that may be
      commanded whenever it is judged and time left when marked, does execute its command, however time passes between
      its steps: one gateway call, with what was asked for; and the stored row, which it returns, is that command with
      the ending the gateway gave it. */
  lemma LoneCallerExecutesOnce(cfg: Config, s: State, id: nat, req: Request, world: nat -> Moment)
    requires StandsAlone(s, id, req, AtLookup) && Healthy(world) && req.key !in s.rows
    requires req.deviceNo in s.devices && cfg.parse(Laws.Sent(req.payload)).Some?
    requires Laws.Commandable(cfg, s.devices[req.deviceNo], ClockAt(s.clock, world, 12))
    requires Laws.Commandable(cfg, s.devices[req.deviceNo], ClockAt(s.clock, world, 6))
    requires forall k :: k in s.rows ==> s.rows[k].no != world(11).in_.no
    requires ClockAt(s.clock, world, 8) < Laws.FreshRow(req, world(11).in_.no, ClockAt(s.clock, world, 11)).expiresAt
    ensures
      var c := Laws.FreshRow(req, world(11).in_.no, ClockAt(s.clock, world, 11)).(attempts := 1);
      Course(cfg, s, id, world)
      == Served(s, ClockAt(s.clock, world, 3), id, req, c, s.marked[c.no := Winner(id, ClockAt(s.clock, world, 8))],
                world(4).in_)
  {
    hide Course, Tock, Laws.Commandable;
    var now := ClockAt(s.clock, world, 11);
    var c := NewCommand(req, world(11).in_.no, now);
    Laws.NewRowAnswer(req, world(11).in_.no, now);
    LoneLookup(cfg, s, id, req, world);
    var device := s.devices[req.deviceNo];
    LoneCheck(cfg, Alone(s.rows, s, ClockAt(s.clock, world, 13), id, req, AtCheck(device)), id, req, device, world);
    ClockGrows(s.clock, world);
    hide NewCommand;
    LoneInsert(cfg, Alone(s.rows, s, now, id, req, AtInsert(c, now)), id, req, c, now, world);
    LoneFreshRun(cfg, s, id, req, c, world);
  }

  lemma LoneFreshRun(cfg: Config, s: State, id: nat, req: Request, c: Command, world: nat -> Moment)
    requires Healthy(world) && c.key !in s.rows && forall k :: k in s.rows ==> s.rows[k].no != c.no
    requires c.deviceNo in s.devices && c.status == Pending && c.attempts == 0
    requires Laws.Commandable(cfg, s.devices[c.deviceNo], ClockAt(s.clock, world, 6))
    requires ClockAt(s.clock, world, 8) < c.expiresAt
    ensures
      var run := Alone(s.rows[c.key := c], s, ClockAt(s.clock, world, 9), id, req, AtRun(c));
      Course(cfg, run, id, world)
      == Served(s, ClockAt(s.clock, world, 3), id, req, c.(attempts := 1),
                s.marked[c.no := Winner(id, ClockAt(s.clock, world, 8))], world(4).in_)
  {
    hide Course, Tock, Laws.Commandable;
    var rows := s.rows[c.key := c];
    LoneRun(cfg, Alone(rows, s, ClockAt(s.clock, world, 9), id, req, AtRun(c)), id, req, c, world);
    var done := Ended(c.(attempts := 1), world(4).in_);
    assert rows[c.key := done] == s.rows[c.key := done];
  }

  lemma ClockGrows(now: int, world: nat -> Moment)
    ensures ClockAt(now, world, 11) <= ClockAt(now, world, 8)
  {
    assert ClockAt(now, world, 11) <= ClockAt(now, world, 10) <= ClockAt(now, world, 9);
  }

  /** With a new key and a device that is missing or may not be commanded, nothing is written and nothing called; the
      caller reports why. */
  lemma UnreadyDeviceIsRefused(cfg: Config, s: State, id: nat, req: Request, world: nat -> Moment)
    requires StandsAlone(s, id, req, AtLookup) && Healthy(world) && req.key !in s.rows
    requires req.deviceNo in s.devices ==>
               !Laws.Commandable(cfg, s.devices[req.deviceNo], ClockAt(s.clock, world, 12))
    ensures
      var z := Course(cfg, s, id, world);
      && z.rows == s.rows && z.calls == s.calls && z.marked == s.marked
      && id in z.clients
      && z.clients[id].pc == Done(None, if req.deviceNo !in s.devices then Some(DeviceNotFound)
                                        else ValidateDevice(cfg, s.devices[req.deviceNo], ClockAt(s.clock, world, 12)))
  {
    hide Course, Tock, Laws.Commandable, ValidateDevice;
    Faultless(world);
    if req.deviceNo in s.devices {
      var device, read := s.devices[req.deviceNo], ClockAt(s.clock, world, 13);
      LoneLookup(cfg, s, id, req, world);
      Laws.DeviceAnswer(cfg, device, ClockAt(s.clock, world, 12));
      LoneEffect(cfg, Alone(s.rows, s, read, id, req, AtCheck(device)), id, req, AtCheck(device), world);
    } else {
      LoneStep(cfg, s, id, req, AtLookup, AtDevice, world);
      LoneEffect(cfg, Alone(s.rows, s, ClockAt(s.clock, world, 14), id, req, AtDevice), id, req, AtDevice, world);
    }
  }

  /** A new command whose deadline has already passed when it is made is stored and expired at once; the gateway is not
      called. */
  lemma BornExpired(cfg: Config, s: State, id: nat, req: Request, world: nat -> Moment)
    requires StandsAlone(s, id, req, AtLookup) && Healthy(world) && req.key !in s.rows
    requires req.deviceNo in s.devices && cfg.parse(Laws.Sent(req.payload)).Some?
    requires Laws.Commandable(cfg, s.devices[req.deviceNo], ClockAt(s.clock, world, 12))
    requires forall k :: k in s.rows ==> s.rows[k].no != world(11).in_.no
    requires req.expiresAt.Some? && req.expiresAt.value <= ClockAt(s.clock, world, 11)
    ensures
      var c := Laws.FreshRow(req, world(11).in_.no, ClockAt(s.clock, world, 11));
      var ended := c.(status := Expired, code := CommandExpired);
      var z := Course(cfg, s, id, world);
      && z.rows == s.rows[req.key := ended] && z.calls == s.calls && z.marked == s.marked
      && id in z.clients && z.clients[id].pc == Done(Some(ended), Some(PastExpiry))
  {
    hide Course, Tock, Laws.Commandable;
    var now := ClockAt(s.clock, world, 11);
    var c := NewCommand(req, world(11).in_.no, now);
    Laws.NewRowAnswer(req, world(11).in_.no, now);
    LoneLookup(cfg, s, id, req, world);
    var device := s.devices[req.deviceNo];
    LoneCheck(cfg, Alone(s.rows, s, ClockAt(s.clock, world, 13), id, req, AtCheck(device)), id, req, device, world);
    LoneExpiry(cfg, Alone(s.rows, s, now, id, req, AtInsert(c, now)), id, req, c, now, world);
  }

  lemma LoneExpiry(cfg: Config, s: State, id: nat, req: Request, c: Command, now: int, world: nat -> Moment)
    requires StandsAlone(s, id, req, AtInsert(c, now)) && Healthy(world)
    requires c.key == req.key && c.key !in s.rows && (forall k :: k in s.rows ==> s.rows[k].no != c.no)
    requires cfg.parse(c.payload).Some? && c.deviceNo in s.devices && c.expiresAt <= now
    requires c.status == Pending && c.outcome == NO_OUTCOME
    ensures
      var ended := c.(status := Expired, code := CommandExpired);
      var z := Course(cfg, s, id, world);
      && z.rows == s.rows[c.key := ended] && z.calls == s.calls && z.marked == s.marked
      && id in z.clients && z.clients[id].pc == Done(Some(ended), Some(PastExpiry))
  {
    hide Course, Tock;
    var rows, inserted := s.rows[c.key := c], Tock(s.clock, world(10));
    LoneStored(cfg, s, id, req, c, now, world);
    LoneStep(cfg, Alone(rows, s, inserted, id, req, AtReadBack(now)), id, req, AtReadBack(now), AtExpire(c), world);
    LoneExpire(cfg, Alone(rows, s, Tock(inserted, world(9)), id, req, AtExpire(c)), id, req, c, world);
    assert rows[c.key := c.(status := Expired, code := CommandExpired)]
        == s.rows[c.key := c.(status := Expired, code := CommandExpired)];
  }

  lemma LoneExpire(cfg: Config, s: State, id: nat, req: Request, c: Command, world: nat -> Moment)
    requires StandsAlone(s, id, req, AtExpire(c)) && Healthy(world)
    requires OnlyNumber(s.rows, c) && s.rows[c.key] == c && c.status == Pending && c.outcome == NO_OUTCOME
    ensures
      var ended := c.(status := Expired, code := CommandExpired);
      var z := Course(cfg, s, id, world);
      && z.rows == s.rows[c.key := ended] && z.calls == s.calls && z.marked == s.marked
      && id in z.clients && z.clients[id].pc == Done(Some(ended), Some(PastExpiry))
  {
    hide Course, Tock;
    assert c.key in CompleteHits(s.rows, c.no, Expired);
    Faultless(world);
    LoneEffect(cfg, s, id, req, AtExpire(c), world);
    assert Complete(s.rows, c.no, Expired, NO_OUTCOME, CommandExpired)
        == s.rows[c.key := c.(status := Expired, code := CommandExpired)];
  }

  /** A pending command found by its key is run by whoever asks for the same again in time, and so is one found after
      losing the key to its owner. */
  lemma PendingIsExecuted(cfg: Config, s: State, id: nat, req: Request, pc: Pc, world: nat -> Moment)
    requires StandsAlone(s, id, req, pc) && Healthy(world) && (pc == AtLookup || pc == AtReread)
    requires req.key in s.rows && OnlyNumber(s.rows, s.rows[req.key]) && s.rows[req.key].key == req.key
    requires Laws.Agrees(cfg, s.rows[req.key], req)
    requires s.rows[req.key].status == Pending && s.rows[req.key].attempts == 0
    requires s.rows[req.key].deviceNo in s.devices
    requires
      var begun := if pc == AtLookup then Tock(Tock(s.clock, world(14)), world(9)) else Tock(s.clock, world(9));
      && Tock(begun, world(8)) < s.rows[req.key].expiresAt
      && Laws.Commandable(cfg, s.devices[s.rows[req.key].deviceNo], JudgedAt(begun, world))
    ensures
      var begun := if pc == AtLookup then Tock(Tock(s.clock, world(14)), world(9)) else Tock(s.clock, world(9));
      var end := Tock(Tock(Tock(JudgedAt(begun, world), world(5)), world(4)), world(3));
      var c := s.rows[req.key];
      Course(cfg, s, id, world)
      == Served(s, end, id, req, c.(attempts := 1), s.marked[c.no := Winner(id, Tock(begun, world(8)))], world(4).in_)
  {
    hide Course, Laws.Commandable, SameRequest, Laws.Agrees, JudgedAt;
    var c := s.rows[req.key];
    Faultless(world);
    Laws.RequestAnswer(cfg, c, req);
    var begun := if pc == AtLookup then Tock(Tock(s.clock, world(14)), world(9)) else Tock(s.clock, world(9));
    assert begun <= Tock(begun, world(8));
    hide Tock;
    if pc == AtLookup {
      LoneStep(cfg, s, id, req, AtLookup, AtDecide(c), world);
      var t := Alone(s.rows, s, Tock(s.clock, world(14)), id, req, AtDecide(c));
      LoneStep(cfg, t, id, req, AtDecide(c), AtRun(c), world);
    } else {
      LoneStep(cfg, s, id, req, AtReread, AtRun(c), world);
    }
    LoneRun(cfg, Alone(s.rows, s, begun, id, req, AtRun(c)), id, req, c, world);
  }

  /** A repeated request is replayed: whatever the others did before its lookup, the command stored then comes back
      if it is no longer pending, and the call writes nothing and calls nothing. */
  lemma RepeatIsReplayed(cfg: Config, s: State, id: nat, req: Request, world: nat -> Moment)
    requires id in s.clients && s.clients[id] == Client(req, AtLookup)
    requires world(14).in_.fault == NoFault
    requires
      var t := Meantime(cfg, s, id, world(14));
      req.key in t.rows && Laws.Agrees(cfg, t.rows[req.key], req) && t.rows[req.key].status != Pending
    ensures
      var t := Meantime(cfg, s, id, world(14));
      Course(cfg, s, id, world) == t.(clients := t.clients[id := Client(req, Done(Some(t.rows[req.key]), None))])
  {
    hide Course, Meantime, SameRequest;
    Laws.RequestAnswer(cfg, Meantime(cfg, s, id, world(14)).rows[req.key], req);
    CourseStep(cfg, s, id, req, AtLookup, world);
  }

  /** The same key with another request is a conflict: the command stored comes back with it, whatever its status, and
      the call writes nothing and calls nothing. */
  lemma OtherRequestConflicts(cfg: Config, s: State, id: nat, req: Request, world: nat -> Moment)
    requires id in s.clients && s.clients[id] == Client(req, AtLookup)
    requires world(14).in_.fault == NoFault
    requires
      var t := Meantime(cfg, s, id, world(14));
      req.key in t.rows && !Laws.Agrees(cfg, t.rows[req.key], req)
    ensures
      var t := Meantime(cfg, s, id, world(14));
      Course(cfg, s, id, world)
      == t.(clients := t.clients[id := Client(req, Done(Some(t.rows[req.key]), Some(KeyConflict)))])
  {
    hide Course, Meantime, SameRequest;
    Laws.RequestAnswer(cfg, Meantime(cfg, s, id, world(14)).rows[req.key], req);
    CourseStep(cfg, s, id, req, AtLookup, world);
  }
}
