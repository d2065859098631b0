/** Whether a RUNNING command can still end. Nothing returns it to PENDING and a repeated request only replays it,
    so its end is in the hands of the callers that already hold it. */
module CommandFates {
  import opened Schema
  import opened Commands
  import opened CommandTheorems

  /** The caller has this command in hand at a point from which it may still write an ending. */
  predicate MayEnd(pc: Pc, req: Request, key: string) {
    match pc
    case AtReadBack(now) => req.key == key
    case AtDecide(c) => c.key == key
    case AtRun(c) => c.key == key
    case AtGateway(c) => c.key == key
    case AtComplete(c, status, outcome, code, failure) => c.key == key
    case AtExpire(c) => c.key == key
    case _ => false
  }

  predicate Attends(s: State, id: nat, key: string) {
    id in s.clients && MayEnd(s.clients[id].pc, s.clients[id].req, key)
  }

  ghost predicate Attended(s: State, key: string) {
    exists id :: Attends(s, id, key)
  }

  predicate RunningRow(s: State, key: string) {
    key in s.rows && s.rows[key].status == Running
  }

  /** A caller past its expiry check has time and attempts left by the reading it goes by. */
  predicate InTime(pc: Pc) {
    match pc
    case AtRunDevice(c, now) => now < c.expiresAt && c.attempts < MAX_ATTEMPTS
    case AtRunCheck(c, now, device) => now < c.expiresAt && c.attempts < MAX_ATTEMPTS
    case AtMark(c, now) => now < c.expiresAt && c.attempts < MAX_ATTEMPTS
    case _ => true
  }

  predicate LaterPc(pc: Pc) { pc.AtRunDevice? || pc.AtRunCheck? || pc.AtMark? }

  ghost predicate AllInTime(s: State) {
    forall id :: id in s.clients ==> InTime(s.clients[id].pc)
  }

  lemma MoveInTime(cfg: Config, s: State, id: nat, in_: Input)
    requires id in s.clients && InTime(s.clients[id].pc)
    ensures InTime(Move(cfg, s, id, in_).pc)
  {
    hide SameRequest, ValidateDevice, MarkHits, CompleteHits, InsertFailure, Complete, MarkRunning, NewCommand;
    match s.clients[id].pc
    case AtRun(cmd) =>
    case AtRunDevice(cmd, now) =>
    case AtRunCheck(cmd, now, device) =>
    case _ => assert !LaterPc(Move(cfg, s, id, in_).pc);
  }

  lemma StepInTime(cfg: Config, s: State, a: Action)
    requires AllInTime(s)
    ensures AllInTime(Apply(cfg, s, a))
  {
    hide Move;
    if a.Step? && a.client in s.clients { MoveInTime(cfg, s, a.client, a.in_); }
  }

  lemma {:induction false} InTimeAlways(cfg: Config, s: State, actions: seq<Action>)
    requires Initial(s)
    ensures AllInTime(Exec(cfg, s, actions))
  {
    if actions == [] {
    } else {
      InTimeAlways(cfg, s, actions[..|actions| - 1]);
      StepInTime(cfg, Exec(cfg, s, actions[..|actions| - 1]), actions[|actions| - 1]);
    }
  }

  // ---- a command nobody attends ----

  /** The statements of a caller concern its own command only. */
  lemma OtherRows(s: State, cmd: Command, key: string, now: int, status: Status, outcome: Outcome, code: Code)
    requires NumbersUnique(s.rows) && CopyOk(s.rows, cmd) && key in s.rows && cmd.key != key
    ensures key in MarkRunning(s.rows, cmd.no, now) && MarkRunning(s.rows, cmd.no, now)[key] == s.rows[key]
    ensures key in Complete(s.rows, cmd.no, status, outcome, code)
    ensures Complete(s.rows, cmd.no, status, outcome, code)[key] == s.rows[key]
  {
    if s.rows[key].no == cmd.no { OwnRow(s, cmd, key); }
  }

  /** A RUNNING row is not marked again. */
  lemma RunningIsNotMarked(s: State, cmd: Command, now: int)
    requires NumbersUnique(s.rows) && CopyOk(s.rows, cmd) && RunningRow(s, cmd.key)
    ensures MarkHits(s.rows, cmd.no, now) == {}
  {
    forall k | k in MarkHits(s.rows, cmd.no, now) ensures false {
      OwnRow(s, cmd, k);
    }
  }

  lemma UnattendedStep(cfg: Config, s: State, id: nat, in_: Input, key: string)
    requires Inv(cfg, s) && id in s.clients && InTime(s.clients[id].pc)
    requires RunningRow(s, key) && !Attends(s, id, key)
    ensures
      var e := Move(cfg, s, id, in_);
      key in e.rows && e.rows[key] == s.rows[key] && !MayEnd(e.pc, s.clients[id].req, key)
  {
    assert key in s.rows;
    hide *;
    if Writes(s.clients[id].pc) {
      UnattendedWrite(cfg, s, id, in_, key);
    } else {
      ReadsWriteNothing(cfg, s, id, in_);
      UnattendedRead(cfg, s, id, in_, key);
    }
  }

  lemma UnattendedRead(cfg: Config, s: State, id: nat, in_: Input, key: string)
    requires Inv(cfg, s) && id in s.clients && !Writes(s.clients[id].pc)
    requires RunningRow(s, key) && !Attends(s, id, key)
    ensures !MayEnd(Move(cfg, s, id, in_).pc, s.clients[id].req, key)
  {
    hide RowsOk, CallsOk, CopyOk, SameRequest, ValidateDevice;
    var req, pc := s.clients[id].req, s.clients[id].pc;
    assert PcOk(cfg, s, id, req, pc);
    hide Inv;
    match pc
    case AtLookup => UnattendedLookup(cfg, s, req, in_, key);
    case AtReread => UnattendedLookup(cfg, s, req, in_, key);
    case AtReadBack(now) => if req.key in s.rows { RowIsCopy(s, req.key); }
    case _ =>
  }

  lemma UnattendedLookup(cfg: Config, s: State, req: Request, in_: Input, key: string)
    requires RowsOk(s) && RunningRow(s, key)
    ensures !MayEnd(Lookup(cfg, s, req, in_).pc, req, key) && !MayEnd(Reread(cfg, s, req, in_).pc, req, key)
  {
    if req.key in s.rows { RowIsCopy(s, req.key); }
  }

  lemma UnattendedWrite(cfg: Config, s: State, id: nat, in_: Input, key: string)
    requires Inv(cfg, s) && id in s.clients && Writes(s.clients[id].pc) && InTime(s.clients[id].pc)
    requires RunningRow(s, key) && !Attends(s, id, key)
    ensures
      var e := Move(cfg, s, id, in_);
      key in e.rows && e.rows[key] == s.rows[key] && !MayEnd(e.pc, s.clients[id].req, key)
  {
    hide CallsOk, EachRowOk, SameRequest, MarkHits, CompleteHits, Complete, MarkRunning, InsertFailure;
    var req, pc := s.clients[id].req, s.clients[id].pc;
    assert PcOk(cfg, s, id, req, pc);
    match pc
    case AtInsert(cmd, now) => UnattendedInsert(cfg, s, cmd, now, in_, key);
    case AtMark(cmd, now) => UnattendedMark(s, id, cmd, now, in_, key);
    case AtGateway(cmd) =>
    case AtComplete(cmd, status, outcome, code, failure) => OtherRows(s, cmd, key, 0, status, outcome, code);
    case AtExpire(cmd) => OtherRows(s, cmd, key, 0, Expired, NO_OUTCOME, CommandExpired);
  }

  lemma UnattendedMark(s: State, id: nat, cmd: Command, now: int, in_: Input, key: string)
    requires NumbersUnique(s.rows) && CopyOk(s.rows, cmd) && RunningRow(s, key)
    requires now < cmd.expiresAt && cmd.attempts < MAX_ATTEMPTS
    ensures
      var e := Mark(s, id, cmd, now, in_);
      && key in e.rows && e.rows[key] == s.rows[key]
      && (e.pc.Done? || (e.pc.AtGateway? && e.pc.cmd.key == cmd.key && cmd.key != key))
  {
    hide MarkHits, MarkRunning, CopyOk, NumbersUnique;
    if cmd.key == key {
      RunningIsNotMarked(s, cmd, now);
    } else {
      OtherRows(s, cmd, key, now, Expired, NO_OUTCOME, NoCode);
    }
  }

  lemma UnattendedInsert(cfg: Config, s: State, cmd: Command, now: int, in_: Input, key: string)
    requires key in s.rows
    ensures
      var e := Insert(cfg, s, cmd, now, in_);
      && key in e.rows && e.rows[key] == s.rows[key]
      && (e.pc == AtReadBack(now) ==> cmd.key != key)
      && (e.pc.AtReadBack? || e.pc.AtReread? || e.pc.Done?)
  {
  }

  ghost predicate Abandoned(s: State, key: string) {
    RunningRow(s, key) && !Attended(s, key)
  }

  lemma AbandonedStep(cfg: Config, s: State, a: Action, key: string)
    requires Inv(cfg, s) && AllInTime(s) && Abandoned(s, key)
    ensures Abandoned(Apply(cfg, s, a), key) && Apply(cfg, s, a).rows[key] == s.rows[key]
  {
    hide Move, Inv;
    var s' := Apply(cfg, s, a);
    if a.Step? && a.client in s.clients {
      UnattendedStep(cfg, s, a.client, a.in_, key);
    }
    forall id ensures !Attends(s', id, key) {
      assert !Attends(s, id, key);
    }
  }

  /** An abandoned command stays RUNNING, as it is, through every run. */
  lemma {:induction false} AbandonedForever(
    cfg: Config, s: State, actions: seq<Action>, later: seq<Action>, key: string)
    requires Initial(s) && Abandoned(Exec(cfg, s, actions), key)
    ensures
      var y, z := Exec(cfg, s, actions), Exec(cfg, s, actions + later);
      Abandoned(z, key) && z.rows[key] == y.rows[key]
  {
    hide Inv, AllInTime, Apply, Attended;
    if later == [] {
      assert actions + later == actions;
    } else {
      var before := later[..|later| - 1];
      AbandonedForever(cfg, s, actions, before, key);
      assert (actions + later)[..|actions + later| - 1] == actions + before;
      InvAlways(cfg, s, actions + before);
      InTimeAlways(cfg, s, actions + before);
      AbandonedStep(cfg, Exec(cfg, s, actions + before), later[|later| - 1], key);
    }
  }

  // ---- a command somebody attends ----

  const SMOOTH: Input := Input(NoFault, "", NO_OUTCOME, Answered)

  ghost predicate EndedBy(cfg: Config, s: State, plan: seq<Action>, key: string) {
    key in Exec(cfg, s, plan).rows && IsTerminal(Exec(cfg, s, plan).rows[key].status)
  }

  lemma Prepend(cfg: Config, s: State, a: Action, rest: seq<Action>, key: string)
    requires EndedBy(cfg, Apply(cfg, s, a), rest, key)
    ensures EndedBy(cfg, s, [a] + rest, key)
  {
    ExecSplit(cfg, s, [a], rest);
    assert [a][..0] == [];
    assert Exec(cfg, s, [a]) == Apply(cfg, Exec(cfg, s, []), a);
  }

  /** The writing step of an ending. */
  lemma EndingStep(cfg: Config, s: State, id: nat, key: string)
    requires Inv(cfg, s) && RunningRow(s, key) && Attends(s, id, key)
    requires s.clients[id].pc.AtComplete? || s.clients[id].pc.AtExpire?
    ensures EndedBy(cfg, s, [Step(id, SMOOTH)], key)
  {
    hide SameRequest;
    var pc := s.clients[id].pc;
    assert PcOk(cfg, s, id, s.clients[id].req, pc);
    var s' := Apply(cfg, s, Step(id, SMOOTH));
    assert s.rows[key].no == pc.cmd.no;
    assert key in s'.rows && IsTerminal(s'.rows[key].status);
    assert EndedBy(cfg, s', [], key);
    Prepend(cfg, s, Step(id, SMOOTH), [], key);
    assert [Step(id, SMOOTH)] + [] == [Step(id, SMOOTH)];
  }

  /** Any other step of an attending caller at which time is up, or which is the gateway's, leads on. */
  lemma LeadsOn(cfg: Config, s: State, id: nat, key: string)
    requires Inv(cfg, s) && RunningRow(s, key) && Attends(s, id, key)
    requires !s.clients[id].pc.AtComplete? && !s.clients[id].pc.AtExpire?
    requires s.rows[key].expiresAt <= s.clock
    ensures
      var s' := Apply(cfg, s, Step(id, SMOOTH));
      && s'.rows == s.rows && s'.clock == s.clock && Attends(s', id, key)
      && (s'.clients[id].pc.AtComplete? || s'.clients[id].pc.AtExpire? || s'.clients[id].pc.AtRun?)
      && !(s.clients[id].pc.AtRun? && s'.clients[id].pc.AtRun?)
  {
    hide SameRequest;
    assert PcOk(cfg, s, id, s.clients[id].req, s.clients[id].pc);
    RowIsCopy(s, key);
  }

  lemma EndPlan(cfg: Config, s: State, id: nat, key: string) returns (plan: seq<Action>)
    requires Inv(cfg, s) && RunningRow(s, key) && Attends(s, id, key) && s.rows[key].expiresAt <= s.clock
    ensures EndedBy(cfg, s, plan, key)
    decreases if s.clients[id].pc.AtComplete? || s.clients[id].pc.AtExpire? then 0
              else if s.clients[id].pc.AtRun? then 1 else 2
  {
    hide Inv, EndedBy, Apply;
    var step := Step(id, SMOOTH);
    if s.clients[id].pc.AtComplete? || s.clients[id].pc.AtExpire? {
      EndingStep(cfg, s, id, key);
      plan := [step];
    } else {
      LeadsOn(cfg, s, id, key);
      StepInv(cfg, s, step);
      var rest := EndPlan(cfg, Apply(cfg, s, step), id, key);
      Prepend(cfg, s, step, rest, key);
      plan := [step] + rest;
    }
  }

  lemma AttendedCanEnd(cfg: Config, s: State, id: nat, key: string) returns (plan: seq<Action>)
    requires Inv(cfg, s) && RunningRow(s, key) && Attends(s, id, key)
    ensures EndedBy(cfg, s, plan, key)
  {
    hide Inv, EndedBy;
    var due := if s.clock < s.rows[key].expiresAt then s.rows[key].expiresAt else s.clock;
    var tick := Tick(due);
    StepInv(cfg, s, tick);
    var rest := EndPlan(cfg, Apply(cfg, s, tick), id, key);
    Prepend(cfg, s, tick, rest, key);
    plan := [tick] + rest;
  }

  /** A RUNNING command can still end exactly when a caller that may write its ending still holds it. */
  lemma RunningCanEnd(cfg: Config, s: State, actions: seq<Action>, key: string)
    requires Initial(s) && RunningRow(Exec(cfg, s, actions), key)
    ensures
      var y := Exec(cfg, s, actions);
      (exists plan :: EndedBy(cfg, y, plan, key)) <==> Attended(y, key)
  {
    var y := Exec(cfg, s, actions);
    InvAlways(cfg, s, actions);
    if Attended(y, key) {
      var id :| Attends(y, id, key);
      var plan := AttendedCanEnd(cfg, y, id, key);
      assert EndedBy(cfg, y, plan, key);
    } else {
      forall plan ensures !EndedBy(cfg, y, plan, key) {
        ExecSplit(cfg, s, actions, plan);
        AbandonedForever(cfg, s, actions, plan, key);
      }
    }
  }

  /** How a command comes to be abandoned: its compare-and-set took effect, the reply was lost, and no other caller
      attends it. */
  lemma LostReplyAbandons(cfg: Config, s: State, actions: seq<Action>, id: nat, in_: Input)
    requires Initial(s)
    requires id in Exec(cfg, s, actions).clients && Exec(cfg, s, actions).clients[id].pc.AtMark?
    requires in_.fault == ReplyLost
    requires
      var y := Exec(cfg, s, actions);
      var pc := y.clients[id].pc;
      && MarkHits(y.rows, pc.cmd.no, pc.now) != {}
      && forall j :: j != id ==> !Attends(y, j, pc.cmd.key)
    ensures
      var y := Exec(cfg, s, actions);
      Abandoned(Apply(cfg, y, Step(id, in_)), y.clients[id].pc.cmd.key)
  {
    InvAlways(cfg, s, actions);
    var y := Exec(cfg, s, actions);
    var pc := y.clients[id].pc;
    assert PcOk(cfg, y, id, y.clients[id].req, pc);
    MarkIsFirst(y, pc.cmd, pc.now);
    var y' := Apply(cfg, y, Step(id, in_));
    assert y'.clients[id].pc.Done?;
    assert y'.rows == MarkRunning(y.rows, pc.cmd.no, pc.now);
    forall j ensures !Attends(y', j, pc.cmd.key) {
      if j != id { assert !Attends(y, j, pc.cmd.key); }
    }
  }

  lemma ExecOne(cfg: Config, s: State, actions: seq<Action>, a: Action)
    ensures Exec(cfg, s, actions + [a]) == Apply(cfg, Exec(cfg, s, actions), a)
  {
    assert (actions + [a])[..|actions|] == actions;
  }

  // ---- an abandoned command is reachable ----

  function OneDevice(): State {
    State(map[], map["d" := Device(1, true, DeviceActive, Some(0))], 0, map[], map[], [])
  }

  const ANY_JSON: Config := Config((s: string) => Some(s), 10)
  const OPEN: Request := Request("d", OpenDoor, "c", "{}", "k", 10, None)
  const OPENING: Command :=
    Command("n", "d", OpenDoor, "c", "{}", "k", Pending, 10, 0, NO_OUTCOME, NoCode)

  /** The caller alone in the system, at a point of its call. */
  predicate CallerAt(s: State, rows: map<string, Command>, pc: Pc) {
    s == OneDevice().(rows := rows, clients := map[1 := Client(OPEN, pc)])
  }

  lemma Advance(
    before: seq<Action>, rows: map<string, Command>, pc: Pc, in_: Input, rows': map<string, Command>, pc': Pc)
    returns (actions: seq<Action>)
    requires CallerAt(Exec(ANY_JSON, OneDevice(), before), rows, pc)
    requires Move(ANY_JSON, OneDevice().(rows := rows, clients := map[1 := Client(OPEN, pc)]), 1, in_)
          == Effect(pc', rows', map[], [])
    ensures CallerAt(Exec(ANY_JSON, OneDevice(), actions), rows', pc')
  {
    hide Move;
    ExecOne(ANY_JSON, OneDevice(), before, Step(1, in_));
    actions := before + [Step(1, in_)];
  }

  lemma ReachesInsert() returns (actions: seq<Action>)
    ensures CallerAt(Exec(ANY_JSON, OneDevice(), actions), map[], AtInsert(OPENING, 0))
  {
    var numbered := SMOOTH.(no := "n");
    var device := Device(1, true, DeviceActive, Some(0));
    assert !IsSpace("k"[0]);
    ExecOne(ANY_JSON, OneDevice(), [], Begin(1, OPEN));
    actions := [] + [Begin(1, OPEN)];
    actions := Advance(actions, map[], AtLookup, SMOOTH, map[], AtDevice);
    actions := Advance(actions, map[], AtDevice, SMOOTH, map[], AtCheck(device));
    actions := Advance(actions, map[], AtCheck(device), SMOOTH, map[], AtPrepare);
    actions := Advance(actions, map[], AtPrepare, numbered, map[], AtInsert(OPENING, 0));
  }

  lemma ReachesMark() returns (actions: seq<Action>)
    ensures CallerAt(Exec(ANY_JSON, OneDevice(), actions), map["k" := OPENING], AtMark(OPENING, 0))
  {
    hide Exec;
    var rows := map["k" := OPENING];
    var device := Device(1, true, DeviceActive, Some(0));
    actions := ReachesInsert();
    actions := Advance(actions, map[], AtInsert(OPENING, 0), SMOOTH, rows, AtReadBack(0));
    actions := Advance(actions, rows, AtReadBack(0), SMOOTH, rows, AtRun(OPENING));
    actions := Advance(actions, rows, AtRun(OPENING), SMOOTH, rows, AtRunDevice(OPENING, 0));
    actions := Advance(actions, rows, AtRunDevice(OPENING, 0), SMOOTH, rows, AtRunCheck(OPENING, 0, device));
    actions := Advance(actions, rows, AtRunCheck(OPENING, 0, device), SMOOTH, rows, AtMark(OPENING, 0));
  }

  /** From an empty command table: one request, and the reply of its compare-and-set is lost. */
  lemma AbandonedIsReachable() returns (actions: seq<Action>)
    ensures Initial(OneDevice()) && Abandoned(Exec(ANY_JSON, OneDevice(), actions), "k")
  {
    hide Inv, Apply;
    actions := ReachesMark();
    var lost := SMOOTH.(fault := ReplyLost);
    var y := Exec(ANY_JSON, OneDevice(), actions);
    assert "k" in MarkHits(y.rows, "n", 0);
    LostReplyAbandons(ANY_JSON, OneDevice(), actions, 1, lost);
    ExecOne(ANY_JSON, OneDevice(), actions, Step(1, lost));
    actions := actions + [Step(1, lost)];
  }

  // ---- a PENDING command past its expiry ----

  predicate Sound(req: Request) { !Blank(req.key) && req.verb != UnknownVerb }

  /** Only sound requests get past the first checks, so only they have rows. */
  ghost predicate AllSound(s: State) {
    && (forall k :: k in s.rows ==> !Blank(k) && s.rows[k].verb != UnknownVerb)
    && (forall id :: id in s.clients && !s.clients[id].pc.Done? ==> Sound(s.clients[id].req))
  }

  lemma StepSound(cfg: Config, s: State, a: Action)
    requires Inv(cfg, s) && AllSound(s)
    ensures AllSound(Apply(cfg, s, a))
  {
    if a.Step? && a.client in s.clients {
      var pc := s.clients[a.client].pc;
      assert PcOk(cfg, s, a.client, s.clients[a.client].req, pc);
      hide Inv;
      MoveGrows(cfg, s, a.client, a.in_);
      NewRows(cfg, s, a.client, a.in_);
      hide Move;
    } else {
      hide Inv;
    }
  }

  /** Rows are added by the insert of a caller alone, and only that one. */
  lemma NewRows(cfg: Config, s: State, id: nat, in_: Input)
    requires id in s.clients
    ensures
      var rows' := Move(cfg, s, id, in_).rows;
      forall k :: k in rows' && k !in s.rows ==>
        s.clients[id].pc.AtInsert? && k == s.clients[id].pc.cmd.key && rows'[k] == s.clients[id].pc.cmd
    ensures Move(cfg, s, id, in_).pc.Done? || !s.clients[id].pc.Done?
  {
    hide SameRequest, ValidateDevice, InsertFailure;
  }

  lemma {:induction false} SoundAlways(cfg: Config, s: State, actions: seq<Action>)
    requires Initial(s)
    ensures AllSound(Exec(cfg, s, actions))
  {
    if actions == [] {
    } else {
      SoundAlways(cfg, s, actions[..|actions| - 1]);
      InvAlways(cfg, s, actions[..|actions| - 1]);
      StepSound(cfg, Exec(cfg, s, actions[..|actions| - 1]), actions[|actions| - 1]);
    }
  }

  /** Nothing returns a command to PENDING. */
  lemma NeverPendingAgain(cfg: Config, s: State, a: Action, key: string)
    requires Inv(cfg, s) && key in s.rows && s.rows[key].status != Pending
    ensures key in Apply(cfg, s, a).rows && Apply(cfg, s, a).rows[key].status != Pending
  {
    if a.Step? && a.client in s.clients {
      assert PcOk(cfg, s, a.client, s.clients[a.client].req, s.clients[a.client].pc);
      hide Inv;
      MoveNotPending(cfg, s, a.client, a.in_, key);
      hide Move;
    } else {
      hide Inv;
    }
  }

  lemma MoveNotPending(cfg: Config, s: State, id: nat, in_: Input, key: string)
    requires id in s.clients && key in s.rows && s.rows[key].status != Pending
    requires s.clients[id].pc.AtComplete? ==> IsTerminal(s.clients[id].pc.status)
    ensures key in Move(cfg, s, id, in_).rows && Move(cfg, s, id, in_).rows[key].status != Pending
  {
    hide SameRequest, ValidateDevice;
  }

  /** It decides to expire the command, or the command is no longer PENDING. */
  predicate SettlingPc(rows: map<string, Command>, pc: Pc, key: string) {
    match pc
    case AtLookup => true
    case AtDecide(c) => c.key == key
    case AtExpire(c) => c.key == key
    case Done(returned, failure) => failure == Some(Unavailable) || (key in rows && rows[key].status != Pending)
    case _ => false
  }

  /** A caller with the request of an expired row. */
  predicate Settling(cfg: Config, s: State, id: nat, key: string) {
    && key in s.rows && s.rows[key].expiresAt <= s.clock
    && id in s.clients && s.clients[id].req.key == key && SameRequest(cfg, s.rows[key], s.clients[id].req)
    && SettlingPc(s.rows, s.clients[id].pc, key)
  }

  lemma LookupSettles(cfg: Config, s: State, req: Request, in_: Input)
    requires RowsOk(s) && req.key in s.rows && SameRequest(cfg, s.rows[req.key], req)
    ensures SettlingPc(s.rows, Lookup(cfg, s, req, in_).pc, req.key) && Lookup(cfg, s, req, in_).rows == s.rows
  {
    RowIsCopy(s, req.key);
    assert RowOk(s.rows[req.key], req.key, s.marked);
    hide SameRequest;
  }

  lemma ExpireSettles(s: State, cmd: Command, ended: Pc, in_: Input)
    requires CopyOk(s.rows, cmd) && ended.Done?
    ensures
      var e := Finish(s, cmd, Expired, NO_OUTCOME, CommandExpired, ended, in_);
      SettlingPc(e.rows, e.pc, cmd.key)
  {
    assert s.rows[cmd.key].no == cmd.no;
    hide CompleteHits;
  }

  lemma MoveSettles(cfg: Config, s: State, id: nat, in_: Input, key: string)
    requires Inv(cfg, s) && Settling(cfg, s, id, key)
    ensures SettlingPc(Move(cfg, s, id, in_).rows, Move(cfg, s, id, in_).pc, key)
  {
    var pc, req := s.clients[id].pc, s.clients[id].req;
    assert PcOk(cfg, s, id, req, pc);
    hide Inv, SameRequest, Finish, Lookup, CopyOk, SameIdentity;
    match pc
    case AtLookup => LookupSettles(cfg, s, req, in_);
    case AtDecide(c) =>
      assert c.expiresAt == s.rows[key].expiresAt by { IdentityOf(s.rows, c); }
      assert Move(cfg, s, id, in_).pc == AtExpire(c);
    case AtExpire(c) =>
      ExpireSettles(s, c, Done(Some(c.(status := Expired, code := CommandExpired)), Some(PastExpiry)), in_);
    case Done(returned, failure) =>
  }

  lemma IdentityOf(rows: map<string, Command>, c: Command)
    requires CopyOk(rows, c)
    ensures c.key in rows && rows[c.key].expiresAt == c.expiresAt && rows[c.key].no == c.no
  {
  }

  lemma StepSettles(cfg: Config, s: State, a: Action, id: nat, key: string)
    requires Inv(cfg, s) && Settling(cfg, s, id, key)
    ensures Settling(cfg, Apply(cfg, s, a), id, key)
  {
    StepGrows(cfg, s, a);
    if a.Step? && a.client == id { MoveSettles(cfg, s, id, a.in_, key); }
    if s.rows[key].status != Pending { NeverPendingAgain(cfg, s, a, key); }
    hide Inv, Move, SameRequest, SameIdentity;
    IdentityStays(cfg, s.rows, Apply(cfg, s, a).rows, key, s.clients[id].req);
  }

  lemma IdentityStays(cfg: Config, rows: map<string, Command>, rows': map<string, Command>, key: string, req: Request)
    requires RowsGrow(rows, rows') && key in rows && SameRequest(cfg, rows[key], req)
    ensures key in rows' && rows'[key].expiresAt == rows[key].expiresAt && SameRequest(cfg, rows'[key], req)
  {
    SameRequestStays(cfg, rows[key], rows'[key], req);
  }

  lemma SameRequestStays(cfg: Config, c: Command, c': Command, req: Request)
    requires SameRequest(cfg, c, req) && SameIdentity(c, c')
    ensures SameRequest(cfg, c', req)
  {
  }

  lemma {:induction false} SettlesThroughout(cfg: Config, s: State, later: seq<Action>, id: nat, key: string)
    requires Inv(cfg, s) && Settling(cfg, s, id, key)
    ensures Inv(cfg, Exec(cfg, s, later)) && Settling(cfg, Exec(cfg, s, later), id, key)
  {
    hide Inv, Apply, Settling;
    if later == [] {
    } else {
      var before := later[..|later| - 1];
      SettlesThroughout(cfg, s, before, id, key);
      StepSettles(cfg, Exec(cfg, s, before), later[|later| - 1], id, key);
      StepInv(cfg, Exec(cfg, s, before), later[|later| - 1]);
    }
  }

  /** One more Execute with a command's request, begun after its expiry, settles it: when it returns without having
      lost a statement or its reply, the command is not PENDING, whatever anyone else did meanwhile. So a caller lost
      before its MarkRunning strands nothing. */
  lemma LateExecuteSettles(
    cfg: Config, s: State, actions: seq<Action>, id: nat, req: Request, later: seq<Action>)
    requires Initial(s)
    requires
      var y := Exec(cfg, s, actions);
      && id !in y.clients && req.key in y.rows && y.rows[req.key].expiresAt <= y.clock
      && SameRequest(cfg, y.rows[req.key], req)
    ensures
      var z := Exec(cfg, Apply(cfg, Exec(cfg, s, actions), Begin(id, req)), later);
      && id in z.clients && req.key in z.rows
      && (z.clients[id].pc.Done? && z.clients[id].pc.failure != Some(Unavailable)
          ==> z.rows[req.key].status != Pending)
  {
    var y := Exec(cfg, s, actions);
    InvAlways(cfg, s, actions);
    SoundAlways(cfg, s, actions);
    StepInv(cfg, y, Begin(id, req));
    SettlesThroughout(cfg, Apply(cfg, y, Begin(id, req)), later, id, req.key);
  }

  /** And undisturbed it does return, in three steps, with the command EXPIRED if it was PENDING. */
  lemma LateExecuteExpires(cfg: Config, s: State, actions: seq<Action>, id: nat, req: Request)
    requires Initial(s)
    requires
      var y := Exec(cfg, s, actions);
      && id !in y.clients && req.key in y.rows && y.rows[req.key].expiresAt <= y.clock
      && SameRequest(cfg, y.rows[req.key], req) && y.rows[req.key].status == Pending
    ensures
      var y := Exec(cfg, s, actions);
      var step := Step(id, SMOOTH);
      var z := Apply(cfg, Apply(cfg, Apply(cfg, Apply(cfg, y, Begin(id, req)), step), step), step);
      var ended := y.rows[req.key].(status := Expired, code := CommandExpired);
      && req.key in z.rows && z.rows[req.key] == ended
      && id in z.clients && z.clients[id].pc == Done(Some(ended), Some(PastExpiry))
  {
    var y, key := Exec(cfg, s, actions), req.key;
    InvAlways(cfg, s, actions);
    SoundAlways(cfg, s, actions);
    RowIsCopy(y, key);
    assert RowOk(y.rows[key], key, y.marked);
    assert Sound(req);
    hide *;
    ExpiringCall(cfg, y, id, req);
  }

  lemma ExpiringCall(cfg: Config, y: State, id: nat, req: Request)
    requires Sound(req) && id !in y.clients && req.key in y.rows && SameRequest(cfg, y.rows[req.key], req)
    requires
      var c := y.rows[req.key];
      && c.key == req.key && c.status == Pending && c.expiresAt <= y.clock
      && c.attempts == 0 && c.outcome == NO_OUTCOME
    ensures
      var ended := y.rows[req.key].(status := Expired, code := CommandExpired);
      var y1 := Apply(cfg, y, Begin(id, req));
      var z := Apply(cfg, Apply(cfg, Apply(cfg, y1, Step(id, SMOOTH)), Step(id, SMOOTH)), Step(id, SMOOTH));
      && req.key in z.rows && z.rows[req.key] == ended
      && id in z.clients && z.clients[id].pc == Done(Some(ended), Some(PastExpiry))
  {
    hide SameRequest;
    var c := y.rows[req.key];
    var y1 := Apply(cfg, y, Begin(id, req));
    assert y1.clients[id] == Client(req, AtLookup);
    var y2 := Apply(cfg, y1, Step(id, SMOOTH));
    assert y2.clients[id] == Client(req, AtDecide(c)) && y2.rows == y.rows;
    var y3 := Apply(cfg, y2, Step(id, SMOOTH));
    assert y3.clients[id] == Client(req, AtExpire(c)) && y3.rows == y.rows;
    assert req.key in CompleteHits(y3.rows, c.no, Expired);
  }
}
