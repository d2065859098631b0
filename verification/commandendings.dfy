/** What a stored ending says about the past: a gateway ending has its call, an expiry its deadline. */
module CommandEndings {
  import opened Schema
  import opened Commands
  import opened CommandTheorems

  predicate GatewayEnding(s: Status) {
    s == Succeeded || s == Failed || s == TimedOut
  }

  /** Each status has its error code; only a timeout is forced to be retryable, and an expiry has no outcome. */
  predicate CodeFits(status: Status, outcome: Outcome, code: Code) {
    match status
    case Succeeded => code == NoCode
    case Failed => code == CommandFailed
    case TimedOut => code == CommandTimeout && outcome.retryable
    case Expired => code == CommandExpired && outcome == NO_OUTCOME
    case _ => code == NoCode && outcome == NO_OUTCOME
  }

  ghost predicate Called(calls: seq<Call>, no: string) {
    exists i :: 0 <= i < |calls| && calls[i].no == no
  }

  ghost predicate RowEnd(calls: seq<Call>, clock: int, c: Command) {
    && CodeFits(c.status, c.outcome, c.code)
    && (c.status == Expired ==> c.expiresAt <= clock)
    && (GatewayEnding(c.status) ==> Called(calls, c.no))
  }

  ghost predicate PcEnd(calls: seq<Call>, clock: int, pc: Pc) {
    match pc
    case AtInsert(c, now) => now <= clock
    case AtReadBack(now) => now <= clock
    case AtRunDevice(c, now) => now <= clock
    case AtRunCheck(c, now, device) => now <= clock
    case AtMark(c, now) => now <= clock
    case AtExpire(c) => c.expiresAt <= clock
    case AtComplete(c, status, outcome, code, failure) =>
      GatewayEnding(status) && CodeFits(status, outcome, code) && Called(calls, c.no)
    case _ => true
  }

  ghost predicate Ends(s: State) {
    && (forall k :: k in s.rows ==> RowEnd(s.calls, s.clock, s.rows[k]))
    && (forall id :: id in s.clients ==> PcEnd(s.calls, s.clock, s.clients[id].pc))
  }

  lemma CalledStays(calls: seq<Call>, calls': seq<Call>, no: string)
    requires Called(calls, no) && calls <= calls'
    ensures Called(calls', no)
  {
    var i :| 0 <= i < |calls| && calls[i].no == no;
    assert calls'[i].no == no;
  }

  lemma LaterRowEnd(calls: seq<Call>, calls': seq<Call>, clock: int, clock': int, c: Command)
    requires RowEnd(calls, clock, c) && calls <= calls' && clock <= clock'
    ensures RowEnd(calls', clock', c)
  {
    if GatewayEnding(c.status) { CalledStays(calls, calls', c.no); }
  }

  lemma LaterPcEnd(calls: seq<Call>, calls': seq<Call>, clock: int, clock': int, pc: Pc)
    requires PcEnd(calls, clock, pc) && calls <= calls' && clock <= clock'
    ensures PcEnd(calls', clock', pc)
  {
    if pc.AtComplete? { CalledStays(calls, calls', pc.cmd.no); }
  }

  lemma CallsGrow(cfg: Config, s: State, id: nat, in_: Input)
    requires id in s.clients
    ensures s.calls <= Move(cfg, s, id, in_).calls
  {
    hide SameRequest, ValidateDevice, MarkHits, CompleteHits, InsertFailure, Complete, MarkRunning;
  }

  lemma NextPcEnd(cfg: Config, s: State, id: nat, in_: Input)
    requires Ends(s) && id in s.clients
    ensures
      var e := Move(cfg, s, id, in_);
      PcEnd(e.calls, s.clock, e.pc)
  {
    assert PcEnd(s.calls, s.clock, s.clients[id].pc);
    if s.clients[id].pc.AtGateway? {
      CalledPcEnd(s, id, s.clients[id].pc.cmd, in_);
    } else {
      SilentPcEnd(cfg, s, id, in_);
    }
  }

  lemma CalledPcEnd(s: State, id: nat, cmd: Command, in_: Input)
    ensures
      var e := CallGateway(s, id, cmd, in_);
      PcEnd(e.calls, s.clock, e.pc)
  {
    assert CallGateway(s, id, cmd, in_).calls[|s.calls|].no == cmd.no;
  }

  lemma SilentPcEnd(cfg: Config, s: State, id: nat, in_: Input)
    requires id in s.clients && !s.clients[id].pc.AtGateway? && PcEnd(s.calls, s.clock, s.clients[id].pc)
    ensures PcEnd(Move(cfg, s, id, in_).calls, s.clock, Move(cfg, s, id, in_).pc)
  {
    hide Move;
    if Writes(s.clients[id].pc) { WritingPcEnd(cfg, s, id, in_); } else { ReadingPcEnd(cfg, s, id, in_); }
  }

  lemma WritingPcEnd(cfg: Config, s: State, id: nat, in_: Input)
    requires id in s.clients && Writes(s.clients[id].pc) && !s.clients[id].pc.AtGateway?
    requires PcEnd(s.calls, s.clock, s.clients[id].pc)
    ensures PcEnd(Move(cfg, s, id, in_).calls, s.clock, Move(cfg, s, id, in_).pc)
  {
    hide MarkHits, CompleteHits, InsertFailure, Complete, MarkRunning, CodeFits, Called, CallGateway;
  }

  lemma ReadingPcEnd(cfg: Config, s: State, id: nat, in_: Input)
    requires id in s.clients && !Writes(s.clients[id].pc) && PcEnd(s.calls, s.clock, s.clients[id].pc)
    ensures PcEnd(Move(cfg, s, id, in_).calls, s.clock, Move(cfg, s, id, in_).pc)
  {
    hide SameRequest, ValidateDevice, NewCommand, CodeFits, Called;
  }

  /** A completing statement writes an honest ending into the caller's own row. */
  lemma CompleteEnds(s: State, cmd: Command, status: Status, outcome: Outcome, code: Code, k: string)
    requires RowsOk(s) && CopyOk(s.rows, cmd) && k in s.rows && RowEnd(s.calls, s.clock, s.rows[k])
    requires RowEnd(s.calls, s.clock, cmd.(status := status, outcome := outcome, code := code))
    ensures k in Complete(s.rows, cmd.no, status, outcome, code)
    ensures RowEnd(s.calls, s.clock, Complete(s.rows, cmd.no, status, outcome, code)[k])
  {
    if s.rows[k].no == cmd.no {
      OwnRow(s, cmd, k);
    }
  }

  lemma MoveRowEnd(cfg: Config, s: State, id: nat, in_: Input, k: string)
    requires CommandTheorems.Inv(cfg, s) && Ends(s) && id in s.clients && k in Move(cfg, s, id, in_).rows
    ensures RowEnd(s.calls, s.clock, Move(cfg, s, id, in_).rows[k])
  {
    hide RowsOk, CallsOk, SameRequest, Ends;
    var req, pc := s.clients[id].req, s.clients[id].pc;
    assert PcOk(cfg, s, id, req, pc);
    EndsAt(s, id);
    if k in s.rows { EndsOf(s, k); }
    match pc
    case AtInsert(cmd, now) =>
    case AtMark(cmd, now) =>
    case AtGateway(cmd) =>
    case AtComplete(cmd, status, outcome, code, failure) => CompleteEnds(s, cmd, status, outcome, code, k);
    case AtExpire(cmd) => CompleteEnds(s, cmd, Expired, NO_OUTCOME, CommandExpired, k);
    case _ => ReadsWriteNothing(cfg, s, id, in_);
  }

  lemma EndsAt(s: State, id: nat)
    requires Ends(s) && id in s.clients
    ensures PcEnd(s.calls, s.clock, s.clients[id].pc)
  {
  }

  lemma EndsOf(s: State, k: string)
    requires Ends(s) && k in s.rows
    ensures RowEnd(s.calls, s.clock, s.rows[k])
  {
  }

  lemma CallerStepEnds(cfg: Config, s: State, id: nat, in_: Input)
    requires CommandTheorems.Inv(cfg, s) && Ends(s) && id in s.clients
    ensures Ends(Apply(cfg, s, Step(id, in_)))
  {
    hide CommandTheorems.Inv, RowEnd, PcEnd, Move;
    var e, s' := Move(cfg, s, id, in_), Apply(cfg, s, Step(id, in_));
    CallsGrow(cfg, s, id, in_);
    NextPcEnd(cfg, s, id, in_);
    forall k | k in s'.rows ensures RowEnd(s'.calls, s'.clock, s'.rows[k]) {
      MoveRowEnd(cfg, s, id, in_, k);
      LaterRowEnd(s.calls, s'.calls, s.clock, s.clock, e.rows[k]);
    }
    forall j | j in s'.clients ensures PcEnd(s'.calls, s'.clock, s'.clients[j].pc) {
      if j != id { LaterPcEnd(s.calls, s'.calls, s.clock, s.clock, s.clients[j].pc); }
    }
  }

  lemma StepEnds(cfg: Config, s: State, a: Action)
    requires CommandTheorems.Inv(cfg, s) && Ends(s)
    ensures Ends(Apply(cfg, s, a))
  {
    if a.Step? {
      if a.client in s.clients { CallerStepEnds(cfg, s, a.client, a.in_); }
    } else {
      var s' := Apply(cfg, s, a);
      forall k | k in s'.rows ensures RowEnd(s'.calls, s'.clock, s'.rows[k]) {
        LaterRowEnd(s.calls, s.calls, s.clock, s'.clock, s.rows[k]);
      }
      forall j | j in s'.clients ensures PcEnd(s'.calls, s'.clock, s'.clients[j].pc) {
        if j in s.clients { LaterPcEnd(s.calls, s.calls, s.clock, s'.clock, s.clients[j].pc); }
      }
    }
  }

  lemma {:induction false} EndsAlways(cfg: Config, s: State, actions: seq<Action>)
    requires Initial(s)
    ensures Ends(Exec(cfg, s, actions))
  {
    if actions == [] {
    } else {
      EndsAlways(cfg, s, actions[..|actions| - 1]);
      InvAlways(cfg, s, actions[..|actions| - 1]);
      StepEnds(cfg, Exec(cfg, s, actions[..|actions| - 1]), actions[|actions| - 1]);
    }
  }

  lemma {:induction false} SomeCallCounts(calls: seq<Call>, i: nat)
    requires i < |calls|
    ensures CallsFor(calls, calls[i].key) >= 1
  {
    if i == |calls| - 1 {
    } else {
      SomeCallCounts(calls[..|calls| - 1], i);
    }
  }

  /** Stored endings are honest: a SUCCEEDED, FAILED or TIMED_OUT command had exactly one gateway call, a pending
      one none, an EXPIRED one is past its deadline; and the error code and outcome are those of the status. */
  lemma EndingsAreHonest(cfg: Config, s: State, actions: seq<Action>, key: string)
    requires Initial(s) && key in Exec(cfg, s, actions).rows
    ensures
      var z := Exec(cfg, s, actions);
      var c := z.rows[key];
      && CodeFits(c.status, c.outcome, c.code)
      && (GatewayEnding(c.status) ==> CallsFor(z.calls, key) == 1)
      && (c.status == Pending ==> CallsFor(z.calls, key) == 0)
      && (c.status == Expired ==> c.expiresAt <= z.clock)
  {
    EndsAlways(cfg, s, actions);
    InvAlways(cfg, s, actions);
    AtMostOnce(cfg, s, actions, key);
    var z := Exec(cfg, s, actions);
    assert RowEnd(z.calls, z.clock, z.rows[key]) && RowOk(z.rows[key], key, z.marked);
    if GatewayEnding(z.rows[key].status) {
      var i :| 0 <= i < |z.calls| && z.calls[i].no == z.rows[key].no;
      assert CallOk(z, z.calls[i]);
      SomeCallCounts(z.calls, i);
    }
  }
}
