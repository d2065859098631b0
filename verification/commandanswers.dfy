/** The gateway's answer decides: what is stored as the ending of a command, and what its caller is returned. */
module CommandAnswers {
  import opened Schema
  import opened Commands
  import opened CommandTheorems

  /** The ending an answer stands for. */
  predicate Fits(call: Call, status: Status, outcome: Outcome, code: Code) {
    match call.answer
    case Answered => status == Succeeded && code == NoCode && outcome == call.outcome
    case TimeoutAnswer => status == TimedOut && code == CommandTimeout && outcome == call.outcome.(retryable := true)
    case ErrorAnswer => status == Failed && code == CommandFailed && outcome == call.outcome
  }

  /** The error it is returned with. */
  function Failing(answer: Answer): Option<Failure> {
    match answer
    case Answered => None
    case TimeoutAnswer => Some(GatewayTimedOut)
    case ErrorAnswer => Some(GatewayFailed)
  }

  predicate FromGateway(status: Status) { status == Succeeded || status == TimedOut || status == Failed }

  ghost predicate EndedBy(calls: seq<Call>, no: string, status: Status, outcome: Outcome, code: Code) {
    exists i :: 0 <= i < |calls| && calls[i].no == no && Fits(calls[i], status, outcome, code)
  }

  ghost predicate RowTold(calls: seq<Call>, c: Command) {
    FromGateway(c.status) ==> EndedBy(calls, c.no, c.status, c.outcome, c.code)
  }

  /** The failures a call's caller may report. */
  predicate May(answer: Answer, failure: Option<Failure>) {
    failure == Failing(answer) || failure == Some(Unavailable) || failure == Some(NotRunning)
  }

  /** A caller that has called the gateway carries its answer; any other has none to report. */
  ghost predicate OwnCalls(calls: seq<Call>, id: nat, pc: Pc) {
    forall i :: 0 <= i < |calls| && calls[i].client == id ==>
      match pc
      case AtComplete(_, _, _, _, failure) => failure == Failing(calls[i].answer)
      case Done(_, failure) => May(calls[i].answer, failure)
      case _ => false
  }

  ghost predicate Blamed(calls: seq<Call>, id: nat, failure: Option<Failure>) {
    exists i :: 0 <= i < |calls| && calls[i].client == id && failure == Failing(calls[i].answer)
  }

  ghost predicate PcTold(calls: seq<Call>, id: nat, pc: Pc) {
    && OwnCalls(calls, id, pc)
    && match pc
       case AtComplete(c, status, outcome, code, failure) =>
         EndedBy(calls, c.no, status, outcome, code) && Blamed(calls, id, failure)
       case Done(_, failure) =>
         failure == Some(GatewayTimedOut) || failure == Some(GatewayFailed) ==> Blamed(calls, id, failure)
       case _ => true
  }

  ghost predicate Told(s: State) {
    && (forall k :: k in s.rows ==> RowTold(s.calls, s.rows[k]))
    && (forall id :: id in s.clients ==> PcTold(s.calls, id, s.clients[id].pc))
    && (forall i :: 0 <= i < |s.calls| ==> s.calls[i].client in s.clients)
  }

  lemma EndedByStays(calls: seq<Call>, calls': seq<Call>, no: string, status: Status, outcome: Outcome, code: Code)
    requires EndedBy(calls, no, status, outcome, code) && calls <= calls'
    ensures EndedBy(calls', no, status, outcome, code)
  {
    var i :| 0 <= i < |calls| && calls[i].no == no && Fits(calls[i], status, outcome, code);
    assert calls'[i] == calls[i];
  }

  lemma BlamedStays(calls: seq<Call>, calls': seq<Call>, id: nat, failure: Option<Failure>)
    requires Blamed(calls, id, failure) && calls <= calls'
    ensures Blamed(calls', id, failure)
  {
    var i :| 0 <= i < |calls| && calls[i].client == id && failure == Failing(calls[i].answer);
    assert calls'[i] == calls[i];
  }

  /** A step of one caller adds calls of its own only. */
  ghost predicate AddsOwn(calls: seq<Call>, calls': seq<Call>, id: nat) {
    calls <= calls' && forall i :: |calls| <= i < |calls'| ==> calls'[i].client == id
  }

  lemma MoveAddsOwn(cfg: Config, s: State, id: nat, in_: Input)
    requires id in s.clients
    ensures AddsOwn(s.calls, Move(cfg, s, id, in_).calls, id)
  {
    hide SameRequest, ValidateDevice, MarkHits, CompleteHits, InsertFailure, Complete, MarkRunning, NewCommand;
  }

  lemma OthersStayTold(calls: seq<Call>, calls': seq<Call>, id: nat, other: nat, pc: Pc)
    requires PcTold(calls, other, pc) && AddsOwn(calls, calls', id) && other != id
    ensures PcTold(calls', other, pc)
  {
    forall i | 0 <= i < |calls'| && calls'[i].client == other ensures i < |calls| && calls'[i] == calls[i] {
    }
    match pc
    case AtComplete(c, status, outcome, code, failure) =>
      EndedByStays(calls, calls', c.no, status, outcome, code);
      BlamedStays(calls, calls', other, failure);
    case Done(_, failure) =>
      if failure == Some(GatewayTimedOut) || failure == Some(GatewayFailed) {
        BlamedStays(calls, calls', other, failure);
      }
    case _ =>
  }

  lemma NextPcTold(cfg: Config, s: State, id: nat, in_: Input)
    requires id in s.clients && PcTold(s.calls, id, s.clients[id].pc)
    ensures PcTold(Move(cfg, s, id, in_).calls, id, Move(cfg, s, id, in_).pc)
  {
    if s.clients[id].pc.AtGateway? {
      CalledPcTold(s, id, s.clients[id].pc.cmd, in_);
    } else {
      SilentPcTold(cfg, s, id, in_);
    }
  }

  lemma CalledPcTold(s: State, id: nat, cmd: Command, in_: Input)
    requires forall i :: 0 <= i < |s.calls| ==> s.calls[i].client != id
    ensures
      var e := CallGateway(s, id, cmd, in_);
      PcTold(e.calls, id, e.pc)
  {
    var e := CallGateway(s, id, cmd, in_);
    var c := e.calls[|s.calls|];
    assert c.no == cmd.no && c.client == id;
    assert Fits(c, e.pc.status, e.pc.outcome, e.pc.code) && e.pc.failure == Failing(c.answer);
  }

  lemma SilentPcTold(cfg: Config, s: State, id: nat, in_: Input)
    requires id in s.clients && !s.clients[id].pc.AtGateway? && PcTold(s.calls, id, s.clients[id].pc)
    ensures PcTold(Move(cfg, s, id, in_).calls, id, Move(cfg, s, id, in_).pc)
  {
    hide Move;
    if Writes(s.clients[id].pc) { WritingPcTold(cfg, s, id, in_); } else { ReadingPcTold(cfg, s, id, in_); }
  }

  lemma WritingPcTold(cfg: Config, s: State, id: nat, in_: Input)
    requires id in s.clients && Writes(s.clients[id].pc) && !s.clients[id].pc.AtGateway?
    requires PcTold(s.calls, id, s.clients[id].pc)
    ensures PcTold(Move(cfg, s, id, in_).calls, id, Move(cfg, s, id, in_).pc)
  {
    hide MarkHits, CompleteHits, Complete, MarkRunning, EndedBy, Blamed, CallGateway;
  }

  lemma ReadingPcTold(cfg: Config, s: State, id: nat, in_: Input)
    requires id in s.clients && !Writes(s.clients[id].pc) && PcTold(s.calls, id, s.clients[id].pc)
    ensures PcTold(Move(cfg, s, id, in_).calls, id, Move(cfg, s, id, in_).pc)
  {
    hide SameRequest, NewCommand, EndedBy, Blamed;
  }

  lemma CompleteTold(s: State, cmd: Command, status: Status, outcome: Outcome, code: Code, k: string)
    requires RowsOk(s) && CopyOk(s.rows, cmd) && k in s.rows && RowTold(s.calls, s.rows[k])
    requires FromGateway(status) ==> EndedBy(s.calls, cmd.no, status, outcome, code)
    ensures k in Complete(s.rows, cmd.no, status, outcome, code)
    ensures RowTold(s.calls, Complete(s.rows, cmd.no, status, outcome, code)[k])
  {
  }

  lemma MoveRowTold(cfg: Config, s: State, id: nat, in_: Input, k: string)
    requires CommandTheorems.Inv(cfg, s) && id in s.clients && k in Move(cfg, s, id, in_).rows
    requires PcTold(s.calls, id, s.clients[id].pc) && (k in s.rows ==> RowTold(s.calls, s.rows[k]))
    ensures RowTold(s.calls, Move(cfg, s, id, in_).rows[k])
  {
    hide RowsOk, CallsOk, SameRequest, EndedBy, Fits, OwnCalls;
    var req, pc := s.clients[id].req, s.clients[id].pc;
    assert PcOk(cfg, s, id, req, pc);
    match pc
    case AtInsert(cmd, now) =>
    case AtMark(cmd, now) =>
    case AtGateway(cmd) =>
    case AtComplete(cmd, status, outcome, code, failure) => CompleteTold(s, cmd, status, outcome, code, k);
    case AtExpire(cmd) => CompleteTold(s, cmd, Expired, NO_OUTCOME, CommandExpired, k);
    case _ => ReadsWriteNothing(cfg, s, id, in_);
  }

  lemma CallerStepTold(cfg: Config, s: State, id: nat, in_: Input)
    requires CommandTheorems.Inv(cfg, s) && Told(s) && id in s.clients
    ensures Told(Apply(cfg, s, Step(id, in_)))
  {
    hide CommandTheorems.Inv, RowTold, PcTold, Move;
    var e, s' := Move(cfg, s, id, in_), Apply(cfg, s, Step(id, in_));
    MoveAddsOwn(cfg, s, id, in_);
    NextPcTold(cfg, s, id, in_);
    forall k | k in s'.rows ensures RowTold(s'.calls, s'.rows[k]) {
      MoveRowTold(cfg, s, id, in_, k);
      RowStaysTold(s.calls, s'.calls, e.rows[k]);
    }
    forall j | j in s'.clients ensures PcTold(s'.calls, j, s'.clients[j].pc) {
      if j != id { OthersStayTold(s.calls, s'.calls, id, j, s.clients[j].pc); }
    }
  }

  lemma RowStaysTold(calls: seq<Call>, calls': seq<Call>, c: Command)
    requires RowTold(calls, c) && calls <= calls'
    ensures RowTold(calls', c)
  {
    if FromGateway(c.status) { EndedByStays(calls, calls', c.no, c.status, c.outcome, c.code); }
  }

  lemma StepTold(cfg: Config, s: State, a: Action)
    requires CommandTheorems.Inv(cfg, s) && Told(s)
    ensures Told(Apply(cfg, s, a))
  {
    if a.Step? {
      if a.client in s.clients { CallerStepTold(cfg, s, a.client, a.in_); }
    }
  }

  lemma {:induction false} ToldAlways(cfg: Config, s: State, actions: seq<Action>)
    requires Initial(s)
    ensures Told(Exec(cfg, s, actions))
  {
    if actions == [] {
    } else {
      ToldAlways(cfg, s, actions[..|actions| - 1]);
      InvAlways(cfg, s, actions[..|actions| - 1]);
      StepTold(cfg, Exec(cfg, s, actions[..|actions| - 1]), actions[|actions| - 1]);
    }
  }

  /** The answer decides what is stored: in every state of every run, if the command a call was made for has ended by
      the gateway, it is SUCCEEDED with the answer's outcome on an answer, TIMED_OUT with it made retryable on a
      timeout, and FAILED with it on an error, each with its code. */
  lemma AnswersDecideWhatIsStored(cfg: Config, s: State, actions: seq<Action>, i: nat)
    requires Initial(s) && i < |Exec(cfg, s, actions).calls|
    ensures
      var z := Exec(cfg, s, actions);
      var call := z.calls[i];
      && call.key in z.rows && z.rows[call.key].no == call.no
      && var c := z.rows[call.key];
      FromGateway(c.status) ==>
        match call.answer
        case Answered => c.status == Succeeded && c.code == NoCode && c.outcome == call.outcome
        case TimeoutAnswer =>
          c.status == TimedOut && c.code == CommandTimeout && c.outcome == call.outcome.(retryable := true)
        case ErrorAnswer => c.status == Failed && c.code == CommandFailed && c.outcome == call.outcome
  {
    InvAlways(cfg, s, actions);
    ToldAlways(cfg, s, actions);
    var z := Exec(cfg, s, actions);
    assert CallOk(z, z.calls[i]);
    var c := z.rows[z.calls[i].key];
    if FromGateway(c.status) {
      assert RowTold(z.calls, c);
      var j :| 0 <= j < |z.calls| && z.calls[j].no == c.no && Fits(z.calls[j], c.status, c.outcome, c.code);
      assert i == j;
    }
  }

  /** The answer decides what is returned: a caller that called the gateway and has returned reports no failure only on
      an answer, a timeout only on a timeout and a gateway failure only on an error, unless its ending could not be
      stored; and a caller that did not call reports neither of the two. */
  lemma AnswersDecideWhatIsReturned(cfg: Config, s: State, actions: seq<Action>, id: nat)
    requires Initial(s) && id in Exec(cfg, s, actions).clients && Exec(cfg, s, actions).clients[id].pc.Done?
    ensures
      var z := Exec(cfg, s, actions);
      var failure := z.clients[id].pc.failure;
      && (forall i :: 0 <= i < |z.calls| && z.calls[i].client == id ==>
            || failure == Some(Unavailable) || failure == Some(NotRunning)
            || (failure == match z.calls[i].answer
                           case Answered => None
                           case TimeoutAnswer => Some(GatewayTimedOut)
                           case ErrorAnswer => Some(GatewayFailed)))
      && (failure == Some(GatewayTimedOut) ==>
            exists i :: 0 <= i < |z.calls| && z.calls[i].client == id && z.calls[i].answer == TimeoutAnswer)
      && (failure == Some(GatewayFailed) ==>
            exists i :: 0 <= i < |z.calls| && z.calls[i].client == id && z.calls[i].answer == ErrorAnswer)
  {
    ToldAlways(cfg, s, actions);
    var z := Exec(cfg, s, actions);
    assert PcTold(z.calls, id, z.clients[id].pc);
  }
}
