/** At-most-once execution and final outcomes, for every interleaving of the command protocol. */
module CommandTheorems {
  import opened Schema
  import opened Commands

  /** A row's history agrees with its status; nothing returns to PENDING, so it is tried once at most. */
  predicate RowOk(c: Command, key: string, marked: map<string, Winner>) {
    && c.key == key
    && c.attempts == (if c.no in marked then 1 else 0)
    && (c.status == Pending ==> c.attempts == 0)
    && (c.status != Pending && c.status != Expired ==> c.attempts == 1)
    && (!IsTerminal(c.status) ==> c.outcome == NO_OUTCOME && c.code == NoCode)
    && (c.no in marked ==> marked[c.no].at < c.expiresAt)
  }

  ghost predicate EachRowOk(s: State) {
    forall k :: k in s.rows ==> RowOk(s.rows[k], k, s.marked)
  }

  ghost predicate NumbersUnique(rows: map<string, Command>) {
    forall j, k :: j in rows && k in rows && rows[j].no == rows[k].no ==> j == k
  }

  ghost predicate HasNumber(rows: map<string, Command>, no: string) {
    exists k :: k in rows && rows[k].no == no
  }

  ghost predicate MarkedHaveRows(s: State) {
    forall no :: no in s.marked ==> HasNumber(s.rows, no)
  }

  ghost predicate RowsOk(s: State) {
    EachRowOk(s) && NumbersUnique(s.rows) && MarkedHaveRows(s)
  }

  /** A call was made by the winner of its command, with the stored command's own content. */
  predicate CallOk(s: State, c: Call) {
    && c.no in s.marked && s.marked[c.no].client == c.client
    && c.key in s.rows
    && var row := s.rows[c.key];
    && row.no == c.no && row.deviceNo == c.deviceNo && row.verb == c.verb && row.cellNo == c.cellNo
    && row.payload == c.payload
  }

  ghost predicate CallsOk(s: State) {
    && (forall i :: 0 <= i < |s.calls| ==> CallOk(s, s.calls[i]))
    && (forall i, j :: 0 <= i < j < |s.calls| ==> s.calls[i].no != s.calls[j].no)
  }

  /** The fields of a command that are written once. */
  predicate SameIdentity(a: Command, b: Command) {
    && a.no == b.no && a.key == b.key && a.deviceNo == b.deviceNo && a.verb == b.verb && a.cellNo == b.cellNo
    && a.payload == b.payload && a.expiresAt == b.expiresAt
  }

  predicate SameEnding(a: Command, b: Command) {
    a.status == b.status && a.outcome == b.outcome && a.code == b.code
  }

  /** A caller's copy may be stale, but its identity is right, and an ending in it is the stored ending. */
  predicate CopyOk(rows: map<string, Command>, c: Command) {
    && c.key in rows
    && SameIdentity(rows[c.key], c) && c.attempts <= rows[c.key].attempts
    && (if IsTerminal(c.status) then SameEnding(rows[c.key], c) else c.outcome == NO_OUTCOME && c.code == NoCode)
  }

  predicate Held(cfg: Config, s: State, req: Request, c: Command) {
    CopyOk(s.rows, c) && c.key == req.key && SameRequest(cfg, c, req)
  }

  predicate Won(s: State, id: nat, c: Command) {
    c.no in s.marked && s.marked[c.no].client == id
  }

  ghost predicate NotCalled(s: State, no: string) {
    forall i :: 0 <= i < |s.calls| ==> s.calls[i].no != no
  }

  /** The row prepared for a request, before it is inserted. */
  predicate Prepared(c: Command, req: Request) {
    && c.key == req.key && c.deviceNo == req.deviceNo && c.verb == req.verb && c.cellNo == req.cellNo
    && c.payload == OrEmptyObject(req.payload)
    && c.status == Pending && c.attempts == 0 && c.outcome == NO_OUTCOME && c.code == NoCode
  }

  ghost predicate PcOk(cfg: Config, s: State, id: nat, req: Request, pc: Pc) {
    match pc
    case AtLookup => true
    case AtDevice => true
    case AtCheck(device) => true
    case AtPrepare => true
    case AtReread => true
    case AtInsert(c, now) => Prepared(c, req)
    case AtReadBack(now) => req.key in s.rows && SameRequest(cfg, s.rows[req.key], req)
    case AtDecide(c) => Held(cfg, s, req, c)
    case AtRun(c) => Held(cfg, s, req, c)
    case AtRunDevice(c, now) => Held(cfg, s, req, c)
    case AtRunCheck(c, now, device) => Held(cfg, s, req, c)
    case AtMark(c, now) => Held(cfg, s, req, c)
    case AtExpire(c) => Held(cfg, s, req, c)
    case AtGateway(c) => Held(cfg, s, req, c) && Won(s, id, c) && NotCalled(s, c.no)
    case AtComplete(c, status, outcome, code, failure) =>
      Held(cfg, s, req, c) && Won(s, id, c) && IsTerminal(status) && status != Expired
      && failure != Some(KeyConflict)
    case Done(returned, failure) =>
      returned.Some? ==>
        && CopyOk(s.rows, returned.value) && returned.value.key == req.key
        && (failure != Some(KeyConflict) ==> SameRequest(cfg, returned.value, req))
  }

  ghost predicate Inv(cfg: Config, s: State) {
    && RowsOk(s) && CallsOk(s)
    && forall id :: id in s.clients ==> PcOk(cfg, s, id, s.clients[id].req, s.clients[id].pc)
  }

  // ---- what one step may do to the rows ----

  /** Rows are never deleted, keep their identity, and a terminal row is never written again. */
  ghost predicate RowsGrow(a: map<string, Command>, b: map<string, Command>) {
    forall k :: k in a ==>
      && k in b && SameIdentity(a[k], b[k]) && a[k].attempts <= b[k].attempts
      && (IsTerminal(a[k].status) ==> b[k] == a[k])
  }

  lemma MarkGrows(rows: map<string, Command>, no: string, now: int)
    ensures RowsGrow(rows, MarkRunning(rows, no, now))
  {
  }

  lemma CompleteGrows(rows: map<string, Command>, no: string, status: Status, outcome: Outcome, code: Code)
    ensures RowsGrow(rows, Complete(rows, no, status, outcome, code))
  {
  }

  predicate Writes(pc: Pc) {
    pc.AtInsert? || pc.AtMark? || pc.AtGateway? || pc.AtComplete? || pc.AtExpire?
  }

  lemma ReadsWriteNothing(cfg: Config, s: State, id: nat, in_: Input)
    requires id in s.clients && !Writes(s.clients[id].pc)
    ensures
      var e := Move(cfg, s, id, in_);
      e.rows == s.rows && e.marked == s.marked && e.calls == s.calls
  {
  }

  lemma InsertGrows(cfg: Config, s: State, cmd: Command, now: int, in_: Input)
    ensures RowsGrow(s.rows, Insert(cfg, s, cmd, now, in_).rows)
  {
  }

  lemma MarkStepGrows(s: State, id: nat, cmd: Command, now: int, in_: Input)
    ensures RowsGrow(s.rows, Mark(s, id, cmd, now, in_).rows)
  {
    MarkGrows(s.rows, cmd.no, now);
  }

  lemma FinishGrows(
    s: State, cmd: Command, status: Status, outcome: Outcome, code: Code, ended: Pc, in_: Input)
    ensures RowsGrow(s.rows, Finish(s, cmd, status, outcome, code, ended, in_).rows)
  {
    CompleteGrows(s.rows, cmd.no, status, outcome, code);
  }

  lemma MoveGrows(cfg: Config, s: State, id: nat, in_: Input)
    requires id in s.clients
    ensures RowsGrow(s.rows, Move(cfg, s, id, in_).rows)
  {
    match s.clients[id].pc
    case AtInsert(cmd, now) => InsertGrows(cfg, s, cmd, now, in_);
    case AtMark(cmd, now) => MarkStepGrows(s, id, cmd, now, in_);
    case AtGateway(cmd) => assert Move(cfg, s, id, in_).rows == s.rows;
    case AtComplete(cmd, status, outcome, code, failure) =>
      FinishGrows(s, cmd, status, outcome, code,
                  Done(Some(cmd.(status := status, outcome := outcome, code := code)), failure), in_);
    case AtExpire(cmd) =>
      FinishGrows(s, cmd, Expired, NO_OUTCOME, CommandExpired,
                  Done(Some(cmd.(status := Expired, code := CommandExpired)), Some(PastExpiry)), in_);
    case _ => ReadsWriteNothing(cfg, s, id, in_);
  }

  /** Every step, by whoever, in whatever state. */
  lemma StepGrows(cfg: Config, s: State, a: Action)
    ensures RowsGrow(s.rows, Apply(cfg, s, a).rows)
  {
    if a.Step? && a.client in s.clients {
      MoveGrows(cfg, s, a.client, a.in_);
    }
  }

  /** Terminal commands are final: no interleaving ever changes a row that has ended. */
  lemma {:induction false} TerminalIsFinal(cfg: Config, s: State, actions: seq<Action>, key: string)
    requires key in s.rows
    ensures key in Exec(cfg, s, actions).rows && SameIdentity(s.rows[key], Exec(cfg, s, actions).rows[key])
    ensures IsTerminal(s.rows[key].status) ==> Exec(cfg, s, actions).rows[key] == s.rows[key]
  {
    if actions == [] {
    } else {
      TerminalIsFinal(cfg, s, actions[..|actions| - 1], key);
      StepGrows(cfg, Exec(cfg, s, actions[..|actions| - 1]), actions[|actions| - 1]);
    }
  }

  // ---- the invariant is inductive ----

  /** The effect of one caller's step on what the other callers rely on. */
  ghost predicate Grows(s: State, s': State, id: nat) {
    && RowsGrow(s.rows, s'.rows)
    && WinnersKept(s.marked, s'.marked)
    && |s.calls| <= |s'.calls| && s.calls == s'.calls[..|s.calls|]
    && (forall i :: |s.calls| <= i < |s'.calls| ==>
          s'.calls[i].no in s'.marked && s'.marked[s'.calls[i].no].client == id)
  }

  lemma OthersKeep(cfg: Config, s: State, s': State, id: nat, other: nat, req: Request, pc: Pc)
    requires PcOk(cfg, s, other, req, pc) && Grows(s, s', id) && other != id
    ensures PcOk(cfg, s', other, req, pc)
  {
    if pc.AtGateway? {
      forall i | 0 <= i < |s'.calls| ensures s'.calls[i].no != pc.cmd.no {
        if i < |s.calls| { assert s'.calls[i] == s.calls[i]; }
      }
    }
  }

  ghost predicate Good(cfg: Config, s: State, s': State, id: nat, req: Request, pc: Pc) {
    RowsOk(s') && CallsOk(s') && Grows(s, s', id) && PcOk(cfg, s', id, req, pc)
  }

  function After(s: State, e: Effect): State {
    s.(rows := e.rows, marked := e.marked, calls := e.calls)
  }

  lemma Unchanged(cfg: Config, s: State, id: nat, req: Request, pc: Pc)
    requires RowsOk(s) && CallsOk(s) && PcOk(cfg, s, id, req, pc)
    ensures Good(cfg, s, s, id, req, pc)
  {
  }

  /** A stored row is a good copy of itself. */
  lemma RowIsCopy(s: State, key: string)
    requires RowsOk(s) && key in s.rows
    ensures CopyOk(s.rows, s.rows[key]) && s.rows[key].key == key
  {
    assert RowOk(s.rows[key], key, s.marked);
  }

  lemma ReplayOk(cfg: Config, s: State, id: nat, req: Request, next: Pc)
    requires RowsOk(s) && req.key in s.rows
    requires SameRequest(cfg, s.rows[req.key], req) ==> PcOk(cfg, s, id, req, next)
    ensures PcOk(cfg, s, id, req, Replay(cfg, s.rows[req.key], req, next))
  {
    RowIsCopy(s, req.key);
  }

  lemma LookupOk(cfg: Config, s: State, id: nat, req: Request, in_: Input)
    requires RowsOk(s)
    ensures PcOk(cfg, s, id, req, Lookup(cfg, s, req, in_).pc)
  {
    if in_.fault == NoFault && req.key in s.rows {
      var existing := s.rows[req.key];
      RowIsCopy(s, req.key);
      ReplayOk(cfg, s, id, req, if existing.attempts >= MAX_ATTEMPTS then Done(Some(existing), Some(MaxAttempts))
                                else AtDecide(existing));
    }
  }

  lemma RereadOk(cfg: Config, s: State, id: nat, req: Request, in_: Input)
    requires RowsOk(s)
    ensures PcOk(cfg, s, id, req, Reread(cfg, s, req, in_).pc)
  {
    if req.key in s.rows {
      RowIsCopy(s, req.key);
      ReplayOk(cfg, s, id, req, AtRun(s.rows[req.key]));
    }
  }

  lemma ReadBackOk(cfg: Config, s: State, id: nat, req: Request, now: int, in_: Input)
    requires RowsOk(s) && PcOk(cfg, s, id, req, AtReadBack(now))
    ensures PcOk(cfg, s, id, req, ReadBack(s, req, now, in_).pc)
  {
    RowIsCopy(s, req.key);
  }

  lemma CheckDeviceOk(cfg: Config, s: State, id: nat, req: Request, device: Device)
    ensures PcOk(cfg, s, id, req, CheckDevice(cfg, s, device).pc)
  {
  }

  lemma ReadDeviceOk(cfg: Config, s: State, id: nat, req: Request, in_: Input)
    ensures PcOk(cfg, s, id, req, ReadDevice(s, req, in_).pc)
    ensures PcOk(cfg, s, id, req, AtInsert(NewCommand(req, in_.no, s.clock), s.clock))
  {
  }

  lemma RunOk(cfg: Config, s: State, id: nat, req: Request, cmd: Command, now: int, in_: Input)
    requires Held(cfg, s, req, cmd)
    ensures PcOk(cfg, s, id, req, Run(s, cmd).pc)
    ensures PcOk(cfg, s, id, req, RunDevice(s, cmd, now, in_).pc)
  {
    hide CopyOk, SameRequest;
  }

  lemma RunCheckOk(cfg: Config, s: State, id: nat, req: Request, cmd: Command, now: int, device: Device)
    requires Held(cfg, s, req, cmd)
    ensures PcOk(cfg, s, id, req, RunCheck(cfg, s, cmd, now, device).pc)
  {
    hide CopyOk, SameRequest;
  }

  lemma ReadingMoves(cfg: Config, s: State, id: nat, in_: Input)
    requires Inv(cfg, s) && id in s.clients && !Writes(s.clients[id].pc)
    ensures PcOk(cfg, s, id, s.clients[id].req, Move(cfg, s, id, in_).pc)
  {
    var req, pc := s.clients[id].req, s.clients[id].pc;
    assert PcOk(cfg, s, id, req, pc);
    match pc
    case AtLookup => LookupOk(cfg, s, id, req, in_);
    case AtDecide(cmd) =>
    case AtDevice => ReadDeviceOk(cfg, s, id, req, in_);
    case AtCheck(device) => CheckDeviceOk(cfg, s, id, req, device);
    case AtPrepare => ReadDeviceOk(cfg, s, id, req, in_);
    case AtReadBack(now) => ReadBackOk(cfg, s, id, req, now, in_);
    case AtReread => RereadOk(cfg, s, id, req, in_);
    case AtRun(cmd) => RunOk(cfg, s, id, req, cmd, 0, in_);
    case AtRunDevice(cmd, now) => RunOk(cfg, s, id, req, cmd, now, in_);
    case AtRunCheck(cmd, now, device) => RunCheckOk(cfg, s, id, req, cmd, now, device);
    case Done(returned, failure) =>
  }

  lemma MarkedRowsStay(s: State, rows': map<string, Command>)
    requires MarkedHaveRows(s) && RowsGrow(s.rows, rows')
    ensures MarkedHaveRows(s.(rows := rows'))
  {
    forall no | no in s.marked ensures HasNumber(rows', no) {
      assert HasNumber(s.rows, no);
      var k :| k in s.rows && s.rows[k].no == no;
      assert rows'[k].no == no;
    }
  }

  lemma NumbersStay(rows: map<string, Command>, rows': map<string, Command>)
    requires NumbersUnique(rows) && RowsGrow(rows, rows') && rows'.Keys == rows.Keys
    ensures NumbersUnique(rows')
  {
  }

  ghost predicate WinnersKept(m: map<string, Winner>, m': map<string, Winner>) {
    forall no :: no in m ==> no in m' && m'[no] == m[no]
  }

  lemma CallsStay(s: State, s': State)
    requires CallsOk(s) && s'.calls == s.calls && RowsGrow(s.rows, s'.rows) && WinnersKept(s.marked, s'.marked)
    ensures CallsOk(s')
  {
    forall i | 0 <= i < |s'.calls| ensures CallOk(s', s'.calls[i]) {
      assert CallOk(s, s.calls[i]);
    }
  }

  predicate Inserts(s: State, cmd: Command) {
    cmd.key !in s.rows && forall k :: k in s.rows ==> s.rows[k].no != cmd.no
  }

  lemma InsertKeepsRows(s: State, cmd: Command, req: Request)
    requires RowsOk(s) && Prepared(cmd, req) && Inserts(s, cmd)
    ensures RowsOk(s.(rows := s.rows[cmd.key := cmd]))
    ensures RowsGrow(s.rows, s.rows[cmd.key := cmd])
  {
    var s' := s.(rows := s.rows[cmd.key := cmd]);
    assert !HasNumber(s.rows, cmd.no);
    assert cmd.no !in s.marked;
    forall k | k in s'.rows ensures RowOk(s'.rows[k], k, s'.marked) {
      if k != cmd.key { assert RowOk(s.rows[k], k, s.marked); }
    }
    MarkedRowsStay(s, s'.rows);
  }

  lemma InsertAccepted(cfg: Config, s: State, id: nat, req: Request, cmd: Command, now: int)
    requires RowsOk(s) && CallsOk(s) && Prepared(cmd, req) && Inserts(s, cmd)
    ensures
      var s' := s.(rows := s.rows[cmd.key := cmd]);
      && Good(cfg, s, s', id, req, AtReadBack(now))
      && Good(cfg, s, s', id, req, Done(None, Some(Unavailable)))
  {
    var s' := s.(rows := s.rows[cmd.key := cmd]);
    InsertKeepsRows(s, cmd, req);
    CallsStay(s, s');
    assert s'.calls[..|s.calls|] == s.calls;
  }

  lemma InsertMoves(cfg: Config, s: State, id: nat, req: Request, cmd: Command, now: int, in_: Input)
    requires RowsOk(s) && CallsOk(s) && Prepared(cmd, req)
    ensures
      var e := Insert(cfg, s, cmd, now, in_);
      Good(cfg, s, After(s, e), id, req, e.pc)
  {
    var e := Insert(cfg, s, cmd, now, in_);
    InsertOutcomes(cfg, s, cmd, now, in_);
    if After(s, e) == s {
      Unchanged(cfg, s, id, req, e.pc);
    } else {
      InsertAccepted(cfg, s, id, req, cmd, now);
    }
  }

  lemma InsertOutcomes(cfg: Config, s: State, cmd: Command, now: int, in_: Input)
    ensures
      var e := Insert(cfg, s, cmd, now, in_);
      if After(s, e) == s then e.pc == AtReread || (e.pc.Done? && e.pc.returned.None?)
      else Inserts(s, cmd) && After(s, e) == s.(rows := s.rows[cmd.key := cmd])
           && (e.pc == AtReadBack(now) || e.pc == Done(None, Some(Unavailable)))
  {
    if Insert(cfg, s, cmd, now, in_).rows == s.rows[cmd.key := cmd] && cmd.key !in s.rows {
      assert cmd.key in s.rows[cmd.key := cmd];
    }
  }

  /** The row a statement with this number can hit is the caller's own. */
  lemma OwnRow(s: State, cmd: Command, k: string)
    requires NumbersUnique(s.rows) && CopyOk(s.rows, cmd) && k in s.rows && s.rows[k].no == cmd.no
    ensures k == cmd.key
  {
  }

  function Marked(s: State, id: nat, cmd: Command, now: int): State {
    s.(rows := MarkRunning(s.rows, cmd.no, now), marked := s.marked[cmd.no := Winner(id, now)])
  }

  /** A successful MarkRunning is the first for its command. */
  lemma MarkIsFirst(s: State, cmd: Command, now: int)
    requires RowsOk(s) && CopyOk(s.rows, cmd) && MarkHits(s.rows, cmd.no, now) != {}
    ensures cmd.no !in s.marked
    ensures Markable(s.rows[cmd.key], cmd.no, now) && s.rows[cmd.key].attempts == 0
  {
    var k :| k in MarkHits(s.rows, cmd.no, now);
    OwnRow(s, cmd, k);
    assert RowOk(s.rows[k], k, s.marked);
  }

  lemma MarkEachRow(s: State, id: nat, cmd: Command, now: int)
    requires RowsOk(s) && CopyOk(s.rows, cmd) && MarkHits(s.rows, cmd.no, now) != {}
    ensures EachRowOk(Marked(s, id, cmd, now))
  {
    MarkIsFirst(s, cmd, now);
    var s' := Marked(s, id, cmd, now);
    forall j | j in s'.rows ensures RowOk(s'.rows[j], j, s'.marked) {
      assert RowOk(s.rows[j], j, s.marked);
      if s.rows[j].no == cmd.no { OwnRow(s, cmd, j); }
    }
  }

  lemma MarkRows(s: State, id: nat, cmd: Command, now: int)
    requires RowsOk(s) && CopyOk(s.rows, cmd) && MarkHits(s.rows, cmd.no, now) != {}
    ensures RowsOk(Marked(s, id, cmd, now))
  {
    var s' := Marked(s, id, cmd, now);
    MarkEachRow(s, id, cmd, now);
    MarkGrows(s.rows, cmd.no, now);
    NumbersStay(s.rows, s'.rows);
    MarkedRowsStay(s, s'.rows);
    forall no | no in s'.marked ensures HasNumber(s'.rows, no) {
      if no == cmd.no {
        assert s'.rows[cmd.key].no == no;
      } else {
        assert HasNumber(s.(rows := s'.rows).rows, no);
      }
    }
  }

  lemma MarkWins(cfg: Config, s: State, id: nat, req: Request, cmd: Command, now: int)
    requires RowsOk(s) && CallsOk(s) && Held(cfg, s, req, cmd) && MarkHits(s.rows, cmd.no, now) != {}
    ensures
      var s' := Marked(s, id, cmd, now);
      && CallsOk(s') && Grows(s, s', id)
      && PcOk(cfg, s', id, req, AtGateway(cmd.(attempts := cmd.attempts + 1)))
      && CopyOk(s'.rows, cmd)
  {
    hide RowsOk;
    var s' := Marked(s, id, cmd, now);
    MarkIsFirst(s, cmd, now);
    MarkGrows(s.rows, cmd.no, now);
    CallsStay(s, s');
    forall i | 0 <= i < |s.calls| ensures s.calls[i].no != cmd.no {
      assert CallOk(s, s.calls[i]);
    }
  }

  lemma MarkMoves(cfg: Config, s: State, id: nat, req: Request, cmd: Command, now: int, in_: Input)
    requires RowsOk(s) && CallsOk(s) && Held(cfg, s, req, cmd)
    ensures
      var e := Mark(s, id, cmd, now, in_);
      Good(cfg, s, After(s, e), id, req, e.pc)
  {
    hide RowsOk, CallsOk;
    var e := Mark(s, id, cmd, now, in_);
    if in_.fault == NotApplied || MarkHits(s.rows, cmd.no, now) == {} {
      assert After(s, e) == s;
      Unchanged(cfg, s, id, req, e.pc);
    } else {
      assert After(s, e) == Marked(s, id, cmd, now);
      MarkRows(s, id, cmd, now);
      MarkWins(cfg, s, id, req, cmd, now);
    }
  }

  lemma CallMade(s: State, s': State, c: Call)
    requires CallsOk(s) && s' == s.(calls := s.calls + [c]) && CallOk(s', c) && NotCalled(s, c.no)
    ensures CallsOk(s')
  {
    forall i | 0 <= i < |s'.calls| ensures CallOk(s', s'.calls[i]) {
      if i < |s.calls| { assert CallOk(s, s.calls[i]); }
    }
  }

  lemma GatewayMoves(cfg: Config, s: State, id: nat, req: Request, cmd: Command, in_: Input)
    requires RowsOk(s) && CallsOk(s) && Held(cfg, s, req, cmd) && Won(s, id, cmd) && NotCalled(s, cmd.no)
    ensures
      var e := CallGateway(s, id, cmd, in_);
      Good(cfg, s, After(s, e), id, req, e.pc)
  {
    hide RowsOk, CallsOk;
    var s' := After(s, CallGateway(s, id, cmd, in_));
    var c := Call(id, cmd.no, cmd.key, cmd.deviceNo, cmd.verb, cmd.cellNo, cmd.payload, in_.answer, in_.outcome);
    CallMade(s, s', c);
    assert s'.calls[..|s.calls|] == s.calls;
    SameRowsOk(s, s');
  }

  lemma SameRowsOk(s: State, s': State)
    requires RowsOk(s) && s'.rows == s.rows && s'.marked == s.marked
    ensures RowsOk(s')
  {
  }

  lemma CompleteRows(s: State, no: string, status: Status, outcome: Outcome, code: Code)
    requires RowsOk(s) && IsTerminal(status)
    ensures RowsOk(s.(rows := Complete(s.rows, no, status, outcome, code)))
  {
    var s' := s.(rows := Complete(s.rows, no, status, outcome, code));
    forall j | j in s'.rows ensures RowOk(s'.rows[j], j, s'.marked) {
      assert RowOk(s.rows[j], j, s.marked);
    }
    CompleteGrows(s.rows, no, status, outcome, code);
    NumbersStay(s.rows, s'.rows);
    MarkedRowsStay(s, s'.rows);
  }

  /** A completion that hits writes the caller's own, not yet ended, row. */
  lemma CompleteHitsOwn(s: State, cmd: Command, status: Status, outcome: Outcome, code: Code)
    requires NumbersUnique(s.rows) && CopyOk(s.rows, cmd) && CompleteHits(s.rows, cmd.no, status) != {}
    ensures
      var row' := Complete(s.rows, cmd.no, status, outcome, code)[cmd.key];
      !IsTerminal(s.rows[cmd.key].status) && row'.status == status && row'.outcome == outcome && row'.code == code
  {
    var k :| k in CompleteHits(s.rows, cmd.no, status);
    OwnRow(s, cmd, k);
  }

  lemma CopyStays(rows: map<string, Command>, rows': map<string, Command>, cmd: Command)
    requires CopyOk(rows, cmd) && RowsGrow(rows, rows')
    ensures CopyOk(rows', cmd)
  {
  }

  lemma FinishMoves(cfg: Config, s: State, id: nat, req: Request, cmd: Command, status: Status, outcome: Outcome,
                    code: Code, ended: Command, failure: Option<Failure>, in_: Input)
    requires RowsOk(s) && CallsOk(s) && Held(cfg, s, req, cmd) && IsTerminal(status)
    requires failure != Some(KeyConflict)
    requires ended == cmd.(status := status, outcome := ended.outcome, code := code)
    requires ended.outcome == outcome || IsTerminal(cmd.status)
    ensures
      var e := Finish(s, cmd, status, outcome, code, Done(Some(ended), failure), in_);
      Good(cfg, s, After(s, e), id, req, e.pc)
  {
    var e := Finish(s, cmd, status, outcome, code, Done(Some(ended), failure), in_);
    if in_.fault == NotApplied {
      assert After(s, e) == s;
      Unchanged(cfg, s, id, req, e.pc);
    } else {
      var s' := s.(rows := Complete(s.rows, cmd.no, status, outcome, code));
      assert After(s, e) == s';
      CompleteRows(s, cmd.no, status, outcome, code);
      Finished(cfg, s, id, cmd, status, outcome, code);
      FinishedPcOk(cfg, s, id, req, cmd, status, outcome, code, ended, failure);
    }
  }

  lemma Finished(cfg: Config, s: State, id: nat, cmd: Command, status: Status, outcome: Outcome, code: Code)
    requires CallsOk(s)
    ensures
      var s' := s.(rows := Complete(s.rows, cmd.no, status, outcome, code));
      CallsOk(s') && Grows(s, s', id)
  {
    CompleteGrows(s.rows, cmd.no, status, outcome, code);
    CallsStay(s, s.(rows := Complete(s.rows, cmd.no, status, outcome, code)));
  }

  lemma FinishedPcOk(cfg: Config, s: State, id: nat, req: Request, cmd: Command, status: Status, outcome: Outcome,
                     code: Code, ended: Command, failure: Option<Failure>)
    requires RowsOk(s) && Held(cfg, s, req, cmd) && IsTerminal(status) && failure != Some(KeyConflict)
    requires ended == cmd.(status := status, outcome := ended.outcome, code := code)
    requires ended.outcome == outcome || IsTerminal(cmd.status)
    ensures
      var s' := s.(rows := Complete(s.rows, cmd.no, status, outcome, code));
      && PcOk(cfg, s', id, req, Done(Some(cmd), Some(Unavailable)))
      && PcOk(cfg, s', id, req, Done(Some(cmd), Some(NotRunning)))
      && (CompleteHits(s.rows, cmd.no, status) != {} ==> PcOk(cfg, s', id, req, Done(Some(ended), failure)))
  {
    CompleteGrows(s.rows, cmd.no, status, outcome, code);
    CopyStays(s.rows, Complete(s.rows, cmd.no, status, outcome, code), cmd);
    if CompleteHits(s.rows, cmd.no, status) != {} {
      CompleteHitsOwn(s, cmd, status, outcome, code);
    }
  }

  lemma MoveGood(cfg: Config, s: State, id: nat, in_: Input)
    requires Inv(cfg, s) && id in s.clients
    ensures
      var e := Move(cfg, s, id, in_);
      Good(cfg, s, After(s, e), id, s.clients[id].req, e.pc)
  {
    hide Good, RowsOk, CallsOk, SameRequest;
    var req, pc := s.clients[id].req, s.clients[id].pc;
    assert PcOk(cfg, s, id, req, pc);
    match pc
    case AtInsert(cmd, now) => InsertMoves(cfg, s, id, req, cmd, now, in_);
    case AtMark(cmd, now) => MarkMoves(cfg, s, id, req, cmd, now, in_);
    case AtGateway(cmd) => GatewayMoves(cfg, s, id, req, cmd, in_);
    case AtComplete(cmd, status, outcome, code, failure) =>
      FinishMoves(cfg, s, id, req, cmd, status, outcome, code,
                  cmd.(status := status, outcome := outcome, code := code), failure, in_);
    case AtExpire(cmd) =>
      FinishMoves(cfg, s, id, req, cmd, Expired, NO_OUTCOME, CommandExpired,
                  cmd.(status := Expired, code := CommandExpired), Some(PastExpiry), in_);
    case _ =>
      ReadsWriteNothing(cfg, s, id, in_);
      assert After(s, Move(cfg, s, id, in_)) == s;
      ReadingMoves(cfg, s, id, in_);
      Unchanged(cfg, s, id, req, Move(cfg, s, id, in_).pc);
  }

  lemma CallerStepInv(cfg: Config, s: State, id: nat, in_: Input)
    requires Inv(cfg, s) && id in s.clients
    ensures Inv(cfg, Apply(cfg, s, Step(id, in_)))
  {
    hide Move, RowsOk, CallsOk, PcOk;
    var e := Move(cfg, s, id, in_);
    var mid, s' := After(s, e), Apply(cfg, s, Step(id, in_));
    MoveGood(cfg, s, id, in_);
    SameTables(mid, s');
    forall j | j in s'.clients ensures PcOk(cfg, s', j, s'.clients[j].req, s'.clients[j].pc) {
      if j != id {
        OthersKeep(cfg, s, mid, id, j, s.clients[j].req, s.clients[j].pc);
      }
      SamePcOk(cfg, mid, s', j, s'.clients[j].req, s'.clients[j].pc);
    }
  }

  lemma SameTables(s: State, s': State)
    requires RowsOk(s) && CallsOk(s)
    requires s'.rows == s.rows && s'.marked == s.marked && s'.calls == s.calls
    ensures RowsOk(s') && CallsOk(s')
  {
    SameRowsOk(s, s');
    forall i | 0 <= i < |s'.calls| ensures CallOk(s', s'.calls[i]) {
      assert CallOk(s, s.calls[i]);
    }
  }

  lemma StepInv(cfg: Config, s: State, a: Action)
    requires Inv(cfg, s)
    ensures Inv(cfg, Apply(cfg, s, a))
  {
    if a.Step? {
      if a.client in s.clients {
        CallerStepInv(cfg, s, a.client, a.in_);
      }
    } else {
      var s' := Apply(cfg, s, a);
      SameTables(s, s');
      forall j | j in s'.clients ensures PcOk(cfg, s', j, s'.clients[j].req, s'.clients[j].pc) {
        if j in s.clients { SamePcOk(cfg, s, s', j, s.clients[j].req, s.clients[j].pc); }
      }
    }
  }

  lemma SamePcOk(cfg: Config, s: State, s': State, id: nat, req: Request, pc: Pc)
    requires s'.rows == s.rows && s'.marked == s.marked && s'.calls == s.calls
    requires PcOk(cfg, s, id, req, pc)
    ensures PcOk(cfg, s', id, req, pc)
  {
  }

  lemma {:induction false} InvAlways(cfg: Config, s: State, actions: seq<Action>)
    requires Initial(s)
    ensures Inv(cfg, Exec(cfg, s, actions))
  {
    if actions == [] {
    } else {
      InvAlways(cfg, s, actions[..|actions| - 1]);
      StepInv(cfg, Exec(cfg, s, actions[..|actions| - 1]), actions[|actions| - 1]);
    }
  }

  // ---- the theorems ----

  function CallsFor(calls: seq<Call>, key: string): nat {
    if calls == [] then 0
    else CallsFor(calls[..|calls| - 1], key) + if calls[|calls| - 1].key == key then 1 else 0
  }

  lemma {:induction false} DistinctCallsCount(calls: seq<Call>, key: string)
    requires forall i, j :: 0 <= i < j < |calls| && calls[i].key == key ==> calls[j].key != key
    ensures CallsFor(calls, key) <= 1
    ensures CallsFor(calls, key) == 1 ==> exists i :: 0 <= i < |calls| && calls[i].key == key
  {
    if calls == [] {
    } else {
      var front, last := calls[..|calls| - 1], calls[|calls| - 1];
      DistinctCallsCount(front, key);
      if CallsFor(front, key) == 1 {
        var i :| 0 <= i < |front| && front[i].key == key;
        assert calls[i].key == key;
      }
    }
  }

  /** At-most-once execution: for one idempotency key, whatever number of callers race and however their steps
      and faults interleave, the gateway is called at most as often as the stored attempt count, which is at most
      one; and every call was made by the caller whose MarkRunning changed the row, before the command's expiry. */
  lemma AtMostOnce(cfg: Config, s: State, actions: seq<Action>, key: string)
    requires Initial(s)
    ensures
      var z := Exec(cfg, s, actions);
      && (if key in z.rows then CallsFor(z.calls, key) <= z.rows[key].attempts <= 1 else CallsFor(z.calls, key) == 0)
      && (forall i :: 0 <= i < |z.calls| ==>
            && z.calls[i].no in z.marked && z.marked[z.calls[i].no].client == z.calls[i].client
            && z.calls[i].key in z.rows && z.marked[z.calls[i].no].at < z.rows[z.calls[i].key].expiresAt)
  {
    InvAlways(cfg, s, actions);
    var z := Exec(cfg, s, actions);
    forall i | 0 <= i < |z.calls|
      ensures z.calls[i].no in z.marked && z.marked[z.calls[i].no].client == z.calls[i].client
      ensures z.calls[i].key in z.rows && z.rows[z.calls[i].key].no == z.calls[i].no
      ensures z.rows[z.calls[i].key].attempts == 1 && z.marked[z.calls[i].no].at < z.rows[z.calls[i].key].expiresAt
    {
      assert CallOk(z, z.calls[i]);
      assert RowOk(z.rows[z.calls[i].key], z.calls[i].key, z.marked);
    }
    DistinctCallsCount(z.calls, key);
    if key in z.rows {
      assert RowOk(z.rows[key], key, z.marked);
    }
  }

  /** A call carries the request of the caller that makes it: same device, action and cell, and a payload with the same
      text or the same value, an absent one standing for an empty object. */
  lemma GatewaySeesTheRequest(cfg: Config, s: State, actions: seq<Action>, id: nat, in_: Input)
    requires Initial(s)
    requires id in Exec(cfg, s, actions).clients && Exec(cfg, s, actions).clients[id].pc.AtGateway?
    ensures
      var z := Exec(cfg, s, actions);
      var z' := Apply(cfg, z, Step(id, in_));
      var req := z.clients[id].req;
      && |z'.calls| == |z.calls| + 1
      && var c := z'.calls[|z.calls|];
      && c.client == id && c.key == req.key
      && c.deviceNo == req.deviceNo && c.verb == req.verb && c.cellNo == req.cellNo
      && var sent := if c.payload == "" then "{}" else c.payload;
      var asked := if req.payload == "" then "{}" else req.payload;
      sent == asked || (cfg.parse(sent).Some? && cfg.parse(sent) == cfg.parse(asked))
  {
    InvAlways(cfg, s, actions);
    var z := Exec(cfg, s, actions);
    assert PcOk(cfg, z, id, z.clients[id].req, z.clients[id].pc);
  }

  lemma {:induction false} ExecSplit(cfg: Config, s: State, a: seq<Action>, b: seq<Action>)
    ensures Exec(cfg, s, a + b) == Exec(cfg, Exec(cfg, s, a), b)
  {
    if b == [] {
      assert a + b == a;
    } else {
      ExecSplit(cfg, s, a, b[..|b| - 1]);
      assert (a + b)[..|a + b| - 1] == a + b[..|b| - 1];
    }
  }

  /** An Execute that returns an ended command returns the stored ending, then and forever, even when one caller
      expired a command that another was running; and unless it reports a conflict, it is the ending of a command
      with the caller's own request. */
  lemma ReturnedEndingIsStored(
    cfg: Config, s: State, actions: seq<Action>, later: seq<Action>, id: nat, c: Command, failure: Option<Failure>)
    requires Initial(s)
    requires id in Exec(cfg, s, actions).clients
    requires Exec(cfg, s, actions).clients[id].pc == Done(Some(c), failure) && IsTerminal(c.status)
    ensures
      var z := Exec(cfg, s, actions + later);
      && c.key in z.rows && z.rows[c.key].no == c.no && SameEnding(z.rows[c.key], c)
      && (failure != Some(KeyConflict) ==> SameRequest(cfg, c, Exec(cfg, s, actions).clients[id].req))
  {
    InvAlways(cfg, s, actions);
    var y := Exec(cfg, s, actions);
    assert PcOk(cfg, y, id, y.clients[id].req, y.clients[id].pc);
    ExecSplit(cfg, s, actions, later);
    TerminalIsFinal(cfg, y, later, c.key);
  }

  /** Steps an Execute can still take. */
  function Remaining(pc: Pc): nat {
    match pc
    case AtLookup => 14
    case AtDevice => 13
    case AtCheck(_) => 12
    case AtPrepare => 11
    case AtInsert(_, _) => 10
    case AtReadBack(_) => 9
    case AtReread => 9
    case AtDecide(_) => 9
    case AtRun(_) => 8
    case AtRunDevice(_, _) => 7
    case AtRunCheck(_, _, _) => 6
    case AtMark(_, _) => 5
    case AtGateway(_) => 4
    case AtComplete(_, _, _, _, _) => 3
    case AtExpire(_) => 3
    case Done(_, _) => 0
  }

  lemma ReaderCloser(cfg: Config, s: State, id: nat, in_: Input)
    requires id in s.clients && !s.clients[id].pc.Done? && !Writes(s.clients[id].pc)
    ensures Remaining(Move(cfg, s, id, in_).pc) < Remaining(s.clients[id].pc)
  {
    hide SameRequest, ValidateDevice, NewCommand;
  }

  lemma WriterCloser(cfg: Config, s: State, id: nat, in_: Input)
    requires id in s.clients && Writes(s.clients[id].pc)
    ensures Remaining(Move(cfg, s, id, in_).pc) < Remaining(s.clients[id].pc)
  {
    hide MarkHits, CompleteHits, InsertFailure, Complete, MarkRunning;
  }

  /** Every Execute ends: each of its steps, whatever the others did meanwhile, brings it closer to returning. */
  lemma ExecuteTerminates(cfg: Config, s: State, id: nat, in_: Input)
    requires id in s.clients && !s.clients[id].pc.Done?
    ensures Remaining(Move(cfg, s, id, in_).pc) < Remaining(s.clients[id].pc) <= 14
  {
    hide Move;
    if Writes(s.clients[id].pc) { WriterCloser(cfg, s, id, in_); } else { ReaderCloser(cfg, s, id, in_); }
  }
}
