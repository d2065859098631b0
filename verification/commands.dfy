/** The device command protocol: any number of concurrent Execute calls, interleaved at every repository and
    gateway call, over one command table. */
module Commands {
  import opened Schema

  datatype Verb = OpenDoor | QueryStatus | UnknownVerb

  datatype Status = Pending | Running | Succeeded | Failed | TimedOut | Expired

  datatype Outcome = Outcome(doorOpened: bool, doorClosed: bool, retryable: bool)

  const NO_OUTCOME: Outcome := Outcome(false, false, false)

  datatype Code = NoCode | CommandTimeout | CommandFailed | CommandExpired

  datatype Request = Request(
    deviceNo: string, verb: Verb, cellNo: string, payload: string, key: string, ttl: int, expiresAt: Option<int>)

  /** A row of device_commands, and the copy of it a caller works on. */
  datatype Command = Command(
    no: string, deviceNo: string, verb: Verb, cellNo: string, payload: string, key: string,
    status: Status, expiresAt: int, attempts: nat, outcome: Outcome, code: Code)

  datatype Failure =
    | KeyMissing | InvalidVerb | KeyConflict | MaxAttempts | DeviceNotFound | DeviceOffline
    | InMaintenance | OutOfService | Busy | PastExpiry | NotRunning | InvalidPayload | Unavailable
    | GatewayTimedOut | GatewayFailed

  /** How the gateway call ended. */
  datatype Answer = Answered | TimeoutAnswer | ErrorAnswer

  const MAX_ATTEMPTS: nat := 3
  const DEFAULT_TTL: int := 60_000_000_000

  /** `parse` maps a JSON text to its value in canonical form; `offlineAfter` is the age a heartbeat may reach. */
  datatype Config = Config(parse: string -> Option<string>, offlineAfter: int)

  predicate IsTerminal(s: Status) {
    s == Succeeded || s == Failed || s == TimedOut || s == Expired
  }

  function OrEmptyObject(payload: string): string {
    if payload == "" then "{}" else payload
  }

  predicate SamePayload(cfg: Config, left: string, right: string) {
    var l, r := OrEmptyObject(left), OrEmptyObject(right);
    if cfg.parse(l).None? || cfg.parse(r).None? then l == r else cfg.parse(l) == cfg.parse(r)
  }

  predicate SameRequest(cfg: Config, c: Command, req: Request) {
    && c.deviceNo == req.deviceNo && c.verb == req.verb && c.cellNo == req.cellNo
    && SamePayload(cfg, c.payload, req.payload)
  }

  function ValidateDevice(cfg: Config, d: Device, now: int): Option<Failure> {
    if !d.online || d.heartbeat.None? || now >= d.heartbeat.value + cfg.offlineAfter then Some(DeviceOffline)
    else
      match d.operational
      case DeviceActive => None
      case DeviceMaintenance => Some(InMaintenance)
      case DeviceDisabled => Some(OutOfService)
  }

  // ---- the repository's compare-and-set statements ----

  predicate Markable(c: Command, no: string, now: int) {
    c.no == no && c.status == Pending && c.expiresAt > now && c.attempts < MAX_ATTEMPTS
  }

  function MarkRunning(rows: map<string, Command>, no: string, now: int): map<string, Command> {
    map k | k in rows ::
      if Markable(rows[k], no, now) then rows[k].(status := Running, attempts := rows[k].attempts + 1) else rows[k]
  }

  predicate Completable(c: Command, no: string, status: Status) {
    c.no == no && (c.status == Running || (status == Expired && c.status == Pending))
  }

  function Complete(rows: map<string, Command>, no: string, status: Status, outcome: Outcome, code: Code)
    : map<string, Command>
  {
    map k | k in rows ::
      if Completable(rows[k], no, status) then rows[k].(status := status, outcome := outcome, code := code)
      else rows[k]
  }

  function MarkHits(rows: map<string, Command>, no: string, now: int): set<string> {
    set k | k in rows && Markable(rows[k], no, now)
  }

  function CompleteHits(rows: map<string, Command>, no: string, status: Status): set<string> {
    set k | k in rows && Completable(rows[k], no, status)
  }

  // ---- one caller ----

  /** Where an Execute call stands: before which repository or gateway call, and with what it has read. */
  datatype Pc =
    | AtLookup
    | AtDecide(cmd: Command)
    | AtDevice
    | AtCheck(device: Device)
    | AtPrepare
    | AtInsert(cmd: Command, now: int)
    | AtReadBack(now: int)
    | AtReread
    | AtRun(cmd: Command)
    | AtRunDevice(cmd: Command, now: int)
    | AtRunCheck(cmd: Command, now: int, device: Device)
    | AtMark(cmd: Command, now: int)
    | AtGateway(cmd: Command)
    | AtComplete(cmd: Command, status: Status, outcome: Outcome, code: Code, failure: Option<Failure>)
    | AtExpire(cmd: Command)
    | Done(returned: Option<Command>, failure: Option<Failure>)

  datatype Client = Client(req: Request, pc: Pc)

  /** What the world contributes to a step: a fault, the number drawn for a new command, the gateway's answer. */
  datatype Input = Input(fault: Fault, no: string, outcome: Outcome, answer: Answer)

  /** A gateway call: what was sent, and how it was answered. */
  datatype Call = Call(
    client: nat, no: string, key: string, deviceNo: string, verb: Verb, cellNo: string, payload: string,
    answer: Answer, outcome: Outcome)

  /** Whose MarkRunning changed the row, and on which clock reading. */
  datatype Winner = Winner(client: nat, at: int)

  /** `marked` and `calls` record history: who won each command, and every gateway call. */
  datatype State = State(
    rows: map<string, Command>, devices: map<string, Device>, clock: int,
    clients: map<nat, Client>, marked: map<string, Winner>, calls: seq<Call>)

  datatype Effect = Effect(pc: Pc, rows: map<string, Command>, marked: map<string, Winner>, calls: seq<Call>)

  function Goto(s: State, pc: Pc): Effect {
    Effect(pc, s.rows, s.marked, s.calls)
  }

  function Start(req: Request): Pc {
    if Blank(req.key) then Done(None, Some(KeyMissing))
    else if req.verb == UnknownVerb then Done(None, Some(InvalidVerb))
    else AtLookup
  }

  /** A stored command found under the key: replay it unless it is still pending. */
  function Replay(cfg: Config, existing: Command, req: Request, next: Pc): Pc {
    if !SameRequest(cfg, existing, req) then Done(Some(existing), Some(KeyConflict))
    else if existing.status != Pending then Done(Some(existing), None)
    else next
  }

  function Lookup(cfg: Config, s: State, req: Request, in_: Input): Effect {
    if in_.fault != NoFault then Goto(s, Done(None, Some(Unavailable)))
    else if req.key !in s.rows then Goto(s, AtDevice)
    else
      var existing := s.rows[req.key];
      var next := if existing.attempts >= MAX_ATTEMPTS then Done(Some(existing), Some(MaxAttempts))
                  else AtDecide(existing);
      Goto(s, Replay(cfg, existing, req, next))
  }

  function NewCommand(req: Request, no: string, now: int): Command {
    var expiresAt :=
      match req.expiresAt
      case Some(at) => at
      case None => now + if req.ttl <= 0 then DEFAULT_TTL else req.ttl;
    Command(no, req.deviceNo, req.verb, req.cellNo, OrEmptyObject(req.payload), req.key,
            Pending, expiresAt, 0, NO_OUTCOME, NoCode)
  }

  function ReadDevice(s: State, req: Request, in_: Input): Effect {
    if in_.fault != NoFault then Goto(s, Done(None, Some(Unavailable)))
    else if req.deviceNo !in s.devices then Goto(s, Done(None, Some(DeviceNotFound)))
    else Goto(s, AtCheck(s.devices[req.deviceNo]))
  }

  /** The device as read is judged at a clock reading of its own; another one starts the command. */
  function CheckDevice(cfg: Config, s: State, device: Device): Effect {
    match ValidateDevice(cfg, device, s.clock)
    case Some(f) => Goto(s, Done(None, Some(f)))
    case None => Goto(s, AtPrepare)
  }

  /** INSERT ... SELECT from the device; both the key and the number are unique. What it reports: */
  function InsertFailure(
    cfg: Config, rows: map<string, Command>, devices: map<string, Device>, cmd: Command, fault: Fault)
    : Option<Failure>
  {
    if cfg.parse(cmd.payload).None? then Some(InvalidPayload)
    else if fault == NotApplied then Some(Unavailable)
    else if cmd.deviceNo !in devices then Some(DeviceNotFound)
    else if cmd.key in rows || (exists k :: k in rows && rows[k].no == cmd.no) then Some(KeyConflict)
    else if fault == ReplyLost then Some(Unavailable)
    else None
  }

  /** ... and what it writes; a lost reply hides a row that was written. */
  function InsertRows(
    cfg: Config, rows: map<string, Command>, devices: map<string, Device>, cmd: Command, fault: Fault)
    : map<string, Command>
  {
    if InsertFailure(cfg, rows, devices, cmd, if fault == ReplyLost then NoFault else fault).None?
    then rows[cmd.key := cmd] else rows
  }

  function Insert(cfg: Config, s: State, cmd: Command, now: int, in_: Input): Effect {
    var failure := InsertFailure(cfg, s.rows, s.devices, cmd, in_.fault);
    Effect(if failure.None? then AtReadBack(now)
           else if failure == Some(KeyConflict) then AtReread
           else Done(None, failure),
           InsertRows(cfg, s.rows, s.devices, cmd, in_.fault), s.marked, s.calls)
  }

  function ReadBack(s: State, req: Request, now: int, in_: Input): Effect {
    if in_.fault != NoFault || req.key !in s.rows then Goto(s, Done(None, Some(Unavailable)))
    else if now >= s.rows[req.key].expiresAt then Goto(s, AtExpire(s.rows[req.key]))
    else Goto(s, AtRun(s.rows[req.key]))
  }

  function Reread(cfg: Config, s: State, req: Request, in_: Input): Effect {
    if in_.fault != NoFault || req.key !in s.rows then Goto(s, Done(None, Some(KeyConflict)))
    else Goto(s, Replay(cfg, s.rows[req.key], req, AtRun(s.rows[req.key])))
  }

  function Run(s: State, cmd: Command): Effect {
    if s.clock >= cmd.expiresAt then Goto(s, AtExpire(cmd))
    else if cmd.attempts >= MAX_ATTEMPTS then Goto(s, Done(Some(cmd), Some(MaxAttempts)))
    else Goto(s, AtRunDevice(cmd, s.clock))
  }

  function RunDevice(s: State, cmd: Command, now: int, in_: Input): Effect {
    if in_.fault != NoFault then Goto(s, Done(Some(cmd), Some(Unavailable)))
    else if cmd.deviceNo !in s.devices then Goto(s, Done(Some(cmd), Some(DeviceNotFound)))
    else Goto(s, AtRunCheck(cmd, now, s.devices[cmd.deviceNo]))
  }

  function RunCheck(cfg: Config, s: State, cmd: Command, now: int, device: Device): Effect {
    match ValidateDevice(cfg, device, s.clock)
    case Some(f) => Goto(s, Done(Some(cmd), Some(f)))
    case None => Goto(s, AtMark(cmd, now))
  }

  /** Only the caller whose statement changed the row goes on to the gateway. */
  function Mark(s: State, id: nat, cmd: Command, now: int, in_: Input): Effect {
    if in_.fault == NotApplied then Goto(s, Done(Some(cmd), Some(Unavailable)))
    else if MarkHits(s.rows, cmd.no, now) == {} then
      Goto(s, if in_.fault == ReplyLost then Done(Some(cmd), Some(Unavailable))
              else if now >= cmd.expiresAt then AtExpire(cmd)
              else if cmd.attempts >= MAX_ATTEMPTS then Done(Some(cmd), Some(MaxAttempts))
              else Done(Some(cmd), Some(Busy)))
    else
      Effect(if in_.fault == ReplyLost then Done(Some(cmd), Some(Unavailable))
             else AtGateway(cmd.(attempts := cmd.attempts + 1)),
             MarkRunning(s.rows, cmd.no, now), s.marked[cmd.no := Winner(id, now)], s.calls)
  }

  function CallGateway(s: State, id: nat, cmd: Command, in_: Input): Effect {
    var next :=
      match in_.answer
      case Answered => AtComplete(cmd, Succeeded, in_.outcome, NoCode, None)
      case TimeoutAnswer =>
        AtComplete(cmd, TimedOut, in_.outcome.(retryable := true), CommandTimeout, Some(GatewayTimedOut))
      case ErrorAnswer => AtComplete(cmd, Failed, in_.outcome, CommandFailed, Some(GatewayFailed));
    Effect(next, s.rows, s.marked,
           s.calls + [Call(id, cmd.no, cmd.key, cmd.deviceNo, cmd.verb, cmd.cellNo, cmd.payload,
                           in_.answer, in_.outcome)])
  }

  /** Both endings: the gateway's answer, or expiry. The caller reports the ending only if its statement hit. */
  function Finish(
    s: State, cmd: Command, status: Status, outcome: Outcome, code: Code, ended: Pc, in_: Input): Effect
  {
    if in_.fault == NotApplied then Goto(s, Done(Some(cmd), Some(Unavailable)))
    else
      var hit := CompleteHits(s.rows, cmd.no, status) != {};
      Effect(if in_.fault == ReplyLost then Done(Some(cmd), Some(Unavailable))
             else if hit then ended else Done(Some(cmd), Some(NotRunning)),
             Complete(s.rows, cmd.no, status, outcome, code), s.marked, s.calls)
  }

  function Move(cfg: Config, s: State, id: nat, in_: Input): Effect
    requires id in s.clients
  {
    var req := s.clients[id].req;
    match s.clients[id].pc
    case AtLookup => Lookup(cfg, s, req, in_)
    case AtDecide(cmd) => Goto(s, if s.clock >= cmd.expiresAt then AtExpire(cmd) else AtRun(cmd))
    case AtDevice => ReadDevice(s, req, in_)
    case AtCheck(device) => CheckDevice(cfg, s, device)
    case AtPrepare => Goto(s, AtInsert(NewCommand(req, in_.no, s.clock), s.clock))
    case AtInsert(cmd, now) => Insert(cfg, s, cmd, now, in_)
    case AtReadBack(now) => ReadBack(s, req, now, in_)
    case AtReread => Reread(cfg, s, req, in_)
    case AtRun(cmd) => Run(s, cmd)
    case AtRunDevice(cmd, now) => RunDevice(s, cmd, now, in_)
    case AtRunCheck(cmd, now, device) => RunCheck(cfg, s, cmd, now, device)
    case AtMark(cmd, now) => Mark(s, id, cmd, now, in_)
    case AtGateway(cmd) => CallGateway(s, id, cmd, in_)
    case AtComplete(cmd, status, outcome, code, failure) =>
      Finish(s, cmd, status, outcome, code,
             Done(Some(cmd.(status := status, outcome := outcome, code := code)), failure), in_)
    case AtExpire(cmd) =>
      Finish(s, cmd, Expired, NO_OUTCOME, CommandExpired,
             Done(Some(cmd.(status := Expired, code := CommandExpired)), Some(PastExpiry)), in_)
    case Done(returned, failure) => Goto(s, Done(returned, failure))
  }

  datatype Action =
    | Tick(to: int)
    | Fleet(devices: map<string, Device>)
    | Begin(client: nat, req: Request)
    | Step(client: nat, in_: Input)

  function Apply(cfg: Config, s: State, a: Action): State {
    match a
    case Tick(to) => if s.clock <= to then s.(clock := to) else s
    case Fleet(devices) => s.(devices := devices)
    case Begin(client, req) =>
      if client in s.clients then s else s.(clients := s.clients[client := Client(req, Start(req))])
    case Step(client, in_) =>
      if client !in s.clients then s
      else
        var e := Move(cfg, s, client, in_);
        s.(rows := e.rows, marked := e.marked, calls := e.calls,
           clients := s.clients[client := s.clients[client].(pc := e.pc)])
  }

  function Exec(cfg: Config, s: State, actions: seq<Action>): State {
    if actions == [] then s
    else Apply(cfg, Exec(cfg, s, actions[..|actions| - 1]), actions[|actions| - 1])
  }

  predicate Initial(s: State) {
    s.rows == map[] && s.clients == map[] && s.marked == map[] && s.calls == []
  }
}
