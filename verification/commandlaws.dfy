/** What the statements of the command protocol answer and write, and what its checks ask for, told from the rows
    alone. */
module CommandLaws {
  import opened Schema
  import opened Commands

  /** A device that may be commanded: online, in service, and heard less than the limit ago. */
  predicate Commandable(cfg: Config, row: Device, now: int) {
    match row
    case Device(_, true, DeviceActive, Some(beat)) => now < beat + cfg.offlineAfter
    case _ => false
  }

  /** Why another one may not: not online, never heard or not heard in time, before its state of service. */
  lemma DeviceAnswer(cfg: Config, row: Device, now: int)
    ensures
      var answer := ValidateDevice(cfg, row, now);
      && (answer == None <==> Commandable(cfg, row, now))
      && (answer == Some(InMaintenance) <==>
            row.online && row.operational == DeviceMaintenance
            && row.heartbeat.Some? && now < row.heartbeat.value + cfg.offlineAfter)
      && (answer == Some(OutOfService) <==>
            row.online && row.operational == DeviceDisabled
            && row.heartbeat.Some? && now < row.heartbeat.value + cfg.offlineAfter)
      && (answer.Some? ==> answer.value in {DeviceOffline, InMaintenance, OutOfService})
  {
  }

  function Sent(payload: string): string { if payload == "" then "{}" else payload }

  /** A stored command and a request are for the same thing: same device, action and cell, and payloads with the same
      text or the same value. */
  predicate Agrees(cfg: Config, c: Command, req: Request) {
    && (c.deviceNo, c.verb, c.cellNo) == (req.deviceNo, req.verb, req.cellNo)
    && var stored, asked := Sent(c.payload), Sent(req.payload);
    stored == asked || (cfg.parse(stored).Some? && cfg.parse(stored) == cfg.parse(asked))
  }

  lemma RequestAnswer(cfg: Config, c: Command, req: Request)
    ensures SameRequest(cfg, c, req) <==> Agrees(cfg, c, req)
  {
  }

  /** The row of a new command: it lasts until the instant asked for, else for the time asked for, else for a
      minute. */
  function FreshRow(req: Request, no: string, now: int): Command {
    var expiresAt := match req.expiresAt
      case Some(at) => at
      case None => if req.ttl > 0 then now + req.ttl else now + 60_000_000_000;
    Command(no, req.deviceNo, req.verb, req.cellNo, Sent(req.payload), req.key, Pending, expiresAt, 0,
            Outcome(false, false, false), NoCode)
  }

  lemma NewRowAnswer(req: Request, no: string, now: int)
    ensures NewCommand(req, no, now) == FreshRow(req, no, now)
  {
  }

  /** The insert writes its row exactly if the payload parses, the device exists and neither the key nor the number is
      taken, unless it fails; and which refusal it reports. */
  lemma InsertAnswer(
    cfg: Config, rows: map<string, Command>, devices: map<string, Device>, cmd: Command, fault: Fault)
    ensures
      var taken := cmd.key in rows || exists k :: k in rows && rows[k].no == cmd.no;
      var failure := InsertFailure(cfg, rows, devices, cmd, fault);
      var accepted := cfg.parse(cmd.payload).Some? && fault != NotApplied && cmd.deviceNo in devices && !taken;
      && InsertRows(cfg, rows, devices, cmd, fault) == (if accepted then rows[cmd.key := cmd] else rows)
      && (failure == None <==> accepted && fault == NoFault)
      && (failure == Some(InvalidPayload) <==> cfg.parse(cmd.payload).None?)
      && (failure == Some(DeviceNotFound) <==>
            cfg.parse(cmd.payload).Some? && fault != NotApplied && cmd.deviceNo !in devices)
      && (failure == Some(KeyConflict) <==>
            cfg.parse(cmd.payload).Some? && fault != NotApplied && cmd.deviceNo in devices && taken)
      && (failure.Some? ==> failure.value in {InvalidPayload, DeviceNotFound, KeyConflict, Unavailable})
  {
  }

  /** The compare-and-set makes a pending, unexpired row with this number and fewer than three attempts running with one
      more; every other row stays. It hits if it changed one. */
  lemma MarkAnswer(rows: map<string, Command>, no: string, now: int)
    ensures
      var rows' := MarkRunning(rows, no, now);
      && rows'.Keys == rows.Keys
      && (forall k :: k in rows ==>
            rows'[k] == if rows[k].no == no && rows[k].status == Pending && now < rows[k].expiresAt
                           && rows[k].attempts < 3
                        then rows[k].(status := Running, attempts := rows[k].attempts + 1) else rows[k])
      && (MarkHits(rows, no, now) != {} <==> rows' != rows)
  {
    var rows' := MarkRunning(rows, no, now);
    if MarkHits(rows, no, now) != {} {
      var k :| k in MarkHits(rows, no, now);
      assert rows'[k] != rows[k];
    } else {
      assert forall k :: k in rows && Markable(rows[k], no, now) ==> k in MarkHits(rows, no, now);
    }
  }

  /** An ending is written to a running row with this number, an expiry to a pending one too; every other row stays. It
      hits if there was one. */
  lemma CompleteAnswer(
    rows: map<string, Command>, no: string, status: Status, outcome: Outcome, code: Code)
    ensures
      var rows' := Complete(rows, no, status, outcome, code);
      && rows'.Keys == rows.Keys
      && (forall k :: k in rows ==>
            var open := rows[k].status == Running || (status == Expired && rows[k].status == Pending);
            rows'[k] == if rows[k].no == no && open
                        then rows[k].(status := status, outcome := outcome, code := code) else rows[k])
      && (CompleteHits(rows, no, status) != {} <==>
            exists k :: k in rows && rows[k].no == no
                        && (rows[k].status == Running || (status == Expired && rows[k].status == Pending)))
  {
    if k :| k in rows && rows[k].no == no
            && (rows[k].status == Running || (status == Expired && rows[k].status == Pending)) {
      assert k in CompleteHits(rows, no, status);
    }
  }

  /** Steps that run a statement. */
  predicate Statement(pc: Pc) {
    pc.AtLookup? || pc.AtDevice? || pc.AtInsert? || pc.AtReadBack? || pc.AtReread? || pc.AtRunDevice? || pc.AtMark?
    || pc.AtComplete? || pc.AtExpire?
  }

  /** A statement that fails or loses its reply ends the call with an error; only an insert that is refused first, and
      the lookup after a conflict, report something else. */
  lemma FaultsAreReported(cfg: Config, s: State, id: nat, in_: Input)
    requires id in s.clients && Statement(s.clients[id].pc) && in_.fault != NoFault
    ensures
      var pc, next := s.clients[id].pc, Move(cfg, s, id, in_).pc;
      match pc
      case AtReread => next == Done(None, Some(KeyConflict))
      case AtInsert(_, _) =>
        || next == AtReread
        || (next.Done? && next.returned == None
            && next.failure in {Some(Unavailable), Some(InvalidPayload), Some(DeviceNotFound)})
      case _ => next.Done? && next.failure == Some(Unavailable)
  {
    hide SameRequest, Complete, MarkRunning;
  }

  /** Either reading of the device, before a command is made and before it is run, goes on to judge the row as read, and
      reports a missing device as such. */
  lemma DeviceReadAnswer(cfg: Config, s: State, id: nat, in_: Input)
    requires id in s.clients && in_.fault == NoFault
    ensures
      var req, next := s.clients[id].req, Move(cfg, s, id, in_).pc;
      match s.clients[id].pc
      case AtDevice =>
        next == if req.deviceNo in s.devices then AtCheck(s.devices[req.deviceNo]) else Done(None, Some(DeviceNotFound))
      case AtRunDevice(cmd, now) =>
        next == if cmd.deviceNo in s.devices then AtRunCheck(cmd, now, s.devices[cmd.deviceNo])
                else Done(Some(cmd), Some(DeviceNotFound))
      case _ => true
  {
    hide SameRequest, Complete, MarkRunning;
  }

  /** A compare-and-set that loses reports which: too late, too often, or busy. */
  lemma LosingMark(s: State, id: nat, cmd: Command, now: int, in_: Input)
    requires in_.fault == NoFault && MarkHits(s.rows, cmd.no, now) == {}
    ensures
      Mark(s, id, cmd, now, in_)
      == Effect(if cmd.expiresAt <= now then AtExpire(cmd)
                else Done(Some(cmd), Some(if cmd.attempts >= 3 then MaxAttempts else Busy)),
                s.rows, s.marked, s.calls)
  {
  }
}
