/** The locker domain's transactions on the cell table: reserve, release, reclaim.
    `skip` is the set of rows other transactions hold locked when a SKIP LOCKED statement runs. */
module CellTx {
  import opened Schema
  import opened Sets

  datatype Request = Request(siteId: nat, size: Size, key: string)

  datatype Reservation = Reservation(cellId: nat, size: Size, key: string, expiresAt: Option<int>)

  /** Rows carrying a reservation key. */
  function Holders(cells: map<nat, Cell>, key: string): set<nat> {
    set id | id in cells && cells[id].key == Some(key)
  }

  /** The replay lookup: by key alone, whatever the expiry. */
  function FindReservation(db: Db, key: string): Option<Reservation> {
    var found := Holders(db.cells, key);
    if found == {} then None
    else
      var id := Least(found);
      Some(Reservation(id, db.cells[id].size, key, db.cells[id].lockExpires))
  }

  /** No order, and idle or under a lock that has expired. */
  predicate Free(c: Cell, now: int) {
    && c.orderId.None?
    && (c.status == Idle || (c.status == Locked && c.lockExpires.Some? && c.lockExpires.value < now))
  }

  predicate Online(db: Db, c: Cell, siteId: nat, cutoff: int) {
    && c.deviceId in db.devices
    && var d := db.devices[c.deviceId];
    && d.siteId == siteId
    && d.online
    && d.operational == DeviceActive
    && d.heartbeat.Some? && d.heartbeat.value >= cutoff
  }

  predicate Reservable(db: Db, id: nat, req: Request, now: int, threshold: int) {
    && id in db.cells
    && req.siteId in db.sites && db.sites[req.siteId] == SiteActive
    && Online(db, db.cells[id], req.siteId, now - threshold)
    && db.cells[id].size == req.size
    && Free(db.cells[id], now)
  }

  function Candidates(db: Db, req: Request, now: int, threshold: int): set<nat> {
    set id | id in db.cells && Reservable(db, id, req, now, threshold)
  }

  function Taken(c: Cell, key: string, expiresAt: int): Cell {
    c.(status := Locked, key := Some(key), lockExpires := Some(expiresAt), version := c.version + 1)
  }

  function Freed(c: Cell): Cell {
    c.(status := Idle, key := None, lockExpires := None, version := c.version + 1)
  }

  function TakeCell(db: Db, id: nat, key: string, expiresAt: int): Db
    requires id in db.cells
  {
    db.(cells := db.cells[id := Taken(db.cells[id], key, expiresAt)])
  }

  /** What the guarded UPDATE of a reservation asks for under the unique key index: the row must be free at the
      reading, and no other row may carry the key. */
  predicate Takeable(db: Db, id: nat, key: string, now: int) {
    id in db.cells && Free(db.cells[id], now) && Holders(db.cells, key) <= {id}
  }

  function GuardedTake(db: Db, id: nat, key: string, expiresAt: int, now: int): Db {
    if Takeable(db, id, key, now) then TakeCell(db, id, key, expiresAt) else db
  }

  /** One pass of the allocation: the first candidate row that is not skipped. */
  function ReservePass(db: Db, req: Request, expiresAt: int, now: int, threshold: int, skip: set<nat>)
    : Option<(Db, Reservation)>
  {
    var pick := Candidates(db, req, now, threshold) - skip;
    if pick == {} then None
    else
      var id := Least(pick);
      Some((TakeCell(db, id, req.key, expiresAt), Reservation(id, db.cells[id].size, req.key, Some(expiresAt))))
  }

  /** Replay by key; else a pass that skips locked rows; else a pass that waits for them. Each pass reads the
      clock for itself. */
  function ReserveAvailable(
    db: Db, req: Request, expiresAt: int, now1: int, now2: int, threshold: int, skip: set<nat>)
    : (Db, Result<Reservation>)
  {
    match FindReservation(db, req.key)
    case Some(existing) => (db, Ok(existing))
    case None =>
      match ReservePass(db, req, expiresAt, now1, threshold, skip)
      case Some(done) => (done.0, Ok(done.1))
      case None => FinalPass(db, req, expiresAt, now2, threshold)
  }

  function FinalPass(db: Db, req: Request, expiresAt: int, now: int, threshold: int): (Db, Result<Reservation>) {
    match ReservePass(db, req, expiresAt, now, threshold, {})
    case Some(done) => (done.0, Ok(done.1))
    case None => (db, Err(CellNotAvailable))
  }

  predicate OwnedBy(c: Cell, key: string) {
    c.key == Some(key) && c.status == Locked && c.orderId.None?
  }

  function FreeCell(db: Db, id: nat): Db
    requires id in db.cells
  {
    db.(cells := db.cells[id := Freed(db.cells[id])])
  }

  function Release(db: Db, cellId: nat, key: string): (Db, Result<()>) {
    if cellId == 0 then (db, Err(InvalidCellId))
    else if cellId !in db.cells then (db, Err(ReservationNotFound))
    else if !OwnedBy(db.cells[cellId], key) then (db, Err(KeyMismatch))
    else (FreeCell(db, cellId), Ok(()))
  }

  /** A lock without an order whose expiry has passed. */
  predicate Lapsed(c: Cell, now: int) {
    c.status == Locked && c.orderId.None? && c.lockExpires.Some? && c.lockExpires.value < now
  }

  function LapsedCells(cells: map<nat, Cell>, now: int): set<nat> {
    set id | id in cells && Lapsed(cells[id], now)
  }

  function FreeAll(cells: map<nat, Cell>, ids: set<nat>): map<nat, Cell> {
    map id | id in cells :: if id in ids then Freed(cells[id]) else cells[id]
  }

  /** One bounded batch: at most `limit` lapsed rows, lowest ids first; returns how many were freed. The UPDATEs
      run while the selected rows are still being read, so a batch with rows needs a driver that allows it. */
  function ReclaimExpired(db: Db, now: int, limit: int, skip: set<nat>, openRows: bool): (Db, Result<nat>) {
    if limit <= 0 then (db, Ok(0))
    else
      var batch := FirstN(LapsedCells(db.cells, now) - skip, limit);
      if batch != [] && !openRows then (db, Err(DataUnavailable))
      else (db.(cells := FreeAll(db.cells, Elements(batch))), Ok(|batch|))
  }
}
