/** What each statement of a reservation answers in the race, told from the rows and from the locks the others hold. */
module RaceLaws {
  import opened Schema
  import opened Race
  import RT = RaceTheorems
  import C = CellTx
  import W = Ownership
  import A = AllocationLaws

  /** Another call has locked a row by its SELECT: the cell itself, a cell on the same device, or one at the same
      site. */
  ghost predicate Blocked(r: State, id: nat, x: nat)
    requires id in r.callers && x in r.s.db.cells
  {
    exists j :: j in r.callers && j != id && HoldsRow(r.callers[j].pc)
                && (r.callers[j].pc.cell == x || r.callers[j].req.siteId == r.callers[id].req.siteId
                    || (r.callers[j].pc.cell in r.s.db.cells
                        && r.s.db.cells[r.callers[j].pc.cell].deviceId == r.s.db.cells[x].deviceId))
  }

  /** A locking SELECT may return this row. */
  ghost predicate Selectable(r: State, id: nat, x: nat, now: int)
    requires id in r.callers
  {
    A.Grantable(r.s.db, x, r.callers[id].req, now, r.s.setup.threshold) && !Blocked(r, id, x)
  }

  /** The locking SELECTs. The first skips locked rows: it may come back empty, and does if no grantable row is free
      of locks. The second waits for them, and comes back empty only if no row is grantable and the site is not locked.
      Either goes on with a grantable row nobody else has locked in any of the three tables. */
  lemma SelectAnswer(r: State, id: nat, first: bool, now: int, in_: Input)
    requires id in r.callers && r.callers[id].pc == AtSelect(first, now) && in_.fault == NoFault
    ensures
      var c := r.callers[id];
      var next := Next(r, id, in_);
      && (next.AtUpdate? ==> next == AtUpdate(in_.pick, now) && Selectable(r, id, in_.pick, now))
      && (Selectable(r, id, in_.pick, now) && !(first && in_.none) ==> next == AtUpdate(in_.pick, now))
      && (first && (in_.none || forall x :: !Selectable(r, id, x, now)) ==> next == AtRefind(true))
      && (!first && next == AtRefind(false) ==>
            && (forall x :: !A.Grantable(r.s.db, x, c.req, now, r.s.setup.threshold))
            && !SiteLocked(r, id, c.req.siteId))
      && (next == AtUpdate(in_.pick, now) || next == AtRefind(first) || next == c.pc)
  {
    var c := r.callers[id];
    var candidates := C.Candidates(r.s.db, c.req, now, r.s.setup.threshold);
    A.CandidatesAreGrantable(r.s.db, c.req, now, r.s.setup.threshold);
    forall x | x in candidates
      ensures Blocked(r, id, x) <==> x in Barred(r, id) || SiteLocked(r, id, c.req.siteId)
    {
      BlockedIff(r, id, x);
    }
    assert forall x :: Selectable(r, id, x, now)
             <==> x in candidates - Barred(r, id) && !SiteLocked(r, id, c.req.siteId);
    hide A.Grantable, C.Candidates, Barred, SiteLocked, Selectable, Blocked;
    if candidates <= Barred(r, id) {
      assert candidates - Barred(r, id) == {};
    } else if !SiteLocked(r, id, c.req.siteId) {
      var x :| x in candidates && x !in Barred(r, id);
      assert Selectable(r, id, x, now);
    }
  }

  lemma BlockedIff(r: State, id: nat, x: nat)
    requires id in r.callers && x in r.s.db.cells
    ensures Blocked(r, id, x) <==> x in Barred(r, id) || SiteLocked(r, id, r.callers[id].req.siteId)
  {
    if x in Barred(r, id) {
      if x in LockedByOthers(r, id) {
        var j :| j in r.callers && j != id && HoldsRow(r.callers[j].pc) && r.callers[j].pc.cell == x;
      }
    }
    if Blocked(r, id, x) {
      var j :| j in r.callers && j != id && HoldsRow(r.callers[j].pc)
               && (r.callers[j].pc.cell == x || r.callers[j].req.siteId == r.callers[id].req.siteId
                   || (r.callers[j].pc.cell in r.s.db.cells
                       && r.s.db.cells[r.callers[j].pc.cell].deviceId == r.s.db.cells[x].deviceId));
      if r.callers[j].pc.cell == x { assert x in LockedByOthers(r, id); }
    }
  }

  /** The lookups by key: a row that carries it ends the call with that row's reservation. Without one, the use case
      asks the repository, the repository tries the pass that skips, then the one that waits, then gives up. */
  lemma LookupAnswer(r: State, id: nat, in_: Input)
    requires RT.Inv(r) && id in r.callers && in_.fault == NoFault
    requires var pc := r.callers[id].pc; pc.AtUseCaseFind? || pc.AtFind? || pc.AtRefind? || pc.AtDuplicate?
    ensures
      var pc, key, db := r.callers[id].pc, r.callers[id].req.key, r.s.db;
      var next := Next(r, id, in_);
      && (forall x :: x in db.cells && db.cells[x].key == Some(key) ==>
            next == Done(Ok(C.Reservation(x, db.cells[x].size, key, db.cells[x].lockExpires))))
      && ((forall x :: x in db.cells ==> db.cells[x].key != Some(key)) ==>
            match pc
            case AtUseCaseFind => next == AtFind
            case AtFind => next == AtBegin(true)
            case AtRefind(first) => next == (if first then AtBegin(false) else Done(Err(CellNotAvailable)))
            case _ => next == Done(Err(DataUnavailable)))
  {
    var key, db := r.callers[id].req.key, r.s.db;
    forall x | x in db.cells && db.cells[x].key == Some(key)
      ensures C.FindReservation(db, key) == Some(C.Reservation(x, db.cells[x].size, key, db.cells[x].lockExpires))
    {
      W.HoldersSingle(db, key, x);
    }
    if forall x :: x in db.cells ==> db.cells[x].key != Some(key) {
      assert C.Holders(db.cells, key) == {};
    }
  }

  /** A statement that fails ends the call as unavailable, with two exceptions: a failed second look for the key counts
      as not found, and an UPDATE or COMMIT whose failure says "duplicate" looks for the key's owner. */
  lemma FaultAnswer(r: State, id: nat, in_: Input)
    requires id in r.callers && in_.fault != NoFault && !r.callers[id].pc.Done?
    ensures
      var pc, next := r.callers[id].pc, Next(r, id, in_);
      if pc == AtRefind(true) then next == AtBegin(false)
      else if pc == AtRefind(false) then next == Done(Err(CellNotAvailable))
      else if (pc.AtUpdate? || pc.AtCommit?) && in_.fault == NotApplied && in_.duplicate then next == AtDuplicate
      else next == Done(Err(DataUnavailable))
  {
  }
}
