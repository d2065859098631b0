/** The availability summary read as a promise about the allocator. */
module Availability {
  import opened Schema
  import opened Sets
  import C = CellTx
  import W = Ownership

  /** The cells one row of the summary counts. The site's own service status is not looked at. */
  function Counted(db: Db, siteId: nat, size: Size, cutoff: int): set<nat> {
    set id | id in db.cells && siteId in db.sites && C.Online(db, db.cells[id], siteId, cutoff)
             && db.cells[id].status == Idle && db.cells[id].size == size
  }

  /** One reservation request after another, all at the same clock reading. */
  function ReserveEach(
    db: Db, siteId: nat, size: Size, keys: seq<string>, expiresAt: int, now: int, threshold: int)
    : (Db, seq<Result<C.Reservation>>)
    decreases |keys|
  {
    if keys == [] then (db, [])
    else
      var (db1, first) :=
        C.ReserveAvailable(db, C.Request(siteId, size, keys[0]), expiresAt, now, now, threshold, {});
      var (db2, rest) := ReserveEach(db1, siteId, size, keys[1..], expiresAt, now, threshold);
      (db2, [first] + rest)
  }

  ghost predicate FreshKeys(db: Db, keys: seq<string>) {
    && (forall i, j :: 0 <= i < j < |keys| ==> keys[i] != keys[j])
    && (forall i :: 0 <= i < |keys| ==> C.Holders(db.cells, keys[i]) == {})
  }

  /** A reservation uses up exactly one candidate, whichever kind it was. */
  lemma TakingOneCandidate(db: Db, req: C.Request, other: C.Request, id: nat, expiresAt: int, now: int, threshold: int)
    requires id in C.Candidates(db, req, now, threshold) && now <= expiresAt
    requires other.siteId == req.siteId && other.size == req.size
    ensures C.Candidates(C.TakeCell(db, id, req.key, expiresAt), other, now, threshold)
         == C.Candidates(db, req, now, threshold) - {id}
  {
    var db' := C.TakeCell(db, id, req.key, expiresAt);
    assert forall x :: x in db'.cells && x != id ==> db'.cells[x] == db.cells[x];
  }

  lemma TakingKeepsKeysFresh(db: Db, id: nat, key: string, expiresAt: int, keys: seq<string>)
    requires id in db.cells && FreshKeys(db, keys) && key !in keys
    ensures FreshKeys(C.TakeCell(db, id, key, expiresAt), keys)
  {
    var db' := C.TakeCell(db, id, key, expiresAt);
    forall i | 0 <= i < |keys| ensures C.Holders(db'.cells, keys[i]) == {} {
      forall x | x in db'.cells ensures db'.cells[x].key != Some(keys[i]) {
        assert x !in C.Holders(db.cells, keys[i]);
      }
    }
  }

  ghost predicate ServesFirst(rs: seq<Result<C.Reservation>>, pool: set<nat>) {
    && (forall i :: 0 <= i < |rs| ==> (rs[i].Ok? <==> i < |pool|))
    && (forall i :: 0 <= i < |rs| && rs[i].Ok? ==> rs[i].value.cellId in pool)
    && (forall i :: 0 <= i < |rs| && rs[i].Err? ==> rs[i].error == CellNotAvailable)
    && (forall i, j :: 0 <= i < j < |rs| && rs[i].Ok? && rs[j].Ok? ==> rs[i].value.cellId != rs[j].value.cellId)
  }

  lemma ServesOneMore(first: Result<C.Reservation>, rest: seq<Result<C.Reservation>>, pool: set<nat>)
    requires if pool == {} then first == Err(CellNotAvailable) && ServesFirst(rest, pool)
             else first.Ok? && first.value.cellId in pool && ServesFirst(rest, pool - {first.value.cellId})
    ensures ServesFirst([first] + rest, pool)
  {
    var rs := [first] + rest;
    assert forall i :: 0 < i < |rs| ==> rs[i] == rest[i - 1];
  }

  /** Of any number of requests with fresh distinct keys at one instant, exactly the first as many as there are
      candidates succeed, on distinct cells; expired locks count as candidates like idle cells. */
  lemma {:induction false} CandidatesAreServed(
    db: Db, siteId: nat, size: Size, keys: seq<string>, expiresAt: int, now: int, threshold: int)
    requires W.Inv(db) && FreshKeys(db, keys) && now <= expiresAt
    ensures
      var rs := ReserveEach(db, siteId, size, keys, expiresAt, now, threshold).1;
      && |rs| == |keys|
      && ServesFirst(rs, C.Candidates(db, C.Request(siteId, size, ""), now, threshold))
    decreases |keys|
  {
    if keys == [] {
    } else {
      var blank, req := C.Request(siteId, size, ""), C.Request(siteId, size, keys[0]);
      var pool := C.Candidates(db, blank, now, threshold);
      assert C.Candidates(db, req, now, threshold) == pool;
      assert pool - {} == pool;
      var (db1, first) := C.ReserveAvailable(db, req, expiresAt, now, now, threshold, {});
      assert C.Holders(db.cells, keys[0]) == {};
      if pool == {} {
        assert db1 == db && first == Err(CellNotAvailable);
      } else {
        var id := Least(pool);
        assert db1 == C.TakeCell(db, id, keys[0], expiresAt);
        TakingOneCandidate(db, req, blank, id, expiresAt, now, threshold);
        TakingKeepsKeysFresh(db, id, keys[0], expiresAt, keys[1..]);
      }
      W.ReserveInv(db, req, expiresAt, now, now, threshold, {});
      CandidatesAreServed(db1, siteId, size, keys[1..], expiresAt, now, threshold);
      ServesOneMore(first, ReserveEach(db1, siteId, size, keys[1..], expiresAt, now, threshold).1, pool);
    }
  }

  /** Availability is a promise exactly at an ACTIVE site: as many fresh reservations as the summary reports all
      succeed, on distinct cells, if and only if the site is ACTIVE or the summary reports none. */
  lemma SummaryIsAPromise(
    db: Db, siteId: nat, size: Size, keys: seq<string>, expiresAt: int, now: int, threshold: int)
    requires W.Inv(db) && siteId in db.sites
    requires FreshKeys(db, keys) && now <= expiresAt
    requires |keys| == |Counted(db, siteId, size, now - threshold)|
    ensures
      var rs := ReserveEach(db, siteId, size, keys, expiresAt, now, threshold).1;
      && |rs| == |keys|
      && ((forall i :: 0 <= i < |rs| ==> rs[i].Ok?) <==> db.sites[siteId] == SiteActive || |keys| == 0)
      && (forall i, j :: 0 <= i < j < |rs| && rs[i].Ok? && rs[j].Ok? ==> rs[i].value.cellId != rs[j].value.cellId)
  {
    CandidatesAreServed(db, siteId, size, keys, expiresAt, now, threshold);
    var pool := C.Candidates(db, C.Request(siteId, size, ""), now, threshold);
    if db.sites[siteId] == SiteActive {
      forall id | id in Counted(db, siteId, size, now - threshold) ensures id in pool {
        assert W.CellOk(db, id, db.cells[id]);
      }
      SubsetSize(Counted(db, siteId, size, now - threshold), pool);
    } else {
      assert pool == {};
      if |keys| > 0 {
        assert ReserveEach(db, siteId, size, keys, expiresAt, now, threshold).1[0].Err?;
      }
    }
  }

  /** A suspended site with one ready device and one idle cell: the summary counts it, and every reservation is
      refused. */
  function SuspendedSite(): Db {
    var cell := Cell(1, Small, Idle, None, None, None, 0);
    var device := Device(1, true, DeviceActive, Some(0));
    Db(map[1 := SiteSuspended], map[1 := device], map[1 := cell], map[], [])
  }

  lemma SuspendedSiteOverpromises(key: string, expiresAt: int)
    ensures W.Inv(SuspendedSite())
    ensures Counted(SuspendedSite(), 1, Small, 0) == {1}
    ensures C.ReserveAvailable(SuspendedSite(), C.Request(1, Small, key), expiresAt, 0, 0, 0, {})
         == (SuspendedSite(), Err(CellNotAvailable))
  {
    W.InstalledInv(SuspendedSite());
    assert C.Holders(SuspendedSite().cells, key) == {};
    assert C.Candidates(SuspendedSite(), C.Request(1, Small, key), 0, 0) == {};
    assert Counted(SuspendedSite(), 1, Small, 0) == {1};
  }
}
