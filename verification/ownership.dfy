/** The joint invariant that keeps the two domains from disturbing each other on the shared cell table, and
    its preservation by every transaction of both. */
module Ownership {
  import opened Schema
  import opened Sets
  import opened CellTx
  import opened OrderTx

  predicate AwaitsParcel(s: OrderStatus) { s == PendingPayment || s == AwaitingDeposit }

  predicate HasParcel(s: OrderStatus) { s == InStorage || s == Overdue || s == AwaitingPickup }

  predicate NoLease(c: Cell) { c.key.None? && c.lockExpires.None? }

  /** Held under a reservation key rather than by an order. */
  predicate Reserved(c: Cell) { c.status == Locked && c.orderId.None? }

  /** The order in current_order_id exists and points back at this cell. */
  predicate BoundBack(db: Db, id: nat, c: Cell) {
    && c.orderId.Some?
    && c.orderId.value in db.orders
    && db.orders[c.orderId.value].cellId == id
  }

  predicate CellOk(db: Db, id: nat, c: Cell) {
    match c.status
    case Idle => NoLease(c) && c.orderId.None?
    case Disabled => NoLease(c) && c.orderId.None?
    case Locked =>
      if c.orderId.None? then c.key.Some? && c.lockExpires.Some?
      else NoLease(c) && BoundBack(db, id, c) && AwaitsParcel(db.orders[c.orderId.value].status)
    case Occupied => NoLease(c) && BoundBack(db, id, c) && HasParcel(db.orders[c.orderId.value].status)
  }

  predicate OrderOk(db: Db, oid: nat, o: Order) {
    && o.status != Paid
    && (!Terminal(o.status) ==> o.cellId in db.cells && db.cells[o.cellId].orderId == Some(oid))
  }

  ghost predicate KeysUnique(cells: map<nat, Cell>) {
    forall x, y :: x in cells && y in cells && cells[x].key.Some? && cells[x].key == cells[y].key ==> x == y
  }

  ghost predicate CellsOk(db: Db) {
    forall id :: id in db.cells ==> CellOk(db, id, db.cells[id])
  }

  ghost predicate OrdersOk(db: Db) {
    forall oid :: oid in db.orders ==> OrderOk(db, oid, db.orders[oid])
  }

  ghost predicate Inv(db: Db) {
    CellsOk(db) && OrdersOk(db) && KeysUnique(db.cells)
  }

  /** A fresh installation: no orders, no log, every cell idle or disabled. */
  ghost predicate Installed(db: Db) {
    && db.orders == map[] && db.logs == []
    && forall id :: id in db.cells ==>
         && var c := db.cells[id];
         && (c.status == Idle || c.status == Disabled) && NoLease(c) && c.orderId.None?
  }

  lemma InstalledInv(db: Db)
    requires Installed(db)
    ensures Inv(db)
  {
  }

  /** Heartbeats and operations staff rewrite devices and sites, never cells or orders. */
  lemma FleetInv(db: Db, sites: map<nat, SiteStatus>, devices: map<nat, Device>)
    requires Inv(db)
    ensures Inv(db.(sites := sites, devices := devices))
  {
    var db' := db.(sites := sites, devices := devices);
    assert forall id :: id in db'.cells ==> CellOk(db, id, db.cells[id]);
    assert forall oid :: oid in db'.orders ==> OrderOk(db, oid, db.orders[oid]);
  }

  lemma HoldersSingle(db: Db, key: string, id: nat)
    requires Inv(db) && id in db.cells && db.cells[id].key == Some(key)
    ensures Holders(db.cells, key) == {id}
    ensures Reserved(db.cells[id]) && db.cells[id].lockExpires.Some?
    ensures FindReservation(db, key) == Some(Reservation(id, db.cells[id].size, key, db.cells[id].lockExpires))
  {
    assert CellOk(db, id, db.cells[id]);
  }

  lemma TakeCellInv(db: Db, id: nat, key: string, expiresAt: int, now: int)
    requires Inv(db) && id in db.cells && Free(db.cells[id], now)
    requires Holders(db.cells, key) <= {id}
    ensures Inv(TakeCell(db, id, key, expiresAt))
  {
    var db' := TakeCell(db, id, key, expiresAt);
    assert forall x :: x in db.cells && db.cells[x].key == Some(key) ==> x in Holders(db.cells, key);
    assert CellsOk(db');
    assert OrdersOk(db');
  }

  lemma ReserveInv(db: Db, req: Request, expiresAt: int, now1: int, now2: int, threshold: int, skip: set<nat>)
    requires Inv(db)
    ensures Inv(ReserveAvailable(db, req, expiresAt, now1, now2, threshold, skip).0)
  {
    if FindReservation(db, req.key).None? {
      var one, two := Candidates(db, req, now1, threshold) - skip, Candidates(db, req, now2, threshold) - {};
      if one != {} {
        TakeCellInv(db, Least(one), req.key, expiresAt, now1);
      } else if two != {} {
        TakeCellInv(db, Least(two), req.key, expiresAt, now2);
      }
    }
  }

  lemma FreeAllInv(db: Db, ids: set<nat>)
    requires Inv(db)
    requires forall id :: id in ids ==> id in db.cells && Reserved(db.cells[id])
    ensures Inv(db.(cells := FreeAll(db.cells, ids)))
  {
    var db' := db.(cells := FreeAll(db.cells, ids));
    assert CellsOk(db');
    assert OrdersOk(db');
    assert KeysUnique(db'.cells) by {
      forall x, y | x in db'.cells && y in db'.cells && db'.cells[x].key.Some? && db'.cells[x].key == db'.cells[y].key
        ensures x == y
      {
        assert db.cells[x].key == db.cells[y].key;
      }
    }
  }

  lemma ReleaseInv(db: Db, cellId: nat, key: string)
    requires Inv(db)
    ensures Inv(CellTx.Release(db, cellId, key).0)
  {
    if cellId in db.cells && OwnedBy(db.cells[cellId], key) {
      FreeAllInv(db, {cellId});
      assert FreeCell(db, cellId).cells == FreeAll(db.cells, {cellId});
    }
  }

  lemma ReclaimInv(db: Db, now: int, limit: int, skip: set<nat>, openRows: bool)
    requires Inv(db)
    ensures Inv(CellTx.ReclaimExpired(db, now, limit, skip, openRows).0)
  {
    if limit > 0 {
      FreeAllInv(db, Elements(FirstN(LapsedCells(db.cells, now) - skip, limit)));
    }
  }

  lemma CreateInv(db: Db, oid: nat, siteId: nat, size: Size, minutes: int, now: int, skip: set<nat>)
    requires Inv(db) && oid !in db.orders
    ensures Inv(OrderTx.CreateOrder(db, oid, siteId, size, minutes, now, skip).0)
  {
    var db' := OrderTx.CreateOrder(db, oid, siteId, size, minutes, now, skip).0;
    forall id | id in db'.cells ensures CellOk(db', id, db'.cells[id]) {
      assert CellOk(db, id, db.cells[id]);
    }
    forall o | o in db'.orders ensures OrderOk(db', o, db'.orders[o]) {
      assert o in db.orders ==> OrderOk(db, o, db.orders[o]);
    }
  }

  /** A transition moves one order within the statuses its cell status stands for. */
  lemma OrderMoveInv(db: Db, oid: nat, o': Order, logs: seq<LogRow>)
    requires Inv(db) && oid in db.orders
    requires o'.cellId == db.orders[oid].cellId
    requires AwaitsParcel(db.orders[oid].status) ==> AwaitsParcel(o'.status)
    requires HasParcel(db.orders[oid].status) ==> HasParcel(o'.status)
    requires !Terminal(db.orders[oid].status)
    ensures Inv(db.(orders := db.orders[oid := o'], logs := logs))
  {
    var db' := db.(orders := db.orders[oid := o'], logs := logs);
    forall id | id in db'.cells ensures CellOk(db', id, db'.cells[id]) {
      assert CellOk(db, id, db.cells[id]);
    }
    forall x | x in db'.orders ensures OrderOk(db', x, db'.orders[x]) {
      assert OrderOk(db, x, db.orders[x]);
    }
  }

  /** A finishing transition ends the order and releases its cell. */
  lemma OrderEndInv(db: Db, oid: nat, o': Order, logs: seq<LogRow>)
    requires Inv(db) && oid in db.orders && !Terminal(db.orders[oid].status)
    requires o'.cellId == db.orders[oid].cellId && Terminal(o'.status)
    ensures Inv(db.(orders := db.orders[oid := o'],
                    cells := ReleaseCell(db.cells, o'.cellId, oid), logs := logs))
  {
    var db' := db.(orders := db.orders[oid := o'], cells := ReleaseCell(db.cells, o'.cellId, oid), logs := logs);
    assert OrderOk(db, oid, db.orders[oid]);
    forall id | id in db'.cells ensures CellOk(db', id, db'.cells[id]) {
      assert CellOk(db, id, db.cells[id]);
    }
    forall x | x in db'.orders ensures OrderOk(db', x, db'.orders[x]) {
      assert OrderOk(db, x, db.orders[x]);
    }
  }

  lemma DepositInv(db: Db, oid: nat, now: int)
    requires Inv(db)
    ensures Inv(OrderTx.OpenDepositDoor(db, oid, now).0)
  {
    var db' := OrderTx.OpenDepositDoor(db, oid, now).0;
    if db' != db {
      assert OrderOk(db, oid, db.orders[oid]);
      forall id | id in db'.cells ensures CellOk(db', id, db'.cells[id]) {
        assert CellOk(db, id, db.cells[id]);
      }
      forall x | x in db'.orders ensures OrderOk(db', x, db'.orders[x]) {
        assert OrderOk(db, x, db.orders[x]);
      }
    }
  }

  lemma TransitionsInv(db: Db, oid: nat, now: int, args: nat)
    requires Inv(db)
    ensures Inv(OrderTx.CancelOrder(db, oid, now).0)
    ensures Inv(OrderTx.ConfirmPayment(db, oid, now).0)
    ensures Inv(OrderTx.OpenPickupDoor(db, oid, now, args).0)
    ensures Inv(OrderTx.SettleOverdue(db, oid, now).0)
  {
    if oid in db.orders {
      var o := db.orders[oid];
      var cancelled := OrderTx.CancelOrder(db, oid, now).0;
      if o.status == PendingPayment {
        OrderEndInv(db, oid, cancelled.orders[oid], cancelled.logs);
        var paid := OrderTx.ConfirmPayment(db, oid, now).0;
        OrderMoveInv(db, oid, paid.orders[oid], paid.logs);
      }
      var picked := OrderTx.OpenPickupDoor(db, oid, now, args).0;
      if picked != db {
        OrderEndInv(db, oid, picked.orders[oid], picked.logs);
      }
      var settled := OrderTx.SettleOverdue(db, oid, now).0;
      if o.status == Overdue {
        OrderMoveInv(db, oid, settled.orders[oid], settled.logs);
      }
    }
  }

  lemma MarkOverdueInv(db: Db, oid: nat, feeFen: int, now: int)
    requires Inv(db)
    ensures Inv(OrderTx.MarkOverdue(db, oid, feeFen, now))
  {
    if oid in db.orders && db.orders[oid].status == InStorage {
      var db' := OrderTx.MarkOverdue(db, oid, feeFen, now);
      OrderMoveInv(db, oid, db'.orders[oid], db'.logs);
    }
  }

  /** The cell UPDATEs whose affected-row count nobody checks hit exactly the order's own cell. */
  lemma UncheckedUpdateHitsOneRow(db: Db, oid: nat)
    requires Inv(db) && oid in db.orders && !Terminal(db.orders[oid].status)
    ensures (set id | id in db.cells && db.cells[id].orderId == Some(oid)) == {db.orders[oid].cellId}
    ensures CellUpdateHits(db.cells, db.orders[oid].cellId, oid)
  {
    assert OrderOk(db, oid, db.orders[oid]);
    forall id | id in db.cells && db.cells[id].orderId == Some(oid) ensures id == db.orders[oid].cellId {
      assert CellOk(db, id, db.cells[id]);
    }
  }

  function WithStatus(cells: map<nat, Cell>, s: CellStatus): set<nat> {
    set id | id in cells && cells[id].status == s && cells[id].orderId.None?
  }

  function OrderHeld(cells: map<nat, Cell>): set<nat> {
    set id | id in cells && cells[id].orderId.Some?
  }

  function OpenOrders(db: Db): set<nat> {
    set oid | oid in db.orders && !Terminal(db.orders[oid].status)
  }

  /** current_order_id and cell_id are inverse bijections between order-held cells and open orders. */
  lemma OrdersAndCellsMatch(db: Db)
    requires Inv(db)
    ensures forall id :: id in OrderHeld(db.cells) ==>
              db.cells[id].orderId.value in OpenOrders(db) && db.orders[db.cells[id].orderId.value].cellId == id
    ensures forall oid :: oid in OpenOrders(db) ==>
              db.orders[oid].cellId in OrderHeld(db.cells) && db.cells[db.orders[oid].cellId].orderId == Some(oid)
    ensures |OrderHeld(db.cells)| == |OpenOrders(db)|
  {
    var held, open := OrderHeld(db.cells), OpenOrders(db);
    forall id | id in held
      ensures db.cells[id].orderId.value in open && db.orders[db.cells[id].orderId.value].cellId == id
    {
      assert CellOk(db, id, db.cells[id]);
    }
    forall oid | oid in open
      ensures db.orders[oid].cellId in held && db.cells[db.orders[oid].cellId].orderId == Some(oid)
    {
      assert OrderOk(db, oid, db.orders[oid]);
    }
    var f := map oid | oid in open :: db.orders[oid].cellId;
    forall id | id in held ensures exists oid :: oid in open && f[oid] == id {
      assert db.cells[id].orderId.value in open;
    }
    BijectionSize(open, held, f);
  }

  lemma PartitionSize(all: set<nat>, a: set<nat>, b: set<nat>, c: set<nat>, d: set<nat>)
    requires forall x :: x in all <==> x in a || x in b || x in c || x in d
    requires a !! b !! c !! d
    ensures |all| == |a| + |b| + |c| + |d|
  {
    assert all == a + b + c + d;
  }

  lemma EveryCellIsCounted(db: Db, id: nat)
    requires Inv(db)
    ensures id in db.cells.Keys <==>
              || id in WithStatus(db.cells, Idle) || id in WithStatus(db.cells, Locked)
              || id in OrderHeld(db.cells) || id in WithStatus(db.cells, Disabled)
  {
    if id in db.cells {
      assert CellOk(db, id, db.cells[id]);
    }
  }

  lemma KindsAreDisjoint(cells: map<nat, Cell>)
    ensures WithStatus(cells, Idle) !! WithStatus(cells, Locked) !! OrderHeld(cells) !! WithStatus(cells, Disabled)
  {
  }

  /** No cell is lost: idle + reserved + open orders + disabled = all cells. */
  lemma CellsAreConserved(db: Db)
    requires Inv(db)
    ensures |WithStatus(db.cells, Idle)| + |WithStatus(db.cells, Locked)| + |OpenOrders(db)|
            + |WithStatus(db.cells, Disabled)| == |db.cells.Keys|
  {
    assert |OrderHeld(db.cells)| == |OpenOrders(db)| by {
      OrdersAndCellsMatch(db);
    }
    KindsAreDisjoint(db.cells);
    forall id
      ensures id in db.cells.Keys <==>
                || id in WithStatus(db.cells, Idle) || id in WithStatus(db.cells, Locked)
                || id in OrderHeld(db.cells) || id in WithStatus(db.cells, Disabled)
    {
      EveryCellIsCounted(db, id);
    }
    PartitionSize(db.cells.Keys, WithStatus(db.cells, Idle), WithStatus(db.cells, Locked), OrderHeld(db.cells),
                  WithStatus(db.cells, Disabled));
  }
}
