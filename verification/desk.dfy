/** The buttons the UI offers for a status against what the server accepts, and whether every order can be
    brought to an end. */
module Desk {
  import opened Schema
  import opened Fees
  import opened Runs
  import O = OrderTx
  import W = Ownership
  import L = LeaseTheorems
  import B = Ledger

  datatype Button = PayNow | CancelNow | DepositDoor | PickupDoor | SettleFee | ContactSupport

  function StatusActions(s: OrderStatus): seq<Button> {
    match s
    case PendingPayment => [PayNow, CancelNow]
    case Paid => []
    case AwaitingDeposit => [DepositDoor]
    case InStorage => [PickupDoor]
    case AwaitingPickup => [PickupDoor]
    case Overdue => [SettleFee]
    case Completed => []
    case Cancelled => []
  }

  function OfferedActions(s: OrderStatus): seq<Button> {
    StatusActions(s) + [ContactSupport]
  }

  /** The use case behind a button, run at one instant with a door that opens and a mark that works. Contacting
      support does not reach the server. */
  function Handle(db: Db, oid: nat, b: Button, now: int, args: nat): (Db, Result<Order>) {
    if oid == 0 then (db, Err(InvalidOrderId))
    else
      match b
      case PayNow => O.ConfirmPayment(db, oid, now)
      case CancelNow => O.CancelOrder(db, oid, now)
      case DepositDoor =>
        if oid !in db.orders then (db, Err(OrderNotFound))
        else if db.orders[oid].status != AwaitingDeposit then (db, Err(StateConflict))
        else O.OpenDepositDoor(db, oid, now)
      case PickupDoor =>
        if oid !in db.orders then (db, Err(OrderNotFound))
        else if db.orders[oid].status != InStorage && db.orders[oid].status != AwaitingPickup
        then (db, Err(StateConflict))
        else O.OpenPickupDoor(db, oid, now, args)
      case SettleFee =>
        if oid !in db.orders then (db, Err(OrderNotFound))
        else O.SettleOverdue(O.GetOrder(db, oid, now).0, oid, now)
      case ContactSupport => (db, Err(StateConflict))
  }

  predicate DevelopmentOnly(b: Button) { b == PayNow || b == SettleFee }

  /** The service in front of it closes two of the requests outside development. */
  function Serve(db: Db, oid: nat, b: Button, now: int, setup: Setup): (Db, Result<Order>) {
    if DevelopmentOnly(b) && !setup.development then (db, Err(Forbidden))
    else Handle(db, oid, b, now, setup.pickupArgs)
  }

  ghost predicate ButtonsMatch(db: Db, oid: nat, shown: OrderStatus, now: int, setup: Setup) {
    forall b :: b != ContactSupport ==> (b in OfferedActions(shown) <==> Serve(db, oid, b, now, setup).1.Ok?)
  }

  /** For the status a read returns, the buttons offered are exactly the requests the server accepts at that
      moment, if and only if the offered ones pass their gates: the pickup button needs the pickup statement bound
      in full, the payment and settlement buttons a development deployment. */
  lemma ButtonsMatchServer(db: Db, oid: nat, now: int, setup: Setup)
    requires oid in db.orders && oid != 0
    ensures
      var (db', shown) := O.GetOrder(db, oid, now);
      && shown.Ok?
      && (ButtonsMatch(db', oid, shown.value.status, now, setup)
          <==> && (PickupDoor in OfferedActions(shown.value.status) ==> setup.pickupArgs == O.PICKUP_PLACEHOLDERS)
               && (shown.value.status == PendingPayment || shown.value.status == Overdue ==> setup.development))
  {
    var (db', shown) := O.GetOrder(db, oid, now);
    var st := shown.value.status;
    assert db'.orders[oid] == shown.value;
    forall b | b != ContactSupport
      ensures Serve(db', oid, b, now, setup).1.Ok?
         <==> && b in OfferedActions(st)
              && (b == PickupDoor ==> setup.pickupArgs == O.PICKUP_PLACEHOLDERS)
              && (DevelopmentOnly(b) ==> setup.development)
    {
      ServedIff(db', oid, b, now, setup);
    }
    assert st == PendingPayment ==> PayNow in OfferedActions(st);
    assert st == Overdue ==> SettleFee in OfferedActions(st);
  }

  /** When a request for an order that is not late succeeds. */
  lemma ServedIff(db: Db, oid: nat, b: Button, now: int, setup: Setup)
    requires oid in db.orders && oid != 0 && b != ContactSupport && !O.IsLate(db.orders[oid], now)
    ensures Serve(db, oid, b, now, setup).1.Ok?
       <==> && b in OfferedActions(db.orders[oid].status)
            && (b == PickupDoor ==> setup.pickupArgs == O.PICKUP_PLACEHOLDERS)
            && (DevelopmentOnly(b) ==> setup.development)
  {
  }

  /** The settlement of an order that is late but not yet marked marks it first, and settles it in the same request. */
  lemma LateOrderIsSettledAtOnce(db: Db, oid: nat, now: int, setup: Setup)
    requires oid in db.orders && oid != 0 && setup.development
    requires db.orders[oid].status == InStorage && db.orders[oid].expiresAt.Some?
    requires db.orders[oid].expiresAt.value < now
    ensures
      var (db', r) := Serve(db, oid, SettleFee, now, setup);
      && r == Ok(db.orders[oid].(status := AwaitingPickup, overdueFen := 0))
      && db'.orders == db.orders[oid := r.value]
      && db'.logs == db.logs + [LogRow(oid, Some(InStorage), Overdue, "OVERDUE_LAZY", "system", now)]
                             + [LogRow(oid, Some(Overdue), AwaitingPickup, "SETTLE_OVERDUE", "dev-overdue", now)]
  {
  }

  /** With the two arguments the code binds, the pickup button is offered and refused. */
  lemma PickupButtonIsRefused(db: Db, oid: nat, now: int, setup: Setup)
    requires oid in db.orders && oid != 0
    requires db.orders[oid].status == AwaitingPickup && setup.pickupArgs == O.PICKUP_ARGS_BOUND
    ensures
      var (db', shown) := O.GetOrder(db, oid, now);
      && shown.Ok? && PickupDoor in OfferedActions(shown.value.status)
      && Serve(db', oid, PickupDoor, now, setup) == (db', Err(DataUnavailable))
  {
  }

  /** Every accepted request moves its order strictly down the ranking of statuses, and no other order. */
  lemma AcceptedRequestsMakeProgress(db: Db, oid: nat, b: Button, now: int, setup: Setup)
    requires Serve(db, oid, b, now, setup).1.Ok?
    ensures
      var (db', r) := Serve(db, oid, b, now, setup);
      && oid in db.orders && oid in db'.orders && db'.orders[oid] == r.value
      && B.Rank(r.value.status) < B.Rank(db.orders[oid].status)
      && (forall x :: x in db.orders && x != oid ==> x in db'.orders && db'.orders[x] == db.orders[x])
  {
  }

  // ---- bringing an order to its end ----

  /** A request about this order, or a read of it, at the given clock reading. */
  predicate OwnRequest(a: Action, oid: nat, now: int) {
    match a
    case Cancel(o, t) => o == oid && t == now
    case Pay(o, t) => o == oid && t == now
    case Deposit(o, t) => o == oid && t == now
    case Pickup(o, t) => o == oid && t == now
    case Settle(o, t) => o == oid && t == now
    case LateRead(o, t) => o == oid && t == now
    case LateMark(m, t) => m.orderId == oid && t == now
    case _ => false
  }

  predicate OwnRequests(plan: seq<Action>, oid: nat, now: int) {
    forall i :: 0 <= i < |plan| ==> OwnRequest(plan[i], oid, now)
  }

  /** The order's own requests, at the present clock reading, can end it and leave its cell idle. */
  ghost predicate CanFinish(s: State, oid: nat)
    requires oid in s.db.orders
  {
    exists plan: seq<Action> :: FinishesBy(s, oid, plan)
  }

  ghost predicate FinishesBy(s: State, oid: nat, plan: seq<Action>)
    requires oid in s.db.orders
  {
    var db := Exec(s, plan).db;
    && OwnRequests(plan, oid, s.clock)
    && oid in db.orders && Terminal(db.orders[oid].status)
    && s.db.orders[oid].cellId in db.cells && db.cells[s.db.orders[oid].cellId].status == Idle
  }

  /** Only a settlement can get it further: overdue, or late now, or late as soon as it is deposited because its
      rental time overflows. */
  predicate NeedsSettlement(o: Order, now: int) {
    || o.status == Overdue || O.IsLate(o, now)
    || (o.status == AwaitingDeposit && Deadline(now, o.minutes) < now)
  }

  /** No gate is in the order's way. */
  predicate Unblocked(o: Order, now: int, setup: Setup) {
    || o.status == PendingPayment
    || (setup.pickupArgs == O.PICKUP_PLACEHOLDERS && (NeedsSettlement(o, now) ==> setup.development))
  }

  lemma PrependPlan(s: State, a: Action, plan: seq<Action>)
    ensures Exec(s, [a] + plan) == Exec(Apply(s, a), plan)
  {
    ExecSplit(s, [a], plan);
    assert [a][..0] == [];
    assert Exec(s, [a]) == Apply(Exec(s, []), a);
  }

  /** A request that ends the order frees its cell. */
  lemma FinishAtOnce(s: State, oid: nat, a: Action) returns (plan: seq<Action>)
    requires W.Inv(s.db) && oid in s.db.orders && !Terminal(s.db.orders[oid].status)
    requires a == Cancel(oid, s.clock) || a == Pickup(oid, s.clock)
    requires oid in Apply(s, a).db.orders && Terminal(Apply(s, a).db.orders[oid].status)
    ensures FinishesBy(s, oid, plan) && |plan| == 1
  {
    W.UncheckedUpdateHitsOneRow(s.db, oid);
    plan := [a] + [];
    PrependPlan(s, a, []);
  }

  lemma FinishAfter(s: State, oid: nat, a: Action, rest: seq<Action>) returns (plan: seq<Action>)
    requires oid in s.db.orders && oid in Apply(s, a).db.orders && OwnRequest(a, oid, s.clock)
    requires Apply(s, a).db.orders[oid].cellId == s.db.orders[oid].cellId
    requires FinishesBy(Apply(s, a), oid, rest)
    ensures FinishesBy(s, oid, plan) && |plan| == |rest| + 1
  {
    plan := [a] + rest;
    PrependPlan(s, a, rest);
  }

  /** The order is open in s', with the same cell, further along and unblocked. */
  ghost predicate Advanced(s: State, s': State, oid: nat)
    requires oid in s.db.orders
  {
    && W.Inv(s'.db) && s'.setup == s.setup && s'.clock == s.clock
    && oid in s'.db.orders && !Terminal(s'.db.orders[oid].status)
    && s'.db.orders[oid].cellId == s.db.orders[oid].cellId
    && B.Rank(s'.db.orders[oid].status) < B.Rank(s.db.orders[oid].status)
    && s'.db.orders[oid].status != PendingPayment && Unblocked(s'.db.orders[oid], s.clock, s.setup)
  }

  lemma LateBecomesOverdue(s: State, oid: nat) returns (s1: State, mark: Action)
    requires W.Inv(s.db) && oid in s.db.orders && O.IsLate(s.db.orders[oid], s.clock)
    requires Unblocked(s.db.orders[oid], s.clock, s.setup)
    ensures s1 == Apply(s, LateRead(oid, s.clock)) && s1.db == s.db
    ensures OwnRequest(mark, oid, s.clock) && Advanced(s, Apply(s1, mark), oid)
    ensures Apply(s1, mark).db.orders[oid].status == Overdue
  {
    hide W.Inv, OverdueFeeFen;
    var o, t := s.db.orders[oid], s.clock;
    s1 := Apply(s, LateRead(oid, t));
    mark := LateMark(PendingMark(oid, OverdueFeeFen(o.size, o.expiresAt.value, t), t), t);
    L.StepInv(s, LateRead(oid, t));
    L.StepInv(s1, mark);
  }

  lemma RequestAdvances(s: State, oid: nat) returns (a: Action)
    requires W.Inv(s.db) && oid in s.db.orders && Unblocked(s.db.orders[oid], s.clock, s.setup)
    requires s.db.orders[oid].status == AwaitingDeposit || s.db.orders[oid].status == Overdue
    ensures OwnRequest(a, oid, s.clock) && Advanced(s, Apply(s, a), oid)
    ensures Apply(s, a).db.orders[oid].status
         == if s.db.orders[oid].status == Overdue then AwaitingPickup else InStorage
  {
    hide W.Inv, Deadline;
    a := if s.db.orders[oid].status == AwaitingDeposit then Deposit(oid, s.clock) else Settle(oid, s.clock);
    L.StepInv(s, a);
  }

  /** Requests and reads an unblocked order may still need. */
  function Needed(st: OrderStatus): nat {
    match st
    case AwaitingDeposit => 5
    case InStorage => 4
    case Overdue => 2
    case _ => 1
  }

  /** An unblocked order is ended by at most five requests and reads of its own, all at the present reading. */
  lemma {:induction false} Finish(s: State, oid: nat) returns (plan: seq<Action>)
    requires W.Inv(s.db) && oid in s.db.orders && !Terminal(s.db.orders[oid].status)
    requires Unblocked(s.db.orders[oid], s.clock, s.setup)
    ensures FinishesBy(s, oid, plan) && OwnRequests(plan, oid, s.clock)
    ensures |plan| <= Needed(s.db.orders[oid].status) <= 5
    decreases B.Rank(s.db.orders[oid].status)
  {
    hide W.Inv, FinishesBy, Deadline;
    var o, t := s.db.orders[oid], s.clock;
    PaidIsNotStored(s.db, oid);
    if o.status == PendingPayment {
      plan := FinishAtOnce(s, oid, Cancel(oid, t));
    } else if O.IsLate(o, t) {
      var s1, mark := LateBecomesOverdue(s, oid);
      var rest := Finish(Apply(s1, mark), oid);
      rest := FinishAfter(s1, oid, mark, rest);
      plan := FinishAfter(s, oid, LateRead(oid, t), rest);
    } else if o.status == InStorage || o.status == AwaitingPickup {
      plan := FinishAtOnce(s, oid, Pickup(oid, t));
    } else {
      var a := RequestAdvances(s, oid);
      var rest := Finish(Apply(s, a), oid);
      plan := FinishAfter(s, oid, a, rest);
    }
    Own(s, oid, plan);
  }

  lemma Own(s: State, oid: nat, plan: seq<Action>)
    requires oid in s.db.orders && FinishesBy(s, oid, plan)
    ensures OwnRequests(plan, oid, s.clock)
  {
  }

  lemma PaidIsNotStored(db: Db, oid: nat)
    requires W.Inv(db) && oid in db.orders
    ensures db.orders[oid].status != Paid
  {
    assert W.OrderOk(db, oid, db.orders[oid]);
  }

  /** Paid for and not finished. */
  predicate Engaged(st: OrderStatus) { st == AwaitingDeposit || W.HasParcel(st) }

  lemma StepKeepsEngaged(s: State, a: Action, oid: nat)
    requires oid in s.db.orders && Engaged(s.db.orders[oid].status)
    requires s.setup.pickupArgs != O.PICKUP_PLACEHOLDERS
    ensures oid in Apply(s, a).db.orders && Engaged(Apply(s, a).db.orders[oid].status)
    ensures Apply(s, a).db.orders[oid].cellId == s.db.orders[oid].cellId
  {
  }

  /** The cell of an engaged order is the order's, and not idle. */
  lemma EngagedHoldsCell(db: Db, oid: nat)
    requires W.Inv(db) && oid in db.orders && Engaged(db.orders[oid].status)
    ensures db.orders[oid].cellId in db.cells && db.cells[db.orders[oid].cellId].orderId == Some(oid)
    ensures db.cells[db.orders[oid].cellId].status != Idle
  {
    assert W.OrderOk(db, oid, db.orders[oid]);
    assert W.CellOk(db, db.orders[oid].cellId, db.cells[db.orders[oid].cellId]);
  }

  /** While the pickup statement is bound with the wrong number of arguments, a paid order never finishes and
      its cell is never free again, whatever anyone does. */
  lemma {:induction false} EngagedForever(s: State, actions: seq<Action>, oid: nat)
    requires W.Inv(s.db) && oid in s.db.orders && Engaged(s.db.orders[oid].status)
    requires s.setup.pickupArgs != O.PICKUP_PLACEHOLDERS
    ensures
      var db := Exec(s, actions).db;
      && oid in db.orders && Engaged(db.orders[oid].status)
      && db.orders[oid].cellId == s.db.orders[oid].cellId
      && db.orders[oid].cellId in db.cells && db.cells[db.orders[oid].cellId].orderId == Some(oid)
      && db.cells[db.orders[oid].cellId].status != Idle
  {
    L.OwnershipAlways(s, actions);
    if actions == [] {
    } else {
      EngagedForever(s, actions[..|actions| - 1], oid);
      ClockIsMonotone(s, actions[..|actions| - 1]);
      StepKeepsEngaged(Exec(s, actions[..|actions| - 1]), actions[|actions| - 1], oid);
    }
    EngagedHoldsCell(Exec(s, actions).db, oid);
  }

  lemma StepStaysClosed(s: State, a: Action)
    requires !s.setup.development && a != Redeploy(true)
    ensures !Apply(s, a).setup.development
  {
  }

  lemma {:induction false} StaysClosed(s: State, actions: seq<Action>)
    requires !s.setup.development && Redeploy(true) !in actions
    ensures !Exec(s, actions).setup.development
  {
    if actions == [] {
    } else {
      StaysClosed(s, actions[..|actions| - 1]);
      StepStaysClosed(Exec(s, actions[..|actions| - 1]), actions[|actions| - 1]);
    }
  }

  lemma StepKeepsOverdue(s: State, a: Action, oid: nat)
    requires oid in s.db.orders && s.db.orders[oid].status == Overdue && !s.setup.development
    ensures oid in Apply(s, a).db.orders && Apply(s, a).db.orders[oid] == s.db.orders[oid]
  {
  }

  /** While the deployment is not a development one, nothing settles an overdue order: it stays as it is and keeps
      its cell, whatever anyone does. */
  lemma {:induction false} OverdueForever(s: State, actions: seq<Action>, oid: nat)
    requires W.Inv(s.db) && oid in s.db.orders && s.db.orders[oid].status == Overdue
    requires !s.setup.development && Redeploy(true) !in actions
    ensures
      var db := Exec(s, actions).db;
      && oid in db.orders && db.orders[oid] == s.db.orders[oid]
      && db.orders[oid].cellId in db.cells && db.cells[db.orders[oid].cellId].orderId == Some(oid)
      && db.cells[db.orders[oid].cellId].status != Idle
  {
    L.OwnershipAlways(s, actions);
    if actions == [] {
    } else {
      OverdueForever(s, actions[..|actions| - 1], oid);
      StaysClosed(s, actions[..|actions| - 1]);
      StepKeepsOverdue(Exec(s, actions[..|actions| - 1]), actions[|actions| - 1], oid);
    }
    EngagedHoldsCell(Exec(s, actions).db, oid);
  }

  /** An overdue order outside development is reached from an installation: deposited in development, read too late,
      then redeployed. Even with the pickup statement bound in full it is blocked. */
  lemma OverdueIsStranded() returns (actions: seq<Action>)
    ensures
      var s := Exec(Installation(), actions);
      && W.Installed(Installation().db)
      && 1 in s.db.orders && s.db.orders[1].status == Overdue && !s.setup.development
      && !Unblocked(s.db.orders[1], s.clock, s.setup.(pickupArgs := O.PICKUP_PLACEHOLDERS))
  {
    var s0, late := Installation(), MINUTE + 1;
    actions := B.DepositedOrder();
    ExecOne(s0, actions, Tick(late));
    actions := actions + [Tick(late)];
    var fee := OverdueFeeFen(Small, MINUTE, late);
    ExecOne(s0, actions, LateRead(1, late));
    actions := actions + [LateRead(1, late)];
    ExecOne(s0, actions, LateMark(PendingMark(1, fee, late), late));
    actions := actions + [LateMark(PendingMark(1, fee, late), late)];
    ExecOne(s0, actions, Redeploy(false));
    actions := actions + [Redeploy(false)];
  }

  ghost predicate NothingPaid(db: Db) {
    forall oid :: oid in db.orders ==> db.orders[oid].status == PendingPayment || db.orders[oid].status == Cancelled
  }

  lemma StepPaysNothing(s: State, a: Action)
    requires NothingPaid(s.db) && !s.setup.development
    ensures NothingPaid(Apply(s, a).db)
  {
    hide RentFen, OverdueFeeFen, Deadline;
  }

  /** A system that is never a development one is never paid: every order ever is unpaid or cancelled, and no cell
      is ever occupied. */
  lemma {:induction false} NothingIsPaid(s: State, actions: seq<Action>)
    requires W.Installed(s.db) && !s.setup.development && Redeploy(true) !in actions
    ensures NothingPaid(Exec(s, actions).db)
    ensures forall id :: id in Exec(s, actions).db.cells ==> Exec(s, actions).db.cells[id].status != Occupied
  {
    if actions == [] {
    } else {
      NothingIsPaid(s, actions[..|actions| - 1]);
      StaysClosed(s, actions[..|actions| - 1]);
      StepPaysNothing(Exec(s, actions[..|actions| - 1]), actions[|actions| - 1]);
    }
    W.InstalledInv(s.db);
    L.OwnershipAlways(s, actions);
    var db := Exec(s, actions).db;
    forall id | id in db.cells ensures db.cells[id].status != Occupied {
      assert W.CellOk(db, id, db.cells[id]);
    }
  }

  predicate Blocked(s: State, oid: nat) {
    && oid in s.db.orders && Engaged(s.db.orders[oid].status)
    && !Unblocked(s.db.orders[oid], s.clock, s.setup)
  }

  lemma StepKeepsBlocked(s: State, a: Action, oid: nat)
    requires Blocked(s, oid) && OwnRequest(a, oid, s.clock)
    ensures Blocked(Apply(s, a), oid) && Apply(s, a).clock == s.clock
  {
    hide Deadline, OverdueFeeFen;
  }

  /** No sequence of its own requests ends a blocked order. */
  lemma {:induction false} BlockedStays(s: State, plan: seq<Action>, oid: nat)
    requires Blocked(s, oid) && OwnRequests(plan, oid, s.clock)
    ensures Blocked(Exec(s, plan), oid) && Exec(s, plan).clock == s.clock
  {
    if plan == [] {
    } else {
      BlockedStays(s, plan[..|plan| - 1], oid);
      StepKeepsBlocked(Exec(s, plan[..|plan| - 1]), plan[|plan| - 1], oid);
    }
  }

  /** No order is stuck exactly when no gate is in its way: it is unpaid, or the pickup statement is bound in full
      and it needs no settlement or may be settled. */
  lemma OrdersCanFinish(s: State, oid: nat)
    requires W.Inv(s.db) && oid in s.db.orders && !Terminal(s.db.orders[oid].status)
    ensures CanFinish(s, oid) <==> Unblocked(s.db.orders[oid], s.clock, s.setup)
  {
    PaidIsNotStored(s.db, oid);
    if Unblocked(s.db.orders[oid], s.clock, s.setup) {
      var plan := Finish(s, oid);
      assert FinishesBy(s, oid, plan);
    } else {
      forall plan: seq<Action> ensures !FinishesBy(s, oid, plan) {
        if OwnRequests(plan, oid, s.clock) { BlockedStays(s, plan, oid); }
      }
    }
  }

  /** With the arguments the code binds, no run from a fresh installation ever completes an order. */
  lemma {:induction false} NothingCompletes(s: State, actions: seq<Action>, oid: nat)
    requires W.Installed(s.db) && s.setup.pickupArgs == O.PICKUP_ARGS_BOUND
    ensures oid in Exec(s, actions).db.orders ==> Exec(s, actions).db.orders[oid].status != Completed
  {
    if actions == [] {
    } else {
      var before, last := actions[..|actions| - 1], actions[|actions| - 1];
      NothingCompletes(s, before, oid);
      ClockIsMonotone(s, before);
      StepCompletesNothing(Exec(s, before), last, oid);
    }
  }

  lemma StepCompletesNothing(s: State, a: Action, oid: nat)
    requires s.setup.pickupArgs != O.PICKUP_PLACEHOLDERS
    requires oid in s.db.orders ==> s.db.orders[oid].status != Completed
    ensures oid in Apply(s, a).db.orders ==> Apply(s, a).db.orders[oid].status != Completed
  {
  }
}
