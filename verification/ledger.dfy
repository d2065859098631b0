/** What each order's row and status log say in every reachable state: the log is the history, money is
    accounted for, and no late parcel leaves unsettled. */
module Ledger {
  import opened Schema
  import opened Fees
  import opened Runs
  import C = CellTx
  import O = OrderTx
  import W = Ownership
  import L = LeaseTheorems

  /** The rows start with the creation and each later one follows on from the row before by a declared edge. */
  ghost predicate Chain(h: seq<LogRow>) {
    && |h| > 0
    && h[0].from == None && h[0].to == PendingPayment
    && forall i :: 0 < i < |h| ==> h[i].from == Some(h[i - 1].to) && O.CanTransition(h[i - 1].to, h[i].to)
  }

  predicate Deposited(s: OrderStatus) { W.HasParcel(s) || s == Completed }

  /** Charged for some moment after the deadline and no later than the mark at `markedAt`. */
  ghost predicate FeeCharged(o: Order, markedAt: int)
    requires o.expiresAt.Some?
  {
    exists t :: o.expiresAt.value < t <= markedAt && o.overdueFen == OverdueFeeFen(o.size, o.expiresAt.value, t)
  }

  ghost predicate MoneyOk(o: Order, lastAt: int) {
    && Int32(o.minutes) && o.minutes > 0
    && o.rentFen == RentFen(o.size, o.minutes) && o.depositFen == 0 && o.discountFen == 0
    && o.totalFen == o.rentFen + o.depositFen - o.discountFen
    && (if o.status == Overdue then o.expiresAt.Some? && FeeCharged(o, lastAt) else o.overdueFen == 0)
  }

  predicate TimesOk(o: Order) {
    && o.depositedAt.Some? == o.expiresAt.Some? == Deposited(o.status)
    && (o.depositedAt.Some? ==> o.expiresAt == Some(Deadline(o.depositedAt.value, o.minutes)))
    && o.completedAt.Some? == (o.status == Completed)
    && o.paidAt.Some? == (Deposited(o.status) || o.status == AwaitingDeposit)
  }

  /** The order's own time stamps are those of the log rows that entered the statuses. */
  ghost predicate StampsOk(o: Order, h: seq<LogRow>) {
    forall i :: 0 <= i < |h| ==>
      match h[i].to
      case PendingPayment => h[i].at == o.createdAt
      case Paid => o.paidAt == Some(h[i].at)
      case AwaitingDeposit => o.paidAt == Some(h[i].at)
      case InStorage => o.depositedAt == Some(h[i].at)
      case Completed => o.completedAt == Some(h[i].at)
      case _ => true
  }

  /** The row that finished the order; a pickup straight from storage was not late. */
  predicate FinishOk(o: Order, last: LogRow) {
    (o.status == Completed && o.completedAt.Some? && o.expiresAt.Some? && last.from == Some(InStorage))
      ==> o.completedAt.value <= o.expiresAt.value
  }

  ghost predicate OverdueRowsLate(o: Order, h: seq<LogRow>) {
    forall i :: 0 <= i < |h| && h[i].to == Overdue ==> o.expiresAt.Some? && h[i].at > o.expiresAt.value
  }

  ghost predicate OrderBooks(o: Order, h: seq<LogRow>) {
    && Chain(h) && h[|h| - 1].to == o.status
    && MoneyOk(o, h[|h| - 1].at) && TimesOk(o)
    && FinishOk(o, h[|h| - 1])
    && OverdueRowsLate(o, h)
    && StampsOk(o, h)
  }

  ghost predicate MarkOk(s: State, m: PendingMark) {
    && m.orderId in s.db.orders
    && var o := s.db.orders[m.orderId];
    && o.expiresAt.Some? && o.expiresAt.value < m.readAt <= s.clock
    && m.feeFen == OverdueFeeFen(o.size, o.expiresAt.value, m.readAt)
  }

  ghost predicate BookAt(s: State, x: nat) {
    if x in s.db.orders then OrderBooks(s.db.orders[x], History(s.db.logs, x))
    else History(s.db.logs, x) == []
  }

  ghost predicate Books(s: State) {
    && (forall oid: nat :: BookAt(s, oid))
    && (forall m :: m in s.pending ==> MarkOk(s, m))
  }

  /** One order is written and rows about it are appended. */
  ghost predicate Moves(s: State, s': State, oid: nat, rows: seq<LogRow>) {
    && s.clock <= s'.clock && s'.pending <= s.pending
    && oid in s'.db.orders && s'.db.orders == s.db.orders[oid := s'.db.orders[oid]]
    && 1 <= |rows| <= 2 && (forall i :: 0 <= i < |rows| ==> rows[i].orderId == oid)
    && s'.db.logs == s.db.logs + rows
    && (oid in s.db.orders && s.db.orders[oid].expiresAt.Some? ==>
          && s'.db.orders[oid].expiresAt == s.db.orders[oid].expiresAt
          && s'.db.orders[oid].size == s.db.orders[oid].size)
  }

  /** Such a move leaves every other order's books as they were. */
  lemma BookMove(s: State, s': State, oid: nat, rows: seq<LogRow>, x: nat)
    requires BookAt(s, x) && Moves(s, s', oid, rows)
    requires OrderBooks(s'.db.orders[oid], History(s.db.logs, oid) + rows)
    ensures BookAt(s', x)
  {
    AppendRows(s.db.logs, rows, oid, x);
  }

  lemma BooksMove(s: State, s': State, oid: nat, rows: seq<LogRow>)
    requires Books(s) && Moves(s, s', oid, rows)
    requires OrderBooks(s'.db.orders[oid], History(s.db.logs, oid) + rows)
    ensures Books(s')
  {
    forall x: nat ensures BookAt(s', x) {
      assert BookAt(s, x);
      BookMove(s, s', oid, rows, x);
    }
    MarksMove(s, s', oid, rows);
  }

  lemma MarksMove(s: State, s': State, oid: nat, rows: seq<LogRow>)
    requires Books(s) && Moves(s, s', oid, rows)
    ensures forall m :: m in s'.pending ==> MarkOk(s', m)
  {
    forall m | m in s'.pending ensures MarkOk(s', m) {
      assert MarkOk(s, m);
    }
  }

  lemma AppendRows(logs: seq<LogRow>, rows: seq<LogRow>, oid: nat, x: nat)
    requires 1 <= |rows| <= 2 && (forall i :: 0 <= i < |rows| ==> rows[i].orderId == oid)
    ensures History(logs + rows, x) == History(logs, x) + if x == oid then rows else []
  {
    HistoryAppend(logs, rows[0], x);
    if |rows| == 1 {
      assert rows == [rows[0]];
    } else {
      HistoryAppend(logs + [rows[0]], rows[1], x);
      assert logs + rows == logs + [rows[0]] + [rows[1]];
      assert rows == [rows[0]] + [rows[1]];
    }
  }

  /** Steps that touch neither orders nor log. */
  lemma BooksStay(s: State, s': State)
    requires Books(s) && s.clock <= s'.clock && s'.pending <= s.pending
    requires s'.db.orders == s.db.orders && s'.db.logs == s.db.logs
    ensures Books(s')
  {
    forall x: nat ensures BookAt(s', x) {
      assert BookAt(s, x);
    }
    forall m | m in s'.pending ensures MarkOk(s', m) {
      assert MarkOk(s, m);
    }
  }

  lemma CreateBooks(s: State, oid: nat, siteId: nat, size: Size, minutes: int, t: int, skip: set<nat>)
    requires Books(s) && oid !in s.db.orders && Int32(minutes)
    ensures Books(s.(db := O.CreateOrder(s.db, oid, siteId, size, minutes, t, skip).0))
  {
    assert BookAt(s, oid);
    var s' := s.(db := O.CreateOrder(s.db, oid, siteId, size, minutes, t, skip).0);
    if s'.db == s.db {
      BooksStay(s, s');
    } else {
      var row := LogRow(oid, None, PendingPayment, "CREATE", "system", t);
      assert History(s.db.logs, oid) + [row] == [row];
      BooksMove(s, s', oid, [row]);
    }
  }

  lemma PayBooks(s: State, oid: nat, t: int)
    requires Books(s)
    ensures Books(s.(db := O.ConfirmPayment(s.db, oid, t).0))
  {
    assert BookAt(s, oid);
    var s' := s.(db := O.ConfirmPayment(s.db, oid, t).0);
    if O.ConfirmPayment(s.db, oid, t).1.Err? {
      BooksStay(s, s');
    } else {
      var rows := [LogRow(oid, Some(PendingPayment), Paid, "DEV_PAYMENT", "dev-payment", t),
                   LogRow(oid, Some(Paid), AwaitingDeposit, "DEV_PAYMENT", "dev-payment", t)];
      assert s'.db.logs == s.db.logs + rows;
      BooksMove(s, s', oid, rows);
    }
  }

  lemma CancelBooks(s: State, oid: nat, t: int)
    requires Books(s)
    ensures Books(s.(db := O.CancelOrder(s.db, oid, t).0))
  {
    assert BookAt(s, oid);
    var s' := s.(db := O.CancelOrder(s.db, oid, t).0);
    if O.CancelOrder(s.db, oid, t).1.Err? {
      BooksStay(s, s');
    } else {
      BooksMove(s, s', oid, [LogRow(oid, Some(PendingPayment), Cancelled, "CANCEL", "user", t)]);
    }
  }

  lemma DepositBooks(s: State, oid: nat, t: int)
    requires Books(s)
    ensures Books(s.(db := O.OpenDepositDoor(s.db, oid, t).0))
  {
    assert BookAt(s, oid);
    var s' := s.(db := O.OpenDepositDoor(s.db, oid, t).0);
    if O.OpenDepositDoor(s.db, oid, t).1.Err? {
      BooksStay(s, s');
    } else {
      var row := LogRow(oid, Some(AwaitingDeposit), InStorage, "DEPOSIT", "user", t);
      BooksMove(s, s', oid, [row]);
    }
  }

  lemma PickupBooks(s: State, oid: nat, t: int)
    requires Books(s)
    ensures Books(s.(db := O.OpenPickupDoor(s.db, oid, t, s.setup.pickupArgs).0))
  {
    assert BookAt(s, oid);
    var s' := s.(db := O.OpenPickupDoor(s.db, oid, t, s.setup.pickupArgs).0);
    if O.OpenPickupDoor(s.db, oid, t, s.setup.pickupArgs).1.Err? {
      BooksStay(s, s');
    } else {
      BooksMove(s, s', oid, [LogRow(oid, Some(s.db.orders[oid].status), Completed, "PICKUP", "user", t)]);
    }
  }

  lemma SettleBooks(s: State, oid: nat, t: int)
    requires Books(s)
    ensures Books(s.(db := O.SettleOverdue(s.db, oid, t).0))
  {
    assert BookAt(s, oid);
    var s' := s.(db := O.SettleOverdue(s.db, oid, t).0);
    if O.SettleOverdue(s.db, oid, t).1.Err? {
      BooksStay(s, s');
    } else {
      BooksMove(s, s', oid, [LogRow(oid, Some(Overdue), AwaitingPickup, "SETTLE_OVERDUE", "dev-overdue", t)]);
    }
  }

  lemma LateReadBooks(s: State, oid: nat, t: int)
    requires Books(s) && Past(s, t)
    ensures Books(LateReadOf(s, oid, t))
  {
    assert BookAt(s, oid);
    var s' := LateReadOf(s, oid, t);
    forall x: nat ensures BookAt(s', x) {
      assert BookAt(s, x);
    }
    forall m | m in s'.pending ensures MarkOk(s', m) {
      if m in s.pending { assert MarkOk(s, m); }
    }
  }

  /** The mark written to an order that a read found late. */
  lemma MarkedBooks(o: Order, h: seq<LogRow>, row: LogRow, feeFen: int, readAt: int)
    requires OrderBooks(o, h) && o.status == InStorage && o.expiresAt.Some?
    requires o.expiresAt.value < readAt <= row.at
    requires feeFen == OverdueFeeFen(o.size, o.expiresAt.value, readAt)
    requires row.from == Some(InStorage) && row.to == Overdue
    ensures OrderBooks(o.(status := Overdue, overdueFen := feeFen), h + [row])
  {
    var o' := o.(status := Overdue, overdueFen := feeFen);
    assert o'.expiresAt.value < readAt <= row.at && o'.overdueFen == OverdueFeeFen(o'.size, o'.expiresAt.value, readAt);
    assert FeeCharged(o', row.at);
  }

  lemma LateMarkBooks(s: State, m: PendingMark, t: int)
    requires Books(s) && m in s.pending && m.readAt <= t && Past(s, t)
    ensures Books(s.(db := O.MarkOverdue(s.db, m.orderId, m.feeFen, t), pending := s.pending - {m}))
  {
    assert BookAt(s, m.orderId);
    var s' := s.(db := O.MarkOverdue(s.db, m.orderId, m.feeFen, t), pending := s.pending - {m});
    assert MarkOk(s, m);
    if s.db.orders[m.orderId].status != InStorage {
      BooksStay(s, s');
    } else {
      var row := LogRow(m.orderId, Some(InStorage), Overdue, "OVERDUE_LAZY", "system", t);
      MarkedBooks(s.db.orders[m.orderId], History(s.db.logs, m.orderId), row, m.feeFen, m.readAt);
      BooksMove(s, s', m.orderId, [row]);
    }
  }

  predicate OrderAction(a: Action) {
    a.Create? || a.Cancel? || a.Pay? || a.Deposit? || a.Pickup? || a.Settle? || a.LateRead? || a.LateMark?
  }

  lemma LockerActionsWriteNoOrders(s: State, a: Action)
    requires !OrderAction(a)
    ensures
      var s' := Apply(s, a);
      s.clock <= s'.clock && s'.pending == s.pending && s'.db.orders == s.db.orders && s'.db.logs == s.db.logs
  {
    hide C.Candidates, C.FindReservation, C.LapsedCells;
  }

  lemma OrderActionBooks(s: State, a: Action)
    requires Books(s) && OrderAction(a)
    ensures Books(Apply(s, a))
  {
    hide Books;
    match a
    case Create(oid, siteId, size, minutes, t, skip) =>
      if Past(s, t) && oid !in s.db.orders && Int32(minutes) {
        CreateBooks(s, oid, siteId, size, minutes, t, skip);
      }
    case Cancel(oid, t) => CancelBooks(s, oid, t);
    case Pay(oid, t) => PayBooks(s, oid, t);
    case Deposit(oid, t) => DepositBooks(s, oid, t);
    case Pickup(oid, t) => PickupBooks(s, oid, t);
    case Settle(oid, t) => SettleBooks(s, oid, t);
    case LateRead(oid, t) => if Past(s, t) { LateReadBooks(s, oid, t); }
    case LateMark(m, t) =>
      if m in s.pending && m.readAt <= t && Past(s, t) { LateMarkBooks(s, m, t); }
  }

  lemma StepBooks(s: State, a: Action)
    requires Books(s)
    ensures Books(Apply(s, a))
  {
    if OrderAction(a) {
      OrderActionBooks(s, a);
    } else {
      LockerActionsWriteNoOrders(s, a);
      BooksStay(s, Apply(s, a));
    }
  }

  /** A run that starts on a fresh installation. */
  ghost predicate Fresh(s: State) {
    W.Installed(s.db) && s.pending == {}
  }

  lemma {:induction false} BooksAlways(s: State, actions: seq<Action>)
    requires Fresh(s)
    ensures Books(Exec(s, actions))
  {
    if actions == [] {
      assert forall oid :: History(s.db.logs, oid) == [];
    } else {
      BooksAlways(s, actions[..|actions| - 1]);
      StepBooks(Exec(s, actions[..|actions| - 1]), actions[|actions| - 1]);
    }
  }

  /** How many declared edges can still follow a status. */
  function Rank(s: OrderStatus): nat {
    match s
    case PendingPayment => 6
    case Paid => 5
    case AwaitingDeposit => 4
    case InStorage => 3
    case Overdue => 2
    case AwaitingPickup => 1
    case Completed => 0
    case Cancelled => 0
  }

  lemma {:induction false} ChainIsShort(h: seq<LogRow>)
    requires Chain(h)
    ensures |h| + Rank(h[|h| - 1].to) <= 7
  {
    if |h| == 1 {
    } else {
      ChainIsShort(h[..|h| - 1]);
    }
  }

  /** The log is the history. In every state of every run an order's rows form a chain of declared edges from
      its creation to its stored status, at most seven of them, stamped with the times the order itself records;
      PAID is passed through and never stored. */
  lemma LogIsTheHistory(s: State, actions: seq<Action>, oid: nat)
    requires Fresh(s) && oid in Exec(s, actions).db.orders
    ensures
      var db := Exec(s, actions).db;
      var h := History(db.logs, oid);
      && Chain(h) && h[|h| - 1].to == db.orders[oid].status
      && |h| <= 7
      && db.orders[oid].status != Paid
      && StampsOk(db.orders[oid], h)
      && (Deposited(db.orders[oid].status) ==> exists i :: 0 < i < |h| && h[i].to == Paid)
  {
    BooksAlways(s, actions);
    assert BookAt(Exec(s, actions), oid);
    W.InstalledInv(s.db);
    L.OwnershipAlways(s, actions);
    var db := Exec(s, actions).db;
    var h := History(db.logs, oid);
    assert W.OrderOk(db, oid, db.orders[oid]);
    ChainIsShort(h);
    if Deposited(db.orders[oid].status) {
      PaidInside(h);
    }
  }

  /** Nothing is deposited without a payment in the log. */
  lemma {:induction false} PaidInside(h: seq<LogRow>)
    requires Chain(h) && (Deposited(h[|h| - 1].to) || h[|h| - 1].to == AwaitingDeposit)
    ensures exists i :: 0 < i < |h| && h[i].to == Paid
  {
    var n := |h|;
    assert O.CanTransition(h[n - 2].to, h[n - 1].to);
    if h[n - 1].to == AwaitingDeposit {
      assert h[n - 2].to == Paid;
    } else {
      PaidInside(h[..n - 1]);
      var i :| 0 < i < n - 1 && h[..n - 1][i].to == Paid;
      assert h[i].to == Paid;
    }
  }

  /** The last rows of a log record the whole overdue detour. */
  ghost predicate SettledFirst(h: seq<LogRow>) {
    && |h| >= 4
    && h[|h| - 4].to == InStorage && h[|h| - 3].to == Overdue
    && h[|h| - 2].to == AwaitingPickup && h[|h| - 1].to == Completed
  }

  /** No late parcel leaves unsettled: a completed order was picked up in time, or its log shows storage,
      overdue, settlement, pickup. OVERDUE is only ever entered strictly after the deadline. */
  lemma NoLateParcelLeavesUnsettled(s: State, actions: seq<Action>, oid: nat)
    requires Fresh(s) && oid in Exec(s, actions).db.orders
    ensures
      var o := Exec(s, actions).db.orders[oid];
      var h := History(Exec(s, actions).db.logs, oid);
      && (o.status == Completed ==>
            && o.completedAt.Some? && o.expiresAt.Some?
            && (o.completedAt.value <= o.expiresAt.value || SettledFirst(h)))
      && (forall i :: 0 <= i < |h| && h[i].to == Overdue ==> o.expiresAt.Some? && h[i].at > o.expiresAt.value)
  {
    BooksAlways(s, actions);
    assert BookAt(Exec(s, actions), oid);
    var o, h := Exec(s, actions).db.orders[oid], History(Exec(s, actions).db.logs, oid);
    if o.status == Completed {
      var n := |h|;
      assert O.CanTransition(h[n - 2].to, h[n - 1].to);
      if h[n - 2].to == AwaitingPickup {
        assert O.CanTransition(h[n - 3].to, h[n - 2].to);
        assert O.CanTransition(h[n - 4].to, h[n - 3].to);
      }
    }
  }

  /** Money in every reachable state: an overdue fee stands exactly while the order is OVERDUE and is the fee of
      a moment after its deadline and no later than the log row that marked it; the total is
      rent plus deposit less discount. */
  lemma MoneyAlways(s: State, actions: seq<Action>, oid: nat)
    requires Fresh(s) && oid in Exec(s, actions).db.orders
    ensures
      var o, h := Exec(s, actions).db.orders[oid], History(Exec(s, actions).db.logs, oid);
      && o.overdueFen >= 0 && (o.overdueFen > 0 <==> o.status == Overdue)
      && (o.status == Overdue ==>
            && o.expiresAt.Some? && |h| > 0
            && h[|h| - 1].to == Overdue && FeeCharged(o, h[|h| - 1].at))
      && o.rentFen == RentFen(o.size, o.minutes) > 0
      && o.totalFen == o.rentFen + o.depositFen - o.discountFen
  {
    BooksAlways(s, actions);
    assert BookAt(Exec(s, actions), oid);
    var o, h := Exec(s, actions).db.orders[oid], History(Exec(s, actions).db.logs, oid);
    RentIsRateTimesStartedHours(o.size, o.minutes, StartedHours(o.minutes));
    if o.status == Overdue {
      var t :| o.expiresAt.value < t <= h[|h| - 1].at
            && o.overdueFen == OverdueFeeFen(o.size, o.expiresAt.value, t);
      OverdueFeePositive(o.size, o.expiresAt.value, t);
    }
  }

  /** The part of an order row that is written once. */
  predicate SameTerms(o: Order, o': Order) {
    && o'.siteId == o.siteId && o'.cellId == o.cellId && o'.size == o.size && o'.minutes == o.minutes
    && o'.rentFen == o.rentFen && o'.depositFen == o.depositFen && o'.discountFen == o.discountFen
    && o'.totalFen == o.totalFen && o'.createdAt == o.createdAt
  }

  /** What a step may do to an existing order. */
  ghost predicate Follows(db: Db, db': Db, oid: nat)
    requires oid in db.orders
  {
    && oid in db'.orders && SameTerms(db.orders[oid], db'.orders[oid])
    && (Terminal(db.orders[oid].status) ==> db'.orders[oid] == db.orders[oid])
    && db.logs <= db'.logs
  }

  lemma PayAppends(logs: seq<LogRow>, a: LogRow, b: LogRow)
    ensures logs <= logs + [a] + [b]
  {
  }

  lemma StepFollows(s: State, a: Action, oid: nat)
    requires oid in s.db.orders
    ensures Follows(s.db, Apply(s, a).db, oid)
  {
    if !OrderAction(a) {
      LockerActionsWriteNoOrders(s, a);
    } else if a.Pay? {
      PayAppends(s.db.logs, LogRow(a.oid, Some(PendingPayment), Paid, "DEV_PAYMENT", "dev-payment", a.t),
                 LogRow(a.oid, Some(Paid), AwaitingDeposit, "DEV_PAYMENT", "dev-payment", a.t));
    } else {
      OtherOrderActionsFollow(s, a, oid);
    }
  }

  lemma OtherOrderActionsFollow(s: State, a: Action, oid: nat)
    requires oid in s.db.orders && OrderAction(a) && !a.Pay?
    ensures Follows(s.db, Apply(s, a).db, oid)
  {
    hide RentFen, OverdueFeeFen, Deadline;
  }

  /** Orders are never deleted, their terms never change, a finished order never moves again, and the log is
      append-only. */
  lemma {:induction false} TermsAreFrozen(s: State, actions: seq<Action>, oid: nat)
    requires oid in s.db.orders
    ensures Follows(s.db, Exec(s, actions).db, oid)
  {
    if actions == [] {
    } else {
      TermsAreFrozen(s, actions[..|actions| - 1], oid);
      StepFollows(Exec(s, actions[..|actions| - 1]), actions[|actions| - 1], oid);
    }
  }

  /** What a row in storage can become: itself, the same row marked overdue, or an order further along. */
  predicate FromStorage(o: Order, o': Order) {
    || o' == o
    || o' == o.(status := Overdue, overdueFen := o'.overdueFen)
    || Rank(o'.status) < Rank(Overdue)
  }

  lemma StepFromStorage(s: State, a: Action, oid: nat, o: Order)
    requires oid in s.db.orders && o.status == InStorage && FromStorage(o, s.db.orders[oid])
    ensures oid in Apply(s, a).db.orders && FromStorage(o, Apply(s, a).db.orders[oid])
  {
    hide OverdueFeeFen, Deadline, RentFen;
  }

  lemma {:induction false} StaysFromStorage(s: State, actions: seq<Action>, oid: nat)
    requires oid in s.db.orders && s.db.orders[oid].status == InStorage
    ensures oid in Exec(s, actions).db.orders && FromStorage(s.db.orders[oid], Exec(s, actions).db.orders[oid])
  {
    if actions == [] {
    } else {
      StaysFromStorage(s, actions[..|actions| - 1], oid);
      StepFromStorage(Exec(s, actions[..|actions| - 1]), actions[|actions| - 1], oid, s.db.orders[oid]);
    }
  }

  /** A read that found an order late shows it as overdue even when its mark, written after others have moved, hits
      nothing. What it shows is what is stored exactly when the order is still in storage at the mark or another
      read has marked it with the same fee. */
  lemma ShownOverdueIsStored(s: State, oid: nat, t: int, others: seq<Action>, markAt: int)
    requires oid in s.db.orders && O.IsLate(s.db.orders[oid], t)
    ensures
      var o := s.db.orders[oid];
      var fee := OverdueFeeFen(o.size, o.expiresAt.value, t);
      var db := Exec(s, others).db;
      var marked := O.MarkOverdue(db, oid, fee, markAt);
      && oid in db.orders && oid in marked.orders
      && (marked.orders[oid] == o.(status := Overdue, overdueFen := fee)
          <==> || db.orders[oid].status == InStorage
               || (db.orders[oid].status == Overdue && db.orders[oid].overdueFen == fee))
  {
    StaysFromStorage(s, others, oid);
  }

  /** An order of one minute, created, paid and deposited at the start of an installation. */
  lemma DepositedOrder() returns (actions: seq<Action>)
    ensures
      var s := Exec(Installation(), actions);
      && s.clock == 0 && s.setup == Installation().setup && s.pending == {}
      && 1 in s.db.orders && s.db.orders[1].status == InStorage
      && s.db.orders[1].size == Small && s.db.orders[1].expiresAt == Some(MINUTE)
  {
    var s0, create := Installation(), Create(1, 1, Small, 1, 0, {});
    var s1 := Apply(s0, create);
    CreatedOrder();
    var s2 := Apply(s1, Pay(1, 0));
    hide O.CreateOrder;
    ExecOne(s0, [], create);
    ExecOne(s0, [] + [create], Pay(1, 0));
    ExecOne(s0, [] + [create] + [Pay(1, 0)], Deposit(1, 0));
    actions := [] + [create] + [Pay(1, 0)] + [Deposit(1, 0)];
    assert Exec(s0, actions) == Apply(s2, Deposit(1, 0));
  }

  lemma CreatedOrder()
    ensures
      var s := Apply(Installation(), Create(1, 1, Small, 1, 0, {}));
      && s == Installation().(db := s.db) && 1 in s.db.orders
      && s.db.orders[1].status == PendingPayment && s.db.orders[1].minutes == 1 && s.db.orders[1].size == Small
  {
    assert O.CreateCandidates(Installation().db, 1, Small) - {} == {1};
  }

  /** It does happen: two hours after one read judged the order late, another marks it with a larger fee, and then the
      first one's mark hits nothing. */
  lemma ShownOverdueNeedNotBeStored() returns (actions: seq<Action>, others: seq<Action>)
    ensures
      var s := Exec(Installation(), actions);
      && 1 in s.db.orders && O.IsLate(s.db.orders[1], s.clock)
      && var shown := s.db.orders[1].(status := Overdue, overdueFen := OverdueFeeFen(Small, MINUTE, s.clock));
      && var db := Exec(s, others).db;
      && 1 in db.orders
      && O.MarkOverdue(db, 1, shown.overdueFen, Exec(s, others).clock).orders[1] != shown
  {
    var s0, now, later := Installation(), MINUTE + 1, MINUTE + 1 + 2 * HOUR;
    actions := DepositedOrder();
    ExecOne(s0, actions, Tick(now));
    actions := actions + [Tick(now)];
    var s, fee := Exec(s0, actions), OverdueFeeFen(Small, MINUTE, later);
    ExecOne(s, [], Tick(later));
    ExecOne(s, [] + [Tick(later)], LateRead(1, later));
    ExecOne(s, [] + [Tick(later)] + [LateRead(1, later)], LateMark(PendingMark(1, fee, later), later));
    others := [] + [Tick(later)] + [LateRead(1, later)] + [LateMark(PendingMark(1, fee, later), later)];
    assert fee == 900 && OverdueFeeFen(Small, MINUTE, now) == 300;
  }
}
