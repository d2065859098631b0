/** The tables of the MySQL schema that both domains write, and the results their repositories return.
    Time is an integer number of nanoseconds on one clock. */
module Schema {
  datatype Option<+T> = None | Some(value: T)

  datatype Size = Small | Medium | Large

  datatype CellStatus = Idle | Locked | Occupied | Disabled

  datatype SiteStatus = SiteActive | SiteSuspended | SiteClosed

  datatype Operational = DeviceActive | DeviceMaintenance | DeviceDisabled

  datatype Device = Device(siteId: nat, online: bool, operational: Operational, heartbeat: Option<int>)

  /** A row of locker_cells. */
  datatype Cell = Cell(
    deviceId: nat, size: Size, status: CellStatus,
    key: Option<string>, lockExpires: Option<int>, orderId: Option<nat>, version: nat)

  datatype OrderStatus =
    | PendingPayment | Paid | AwaitingDeposit | InStorage
    | Overdue | AwaitingPickup | Completed | Cancelled

  /** A row of orders. */
  datatype Order = Order(
    siteId: nat, cellId: nat, size: Size, status: OrderStatus, minutes: int,
    rentFen: int, depositFen: int, discountFen: int, totalFen: int, overdueFen: int,
    paidAt: Option<int>, depositedAt: Option<int>, expiresAt: Option<int>, completedAt: Option<int>,
    createdAt: int)

  /** A row of order_status_logs; an empty from_status is None. */
  datatype LogRow = LogRow(
    orderId: nat, from: Option<OrderStatus>, to: OrderStatus, reason: string, actor: string, at: int)

  datatype Db = Db(
    sites: map<nat, SiteStatus>, devices: map<nat, Device>,
    cells: map<nat, Cell>, orders: map<nat, Order>, logs: seq<LogRow>)

  datatype Error =
    | KeyRequired | InvalidTtl | InvalidCellId | ReservationNotFound | CellNotAvailable | KeyMismatch
    | InvalidSiteId | InvalidOrderId | InvalidDuration | SiteNotFound | OrderNotFound
    | NoAvailableCell | StateConflict | DoorUnavailable | Forbidden | DataUnavailable

  datatype Result<+T> = Ok(value: T) | Err(error: Error)

  /** What the system is set up with: the age a device's heartbeat may reach, the arguments bound to the
      pickup UPDATE, whether the driver accepts an UPDATE while a result set of the same transaction is open, and
      whether the deployment is a development one, which a redeployment may change. */
  datatype Setup = Setup(threshold: int, pickupArgs: nat, openRows: bool, development: bool)

  /** A statement or transaction may fail without effect, or take effect and lose its reply. */
  datatype Fault = NoFault | NotApplied | ReplyLost

  /** White space as the key checks trim it. */
  predicate IsSpace(c: char) {
    c == ' ' || '\t' <= c <= '\r' || c == '\U{85}' || c == '\U{A0}' || c == '\U{1680}'
    || '\U{2000}' <= c <= '\U{200A}' || c == '\U{2028}' || c == '\U{2029}' || c == '\U{202F}'
    || c == '\U{205F}' || c == '\U{3000}'
  }

  predicate Blank(key: string) { forall i :: 0 <= i < |key| ==> IsSpace(key[i]) }

  predicate Terminal(s: OrderStatus) {
    s == Completed || s == Cancelled
  }

  /** The rows of one order's log, oldest first. */
  function History(logs: seq<LogRow>, oid: nat): seq<LogRow> {
    if logs == [] then []
    else
      var rest := History(logs[..|logs| - 1], oid);
      if logs[|logs| - 1].orderId == oid then rest + [logs[|logs| - 1]] else rest
  }

  lemma HistoryAppend(logs: seq<LogRow>, row: LogRow, oid: nat)
    ensures History(logs + [row], oid) == History(logs, oid) + if row.orderId == oid then [row] else []
  {
    assert (logs + [row])[..|logs|] == logs;
  }
}

/** What ORDER BY id LIMIT n selects, and the counting facts the proofs need. */
module Sets {
  lemma {:induction false} LeastExists(s: set<nat>) returns (m: nat)
    requires s != {}
    ensures m in s && forall y :: y in s ==> m <= y
  {
    m :| m in s;
    var rest := s - {m};
    assert forall y :: y in s ==> y == m || y in rest;
    if rest != {} {
      var least := LeastExists(rest);
      m := if m <= least then m else least;
    }
  }

  /** The first row of a result ordered by id. */
  function Least(s: set<nat>): (m: nat)
    requires s != {}
    ensures m in s && forall y :: y in s ==> m <= y
  {
    assert exists m :: m in s && forall y :: y in s ==> m <= y by {
      var m := LeastExists(s);
    }
    var m :| m in s && forall y :: y in s ==> m <= y;
    m
  }

  /** The lowest-numbered row of a result, leaving out skipped ones. */
  ghost predicate IsFirst(id: nat, rows: set<nat>, skip: set<nat>) {
    id in rows && id !in skip && forall x :: x in rows && x !in skip ==> id <= x
  }

  lemma LeastIsFirst(rows: set<nat>, skip: set<nat>)
    ensures rows - skip == {} <==> rows <= skip
    ensures rows - skip != {} ==> IsFirst(Least(rows - skip), rows, skip)
  {
    assert forall x :: x in rows && x !in skip ==> x in rows - skip;
  }

  /** The first n rows of a result ordered by id, as a list. */
  function FirstN(s: set<nat>, n: nat): (r: seq<nat>)
    ensures |r| == if n <= |s| then n else |s|
    ensures forall y :: y in r ==> y in s
    decreases n
  {
    if n == 0 || s == {} then []
    else
      var m := Least(s);
      [m] + FirstN(s - {m}, n - 1)
  }

  ghost predicate Ascending(r: seq<nat>) {
    forall i, j :: 0 <= i < j < |r| ==> r[i] < r[j]
  }

  /** FirstN lists distinct rows in id order, and leaves out only rows that come after all it lists. */
  lemma {:induction false} FirstNOrdered(s: set<nat>, n: nat)
    ensures Ascending(FirstN(s, n))
    ensures forall x, y :: x in FirstN(s, n) && y in s && y !in FirstN(s, n) ==> x < y
    ensures |s| <= n ==> forall y :: y in s ==> y in FirstN(s, n)
    decreases n
  {
    if n != 0 && s != {} {
      var m := Least(s);
      var rest := s - {m};
      var tail := FirstN(rest, n - 1);
      FirstNOrdered(rest, n - 1);
      var r := FirstN(s, n);
      assert r == [m] + tail;
      assert forall y :: y in rest ==> m < y;
      assert forall i :: 0 < i < |r| ==> r[i] == tail[i - 1] && r[i] in rest;
      assert forall x :: x in r <==> x == m || x in tail;
    }
  }

  function Elements(r: seq<nat>): (s: set<nat>)
    ensures forall y :: y in s <==> y in r
  {
    set y | y in r
  }

  lemma {:induction false} ElementsSize(r: seq<nat>)
    requires Ascending(r)
    ensures |Elements(r)| == |r|
  {
    if r != [] {
      var last := r[|r| - 1];
      ElementsSize(r[..|r| - 1]);
      assert last !in r[..|r| - 1];
      assert r == r[..|r| - 1] + [last];
      assert Elements(r) == Elements(r[..|r| - 1]) + {last};
    } else {
      assert Elements(r) == {};
    }
  }

  lemma {:induction false} SubsetSize<T>(a: set<T>, b: set<T>)
    requires a <= b
    ensures |a| <= |b|
    ensures |a| == |b| ==> a == b
  {
    assert |b| == |a| + |b - a| by {
      assert a * (b - a) == {} && a + (b - a) == b;
    }
    if |a| == |b| {
      assert b - a == {};
    }
  }

  /** Two sets in bijection have the same size. */
  lemma {:induction false} BijectionSize(a: set<nat>, b: set<nat>, f: map<nat, nat>)
    requires f.Keys == a
    requires forall x :: x in a ==> f[x] in b
    requires forall x, y :: x in a && y in a && f[x] == f[y] ==> x == y
    requires forall z :: z in b ==> exists x :: x in a && f[x] == z
    ensures |a| == |b|
    decreases |a|
  {
    if a == {} {
      assert b == {};
    } else {
      var x :| x in a;
      var a', b', f' := a - {x}, b - {f[x]}, f - {x};
      forall z | z in b' ensures exists y :: y in a' && f'[y] == z {
        var y :| y in a && f[y] == z;
        assert y in a' && f'[y] == z;
      }
      assert f'.Keys == a';
      BijectionSize(a', b', f');
    }
  }
}
