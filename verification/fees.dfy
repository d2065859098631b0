/** Integer-fen fees, in the 64-bit machine integers the code computes them with. */
module Fees {
  import opened Schema

  const TWO_63: int := 0x8000_0000_0000_0000
  const TWO_64: int := 0x1_0000_0000_0000_0000
  const MINUTE: int := 60_000_000_000
  const HOUR: int := 3_600_000_000_000

  predicate Int32(x: int) { -0x8000_0000 <= x < 0x8000_0000 }

  predicate Int64(x: int) { -TWO_63 <= x < TWO_63 }

  /** What an int64 holds after an operation whose exact result is x. */
  function Wrap64(x: int): (w: int)
    ensures Int64(w)
    ensures w == x <==> Int64(x)
  {
    (x + TWO_63) % TWO_64 - TWO_63
  }

  /** Division of machine integers truncates toward zero. */
  function Quotient(a: int, b: int): int
    requires b > 0
  {
    if a >= 0 then a / b else -((-a) / b)
  }

  function RateFenPerHour(size: Size): int {
    match size
    case Small => 300
    case Medium => 500
    case Large => 800
  }

  /** The rent of the fee snapshot; deposit and discount are zero and the total equals the rent. */
  function RentFen(size: Size, minutes: int): int {
    var hours := if minutes > 0 then Quotient(Wrap64(minutes + 59), 60) else 0;
    Wrap64(RateFenPerHour(size) * hours)
  }

  /** The difference of two instants saturates at the ends of the duration type. */
  function Elapsed(expiresAt: int, now: int): int {
    var d := now - expiresAt;
    if d >= TWO_63 then TWO_63 - 1 else if d < -TWO_63 then -TWO_63 else d
  }

  function OverdueFeeFen(size: Size, expiresAt: int, now: int): int {
    var signed := Elapsed(expiresAt, now);
    var elapsed := if signed < 0 then 0 else signed;
    var begun := Quotient(Wrap64(Wrap64(elapsed + HOUR) - 1), HOUR);
    var hours := if begun < 1 then 1 else begun;
    Wrap64(RateFenPerHour(size) * hours)
  }

  /** expires_at of an order deposited at now. */
  function Deadline(now: int, minutes: int): int {
    now + Wrap64(minutes * MINUTE)
  }

  /** h hours of the given unit are the fewest that cover an amount. */
  predicate Covers(h: int, unit: int, amount: int) {
    (h - 1) * unit < amount <= h * unit
  }

  lemma CoverIsQuotient(h: int, unit: int, amount: int)
    requires unit > 0 && amount > 0 && Covers(h, unit, amount)
    ensures h == (amount + unit - 1) / unit
  {
    var q := (amount + unit - 1) / unit;
    var r := (amount + unit - 1) % unit;
    assert amount + unit - 1 == q * unit + r;
    assert (q - 1) * unit == q * unit - unit && (h - 1) * unit == h * unit - unit;
    if q < h {
      MulMonotone(q, h - 1, unit);
    } else if h < q {
      MulMonotone(h, q - 1, unit);
    }
  }

  lemma MulMonotone(a: int, b: int, c: int)
    requires a <= b && c >= 0
    ensures a * c <= b * c
  {
    assert b * c == a * c + (b - a) * c;
  }

  /** For every int32 duration the rent is the rate times the started hours, with no overflow. */
  lemma RentIsRateTimesStartedHours(size: Size, minutes: int, hours: int)
    requires Int32(minutes)
    requires if minutes > 0 then Covers(hours, 60, minutes) else hours == 0
    ensures RentFen(size, minutes) == RateFenPerHour(size) * hours
    ensures minutes > 0 ==> RentFen(size, minutes) > 0
  {
    if minutes > 0 {
      CoverIsQuotient(hours, 60, minutes);
      assert 1 <= hours <= 35791395;
    }
  }

  function StartedHours(minutes: int): (h: int)
    ensures if minutes > 0 then Covers(h, 60, minutes) else h == 0
  {
    if minutes > 0 then (minutes + 59) / 60 else 0
  }

  lemma RentIsMonotone(size: Size, a: int, b: int)
    requires Int32(a) && Int32(b) && a <= b
    ensures RentFen(size, a) <= RentFen(size, b)
  {
    RentIsRateTimesStartedHours(size, a, StartedHours(a));
    RentIsRateTimesStartedHours(size, b, StartedHours(b));
    assert StartedHours(a) <= StartedHours(b);
    MulMonotone(StartedHours(a), StartedHours(b), RateFenPerHour(size));
  }

  /** Splitting a rental never makes it cheaper, and costs at most one more hour. */
  lemma SplittingARental(size: Size, a: int, b: int)
    requires a >= 0 && b >= 0 && Int32(a + b)
    ensures RentFen(size, a + b) <= RentFen(size, a) + RentFen(size, b)
    ensures RentFen(size, a) + RentFen(size, b) <= RentFen(size, a + b) + RateFenPerHour(size)
  {
    var x, y, z := StartedHours(a), StartedHours(b), StartedHours(a + b);
    RentIsRateTimesStartedHours(size, a, x);
    RentIsRateTimesStartedHours(size, b, y);
    RentIsRateTimesStartedHours(size, a + b, z);
    assert z <= x + y <= z + 1;
  }

  /** The overdue fee is the rate times the hours begun since expiry (at least one) exactly when the lateness
      leaves room for the rounding addend in an int64; past that the sum wraps and one hour is charged. */
  lemma OverdueFeeExactness(size: Size, expiresAt: int, now: int, hours: int)
    requires if now > expiresAt then Covers(hours, HOUR, now - expiresAt) else hours == 1
    ensures OverdueFeeFen(size, expiresAt, now) == RateFenPerHour(size) * hours
       <==> now - expiresAt <= TWO_63 - HOUR
    ensures now - expiresAt > TWO_63 - HOUR ==> OverdueFeeFen(size, expiresAt, now) == RateFenPerHour(size)
  {
    var late := now - expiresAt;
    if 0 < late <= TWO_63 - HOUR {
      CoverIsQuotient(hours, HOUR, late);
      assert 1 <= hours <= 2562048;
    } else if late > TWO_63 - HOUR {
      var elapsed := Elapsed(expiresAt, now);
      assert Wrap64(elapsed + HOUR) == elapsed + HOUR - TWO_64 || elapsed + HOUR == TWO_63;
      assert Quotient(Wrap64(Wrap64(elapsed + HOUR) - 1), HOUR) < 1;
      assert hours > 2;
    }
  }

  lemma OverdueFeePositive(size: Size, expiresAt: int, now: int)
    ensures OverdueFeeFen(size, expiresAt, now) > 0
  {
    var signed := Elapsed(expiresAt, now);
    var elapsed := if signed < 0 then 0 else signed;
    var begun := Quotient(Wrap64(Wrap64(elapsed + HOUR) - 1), HOUR);
    assert begun <= 2562048;
  }

  /** The deadline of a deposit is deposit time plus rental time exactly for rentals of at most 153,722,867
      minutes; longer int32 durations wrap. */
  lemma DeadlineExactness(now: int, minutes: int)
    requires Int32(minutes) && minutes > 0
    ensures Deadline(now, minutes) == now + minutes * MINUTE <==> minutes <= 153_722_867
  {
  }

  /** A duration the schema admits whose deadline falls before the deposit itself. */
  lemma DeadlineCanPrecedeDeposit(now: int)
    ensures Int32(153_722_868) && Deadline(now, 153_722_868) < now
  {
  }

  // ---- the price list in numbers ----

  /** The rent of every int32 duration: so many fen for each hour begun. */
  lemma RentPriceList(minutes: int, hours: int)
    requires -2_147_483_648 <= minutes <= 2_147_483_647
    requires if minutes <= 0 then hours == 0 else 60 * (hours - 1) < minutes <= 60 * hours
    ensures RentFen(Small, minutes) == 300 * hours
    ensures RentFen(Medium, minutes) == 500 * hours
    ensures RentFen(Large, minutes) == 800 * hours
  {
    RentIsRateTimesStartedHours(Small, minutes, hours);
    RentIsRateTimesStartedHours(Medium, minutes, hours);
    RentIsRateTimesStartedHours(Large, minutes, hours);
  }

  /** The fee of an order late by so many nanoseconds: the same prices for each hour begun, one hour at least; and one
      hour again where the lateness leaves no room for the rounding in 64 bits. */
  lemma OverduePriceList(expiresAt: int, now: int, hours: int)
    requires
      var late := now - expiresAt;
      if late <= 0 || late > 9_223_368_436_854_775_808 then hours == 1
      else 3_600_000_000_000 * (hours - 1) < late <= 3_600_000_000_000 * hours
    ensures OverdueFeeFen(Small, expiresAt, now) == 300 * hours
    ensures OverdueFeeFen(Medium, expiresAt, now) == 500 * hours
    ensures OverdueFeeFen(Large, expiresAt, now) == 800 * hours
  {
    var late := now - expiresAt;
    var begun := if late <= 0 then 1 else (late + HOUR - 1) / HOUR;
    OverdueFeeExactness(Small, expiresAt, now, begun);
    OverdueFeeExactness(Medium, expiresAt, now, begun);
    OverdueFeeExactness(Large, expiresAt, now, begun);
  }
}
