/** Hand-written number printing: decimal int64, fen amounts, command numbers. */
module Printing {
  import opened Schema
  import opened Fees

  // ---- digits ----

  function Power(base: nat, k: nat): (p: nat)
    requires base > 0
    ensures p > 0
  {
    if k == 0 then 1 else base * Power(base, k - 1)
  }

  predicate IsDigit(c: char) { '0' <= c <= '9' }

  function DigitChar(d: nat): (c: char)
    requires d < 10
    ensures IsDigit(c)
  {
    '0' + d as char
  }

  function DigitValue(c: char): (d: nat)
    requires IsDigit(c)
    ensures d < 10
  {
    (c - '0') as nat
  }

  /** Decimal digits of a positive number, most significant first; none for zero. */
  function Digits(n: nat): (s: string)
    ensures forall i :: 0 <= i < |s| ==> IsDigit(s[i])
    ensures n > 0 ==> |s| > 0 && s[0] != '0'
  {
    if n == 0 then [] else Digits(n / 10) + [DigitChar(n % 10)]
  }

  /** Reads digits back; None when a character is not a digit. */
  function ParseDigits(s: string): Option<nat> {
    if s == [] then Some(0)
    else
      match ParseDigits(s[..|s| - 1])
      case None => None
      case Some(high) => if IsDigit(s[|s| - 1]) then Some(10 * high + DigitValue(s[|s| - 1])) else None
  }

  lemma {:induction false} DigitsParseBack(n: nat)
    ensures ParseDigits(Digits(n)) == Some(n)
  {
    if n == 0 {
    } else {
      DigitsParseBack(n / 10);
      assert Digits(n)[..|Digits(n)| - 1] == Digits(n / 10);
    }
  }

  lemma {:induction false} DigitsLength(n: nat, k: nat)
    requires n < Power(10, k)
    ensures |Digits(n)| <= k
    decreases k
  {
    if n == 0 {
    } else {
      DigitsLength(n / 10, k - 1);
    }
  }

  lemma NineteenDigits(n: nat)
    requires n < TWO_63
    ensures |Digits(n)| <= 19
  {
    assert Power(10, 19) == 10_000_000_000_000_000_000 by {
      assert Power(10, 5) == 100_000;
      assert Power(10, 10) == 10_000_000_000;
      assert Power(10, 15) == 1_000_000_000_000_000;
    }
    DigitsLength(n, 19);
  }

  // ---- itoa ----

  /** The decimal form of an integer. */
  function Decimal(v: int): string {
    if v == 0 then "0" else if v < 0 then "-" + Digits(-v) else Digits(v)
  }

  /** Reads an optional sign and at least one digit; a leading zero stands alone. */
  function ParseDecimal(s: string): Option<int> {
    var negative := |s| > 0 && s[0] == '-';
    var digits := if negative then s[1..] else s;
    if digits == "" || (digits[0] == '0' && s != "0") then None
    else
      match ParseDigits(digits)
      case None => None
      case Some(n) =>
        var value: int := n;
        Some(if negative then -value else value)
  }

  /** What Itoa returns, as a function of its argument. */
  function ItoaText(v: int): string {
    if v == -TWO_63 then "-" else Decimal(v)
  }

  /** Fills a 20-byte buffer from the end. Negation happens in int64, so the smallest value stays negative and
      prints as a bare sign. No write leaves the buffer. */
  method Itoa(v: int) returns (s: string)
    requires Int64(v)
    ensures s == ItoaText(v)
  {
    if v == 0 {
      return "0";
    }
    SignAndDigits(v);
    hide Digits, ItoaText, Wrap64;
    var negative := v < 0;
    var rest := if negative then Wrap64(-v) else v;
    var buf := new char[20];
    var i := FillDigits(buf, rest);
    if negative {
      var before := buf[i..];
      i := i - 1;
      buf[i] := '-';
      assert buf[i..] == "-" + before;
    }
    s := buf[i..];
  }

  /** What a nonzero number prints as, after the negation in int64. */
  lemma SignAndDigits(v: int)
    requires Int64(v) && v != 0
    ensures
      var rest := if v < 0 then Wrap64(-v) else v;
      ItoaText(v) == (if v < 0 then "-" else "") + Digits(if rest > 0 then rest else 0)
  {
    assert Digits(0) == "";
    hide Digits;
  }

  /** Writes the digits of v up to the end of the buffer and returns where they begin; nothing for v <= 0. */
  method FillDigits(buf: array<char>, v: int) returns (i: int)
    requires buf.Length == 20 && Int64(v)
    modifies buf
    ensures 1 <= i <= 20 && buf[i..] == Digits(if v > 0 then v else 0)
  {
    ghost var all := Digits(if v > 0 then v else 0);
    NineteenDigits(if v > 0 then v else 0);
    var rest := v;
    i := 20;
    while rest > 0
      invariant 0 <= i <= 20
      invariant all == Digits(if rest > 0 then rest else 0) + buf[i..]
      decreases rest
    {
      ghost var tail := buf[i..];
      assert Digits(rest) == Digits(rest / 10) + [DigitChar(rest % 10)];
      i := i - 1;
      buf[i] := DigitChar(rest % 10);
      assert buf[i..] == [DigitChar(rest % 10)] + tail;
      rest := rest / 10;
    }
  }

  /** Printing is invertible exactly off the smallest int64. */
  lemma ItoaParsesBack(v: int)
    requires Int64(v)
    ensures ParseDecimal(ItoaText(v)) == Some(v) <==> v != -TWO_63
  {
    hide ParseDecimal, Digits;
    if v == -TWO_63 {
      BareSign();
    } else if v == 0 {
      YuanParsesBack(0);
    } else {
      DigitsWithSign(if v < 0 then -v else v);
    }
  }

  lemma BareSign()
    ensures ParseDecimal("-") == None
  {
    assert "-"[1..] == "";
  }

  lemma DigitsWithSign(n: int)
    requires n > 0
    ensures ParseDecimal(Digits(n)) == Some(n) && ParseDecimal("-" + Digits(n)) == Some(-n)
  {
    hide Digits, ParseDigits;
    DigitsParseBack(n);
    assert Digits(n)[0] != '-';
    assert ("-" + Digits(n))[1..] == Digits(n);
  }

  // ---- formatFen ----

  const TWO_53: nat := 0x20_0000_0000_0000

  /** Binary digits of a number. */
  function BitLength(n: nat): nat {
    if n == 0 then 0 else 1 + BitLength(n / 2)
  }

  /** The integer nearest to a / b, the even one of two. */
  function NearestInt(a: nat, b: nat): nat
    requires b > 0
  {
    var q, r := a / b, a % b;
    if 2 * r < b || (2 * r == b && q % 2 == 0) then q else q + 1
  }

  /** abs / 100 in doubles: 53 significant bits, so a multiple of 2^-u or of 2^k, given in units of it. Below one
      yuan doubles are denser still, with the same floor. */
  function Fraction(abs: nat): (f: nat)
    ensures f > 0
  {
    if BitLength(abs / 100) <= 53 then Power(2, 53 - BitLength(abs / 100)) else 1
  }

  function Scale(abs: nat): (k: nat)
    ensures k > 0
  {
    if BitLength(abs / 100) <= 53 then 1 else Power(2, BitLength(abs / 100) - 53)
  }

  function QuotientUnits(abs: nat): nat {
    NearestInt(abs * Fraction(abs), 100 * Scale(abs))
  }

  /** The floor of a number given in units of a fraction and a scale. */
  function Whole(units: nat, fraction: nat, scale: nat): nat
    requires fraction > 0
  {
    units / fraction * scale
  }

  /** The floor of the rounded quotient. */
  function Yuan(abs: nat): nat {
    Whole(QuotientUnits(abs), Fraction(abs), Scale(abs))
  }

  function TwoDigits(n: nat): string
    requires n < 100
  {
    [DigitChar(n / 10), DigitChar(n % 10)]
  }

  /** Sign, currency mark, whole yuan, point, two digits of fen. `show` is how the host prints an integer. */
  function FormatFen(fen: int, show: nat -> string): string {
    var abs := if fen < 0 then -fen else fen;
    (if fen < 0 then "-" else "") + "\U{A5}" + show(Yuan(abs)) + "." + TwoDigits(abs % 100)
  }

  function ParseFen(s: string): Option<int> {
    var negative := |s| > 0 && s[0] == '-';
    var body := if negative then s[1..] else s;
    if |body| < 5 || body[0] != '\U{A5}' || body[|body| - 3] != '.' then None
    else
      match (ParseDecimal(body[1..|body| - 3]), ParseDigits(body[|body| - 2..]))
      case (Some(yuan), Some(rest)) => Some(if negative then -(100 * yuan + rest) else 100 * yuan + rest)
      case _ => None
  }

  lemma TwoDigitsParseBack(n: nat)
    requires n < 100
    ensures ParseDigits(TwoDigits(n)) == Some(n)
  {
    var s := TwoDigits(n);
    assert s[..1] == [DigitChar(n / 10)];
    assert s[..1][..0] == [];
    assert ParseDigits(s[..1]) == Some(n / 10);
  }

  /** How a formatted amount splits. */
  lemma FenText(sign: string, yuan: string, cents: string)
    requires (sign == "" || sign == "-") && |yuan| >= 1 && |cents| == 2
    ensures
      var s := sign + "\U{A5}" + yuan + "." + cents;
      var body := if s[0] == '-' then s[1..] else s;
      && (s[0] == '-' <==> sign == "-")
      && |body| >= 5 && body[0] == '\U{A5}' && body[|body| - 3] == '.'
      && body[1..|body| - 3] == yuan && body[|body| - 2..] == cents
  {
    var s := sign + "\U{A5}" + yuan + "." + cents;
    var body := if s[0] == '-' then s[1..] else s;
    assert body == "\U{A5}" + yuan + "." + cents;
  }

  lemma YuanParsesBack(n: nat)
    ensures ParseDecimal(Decimal(n)) == Some(n)
  {
    DigitsParseBack(n);
    if n > 0 {
      assert Digits(n)[0] != '-';
    }
  }

  /** The division rounds up to the next whole yuan, or down past a whole one. */
  predicate Misrounds(abs: nat) {
    var yuan, fen := abs / 100, abs % 100;
    if BitLength(yuan) > 53 then yuan % Scale(abs) != 0
    else
      || (100 - fen) * Fraction(abs) < 50
      || ((100 - fen) * Fraction(abs) == 50 && (Fraction(abs) > 1 || yuan % 2 == 1))
  }

  lemma {:induction false} PowerOfTwo(k: nat)
    ensures k > 0 ==> Power(2, k) % 2 == 0 && Power(2, k) >= 2
  {
    if k > 0 { assert Power(2, k) == 2 * Power(2, k - 1); }
  }

  /** Rounding keeps the whole yuan exactly when it does not misround. */
  lemma YuanIsExact(abs: nat)
    ensures Yuan(abs) == abs / 100 <==> !Misrounds(abs)
  {
    var n, r := abs / 100, abs % 100;
    if BitLength(n) <= 53 {
      PowerOfTwo(53 - BitLength(n));
      FloorOfFraction(n, r, Fraction(abs));
    } else {
      PowerOfTwo(BitLength(n) - 53);
      FloorOfMultiple(n, r, Scale(abs));
    }
  }

  lemma WholePart(n: nat, m: nat, f: nat)
    requires 0 < f && m <= f
    ensures (n * f + m) / f == if m < f then n else n + 1
    ensures (n * f + m) % f == if m < f then m else 0
  {
    if m < f {
      Divides(n * f + m, f, n, m);
    } else {
      assert n * f + m == (n + 1) * f + 0;
      Divides(n * f + m, f, n + 1, 0);
    }
  }

  lemma Divides(a: nat, b: nat, q: nat, r: nat)
    requires a == q * b + r && r < b
    ensures a / b == q && a % b == r
  {
    var q', r' := a / b, a % b;
    assert a == q' * b + r';
    if q' < q { MulMonotone(q' + 1, q, b); } else if q < q' { MulMonotone(q + 1, q', b); }
  }

  lemma EvenMultiple(n: nat, f: nat)
    requires f % 2 == 0
    ensures n * f % 2 == 0
  {
    assert n * f == n * (f / 2) * 2;
  }

  lemma NearestFromParts(a: nat, b: nat, q: nat, r: nat)
    requires a == q * b + r && r < b
    ensures NearestInt(a, b) == if 2 * r < b || (2 * r == b && q % 2 == 0) then q else q + 1
  {
    Divides(a, b, q, r);
  }

  /** x / 100 in f parts of the last yuan: when rounding completes it. */
  lemma LastPart(whole: nat, x: nat, f: nat)
    requires x <= 99 * f && f > 0 && (whole % 2 == 0 || f == 1) && (f == 1 || f % 2 == 0)
    ensures
      var t, rest := x / 100, x % 100;
      var up := !(2 * rest < 100 || (2 * rest == 100 && (whole + t) % 2 == 0));
      t < f && (t + 1 == f && up <==> 100 * f - x < 50 || (100 * f - x == 50 && (f % 2 == 0 || whole % 2 == 1)))
  {
  }

  lemma FloorOfFraction(n: nat, r: nat, f: nat)
    requires r < 100 && f > 0 && (f == 1 || f % 2 == 0)
    ensures
      NearestInt((100 * n + r) * f, 100) / f == n
      <==> !((100 - r) * f < 50 || ((100 - r) * f == 50 && (f > 1 || n % 2 == 1)))
  {
    hide NearestInt;
    Distribute(n, r, f);
    FloorFromParts((100 * n + r) * f, n, n * f, r * f, f);
  }

  lemma Distribute(n: nat, r: nat, f: nat)
    requires r < 100
    ensures (100 * n + r) * f == 100 * (n * f) + r * f && (100 - r) * f == 100 * f - r * f && r * f <= 99 * f
  {
    MulMonotone(r, 99, f);
  }

  lemma FloorFromParts(a: nat, n: nat, whole: nat, x: nat, f: nat)
    requires whole == n * f && a == 100 * whole + x && x <= 99 * f && f > 0 && (f == 1 || f % 2 == 0)
    ensures NearestInt(a, 100) / f == n
       <==> !(100 * f - x < 50 || (100 * f - x == 50 && (f > 1 || n % 2 == 1)))
  {
    hide NearestInt;
    var t := x / 100;
    NearestFromParts(a, 100, whole + t, x % 100);
    if f > 1 { EvenMultiple(n, f); }
    LastPart(whole, x, f);
    WholePart(n, t, f);
    WholePart(n, t + 1, f);
  }

  lemma FloorOfMultiple(n: nat, r: nat, k: nat)
    requires r < 100 && k >= 2
    ensures NearestInt(100 * n + r, 100 * k) * k == n <==> n % k == 0
  {
    hide NearestInt;
    MultipleFromParts(n / k, n % k, r, k);
    assert n == n / k * k + n % k;
  }

  lemma MultipleFromParts(q: nat, d: nat, r: nat, k: nat)
    requires r < 100 && k >= 2 && d < k
    ensures NearestInt(100 * (q * k + d) + r, 100 * k) * k == q * k + d <==> d == 0
  {
    hide NearestInt;
    var a, b := 100 * (q * k + d) + r, 100 * k;
    assert a == q * b + (100 * d + r);
    NearestFromParts(a, b, q, 100 * d + r);
    assert (q + 1) * k == q * k + k;
  }

  /** What is read back is the rounded number of yuan with the exact fen. */
  lemma FenTextValue(fen: int, show: nat -> string)
    ensures
      var abs := if fen < 0 then -fen else fen;
      var value := 100 * Yuan(abs) + abs % 100;
      show(Yuan(abs)) == Decimal(Yuan(abs)) ==>
        ParseFen(FormatFen(fen, show)) == Some(if fen < 0 then -value else value)
  {
    hide Yuan, Decimal, ParseDecimal;
    var abs := if fen < 0 then -fen else fen;
    YuanParsesBack(Yuan(abs));
    DecimalIsNotEmpty(Yuan(abs));
    FenText(if fen < 0 then "-" else "", Decimal(Yuan(abs)), TwoDigits(abs % 100));
    TwoDigitsParseBack(abs % 100);
  }

  lemma DecimalIsNotEmpty(n: nat)
    ensures |Decimal(n)| >= 1
  {
  }

  /** A formatted amount is read back as the amount exactly when the division does not misround. The host must
      print that number of yuan in full, as it does every integer up to 2^53. */
  lemma FormatFenParsesBack(fen: int, show: nat -> string)
    ensures
      var abs := if fen < 0 then -fen else fen;
      show(Yuan(abs)) == Decimal(Yuan(abs)) ==> (ParseFen(FormatFen(fen, show)) == Some(fen) <==> !Misrounds(abs))
  {
    hide Yuan, Misrounds, FormatFen, ParseFen;
    FenTextValue(fen, show);
    YuanIsExact(if fen < 0 then -fen else fen);
  }

  // ---- the rounding against the doubles themselves ----

  function Distance(x: int, y: int): nat {
    if x < y then y - x else x - y
  }

  lemma NearestIsNearest(a: nat, b: nat, z: nat)
    requires b > 0
    ensures Distance(a, b * NearestInt(a, b)) <= Distance(a, b * z)
  {
    var q, r := a / b, a % b;
    assert a == b * q + r && b * (q + 1) == b * q + b;
    if z <= q { MulMonotone(z, q, b); } else { MulMonotone(q + 1, z, b); }
  }

  lemma {:induction false} PowerSum(base: nat, j: nat, k: nat)
    requires base > 0
    ensures Power(base, j + k) == Power(base, j) * Power(base, k)
  {
    if j == 0 {
    } else {
      PowerSum(base, j - 1, k);
      assert Power(base, j + k) == base * Power(base, j - 1 + k);
    }
  }

  lemma {:induction false} BitLengthBound(n: nat, k: nat)
    ensures BitLength(n) <= k <==> n < Power(2, k)
    decreases k
  {
    if n == 0 || k == 0 {
    } else {
      BitLengthBound(n / 2, k - 1);
      assert Power(2, k) == 2 * Power(2, k - 1);
    }
  }

  /** Scaling both sides of a comparison. */
  lemma Scaled(x: int, y: int, p: nat)
    ensures Distance(x, y) * p == Distance(x * p, y * p)
  {
  }

  /** From one yuan up, no double is nearer to abs / 100 than QuotientUnits * Scale / Fraction, of which Yuan is the
      floor. A double is m / 2^v with m of at most 53 bits, or an integer with trailing zeros beyond them; distances
      are compared after clearing denominators. */
  lemma QuotientIsNearestDouble(abs: nat, m: nat, v: nat)
    requires abs >= 100
    requires m <= TWO_53 || (v == 0 && (BitLength(abs / 100) <= 53 || DoubleInteger(m)))
    ensures
      Distance(abs * Fraction(abs), 100 * (QuotientUnits(abs) * Scale(abs))) * Power(2, v)
      <= Distance(abs * Power(2, v), 100 * m) * Fraction(abs)
  {
    hide NearestInt, Distance, BitLength, Power;
    var b := BitLength(abs / 100);
    if b > 53 {
      assert Fraction(abs) == 1 && abs * Fraction(abs) == abs && Scale(abs) == Power(2, b - 53);
      assert QuotientUnits(abs) == NearestInt(abs, 100 * Scale(abs));
      LongQuotient(abs, m, v, b);
    } else if v <= 53 - b {
      CoarserDouble(abs, m, v, 53 - b);
    } else {
      FinerDouble(abs, m, v, 53 - b);
    }
  }

  /** A quotient of 2^53 or more is rounded to a multiple of a power of two. */
  lemma LongQuotient(abs: nat, m: nat, v: nat, b: nat)
    requires BitLength(abs / 100) == b > 53
    requires m <= TWO_53 || (v == 0 && DoubleInteger(m))
    ensures
      var k := Power(2, b - 53);
      Distance(abs, 100 * (NearestInt(abs, 100 * k) * k)) * Power(2, v) <= Distance(abs * Power(2, v), 100 * m)
  {
    hide NearestInt, Distance, BitLength;
    var k, low := Power(2, b - 53), Power(2, b - 1);
    LowIsMultiple(b);
    assert low <= abs / 100 by { BitLengthBound(abs / 100, b - 1); }
    NearestMultiple(abs, k, Power(2, 52));
    if v == 0 && BitLength(m) >= b && m > TWO_53 {
      MultipleOfPower(m, BitLength(m) - 53, b - 53);
      assert m == m / k * k;
      NearestMultiple(abs, k, m / k);
    } else {
      assert m <= low by {
        if m > TWO_53 { BitLengthBound(m, b - 1); }
      }
      BelowLow(abs, m, low, Power(2, v), Distance(abs, 100 * (NearestInt(abs, 100 * k) * k)));
    }
  }

  lemma LowIsMultiple(b: nat)
    requires b > 53
    ensures Power(2, b - 1) == Power(2, 52) * Power(2, b - 53) && Power(2, b - 1) >= TWO_53
  {
    PowerSum(2, 52, b - 53);
    PowerSum(2, 53, b - 54);
    Power53();
    MulMonotone(1, Power(2, b - 54), TWO_53);
  }

  lemma NearestMultiple(abs: nat, k: nat, z: nat)
    requires k > 0
    ensures Distance(abs, 100 * (NearestInt(abs, 100 * k) * k)) <= Distance(abs, 100 * (z * k))
  {
    hide NearestInt, Distance;
    NearestIsNearest(abs, 100 * k, z);
    assert 100 * k * z == 100 * (z * k);
    assert 100 * k * NearestInt(abs, 100 * k) == 100 * (NearestInt(abs, 100 * k) * k);
  }

  lemma BelowLow(abs: nat, m: nat, low: nat, g: nat, near: nat)
    requires m <= low && 100 * low <= abs && g > 0 && near <= Distance(abs, 100 * low)
    ensures near * g <= Distance(abs * g, 100 * m)
  {
    MulMonotone(near, abs - 100 * low, g);
    MulMonotone(1, g, low);
    assert (abs - 100 * low) * g == abs * g - 100 * (low * g);
  }

  lemma CoarserDouble(abs: nat, m: nat, v: nat, u: nat)
    requires v <= u
    ensures
      Distance(abs * Power(2, u), 100 * NearestInt(abs * Power(2, u), 100)) * Power(2, v)
      <= Distance(abs * Power(2, v), 100 * m) * Power(2, u)
  {
    hide NearestInt, Distance;
    var f, g, p := Power(2, u), Power(2, v), Power(2, u - v);
    PowerSum(2, v, u - v);
    NearestIsNearest(abs * f, 100, m * p);
    CoarserGap(abs, m, g, p);
    var near, far := Distance(abs * f, 100 * NearestInt(abs * f, 100)), Distance(abs * g, 100 * m);
    MulMonotone(near, far * p, g);
    MulSwap(far, p, g);
  }

  lemma CoarserGap(abs: nat, m: nat, g: nat, p: nat)
    ensures Distance(abs * (g * p), 100 * (m * p)) == Distance(abs * g, 100 * m) * p
  {
    Scaled(abs * g, 100 * m, p);
    assert abs * g * p == abs * (g * p) && 100 * m * p == 100 * (m * p);
  }

  lemma MulSwap(a: int, b: int, c: int)
    ensures a * b * c == a * (c * b)
  {
  }

  lemma FinerDouble(abs: nat, m: nat, v: nat, u: nat)
    requires abs >= 100 && BitLength(abs / 100) + u == 53 && v > u && m <= TWO_53
    ensures
      Distance(abs * Power(2, u), 100 * NearestInt(abs * Power(2, u), 100)) * Power(2, v)
      <= Distance(abs * Power(2, v), 100 * m) * Power(2, u)
  {
    hide NearestInt, Distance;
    var f, g, p := Power(2, u), Power(2, v), Power(2, v - u);
    var t := f * Power(2, BitLength(abs / 100) - 1);
    PowerSum(2, v - u, u);
    PowerOfTwo(v - u);
    LowestOfItsLength(abs, u);
    MulMonotone(2, p, t);
    NearestIsNearest(abs * f, 100, t);
    FinerGap(abs, m, f, p, t, Distance(abs * f, 100 * NearestInt(abs * f, 100)));
  }

  /** The smallest double of the quotient's length, in its units: half of 2^53, and not above the quotient. */
  lemma LowestOfItsLength(abs: nat, u: nat)
    requires abs >= 100 && BitLength(abs / 100) + u == 53
    ensures
      var t := Power(2, u) * Power(2, BitLength(abs / 100) - 1);
      2 * t == TWO_53 && 100 * t <= abs * Power(2, u)
  {
    hide BitLength;
    var f, b := Power(2, u), BitLength(abs / 100);
    assert b > 0 by { BitLengthBound(abs / 100, 0); }
    var low := Power(2, b - 1);
    assert low <= abs / 100 by { BitLengthBound(abs / 100, b - 1); }
    assert f * (2 * low) == TWO_53 by { PowerSum(2, u, b); Power53(); }
    DoubleAndHundred(f, low);
    MulMonotone(100 * low, abs, f);
  }

  lemma DoubleAndHundred(f: nat, low: nat)
    ensures f * (2 * low) == 2 * (f * low) && 100 * low * f == 100 * (f * low)
  {
  }

  lemma FinerGap(abs: nat, m: nat, f: nat, p: nat, t: nat, near: nat)
    requires m <= p * t && 100 * t <= abs * f && near <= Distance(abs * f, 100 * t)
    ensures near * (p * f) <= Distance(abs * (p * f), 100 * m) * f
  {
    var c := abs * f - 100 * t;
    MulMonotone(near, c, p * f);
    assert c * (p * f) == c * p * f;
    assert c * p == abs * (p * f) - 100 * (p * t);
    MulMonotone(c * p, Distance(abs * (p * f), 100 * m), f);
  }

  lemma Power53()
    ensures Power(2, 53) == TWO_53
  {
    assert Power(2, 13) == 8192;
    assert Power(2, 26) == 67108864 by { PowerSum(2, 13, 13); }
    PowerSum(2, 26, 26);
    assert Power(2, 53) == 2 * Power(2, 52);
  }

  // ---- which amounts are safe ----

  const FIRST_MISREAD: nat := 100 * 0x2_0000_0000_0000 + 96

  /** An integer a double can hold. */
  predicate DoubleInteger(n: nat) {
    BitLength(n) <= 53 || n % Power(2, BitLength(n) - 53) == 0
  }

  /** Every amount below 2^53 fen is safe, and so is every integer double below 100 * 2^49 + 96. */
  lemma SafeAmounts(abs: nat)
    requires abs < TWO_53 || (abs < FIRST_MISREAD && DoubleInteger(abs))
    ensures !Misrounds(abs)
  {
    hide BitLength, DoubleInteger, Power, Misrounds;
    Powers();
    var b := BitLength(abs / 100);
    BitLengthBound(abs / 100, 47);
    BitLengthBound(abs / 100, 48);
    BitLengthBound(abs / 100, 49);
    BitLengthBound(abs / 100, 50);
    if b <= 47 {
      PowerSum(2, 6, 47 - b);
      MulMonotone(1, Power(2, 47 - b), 64);
    } else {
      FenOfDouble(abs, b - 47);
    }
    EnoughParts(abs, if b <= 47 then 64 else if b == 48 then 32 else if b == 49 then 16 else 8);
  }

  lemma EnoughParts(abs: nat, f: nat)
    requires BitLength(abs / 100) <= 53 && Fraction(abs) >= f
    requires (100 - abs % 100) * f > 50
    ensures !Misrounds(abs)
  {
    hide BitLength, Power;
    MulMonotone(f, Fraction(abs), 100 - abs % 100);
  }

  /** The fen of an integer double of 2^53 or more are even, of 2^54 or more a multiple of four, and next below the
      bound a multiple of eight. */
  lemma FenOfDouble(abs: nat, j: nat)
    requires DoubleInteger(abs) && 1 <= j <= 3
    requires if j == 1 then abs >= TWO_53 else if j == 2 then abs >= 2 * TWO_53
             else 100 * 0x2_0000_0000_0000 <= abs < FIRST_MISREAD
    ensures abs % 100 <= (if j == 1 then 98 else if j == 2 then 96 else 88)
  {
    hide BitLength, Power;
    Powers();
    BitLengthBound(abs, 53);
    BitLengthBound(abs, 54);
    BitLengthBound(abs, 55);
    MultipleOfPower(abs, BitLength(abs) - 53, j);
    FenOfMultiple(abs);
  }

  lemma FenOfMultiple(abs: nat)
    ensures abs % 2 == 0 ==> abs % 100 <= 98
    ensures abs % 4 == 0 ==> abs % 100 <= 96
    ensures abs % 8 == 0 && 100 * 0x2_0000_0000_0000 <= abs < FIRST_MISREAD ==> abs % 100 <= 88
  {
    if abs % 8 == 0 && 100 * 0x2_0000_0000_0000 <= abs < FIRST_MISREAD {
      LastFen(abs, abs / 8);
    }
  }

  lemma LastFen(abs: nat, eighth: nat)
    requires abs == 8 * eighth && 100 * 0x2_0000_0000_0000 <= abs < FIRST_MISREAD
    ensures abs % 100 <= 88
  {
    Divides(abs, 100, 0x2_0000_0000_0000, abs - 100 * 0x2_0000_0000_0000);
  }

  lemma Powers()
    ensures Power(2, 53) == TWO_53
    ensures Power(2, 54) == 2 * TWO_53 && Power(2, 55) == 4 * TWO_53 && Power(2, 56) == 8 * TWO_53
    ensures Power(2, 47) == 0x8000_0000_0000 && Power(2, 48) == 0x1_0000_0000_0000 && Power(2, 49) == 0x2_0000_0000_0000
    ensures Power(2, 50) == 0x4_0000_0000_0000
    ensures Power(2, 1) == 2 && Power(2, 2) == 4 && Power(2, 3) == 8
    ensures Power(2, 4) == 16 && Power(2, 5) == 32 && Power(2, 6) == 64
  {
    Power53();
    PowerSum(2, 4, 49);
    PowerSum(2, 5, 48);
    PowerSum(2, 6, 47);
  }

  lemma MultipleOfPower(n: nat, k: nat, j: nat)
    requires n % Power(2, k) == 0 && j <= k
    ensures n % Power(2, j) == 0
  {
    PowerSum(2, k - j, j);
    Multiple(n, Power(2, k - j), Power(2, j));
  }

  lemma Multiple(n: nat, a: nat, b: nat)
    requires a > 0 && b > 0 && n % (a * b) == 0
    ensures n % b == 0
  {
    var q := n / (a * b);
    assert n == q * (a * b);
    assert q * (a * b) == q * a * b;
    Divides(n, b, q * a, 0);
  }

  /** The bound is sharp: this amount is an integer double, and is printed one yuan too high. */
  lemma FirstMisreadAmount()
    ensures DoubleInteger(FIRST_MISREAD) && Misrounds(FIRST_MISREAD)
    ensures Yuan(FIRST_MISREAD) == FIRST_MISREAD / 100 + 1
  {
    hide BitLength;
    var abs := FIRST_MISREAD;
    Powers();
    BitLengthBound(abs / 100, 49);
    BitLengthBound(abs / 100, 50);
    BitLengthBound(abs, 55);
    BitLengthBound(abs, 56);
  }

  /** A host that prints integers up to 2^53 in full reads back every integer amount below 2^53 fen. */
  lemma SafeAmountsParseBack(fen: int, show: nat -> string)
    requires -0x20_0000_0000_0000 < fen < TWO_53
    requires forall n: nat :: n <= TWO_53 ==> show(n) == Decimal(n)
    ensures ParseFen(FormatFen(fen, show)) == Some(fen)
  {
    var abs := if fen < 0 then -fen else fen;
    SafeAmounts(abs);
    YuanIsExact(abs);
    FormatFenParsesBack(fen, show);
  }

  /** 2^60 fen are read back as 100 fen more. */
  lemma LargeAmountIsMisread(show: nat -> string)
    ensures show(11529215046068470) == Decimal(11529215046068470) ==>
              ParseFen(FormatFen(0x1000_0000_0000_0000, show)) == Some(0x1000_0000_0000_0000 + 100)
  {
    hide BitLength, Decimal, ParseFen, FormatFen, ParseDigits;
    var abs: nat := 0x1000_0000_0000_0000;
    Powers();
    BitLengthBound(abs / 100, 53);
    BitLengthBound(abs / 100, 54);
    assert Yuan(abs) == 11529215046068470;
    FenTextValue(abs, show);
  }

  /** Below 2^53 any nearest rounding to doubles gives these yuan: it is no lower than an integer the quotient has
      reached, and off by at most half of the spacing 1/64 of doubles of that size. */
  lemma RoundedQuotientHasTheSameFloor(abs: nat, rounded: real)
    requires abs < TWO_53
    requires rounded >= (abs / 100) as real
    requires -(1.0 / 128.0) <= rounded - abs as real / 100.0 <= 1.0 / 128.0
    ensures rounded.Floor == abs / 100 == Yuan(abs)
  {
    var q, r := abs / 100, abs % 100;
    assert abs as real / 100.0 == q as real + r as real / 100.0;
    assert r as real / 100.0 <= 0.99;
    assert q as real <= rounded < (q + 1) as real;
    SafeAmounts(abs);
    YuanIsExact(abs);
  }

  // ---- examples ----

  lemma DecimalExamples()
    ensures ItoaText(0) == "0" && ItoaText(7) == "7" && ItoaText(-120) == "-120"
  {
    assert Digits(1) == "1" && Digits(12) == "12" && Digits(120) == "120";
  }

  /** Amounts as the interface shows them. */
  lemma FormatFenExamples(show: nat -> string)
    ensures show(12) == "12" ==> FormatFen(1250, show) == "\U{A5}12.50" && FormatFen(-1205, show) == "-\U{A5}12.05"
    ensures show(0) == "0" ==> FormatFen(7, show) == "\U{A5}0.07"
  {
    hide Yuan, Misrounds, DoubleInteger, Decimal, Power;
    SafeAmounts(1250);
    SafeAmounts(1205);
    SafeAmounts(7);
    YuanIsExact(1250);
    YuanIsExact(1205);
    YuanIsExact(7);
  }
}

/** Command numbers: nanoseconds as twenty decimal digits, then a sequence number as at least six hexadecimal
    digits. */
module CommandNumbers {
  import opened Fees
  import opened Printing

  function HexChar(d: nat): char
    requires d < 16
  {
    if d < 10 then '0' + d as char else 'a' + (d - 10) as char
  }

  /** The low `width` digits of n, most significant first. */
  function Fixed(base: nat, width: nat, n: nat): (s: string)
    requires base == 10 || base == 16
    ensures |s| == width
    decreases width
  {
    if width == 0 then [] else Fixed(base, width - 1, n / base) + [HexChar(n % base)]
  }

  /** The digits a number needs. */
  function Width(base: nat, n: nat): nat
    requires base == 10 || base == 16
    decreases n
  {
    if n < base then 1 else 1 + Width(base, n / base)
  }

  /** Zero-padded to a minimum width, never cut. */
  function Padded(base: nat, width: nat, n: nat): string
    requires base == 10 || base == 16
  {
    Fixed(base, if Width(base, n) > width then Width(base, n) else width, n)
  }

  function CommandNo(nanos: nat, sequence: nat): string {
    Padded(10, 20, nanos) + Padded(16, 6, sequence)
  }

  /** Lexicographic order of strings of equal length. */
  predicate Before(a: string, b: string)
    requires |a| == |b|
    decreases |a|
  {
    |a| > 0 && (a[0] < b[0] || (a[0] == b[0] && Before(a[1..], b[1..])))
  }

  lemma {:induction false} WidthBound(base: nat, n: nat, k: nat)
    requires (base == 10 || base == 16) && k > 0
    ensures Width(base, n) <= k <==> n < Power(base, k)
    decreases k
  {
    if k > 1 && n >= base {
      WidthBound(base, n / base, k - 1);
      assert Power(base, k) == base * Power(base, k - 1);
      assert n / base < Power(base, k - 1) <==> n < base * Power(base, k - 1) by {
        DivisionBound(n, base, Power(base, k - 1));
      }
    } else if n < base {
      PowerGrows(base, k);
    }
  }

  lemma PowerGrows(base: nat, k: nat)
    requires base > 0 && k > 0
    ensures Power(base, k) >= base
  {
    assert Power(base, k) == base * Power(base, k - 1);
    MulMonotone(1, Power(base, k - 1), base);
  }

  lemma DivisionBound(n: nat, base: nat, p: nat)
    requires base > 0
    ensures n / base < p <==> n < base * p
  {
    var q, r := n / base, n % base;
    assert n == q * base + r;
    if q < p { MulMonotone(q + 1, p, base); } else { MulMonotone(p, q, base); }
  }

  /** Order on the last digit breaks ties on the rest. */
  lemma {:induction false} BeforeSnoc(a: string, b: string, x: char, y: char)
    requires |a| == |b|
    ensures Before(a + [x], b + [y]) <==> Before(a, b) || (a == b && x < y)
    decreases |a|
  {
    if |a| == 0 {
      assert a + [x] == [x] && b + [y] == [y];
    } else {
      assert (a + [x])[1..] == a[1..] + [x] && (b + [y])[1..] == b[1..] + [y];
      BeforeSnoc(a[1..], b[1..], x, y);
      assert a == [a[0]] + a[1..] && b == [b[0]] + b[1..];
    }
  }

  lemma {:induction false} BeforeConcat(a: string, b: string, c: string, d: string)
    requires |a| == |b| && |c| == |d|
    ensures Before(a + c, b + d) <==> Before(a, b) || (a == b && Before(c, d))
    decreases |a|
  {
    if |a| == 0 {
      assert a + c == c && b + d == d;
    } else {
      assert (a + c)[1..] == a[1..] + c && (b + d)[1..] == b[1..] + d;
      BeforeConcat(a[1..], b[1..], c, d);
      assert a == [a[0]] + a[1..] && b == [b[0]] + b[1..];
    }
  }

  lemma HexCharOrder(m: nat, n: nat)
    requires m < 16 && n < 16
    ensures HexChar(m) < HexChar(n) <==> m < n
    ensures HexChar(m) == HexChar(n) <==> m == n
  {
  }

  /** Fixed-width digits compare as the numbers do. */
  lemma {:induction false} FixedOrder(base: nat, width: nat, m: nat, n: nat)
    requires (base == 10 || base == 16) && m < Power(base, width) && n < Power(base, width)
    ensures Before(Fixed(base, width, m), Fixed(base, width, n)) <==> m < n
    ensures Fixed(base, width, m) == Fixed(base, width, n) <==> m == n
    decreases width
  {
    hide HexChar;
    if width == 0 {
    } else {
      DivisionBound(m, base, Power(base, width - 1));
      DivisionBound(n, base, Power(base, width - 1));
      FixedOrder(base, width - 1, m / base, n / base);
      var x, y := HexChar(m % base), HexChar(n % base);
      BeforeSnoc(Fixed(base, width - 1, m / base), Fixed(base, width - 1, n / base), x, y);
      HexCharOrder(m % base, n % base);
      assert Fixed(base, width, m)[..width - 1] == Fixed(base, width - 1, m / base);
      assert Fixed(base, width, n)[..width - 1] == Fixed(base, width - 1, n / base);
      assert Fixed(base, width, m)[width - 1] == x && Fixed(base, width, n)[width - 1] == y;
      if m / base == n / base {
        assert m == base * (m / base) + m % base && n == base * (n / base) + n % base;
      }
    }
  }

  const TWO_24: nat := 0x100_0000

  lemma Bounds(nanos: nat, sequence: nat)
    requires nanos < TWO_63
    ensures Width(10, nanos) <= 20 && nanos < Power(10, 20)
    ensures Width(16, sequence) <= 6 <==> sequence < TWO_24
    ensures Power(16, 6) == TWO_24
  {
    assert Power(10, 5) == 100_000;
    assert Power(10, 10) == 10_000_000_000;
    assert Power(10, 15) == 1_000_000_000_000_000;
    assert Power(10, 20) == 100_000_000_000_000_000_000;
    assert Power(16, 3) == 4096;
    assert Power(16, 6) == 0x100_0000;
    WidthBound(10, nanos, 20);
    WidthBound(16, sequence, 6);
  }

  /** A number fills its CHAR(26) column exactly for as long as the sequence fits six hexadecimal digits. */
  lemma CommandNoFitsColumn(nanos: nat, sequence: nat)
    requires nanos < TWO_63
    ensures |CommandNo(nanos, sequence)| == 26 <==> sequence < TWO_24
  {
    Bounds(nanos, sequence);
  }

  /** While they fit, numbers are distinct for distinct (time, sequence) pairs and sort as the pairs do. */
  lemma CommandNosOrderAsIssued(t1: nat, q1: nat, t2: nat, q2: nat)
    requires t1 < TWO_63 && t2 < TWO_63 && q1 < TWO_24 && q2 < TWO_24
    ensures |CommandNo(t1, q1)| == |CommandNo(t2, q2)| == 26
    ensures CommandNo(t1, q1) == CommandNo(t2, q2) <==> t1 == t2 && q1 == q2
    ensures Before(CommandNo(t1, q1), CommandNo(t2, q2)) <==> t1 < t2 || (t1 == t2 && q1 < q2)
  {
    Bounds(t1, q1);
    Bounds(t2, q2);
    var a, b, c, d := Fixed(10, 20, t1), Fixed(10, 20, t2), Fixed(16, 6, q1), Fixed(16, 6, q2);
    FixedOrder(10, 20, t1, t2);
    FixedOrder(16, 6, q1, q2);
    BeforeConcat(a, b, c, d);
    assert CommandNo(t1, q1)[..20] == a && CommandNo(t1, q1)[20..] == c;
    assert CommandNo(t2, q2)[..20] == b && CommandNo(t2, q2)[20..] == d;
  }

  lemma PaddedOnce(base: nat, width: nat, m: nat, n: nat)
    requires (base == 10 || base == 16) && width > 0
    ensures Padded(base, width, m) == Padded(base, width, n) <==> m == n
  {
    if Padded(base, width, m) == Padded(base, width, n) {
      var k := |Padded(base, width, m)|;
      assert k == |Padded(base, width, n)|;
      WidthBound(base, m, k);
      WidthBound(base, n, k);
      FixedOrder(base, k, m, n);
    }
  }

  /** Even when they no longer fit, equal numbers come from equal pairs. */
  lemma CommandNosOnce(t1: nat, q1: nat, t2: nat, q2: nat)
    requires t1 < TWO_63 && t2 < TWO_63
    ensures CommandNo(t1, q1) == CommandNo(t2, q2) <==> t1 == t2 && q1 == q2
  {
    Bounds(t1, q1);
    Bounds(t2, q2);
    PaddedOnce(10, 20, t1, t2);
    PaddedOnce(16, 6, q1, q2);
    assert CommandNo(t1, q1)[..20] == Padded(10, 20, t1) && CommandNo(t1, q1)[20..] == Padded(16, 6, q1);
    assert CommandNo(t2, q2)[..20] == Padded(10, 20, t2) && CommandNo(t2, q2)[20..] == Padded(16, 6, q2);
  }

  /** The i-th number a process issues: the counter, incremented first, wraps in 64 bits. */
  function Issue(readings: seq<nat>, i: nat): string
    requires i < |readings|
  {
    CommandNo(readings[i], (i + 1) % TWO_64)
  }

  /** Numbers from one process never collide before its counter wraps, whatever its clock reads; and while they fit
      their column, one issued later at a reading not earlier sorts later. */
  lemma IssuedNumbersDiffer(readings: seq<nat>, i: nat, j: nat)
    requires i < j < |readings| && j < TWO_64 && readings[i] < TWO_63 && readings[j] < TWO_63
    ensures Issue(readings, i) != Issue(readings, j)
    ensures j + 1 < TWO_24 ==> |Issue(readings, i)| == |Issue(readings, j)| == 26
    ensures j + 1 < TWO_24 && readings[i] <= readings[j] ==> Before(Issue(readings, i), Issue(readings, j))
  {
    hide CommandNo, Before;
    assert (i + 1) % TWO_64 == i + 1;
    CommandNosOnce(readings[i], (i + 1) % TWO_64, readings[j], (j + 1) % TWO_64);
    if j + 1 < TWO_24 {
      CommandNosOrderAsIssued(readings[i], i + 1, readings[j], j + 1);
    }
  }

  /** Twenty decimal digits and six or more lower-case hexadecimal ones. */
  lemma CommandNoExamples()
    ensures CommandNo(42, 1) == "00000000000000000042000001"
    ensures CommandNo(0, 0xbeef) == "0000000000000000000000beef"
    ensures CommandNo(0, 0x100_0000) == "000000000000000000001000000"
  {
    TimeExamples();
    SequenceExamples();
    hide Fixed, Width;
  }

  lemma TimeExamples()
    ensures Padded(10, 20, 0) == "00000000000000000000" && Padded(10, 20, 42) == "00000000000000000042"
  {
    assert Fixed(10, 6, 0) == "000000" by { assert Fixed(10, 3, 0) == "000"; }
    assert Fixed(10, 12, 0) == "000000000000" by { assert Fixed(10, 9, 0) == "000000000"; }
    assert Fixed(10, 18, 0) == "000000000000000000" by { assert Fixed(10, 15, 0) == "000000000000000"; }
    assert Fixed(10, 19, 4) == "0000000000000000004";
    assert Width(10, 42) == 2;
  }

  lemma SequenceExamples()
    ensures Padded(16, 6, 1) == "000001" && Padded(16, 6, 0xbeef) == "00beef"
    ensures Padded(16, 6, 0x100_0000) == "1000000"
  {
    assert Fixed(16, 3, 0) == "000";
    assert Fixed(16, 4, 0xbe) == "00be" by { assert Fixed(16, 3, 0xb) == "00b"; }
    assert Fixed(16, 4, 0x1000) == "1000" by { assert Fixed(16, 2, 0x10) == "10"; }
    assert Width(16, 0xbeef) == 4 by { assert Width(16, 0xbe) == 2; }
    assert Width(16, 0x100_0000) == 7 by { assert Width(16, 0x1000) == 4; }
  }

  /** The counter behind nextCommandNo, with the history of its clock readings. */
  class Numbering {
    var sequence: nat
    ghost var readings: seq<nat>

    ghost predicate Valid()
      reads this
    {
      sequence == |readings| % TWO_64 && forall i :: 0 <= i < |readings| ==> readings[i] < TWO_63
    }

    constructor ()
      ensures Valid() && readings == []
    {
      sequence := 0;
      readings := [];
    }

    /** Increments the 64-bit counter first, then stamps the number with the clock. The number is new, and while
        numbers fit their column it sorts after all issued at earlier or equal readings. */
    method NextCommandNo(nanos: nat) returns (no: string)
      requires Valid() && nanos < TWO_63
      modifies this
      ensures Valid() && readings == old(readings) + [nanos] && no == Issue(readings, |readings| - 1)
      ensures |readings| <= TWO_64 ==> forall i :: 0 <= i < |readings| - 1 ==> Issue(readings, i) != no
      ensures |readings| < TWO_24 ==>
                |no| == 26
                && forall i :: 0 <= i < |readings| - 1 && readings[i] <= nanos ==>
                     |Issue(readings, i)| == 26 && Before(Issue(readings, i), no)
    {
      hide CommandNo, Before;
      CounterWraps(|readings|);
      sequence := (sequence + 1) % TWO_64;
      no := CommandNo(nanos, sequence);
      readings := readings + [nanos];
      LastIssued(readings);
    }
  }

  lemma CounterWraps(n: nat)
    ensures (n % TWO_64 + 1) % TWO_64 == (n + 1) % TWO_64
  {
  }

  lemma LastIssued(readings: seq<nat>)
    requires readings != [] && forall i :: 0 <= i < |readings| ==> readings[i] < TWO_63
    ensures
      var last := |readings| - 1;
      && (|readings| <= TWO_64 ==> forall i :: 0 <= i < last ==> Issue(readings, i) != Issue(readings, last))
      && (|readings| < TWO_24 ==>
            && |Issue(readings, last)| == 26
            && forall i :: 0 <= i < last && readings[i] <= readings[last] ==>
                 |Issue(readings, i)| == 26 && Before(Issue(readings, i), Issue(readings, last)))
  {
    hide Before;
    var last := |readings| - 1;
    if |readings| < TWO_24 {
      assert (last + 1) % TWO_64 == last + 1;
      CommandNoFitsColumn(readings[last], last + 1);
    }
    hide *;
    forall i | 0 <= i < last && |readings| <= TWO_64
      ensures Issue(readings, i) != Issue(readings, last)
      ensures |readings| < TWO_24 ==> |Issue(readings, i)| == 26
      ensures |readings| < TWO_24 && readings[i] <= readings[last] ==>
                Before(Issue(readings, i), Issue(readings, last))
    {
      IssuedNumbersDiffer(readings, i, last);
    }
  }
}
