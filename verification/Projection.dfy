// Compound projection of a holding (backend/src/services/vault.ts): the mean
// yield per share in 18 decimals, compounded epoch by epoch with truncation,
// and the decimal text the result is returned as.
module Projection {
  import opened Common
  import opened Arithmetic

  const Decimals: int := 1_000_000_000_000_000_000

  datatype EpochRow = EpochRow(yieldAmount: int, totalShares: int)

  function PerShare(row: EpochRow): int {
    if row.totalShares > 0 then Trunc(row.yieldAmount * Decimals, row.totalShares) else 0
  }

  function SumPerShare(rows: seq<EpochRow>): int {
    if rows == [] then 0 else SumPerShare(rows[..|rows| - 1]) + PerShare(rows[|rows| - 1])
  }

  // The mean yield per share of the epochs.
  function MeanYield(rows: seq<EpochRow>): int
    requires rows != []
  {
    Trunc(SumPerShare(rows), |rows|)
  }

  // The value after n epochs, each multiplying by a / d and truncating.
  function Compounded(p: int, a: int, d: int, n: nat): int
    requires d > 0
  {
    if n == 0 then p else Trunc(Compounded(p, a, d, n - 1) * a, d)
  }

  // None when the vault has no epochs.
  method GetCompoundProjection(rows: seq<EpochRow>, shares: int, epochs: nat) returns (r: Option<(string, string)>)
    ensures r.None? <==> rows == []
    ensures rows != [] ==>
              var value := Compounded(shares, Decimals + MeanYield(rows), Decimals, epochs);
              r == Some((Format(value), Format(value - shares)))
  {
    if rows == [] {
      return None;
    }
    var sum := SumYields(rows);
    var average := Trunc(sum, |rows|);
    var projected := Compound(shares, Decimals + average, Decimals, epochs);
    r := Some((Format(projected), Format(projected - shares)));
  }

  method SumYields(rows: seq<EpochRow>) returns (sum: int)
    ensures sum == SumPerShare(rows)
  {
    sum := 0;
    for i := 0 to |rows|
      invariant sum == SumPerShare(rows[..i])
    {
      assert rows[..i + 1][..i] == rows[..i];
      if rows[i].totalShares > 0 {
        sum := sum + Trunc(rows[i].yieldAmount * Decimals, rows[i].totalShares);
      }
    }
    assert rows[..|rows|] == rows;
  }

  method Compound(principal: int, a: int, d: int, epochs: nat) returns (projected: int)
    requires d > 0
    ensures projected == Compounded(principal, a, d, epochs)
  {
    projected := principal;
    for i := 0 to epochs
      invariant projected == Compounded(principal, a, d, i)
    {
      projected := Trunc(projected * a, d);
    }
  }

  // --------------------------------------------------------- the mean yield

  // What an epoch really yields per share; nothing without shares.
  function TrueYield(row: EpochRow): real {
    if row.totalShares > 0 then (row.yieldAmount * Decimals) as real / row.totalShares as real else 0.0
  }

  function TrueSum(rows: seq<EpochRow>): real {
    if rows == [] then 0.0 else TrueSum(rows[..|rows| - 1]) + TrueYield(rows[|rows| - 1])
  }

  lemma QuotientBounds(x: int, d: int)
    requires x >= 0 && d > 0
    ensures Trunc(x, d) as real <= x as real / d as real < Trunc(x, d) as real + 1.0
  {
    TruncBounds(x, d);
    assert (d * Trunc(x, d)) as real == d as real * Trunc(x, d) as real;
    DivisionBetween(x as real, d as real, Trunc(x, d) as real);
  }

  lemma DivisionBetween(x: real, d: real, q: real)
    requires d > 0.0 && d * q <= x < d * q + d
    ensures q <= x / d < q + 1.0
  {
    var t := x / d;
    assert d * t == x;
    if t < q {
      RealTimes(d, t, q);
    }
    if q + 1.0 <= t {
      assert d * (q + 1.0) == d * q + d;
      if q + 1.0 < t {
        RealTimes(d, q + 1.0, t);
      }
    }
  }

  lemma RealTimes(d: real, a: real, b: real)
    requires d > 0.0 && a < b
    ensures d * a < d * b
  {
    assert d * (b - a) > 0.0;
  }

  lemma PerShareTrails(row: EpochRow)
    requires row.yieldAmount >= 0
    ensures PerShare(row) as real <= TrueYield(row) < PerShare(row) as real + 1.0
  {
    if row.totalShares > 0 {
      QuotientBounds(row.yieldAmount * Decimals, row.totalShares);
    }
  }

  lemma {:induction false} SumTrails(rows: seq<EpochRow>)
    requires forall i :: 0 <= i < |rows| ==> rows[i].yieldAmount >= 0
    ensures SumPerShare(rows) as real <= TrueSum(rows) <= SumPerShare(rows) as real + |rows| as real
    ensures rows != [] ==> TrueSum(rows) < SumPerShare(rows) as real + |rows| as real
    ensures SumPerShare(rows) >= 0
  {
    if rows != [] {
      SumTrails(rows[..|rows| - 1]);
      PerShareTrails(rows[|rows| - 1]);
      if rows[|rows| - 1].totalShares > 0 {
        NonNegativeQuotient(rows[|rows| - 1].yieldAmount * Decimals, rows[|rows| - 1].totalShares);
      }
    }
  }

  // `mean` is at most t / n, and less than two units below it.
  predicate Trails(mean: int, t: real, n: int) {
    mean as real * n as real <= t < (mean as real + 2.0) * n as real
  }

  // The mean the projection compounds is below the true mean by less than two
  // units of the last decimal, epochs without shares counting as nothing.
  lemma MeanYieldTrails(rows: seq<EpochRow>)
    requires rows != [] && forall i :: 0 <= i < |rows| ==> rows[i].yieldAmount >= 0
    ensures Trails(MeanYield(rows), TrueSum(rows), |rows|)
  {
    SumTrails(rows);
    MeanBounds(rows);
    MeanOfSum(TrueSum(rows), SumPerShare(rows), |rows|, MeanYield(rows));
  }

  function Mirrored(rows: seq<EpochRow>): seq<EpochRow> {
    seq(|rows|, i requires 0 <= i < |rows| => EpochRow(-rows[i].yieldAmount, rows[i].totalShares))
  }

  // Losses mirror gains.
  lemma MeanYieldIsOdd(rows: seq<EpochRow>)
    requires rows != []
    ensures MeanYield(Mirrored(rows)) == -MeanYield(rows)
  {
    SumIsOdd(rows);
    TruncOdd(SumPerShare(rows), |rows|);
  }

  lemma {:induction false} SumIsOdd(rows: seq<EpochRow>)
    ensures SumPerShare(Mirrored(rows)) == -SumPerShare(rows)
  {
    if rows != [] {
      var init, last := rows[..|rows| - 1], rows[|rows| - 1];
      SumIsOdd(init);
      assert Mirrored(rows)[..|rows| - 1] == Mirrored(init);
      if last.totalShares > 0 {
        TruncOdd(last.yieldAmount * Decimals, last.totalShares);
      }
    }
  }

  lemma MeanBounds(rows: seq<EpochRow>)
    requires rows != [] && SumPerShare(rows) >= 0
    ensures |rows| * MeanYield(rows) <= SumPerShare(rows) <= |rows| * MeanYield(rows) + |rows| - 1
  {
    TruncBounds(SumPerShare(rows), |rows|);
  }

  lemma MeanOfSum(t: real, s: int, n: int, mean: int)
    requires s as real <= t < s as real + n as real && n * mean <= s <= n * mean + n - 1
    ensures Trails(mean, t, n)
  {
    InReals(n, mean);
    Between(t, s as real, (n * mean) as real, n as real);
  }

  lemma Between(t: real, s: real, low: real, n: real)
    requires s <= t < s + n && low <= s <= low + n - 1.0
    ensures low <= t < low + 2.0 * n
  {}

  lemma InReals(n: int, mean: int)
    ensures (n * mean) as real == mean as real * n as real
    ensures (mean as real + 2.0) * n as real == (n * mean) as real + 2.0 * n as real
  {}

  // ------------------------------------------------------------ the bound

  function Pow(b: int, n: nat): int {
    if n == 0 then 1 else b * Pow(b, n - 1)
  }

  // Σ_{i<n} a^(n−1−i)·d^i
  function Geometric(a: int, d: int, n: nat): int {
    if n == 0 then 0 else a * Geometric(a, d, n - 1) + Pow(d, n - 1)
  }

  lemma {:induction false} GeometricClosed(a: int, d: int, n: nat)
    ensures (a - d) * Geometric(a, d, n) == Pow(a, n) - Pow(d, n)
  {
    if n > 0 {
      var g := Geometric(a, d, n - 1);
      GeometricClosed(a, d, n - 1);
      ClosedStep(a, d, g, Pow(a, n - 1), Pow(d, n - 1));
    }
  }

  lemma ClosedStep(a: int, d: int, g: int, x: int, y: int)
    requires (a - d) * g == x - y
    ensures (a - d) * (a * g + y) == a * x - d * y
  {
    assert (a - d) * (a * g + y) == a * ((a - d) * g) + (a - d) * y;
    assert a * (x - y) == a * x - a * y;
    assert (a - d) * y == a * y - d * y;
  }

  lemma {:induction false} PowSign(b: int, n: nat)
    requires b >= 0
    ensures Pow(b, n) >= 0 && (b > 0 ==> Pow(b, n) > 0)
  {
    if n > 0 {
      PowSign(b, n - 1);
      ProductSign(b, Pow(b, n - 1));
    }
  }

  // Truncation loses at most (d−1)·Σ a^(n−1−i)·d^i of p·a^n, and gains nothing.
  lemma {:induction false} CompoundedBounds(p: int, a: int, d: int, n: nat)
    requires p >= 0 && a >= 0 && d > 0
    ensures 0 <= Compounded(p, a, d, n)
    ensures var exact, got := p * Pow(a, n), Compounded(p, a, d, n) * Pow(d, n);
            exact - (d - 1) * Geometric(a, d, n) <= got <= exact
  {
    if n > 0 {
      var v := Compounded(p, a, d, n - 1);
      CompoundedBounds(p, a, d, n - 1);
      ProductSign(v, a);
      TruncBounds(v * a, d);
      PowSign(d, n - 1);
      assert Compounded(p, a, d, n) >= 0 by { NonNegativeQuotient(v * a, d); }
      BoundStep(p * Pow(a, n - 1), v, Trunc(v * a, d), a, d, Pow(d, n - 1), Geometric(a, d, n - 1));
      assert p * Pow(a, n) == a * (p * Pow(a, n - 1)) by { Rearranged(p, a, Pow(a, n - 1)); }
    }
  }

  lemma NonNegativeQuotient(x: int, d: int)
    requires x >= 0 && d > 0
    ensures Trunc(x, d) >= 0
  {}

  lemma Rearranged(p: int, a: int, x: int)
    ensures p * (a * x) == a * (p * x)
  {}

  lemma BoundStep(exact: int, v: int, w: int, a: int, d: int, y: int, g: int)
    requires a >= 0 && d > 0 && y >= 0
    requires d * w <= v * a <= d * w + d - 1
    requires exact - (d - 1) * g <= v * y <= exact
    ensures a * exact - (d - 1) * (a * g + y) <= w * (d * y) <= a * exact
  {
    assert w * (d * y) == y * (d * w);
    MulLe(y, d * w, v * a);
    MulLe(y, v * a, d * w + d - 1);
    assert y * (d * w + d - 1) == y * (d * w) + (d - 1) * y;
    assert y * (v * a) == a * (v * y);
    MulLe(a, v * y, exact);
    MulLe(a, exact - (d - 1) * g, v * y);
    assert a * (exact - (d - 1) * g) == a * exact - (d - 1) * (a * g);
    assert (d - 1) * (a * g + y) == (d - 1) * (a * g) + (d - 1) * y;
  }

  // One epoch is exact up to the last decimal, and the bound is reached.
  lemma BoundIsReached()
    ensures var p := Decimals - 1;
            Compounded(p, Decimals + 1, Decimals, 1) * Pow(Decimals, 1)
            == p * Pow(Decimals + 1, 1) - (Decimals - 1) * Geometric(Decimals + 1, Decimals, 1)
  {
    var p := Decimals - 1;
    assert Compounded(p, Decimals + 1, Decimals, 0) == p;
    assert p * (Decimals + 1) == Decimals * p + p;
    assert Trunc(p * (Decimals + 1), Decimals) == p;
    assert Pow(Decimals, 1) == Decimals && Pow(Decimals + 1, 1) == Decimals + 1;
    assert Geometric(Decimals + 1, Decimals, 0) == 0 && Geometric(Decimals + 1, Decimals, 1) == 1;
  }

  // --------------------------------------------------------- monotonicity

  // A larger holding never projects to less.
  lemma {:induction false} MonotoneInPrincipal(p: int, q: int, a: int, d: int, n: nat)
    requires p <= q && a >= 0 && d > 0
    ensures Compounded(p, a, d, n) <= Compounded(q, a, d, n)
  {
    if n > 0 {
      var v, w := Compounded(p, a, d, n - 1), Compounded(q, a, d, n - 1);
      MonotoneInPrincipal(p, q, a, d, n - 1);
      MulLe(a, v, w);
      assert a * v == v * a && a * w == w * a;
      TruncMonotone(v * a, w * a, d);
    }
  }

  // With a yield that is not negative, every epoch adds at least the first
  // epoch's simple interest.
  lemma {:induction false} AtLeastSimpleInterest(p: int, r: int, d: int, n: nat)
    requires p >= 0 && r >= 0 && d > 0
    ensures Compounded(p, d + r, d, n) >= p + n * (p * r / d)
    ensures n > 0 ==> Compounded(p, d + r, d, n) >= Compounded(p, d + r, d, n - 1)
  {
    if n > 0 {
      var v := Compounded(p, d + r, d, n - 1);
      AtLeastSimpleInterest(p, r, d, n - 1);
      QuotientSign(p * r, d, p, r);
      StillPositive(p, n - 1, p * r / d);
      OneEpochMore(p, v, r, d);
      assert n * (p * r / d) == (n - 1) * (p * r / d) + p * r / d;
    }
  }

  lemma OneEpochMore(p: int, v: int, r: int, d: int)
    requires 0 <= p <= v && r >= 0 && d > 0
    ensures Trunc(v * (d + r), d) >= v + p * r / d && Trunc(v * (d + r), d) >= v
  {
    QuotientSign(p * r, d, p, r);
    QuotientSign(v * r, d, v, r);
    assert v * (d + r) == v * d + v * r;
    WholePart(v, v * r, d);
    MulLe(r, p, v);
    assert r * p == p * r && r * v == v * r;
    DivMonotone(p * r, v * r, d);
  }

  lemma StillPositive(p: int, n: nat, i: int)
    requires p >= 0 && i >= 0
    ensures p + n * i >= p
  {
    ProductSign(n, i);
  }

  lemma QuotientSign(x: int, d: int, a: int, b: int)
    requires x == a * b && a >= 0 && b >= 0 && d > 0
    ensures x >= 0 && x / d >= 0
  {
    ProductSign(a, b);
  }

  lemma WholePart(v: int, x: int, d: int)
    requires v >= 0 && x >= 0 && d > 0
    ensures v * d + x >= 0 && Trunc(v * d + x, d) == v + x / d
  {
    ProductSign(v, d);
    var q := (v * d + x) / d;
    assert d * q + (v * d + x) % d == v * d + x;
    assert d * (x / d) + x % d == x;
    Unique(d, q - v, x / d, (v * d + x) % d, x % d);
  }

  lemma Unique(d: int, q: int, q': int, r: int, r': int)
    requires d > 0 && 0 <= r < d && 0 <= r' < d
    requires d * (q - q') == r' - r
    ensures q == q'
  {
    Negated(d, q - q');
    if q > q' {
      MulLe(d, 1, q - q');
    } else if q < q' {
      MulLe(d, 1, -(q - q'));
    }
  }

  lemma Negated(a: int, b: int)
    ensures a * -b == -(a * b)
  {}

  // A debt compounds like the holding it mirrors.
  lemma {:induction false} OddInPrincipal(p: int, a: int, d: int, n: nat)
    requires d > 0
    ensures Compounded(-p, a, d, n) == -Compounded(p, a, d, n)
  {
    if n > 0 {
      OddInPrincipal(p, a, d, n - 1);
      OddStep(Compounded(p, a, d, n - 1), a, d);
    }
  }

  lemma OddStep(v: int, a: int, d: int)
    requires d > 0
    ensures Trunc(-v * a, d) == -Trunc(v * a, d)
  {
    NegatedLeft(v, a);
    TruncOdd(v * a, d);
  }

  lemma NegatedLeft(v: int, a: int)
    ensures -v * a == -(v * a)
  {}

  lemma TruncOdd(x: int, d: int)
    requires d > 0
    ensures Trunc(-x, d) == -Trunc(x, d)
  {
    ZeroQuotient(d);
  }

  // ------------------------------------------------------- the decimal text

  function Digit(n: nat): char
    requires n < 10
  {
    '0' + n as char
  }

  function Digits(n: nat): (s: string)
    ensures |s| >= 1
  {
    if n < 10 then [Digit(n)] else Digits(n / 10) + [Digit(n % 10)]
  }

  function IntText(v: int): string {
    if v >= 0 then Digits(v) else "-" + Digits(-v)
  }

  function Zeros(n: nat): (s: string)
    ensures |s| == n && forall i :: 0 <= i < n ==> s[i] == '0'
  {
    if n == 0 then "" else "0" + Zeros(n - 1)
  }

  // padStart(19, "0")
  function Pad(s: string): (r: string)
    ensures |r| >= 19
  {
    if |s| < 19 then Zeros(19 - |s|) + s else s
  }

  // The last 18 characters follow the point.
  function WithPoint(s: string): string
    requires |s| >= 18
  {
    s[..|s| - 18] + "." + s[|s| - 18..]
  }

  function Format(v: int): string { WithPoint(Pad(IntText(v))) }

  predicate IsDigit(c: char) { '0' <= c <= '9' }

  predicate AllDigits(s: string) { forall i :: 0 <= i < |s| ==> IsDigit(s[i]) }

  function Value(s: string): nat
    requires AllDigits(s)
  {
    if s == "" then 0 else 10 * Value(s[..|s| - 1]) + (s[|s| - 1] - '0') as nat
  }

  // A decimal: an optional sign, digits, a point and 18 digits.
  function Read(s: string): Option<int> {
    if |s| < 20 || s[|s| - 19] != '.' then None
    else
      var negative := s[0] == '-';
      var whole := s[if negative then 1 else 0..|s| - 19];
      var fraction := s[|s| - 18..];
      if whole == "" || !AllDigits(whole) || !AllDigits(fraction) then None
      else
        var v := Value(whole) * Decimals + Value(fraction);
        Some(if negative then -v else v)
  }

  lemma {:induction false} DigitsValue(n: nat)
    ensures AllDigits(Digits(n)) && Value(Digits(n)) == n
  {
    if n < 10 {
      assert Digits(n)[..0] == "";
      assert Value("") == 0;
    } else {
      DigitsValue(n / 10);
      assert Digits(n)[..|Digits(n)| - 1] == Digits(n / 10);
    }
  }

  lemma {:induction false} ZerosValue(k: nat, s: string)
    requires AllDigits(s)
    ensures AllDigits(Zeros(k) + s) && Value(Zeros(k) + s) == Value(s)
    decreases |s|, k
  {
    var t := Zeros(k) + s;
    if s != "" {
      ZerosValue(k, s[..|s| - 1]);
      assert t[..|t| - 1] == Zeros(k) + s[..|s| - 1];
    } else if k > 0 {
      ZerosValue(k - 1, "");
      assert t == Zeros(k) && Zeros(k - 1) + "" == Zeros(k - 1);
      assert t[..k - 1] == Zeros(k - 1);
    }
  }

  lemma {:induction false} ValueSplits(a: string, b: string)
    requires AllDigits(a) && AllDigits(b)
    ensures AllDigits(a + b) && Value(a + b) == Value(a) * Pow(10, |b|) + Value(b)
    decreases |b|
  {
    if b == "" {
      assert a + b == a;
    } else {
      var init, last := b[..|b| - 1], b[|b| - 1];
      ValueSplits(a, init);
      OneDigitMore(a + init, last);
      assert a + b == a + init + [last] && b == init + [last];
      OneDigitMore(init, last);
      Rearranged(Value(a), 10, Pow(10, |init|));
    }
  }

  lemma OneDigitMore(s: string, c: char)
    requires AllDigits(s) && IsDigit(c)
    ensures AllDigits(s + [c]) && Value(s + [c]) == 10 * Value(s) + (c - '0') as nat
  {
    assert (s + [c])[..|s|] == s;
  }

  lemma EighteenDecimals()
    ensures Pow(10, 18) == Decimals
  {
    assert Pow(10, 6) == 1_000_000;
    PowAdds(10, 6, 6);
    PowAdds(10, 12, 6);
  }

  lemma {:induction false} PowAdds(b: int, m: nat, n: nat)
    ensures Pow(b, m + n) == Pow(b, m) * Pow(b, n)
  {
    if m > 0 {
      PowAdds(b, m - 1, n);
    }
  }

  lemma Slices(sign: string, whole: string, fraction: string)
    requires |fraction| == 18 && |whole| >= 1
    ensures var t := sign + whole + "." + fraction;
            |t| == |sign| + |whole| + 19 && t[|t| - 19] == '.' && t[|t| - 18..] == fraction
            && t[|sign|..|t| - 19] == whole && t[0] == if sign == "" then whole[0] else sign[0]
  {}

  lemma ReadsParts(negative: bool, whole: string, fraction: string)
    requires |fraction| == 18 && |whole| >= 1 && AllDigits(whole) && AllDigits(fraction)
    ensures var v := Value(whole) * Decimals + Value(fraction);
            Read((if negative then "-" else "") + whole + "." + fraction) == Some(if negative then -v else v)
  {
    var sign := if negative then "-" else "";
    Slices(sign, whole, fraction);
    assert IsDigit(whole[0]);
    ReadSlices(sign + whole + "." + fraction, negative, whole, fraction);
  }

  lemma ReadSlices(t: string, negative: bool, whole: string, fraction: string)
    requires |t| >= 20 && t[|t| - 19] == '.' && t[|t| - 18..] == fraction && (t[0] == '-' <==> negative)
    requires t[if negative then 1 else 0..|t| - 19] == whole
    requires whole != "" && AllDigits(whole) && AllDigits(fraction)
    ensures var v := Value(whole) * Decimals + Value(fraction);
            Read(t) == Some(if negative then -v else v)
  {}

  lemma WholeAndFraction(body: string, v: nat) returns (whole: string, fraction: string)
    requires |body| >= 19 && AllDigits(body) && Value(body) == v
    ensures body == whole + fraction && |whole| >= 1 && |fraction| == 18
    ensures AllDigits(whole) && AllDigits(fraction) && Value(whole) * Decimals + Value(fraction) == v
  {
    whole, fraction := body[..|body| - 18], body[|body| - 18..];
    assert body == whole + fraction;
    ValueSplits(whole, fraction);
    EighteenDecimals();
  }

  lemma PointSplits(sign: string, whole: string, fraction: string)
    requires |fraction| == 18
    ensures WithPoint(sign + (whole + fraction)) == sign + whole + "." + fraction
  {
    var s := sign + (whole + fraction);
    assert s[..|s| - 18] == sign + whole && s[|s| - 18..] == fraction;
  }

  lemma UnsignedReads(body: string, v: nat)
    requires |body| >= 19 && AllDigits(body) && Value(body) == v
    ensures Read(WithPoint(body)) == Some(v)
  {
    var whole, fraction := WholeAndFraction(body, v);
    ReadsParts(false, whole, fraction);
    PointSplits("", whole, fraction);
    assert "" + (whole + fraction) == body;
  }

  lemma SignedReads(body: string, v: nat)
    requires |body| >= 19 && AllDigits(body) && Value(body) == v
    ensures Read(WithPoint("-" + body)) == Some(-(v as int))
  {
    var whole, fraction := WholeAndFraction(body, v);
    ReadsParts(true, whole, fraction);
    PointSplits("-", whole, fraction);
  }

  lemma PaddedValue(n: nat)
    ensures AllDigits(Pad(Digits(n))) && Value(Pad(Digits(n))) == n
  {
    DigitsValue(n);
    if |Digits(n)| < 19 {
      ZerosValue(19 - |Digits(n)|, Digits(n));
    }
  }

  lemma {:induction false} DigitCount(n: nat, k: nat)
    requires k >= 1
    ensures |Digits(n)| > k <==> n >= Pow(10, k)
  {
    PowSign(10, k - 1);
    if k > 1 && n >= 10 {
      DigitCount(n / 10, k - 1);
      assert n >= 10 * Pow(10, k - 1) <==> n / 10 >= Pow(10, k - 1);
    } else if k == 1 {
      assert Pow(10, 1) == 10;
      if n >= 10 {
        assert |Digits(n)| == |Digits(n / 10)| + 1;
      }
    } else {
      assert Pow(10, k) == 10 * Pow(10, k - 1) && Pow(10, k - 1) == 10 * Pow(10, k - 2);
      PowSign(10, k - 2);
    }
  }

  lemma NonNegativeReads(v: nat)
    ensures Read(Format(v)) == Some(v)
  {
    var body := Pad(IntText(v));
    PaddedValue(v);
    UnsignedReads(body, v);
  }

  lemma WholeNegativeReads(n: nat)
    requires |Digits(n)| >= 19 && n > 0
    ensures Read(Format(-(n as int))) == Some(-(n as int))
  {
    DigitsValue(n);
    SignedReads(Digits(n), n);
  }

  // The text reads back as the value exactly when the value is not negative
  // or has a whole part: smaller negative amounts lose their sign's place.
  lemma FormatReadsBackIff(v: int)
    ensures Read(Format(v)) == Some(v) <==> v >= 0 || v <= -Decimals
  {
    if v >= 0 {
      NonNegativeReads(v);
    } else {
      var n: nat := -v;
      DigitCount(n, 18);
      EighteenDecimals();
      if v <= -Decimals {
        WholeNegativeReads(n);
      } else {
        MisplacedSign(v);
      }
    }
  }

  lemma MisplacedSign(v: int)
    requires v < 0 && |Digits(-v)| <= 18
    ensures Read(Format(v)).None?
  {
    var s, t := Pad(IntText(v)), Format(v);
    var digits := Digits(-v);
    assert |IntText(v)| == 1 + |digits| && IntText(v)[0] == '-';
    assert |s| == 19 && s[18 - |digits|] == '-';
    assert t == s[..1] + "." + s[1..];
    if |digits| == 18 {
      assert t[0] == '-' && t[1..|t| - 19] == "";
    } else {
      assert s[0] == '0' && t[|t| - 18..] == s[1..];
      assert s[1..][17 - |digits|] == '-';
    }
  }
}
