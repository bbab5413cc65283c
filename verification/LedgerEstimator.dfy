// Ledger close times by interpolation between anchors
// (backend/src/services/ledgerEstimator.ts) and the anchors the indexer writes
// (backend/src/services/indexer.ts). Times are milliseconds.
module LedgerEstimator {
  import opened Common
  import opened Arithmetic

  type Anchors = map<int, int>

  // SELECT ... WHERE ledger <= at ORDER BY ledger DESC LIMIT 1.
  ghost predicate IsLower(anchors: Anchors, at: int, l: int) {
    l in anchors && l <= at && forall x :: x in anchors && x <= at ==> x <= l
  }

  // SELECT ... WHERE ledger >= at ORDER BY ledger ASC LIMIT 1.
  ghost predicate IsUpper(anchors: Anchors, at: int, u: int) {
    u in anchors && at <= u && forall x :: x in anchors && at <= x ==> u <= x
  }

  // Math.round(lower + (k / n) · (upper − lower)): half rounds up.
  function Interpolate(lower: int, upper: int, k: nat, n: nat): int
    requires k <= n && 0 < n
  {
    (2 * (lower * n + k * (upper - lower)) + n) / (2 * n)
  }

  // The estimate for a ledger with lower anchor l and upper anchor u.
  function Between(anchors: Anchors, l: int, u: int, at: int): int
    requires l in anchors && u in anchors && l <= at <= u
  {
    if l == u then anchors[l] else Interpolate(anchors[l], anchors[u], at - l, u - l)
  }

  // `lower` and `upper` are what the two queries return.
  method LedgerToTimestamp(anchors: Anchors, at: int, lower: Option<int>, upper: Option<int>) returns (t: Option<int>)
    requires if lower.Some? then IsLower(anchors, at, lower.value) else forall x :: x in anchors ==> at < x
    requires if upper.Some? then IsUpper(anchors, at, upper.value) else forall x :: x in anchors ==> x < at
    ensures t.None? <==> (forall x :: x in anchors ==> at < x) || (forall x :: x in anchors ==> x < at)
    ensures t.Some? ==> IsEstimate(anchors, at, t.value)
  {
    if lower.None? || upper.None? {
      return None;
    }
    var l, u := lower.value, upper.value;
    if l == u {
      return Some(anchors[l]);
    }
    var k, n := at - l, u - l;
    var dividend := 2 * (anchors[l] * n + k * (anchors[u] - anchors[l])) + n;
    t := Some(dividend / (2 * n));
    assert t.value == Between(anchors, l, u, at);
  }

  // ------------------------------------------------------------- estimates

  ghost predicate IsEstimate(anchors: Anchors, at: int, t: int) {
    exists l, u :: IsLower(anchors, at, l) && IsUpper(anchors, at, u) && t == Between(anchors, l, u, at)
  }

  ghost predicate Ordered(anchors: Anchors) {
    forall a, b :: a in anchors && b in anchors && a <= b ==> anchors[a] <= anchors[b]
  }

  lemma ExactAtAnchors(anchors: Anchors, a: int)
    requires a in anchors
    ensures IsEstimate(anchors, a, anchors[a])
    ensures forall t :: IsEstimate(anchors, a, t) ==> t == anchors[a]
  {
    assert IsLower(anchors, a, a) && IsUpper(anchors, a, a);
    forall t | IsEstimate(anchors, a, t) ensures t == anchors[a] {
      var l, u :| IsLower(anchors, a, l) && IsUpper(anchors, a, u) && t == Between(anchors, l, u, a);
    }
  }

  // Within a segment the estimate grows with k and stays between the ends.
  lemma InterpolateMonotone(lower: int, upper: int, j: nat, k: nat, n: nat)
    requires lower <= upper && j <= k <= n && 0 < n
    ensures Interpolate(lower, upper, j, n) <= Interpolate(lower, upper, k, n)
  {
    MulLe(upper - lower, j, k);
    DivMonotone(2 * (lower * n + j * (upper - lower)) + n, 2 * (lower * n + k * (upper - lower)) + n, 2 * n);
  }

  lemma InterpolateEnds(lower: int, upper: int, n: nat)
    requires 0 < n
    ensures Interpolate(lower, upper, 0, n) == lower && Interpolate(lower, upper, n, n) == upper
  {
    RoundExact(lower, n);
    RoundExact(upper, n);
    assert lower * n + n * (upper - lower) == upper * n;
  }

  lemma RoundExact(t: int, n: nat)
    requires 0 < n
    ensures (2 * (t * n) + n) / (2 * n) == t
  {
    var x := 2 * (t * n) + n;
    var q := x / (2 * n);
    DivBounds(x, 2 * n);
    assert 2 * n * (q + 1) == 2 * n * q + 2 * n;
    assert 2 * n * (t + 1) == 2 * n * t + 2 * n;
    assert 2 * n * t == 2 * (t * n);
    MulCancel(2 * n, q, t + 1);
    MulCancel(2 * n, t, q + 1);
  }

  lemma BetweenInside(anchors: Anchors, l: int, u: int, at: int)
    requires Ordered(anchors) && l in anchors && u in anchors && l <= at <= u
    ensures anchors[l] <= Between(anchors, l, u, at) <= anchors[u]
  {
    if l < u {
      InterpolateEnds(anchors[l], anchors[u], u - l);
      InterpolateMonotone(anchors[l], anchors[u], 0, at - l, u - l);
      InterpolateMonotone(anchors[l], anchors[u], at - l, u - l, u - l);
    }
  }

  lemma MonotoneAcrossSegments(anchors: Anchors, p: int, q: int, s: int, t: int)
    ensures Ordered(anchors) && p <= q && IsEstimate(anchors, p, s) && IsEstimate(anchors, q, t) ==> s <= t
  {
    if Ordered(anchors) && p <= q && IsEstimate(anchors, p, s) && IsEstimate(anchors, q, t) {
      var l, u :| IsLower(anchors, p, l) && IsUpper(anchors, p, u) && s == Between(anchors, l, u, p);
      var l', u' :| IsLower(anchors, q, l') && IsUpper(anchors, q, u') && t == Between(anchors, l', u', q);
      BetweenInside(anchors, l, u, p);
      BetweenInside(anchors, l', u', q);
      if u <= q {
        assert u <= l';
      } else {
        assert u == u' && l == l';
        InterpolateMonotone(anchors[l], anchors[u], p - l, q - l, u - l);
      }
    }
  }

  ghost predicate MonotoneEstimates(anchors: Anchors) {
    forall p, q, s, t :: p <= q && IsEstimate(anchors, p, s) && IsEstimate(anchors, q, t) ==> s <= t
  }

  // Estimates are monotone across all segments exactly when the anchors are
  // ordered in time as they are in ledger.
  lemma MonotoneIffOrdered(anchors: Anchors)
    ensures MonotoneEstimates(anchors) <==> Ordered(anchors)
  {
    if Ordered(anchors) {
      forall p, q, s, t | p <= q && IsEstimate(anchors, p, s) && IsEstimate(anchors, q, t) ensures s <= t {
        MonotoneAcrossSegments(anchors, p, q, s, t);
      }
    }
    if MonotoneEstimates(anchors) {
      forall a, b | a in anchors && b in anchors && a <= b ensures anchors[a] <= anchors[b] {
        ExactAtAnchors(anchors, a);
        ExactAtAnchors(anchors, b);
      }
    }
  }

  // -------------------------------------------------------- the error bound

  // close(0..n) are the true close times of a segment; consecutive ledgers
  // close between `least` and `most` milliseconds apart.
  ghost predicate Paced(close: seq<int>, least: int, most: int) {
    forall i :: 0 <= i < |close| - 1 ==> least <= close[i + 1] - close[i] <= most
  }

  lemma {:induction false} PacedSpan(close: seq<int>, least: int, most: int, i: nat, j: nat)
    requires Paced(close, least, most) && i <= j < |close|
    ensures (j - i) * least <= close[j] - close[i] <= (j - i) * most
    decreases j - i
  {
    if i < j {
      PacedSpan(close, least, most, i, j - 1);
      assert least <= close[j - 1 + 1] - close[j - 1] <= most;
      assert (j - i) * least == (j - 1 - i) * least + least;
      assert (j - i) * most == (j - 1 - i) * most + most;
    } else {
      assert (j - i) * least == 0 && (j - i) * most == 0;
    }
  }

  // n times the distance of the unrounded estimate from the true time.
  function Deviation(close: seq<int>, k: nat): int
    requires k < |close|
  {
    var n := |close| - 1;
    n * close[0] + k * (close[n] - close[0]) - n * close[k]
  }

  // Unrounded: at most (most − least)·k·(n−k)/n.
  lemma DeviationBound(close: seq<int>, least: int, most: int, k: nat)
    requires Paced(close, least, most) && k < |close|
    ensures var n := |close| - 1;
            -(most - least) * k * (n - k) <= Deviation(close, k) <= (most - least) * k * (n - k)
  {
    var n := |close| - 1;
    PacedSpan(close, least, most, 0, k);
    PacedSpan(close, least, most, k, n);
    DeviationAlgebra(close[k] - close[0], close[n] - close[k], k, n, least, most);
    DeviationSplit(close[0], close[k], close[n], k, n);
  }

  lemma DeviationSplit(first: int, mid: int, last: int, k: int, n: int)
    ensures n * first + k * (last - first) - n * mid == k * (last - mid) - (n - k) * (mid - first)
  {
    assert k * (last - first) == k * (last - mid) + k * (mid - first);
    assert (n - k) * (mid - first) == n * (mid - first) - k * (mid - first);
    assert n * (mid - first) == n * mid - n * first;
  }

  lemma DeviationAlgebra(a: int, b: int, k: nat, n: nat, least: int, most: int)
    requires k <= n
    requires k * least <= a <= k * most && (n - k) * least <= b <= (n - k) * most
    ensures -(most - least) * k * (n - k) <= k * b - (n - k) * a <= (most - least) * k * (n - k)
  {
    var m := n - k;
    MulLe(k, m * least, b);
    MulLe(k, b, m * most);
    MulLe(m, k * least, a);
    MulLe(m, a, k * most);
    assert k * (m * most) - m * (k * least) == (most - least) * k * m;
    assert k * (m * least) - m * (k * most) == -(most - least) * k * m;
  }

  // n times the error is at most spread·k·(n−k), and half a millisecond.
  predicate ErrorWithin(error: int, k: int, n: int, spread: int) {
    2 * n * (if error < 0 then -error else error) <= 2 * spread * k * (n - k) + n
  }

  // The rounded interpolation is within half a millisecond more.
  lemma InterpolationError(close: seq<int>, least: int, most: int, k: nat)
    requires Paced(close, least, most) && 1 < |close| && k < |close|
    ensures var n := |close| - 1;
            ErrorWithin(Interpolate(close[0], close[n], k, n) - close[k], k, n, most - least)
  {
    var n := |close| - 1;
    var reach := (most - least) * k * (n - k);
    DeviationBound(close, least, most, k);
    assert -(most - least) * k * (n - k) == -reach by { NegatedProduct(most - least, k, n - k); }
    RoundingError(close[0], close[n], k, n, close[k]);
    var error := Interpolate(close[0], close[n], k, n) - close[k];
    Scaled(n, error, Deviation(close, k), reach);
    assert 2 * (most - least) * k * (n - k) == 2 * reach by { DoubledProduct(most - least, k, n - k); }
  }

  // The close times of ledgers l to u.
  function Closes(closeTime: int -> int, l: int, u: int): (close: seq<int>)
    requires l <= u
    ensures |close| == u - l + 1 && forall i :: 0 <= i <= u - l ==> close[i] == closeTime(l + i)
  {
    seq(u - l + 1, i requires 0 <= i <= u - l => closeTime(l + i))
  }

  // The estimate between two anchors that hold the true close times of their
  // ledgers l and u.
  lemma ErrorBound(anchors: Anchors, closeTime: int -> int, least: int, most: int, l: int, u: int, at: int, t: int)
    requires IsLower(anchors, at, l) && IsUpper(anchors, at, u) && IsEstimate(anchors, at, t)
    requires anchors[l] == closeTime(l) && anchors[u] == closeTime(u)
    requires forall i :: l <= i < u ==> least <= closeTime(i + 1) - closeTime(i) <= most
    ensures ErrorWithin(t - closeTime(at), at - l, u - l, most - least)
  {
    EstimateIs(anchors, l, u, at, t);
    if l == u {
      NoError(most - least);
    } else {
      SegmentError(closeTime, least, most, l, u, at - l, u - l, t);
    }
  }

  lemma EstimateIs(anchors: Anchors, l: int, u: int, at: int, t: int)
    requires IsLower(anchors, at, l) && IsUpper(anchors, at, u) && IsEstimate(anchors, at, t)
    ensures t == Between(anchors, l, u, at)
  {
    var l', u' :| IsLower(anchors, at, l') && IsUpper(anchors, at, u') && t == Between(anchors, l', u', at);
    assert l' == l && u' == u;
  }

  lemma SegmentError(closeTime: int -> int, least: int, most: int, l: int, u: int, k: nat, n: nat, t: int)
    requires k <= n && 0 < n && u == l + n && t == Interpolate(closeTime(l), closeTime(u), k, n)
    requires forall i :: l <= i < u ==> least <= closeTime(i + 1) - closeTime(i) <= most
    ensures ErrorWithin(t - closeTime(l + k), k, n, most - least)
  {
    var close := Closes(closeTime, l, u);
    forall i | 0 <= i < |close| - 1 ensures least <= close[i + 1] - close[i] <= most {
      assert close[i] == closeTime(l + i) && close[i + 1] == closeTime(l + i + 1);
    }
    assert Paced(close, least, most);
    assert close[0] == closeTime(l) && close[n] == closeTime(u) && close[k] == closeTime(l + k);
    InterpolationError(close, least, most, k);
  }

  lemma NoError(spread: int)
    ensures ErrorWithin(0, 0, 0, spread)
  {}

  lemma NegatedProduct(a: int, b: int, c: int)
    ensures -a * b * c == -(a * b * c)
  {
    assert -a * b == -(a * b);
    assert -(a * b) * c == -((a * b) * c);
  }

  lemma DoubledProduct(a: int, b: int, c: int)
    ensures 2 * a * b * c == 2 * (a * b * c)
  {
    assert 2 * a * b == 2 * (a * b);
    assert 2 * (a * b) * c == 2 * ((a * b) * c);
  }

  lemma Scaled(n: nat, error: int, d: int, reach: int)
    requires 2 * d - n <= 2 * n * error <= 2 * d + n && -reach <= d <= reach
    ensures 2 * n * (if error < 0 then -error else error) <= 2 * reach + n
  {
    assert 2 * n * -error == -(2 * n * error);
  }

  lemma RoundingError(lower: int, upper: int, k: nat, n: nat, truth: int)
    requires k <= n && 0 < n
    ensures var error := Interpolate(lower, upper, k, n) - truth;
            var d := n * lower + k * (upper - lower) - n * truth;
            2 * d - n < 2 * n * error <= 2 * d + n
  {
    var x := 2 * (lower * n + k * (upper - lower)) + n;
    DivBounds(x, 2 * n);
    var e := Interpolate(lower, upper, k, n);
    assert 2 * n * (e - truth) == 2 * n * e - 2 * n * truth;
    assert 2 * n * truth == 2 * (n * truth);
  }

  // ------------------------------------------------- when is ±10 s reached?

  // The anchors of a segment with these close times, at its two ends.
  function Ends(close: seq<int>): Anchors
    requires close != []
  {
    map[0 := close[0], |close| - 1 := close[|close| - 1]]
  }

  // Every paced segment of n ledgers has all its estimates within `limit`.
  ghost predicate AlwaysWithin(n: nat, least: int, most: int, limit: int) {
    forall close: seq<int>, k: nat, t :: |close| == n + 1 && Paced(close, least, most) && k <= n && IsEstimate(Ends(close), k, t) ==>
      -limit <= t - close[k] <= limit
  }

  lemma EstimateOfSegment(close: seq<int>, k: nat, t: int)
    requires |close| > 1 && k < |close|
    ensures IsEstimate(Ends(close), k, t) <==> t == Interpolate(close[0], close[|close| - 1], k, |close| - 1)
  {
    var n := |close| - 1;
    if k == 0 || k == n {
      InterpolateEnds(close[0], close[n], n);
      ExactAtAnchors(Ends(close), k);
    } else {
      assert IsLower(Ends(close), k, 0) && IsUpper(Ends(close), k, n);
    }
  }

  // The worst segment: the first k ledgers slow, the others fast.
  function SlowThenFast(n: nat, k: nat, least: int, most: int): (close: seq<int>)
    requires k <= n
    ensures |close| == n + 1
    ensures forall i :: 0 <= i <= n ==> close[i] == if i <= k then i * most else k * most + (i - k) * least
  {
    seq(n + 1, i requires 0 <= i <= n => if i <= k then i * most else k * most + (i - k) * least)
  }

  lemma SlowThenFastIsPaced(n: nat, k: nat, least: int, most: int)
    requires k <= n && least <= most
    ensures Paced(SlowThenFast(n, k, least, most), least, most)
  {
    var close := SlowThenFast(n, k, least, most);
    forall i | 0 <= i < n ensures least <= close[i + 1] - close[i] <= most {
      if i < k {
        assert (i + 1) * most - i * most == most;
      } else {
        assert (i + 1 - k) * least - (i - k) * least == least;
      }
    }
  }

  lemma TenSecondsHold(close: seq<int>, k: nat, least: int, most: int)
    requires least <= most <= least + 40 && |close| == 1001 && Paced(close, least, most) && k <= 1000
    ensures -10000 <= Interpolate(close[0], close[1000], k, 1000) - close[k] <= 10000
  {
    var spread := most - least;
    InterpolationError(close, least, most, k);
    Parabola(k);
    MulLe(k * (1000 - k), spread, 40);
    assert 2 * spread * k * (1000 - k) == 2 * (k * (1000 - k) * spread) by { DoubledProduct(spread, k, 1000 - k); }
  }

  lemma TenSecondsFail(least: int, most: int)
    requires most > least + 40
    ensures var close := SlowThenFast(1000, 500, least, most);
            Paced(close, least, most) && Interpolate(close[0], close[1000], 500, 1000) - close[500] < -10000
  {
    var close := SlowThenFast(1000, 500, least, most);
    SlowThenFastIsPaced(1000, 500, least, most);
    assert close[0] == 0 && close[500] == 500 * most && close[1000] == 500 * most + 500 * least;
    RoundingError(close[0], close[1000], 500, 1000, close[500]);
  }

  // Anchors are 1000 ledgers apart: ±10 s holds for every segment whose
  // ledgers close between `least` and `most` ms apart exactly when
  // most − least ≤ 40 ms.
  lemma TenSecondsIff(least: int, most: int)
    requires least <= most
    ensures AlwaysWithin(1000, least, most, 10000) <==> most - least <= 40
  {
    if most - least <= 40 {
      forall close: seq<int>, k: nat, t | |close| == 1001 && Paced(close, least, most) && k <= 1000 && IsEstimate(Ends(close), k, t)
        ensures -10000 <= t - close[k] <= 10000
      {
        EstimateOfSegment(close, k, t);
        TenSecondsHold(close, k, least, most);
      }
    } else {
      TenSecondsFail(least, most);
      var close := SlowThenFast(1000, 500, least, most);
      var t := Interpolate(close[0], close[1000], 500, 1000);
      EstimateOfSegment(close, 500, t);
      assert IsEstimate(Ends(close), 500, t);
    }
  }

  lemma Parabola(k: nat)
    requires k <= 1000
    ensures 0 <= k * (1000 - k) <= 250000
  {
    MulLe(k, 0, 1000 - k);
    if k <= 500 {
      // k(1000−k) = 250000 − (500−k)²
      SquaredGap(k, 500 - k);
    } else {
      SquaredGap(1000 - k, k - 500);
      assert k * (1000 - k) == (1000 - k) * k;
    }
  }

  lemma SquaredGap(k: nat, m: nat)
    requires k + m == 500
    ensures k * (1000 - k) <= 250000
  {
    MulLe(m, 0, m);
    assert k * (1000 - k) == (500 - m) * (500 + m);
    assert (500 - m) * (500 + m) == 500 * (500 + m) - m * (500 + m);
    assert m * (500 + m) == m * 500 + m * m;
  }

  // ------------------------------------------------------ anchors written

  datatype Event = Event(ledger: int, closedAt: Option<int>)

  // The close time of the first event of the ledger that carries one, or now.
  function CloseTime(events: seq<Event>, ledger: int, now: int): int {
    if events == [] then now
    else if events[0].ledger == ledger && events[0].closedAt.Some? then events[0].closedAt.value
    else CloseTime(events[1..], ledger, now)
  }

  predicate Anchored(from: int, last: int, ledger: int) {
    from <= ledger <= last && ledger > 0 && ledger % 1000 == 0
  }

  // No event of the ledger before i carries a close time.
  predicate NoneBefore(events: seq<Event>, ledger: int, i: nat)
    requires i <= |events|
  {
    forall j :: 0 <= j < i ==> events[j].ledger != ledger || events[j].closedAt.None?
  }

  predicate IsCloseTime(events: seq<Event>, ledger: int, now: int, t: int) {
    (t == now && NoneBefore(events, ledger, |events|))
    || exists i :: 0 <= i < |events| && events[i] == Event(ledger, Some(t)) && NoneBefore(events, ledger, i)
  }

  lemma {:induction false} CloseTimeIs(events: seq<Event>, ledger: int, now: int)
    ensures IsCloseTime(events, ledger, now, CloseTime(events, ledger, now))
  {
    if events != [] && !(events[0].ledger == ledger && events[0].closedAt.Some?) {
      var rest, t := events[1..], CloseTime(events, ledger, now);
      CloseTimeIs(rest, ledger, now);
      if i :| 0 <= i < |rest| && rest[i] == Event(ledger, Some(t)) && NoneBefore(rest, ledger, i) {
        assert events[i + 1] == rest[i];
        assert NoneBefore(events, ledger, i + 1) by {
          assert forall j :: 0 < j <= i ==> events[j] == rest[j - 1];
        }
      } else {
        assert forall j :: 0 < j < |events| ==> events[j] == rest[j - 1];
      }
    }
  }

  // Math.ceil(from / 1000) * 1000.
  function FirstThousand(from: int): int { (from + 999) / 1000 * 1000 }

  method FindCloseTime(events: seq<Event>, ledger: int, now: int) returns (t: int)
    ensures t == CloseTime(events, ledger, now)
  {
    for i := 0 to |events|
      invariant CloseTime(events, ledger, now) == CloseTime(events[i..], ledger, now)
    {
      if events[i].ledger == ledger && events[i].closedAt.Some? {
        return events[i].closedAt.value;
      }
      assert events[i..][1..] == events[i + 1..];
    }
    return now;
  }

  // The row of ledger l once the range below `end` has been written.
  function Written(rows: Anchors, from: int, last: int, end: int, events: seq<Event>, now: int, l: int): int {
    if Anchored(from, last, l) && l < end then CloseTime(events, l, now)
    else if l in rows then rows[l] else 0
  }

  class AnchorTable {
    var rows: Anchors

    // INSERT ... ON CONFLICT DO UPDATE.
    method RecordLedgerAnchor(ledger: int, closedAt: int)
      modifies this
      ensures rows == old(rows)[ledger := closedAt]
    {
      rows := rows[ledger := closedAt];
    }

    // Writes exactly the positive multiples of 1000 in the range, each with the
    // close time that the first event carrying one says, or now.
    method RecordAnchorsIfNeeded(from: int, last: int, events: seq<Event>, now: int)
      modifies this
      ensures forall l :: l in rows <==> l in old(rows) || (from <= l <= last && l > 0 && l % 1000 == 0)
      ensures forall l :: from <= l <= last && l > 0 && l % 1000 == 0 ==> IsCloseTime(events, l, now, rows[l])
      ensures forall l :: l in old(rows) && !(from <= l <= last && l > 0 && l % 1000 == 0) ==> rows[l] == old(rows)[l]
    {
      var ledger := FirstThousand(from);
      FirstThousandIsFirst(from);
      while ledger <= last
        invariant ledger % 1000 == 0 && ledger >= from
        invariant forall l :: l in rows <==> l in old(rows) || (Anchored(from, last, l) && l < ledger)
        invariant forall l :: l in rows ==> rows[l] == Written(old(rows), from, last, ledger, events, now, l)
        decreases last - ledger
      {
        if ledger > 0 {
          var t := FindCloseTime(events, ledger, now);
          RecordLedgerAnchor(ledger, t);
        }
        NextThousand(ledger);
        ledger := ledger + 1000;
      }
      forall l | l in rows ensures IsCloseTime(events, l, now, CloseTime(events, l, now)) {
        CloseTimeIs(events, l, now);
      }
    }
  }

  lemma FirstThousandIsFirst(from: int)
    ensures FirstThousand(from) % 1000 == 0 && FirstThousand(from) >= from
    ensures forall l :: l % 1000 == 0 && from <= l ==> FirstThousand(from) <= l
  {}

  lemma NextThousand(ledger: int)
    requires ledger % 1000 == 0
    ensures forall l :: l % 1000 == 0 && l < ledger + 1000 ==> l <= ledger
  {}
}
