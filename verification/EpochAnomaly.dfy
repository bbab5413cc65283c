// The epoch anomaly scan (backend/src/services/epochAnomaly.ts): every closed
// epoch is scored against the closed epochs among the thirty before it, and a
// flagged epoch is recorded once.
module EpochAnomaly {
  const AnomalyWindow := 30
  const MinSampleSize := 7

  datatype Key = Key(vault: nat, epoch: int)

  // The yields of the closed epochs.
  type Closed = map<Key, int>

  // RANGE BETWEEN lo AND hi of one vault's closed epochs.
  function Window(closed: Closed, vault: nat, lo: int, hi: int): seq<int>
    decreases hi - lo
  {
    if hi < lo then []
    else Window(closed, vault, lo, hi - 1) + (if Key(vault, hi) in closed then [closed[Key(vault, hi)]] else [])
  }

  function Sample(closed: Closed, k: Key): seq<int> {
    Window(closed, k.vault, k.epoch - AnomalyWindow, k.epoch - 1)
  }

  function Total(ys: seq<int>): int {
    if ys == [] then 0 else ys[0] + Total(ys[1..])
  }

  function Squares(ys: seq<int>): int {
    if ys == [] then 0 else ys[0] * ys[0] + Squares(ys[1..])
  }

  // n²·variance, and n times the distance from the mean.
  function Spread(ys: seq<int>): int { |ys| * Squares(ys) - Total(ys) * Total(ys) }

  function Distance(ys: seq<int>, y: int): int { |ys| * y - Total(ys) }

  // The three-sigma test in integers.
  predicate Deviates(ys: seq<int>, y: int) {
    Distance(ys, y) * Distance(ys, y) > 9 * Spread(ys)
  }

  // ------------------------------------------------------- the SQL verdict

  function Mean(ys: seq<int>): real
    requires ys != []
  {
    Total(ys) as real / |ys| as real
  }

  function SquaredDeviations(ys: seq<int>, m: real): real {
    if ys == [] then 0.0 else (ys[0] as real - m) * (ys[0] as real - m) + SquaredDeviations(ys[1..], m)
  }

  // STDDEV_POP: the root of the mean squared deviation.
  predicate IsStddev(ys: seq<int>, sd: real)
    requires ys != []
  {
    sd >= 0.0 && |ys| as real * (sd * sd) == SquaredDeviations(ys, Mean(ys))
  }

  // The flat and the non-flat branch of the WHERE clause.
  predicate SqlFlags(mean: real, sd: real, y: int) {
    var gap := if y as real >= mean then y as real - mean else mean - y as real;
    (sd == 0.0 && y as real != mean) || (sd > 0.0 && gap / sd > 3.0)
  }

  // q − 2ms + nm²
  function Expanded(q: real, s: real, n: real, m: real): real {
    q - 2.0 * (m * s) + n * (m * m)
  }

  lemma {:induction false} DeviationsExpand(ys: seq<int>, m: real)
    ensures SquaredDeviations(ys, m) == Expanded(Squares(ys) as real, Total(ys) as real, |ys| as real, m)
  {
    if ys == [] {
      ExpandedZero(m);
    } else {
      DeviationsExpand(ys[1..], m);
      ExpandStep(ys[0] as real, m, Squares(ys[1..]) as real, Total(ys[1..]) as real, |ys[1..]| as real,
                 SquaredDeviations(ys[1..], m));
      FirstSquare(ys);
    }
  }

  lemma ExpandedZero(m: real)
    ensures Expanded(0.0, 0.0, 0.0, m) == 0.0
  {}

  lemma FirstSquare(ys: seq<int>)
    requires ys != []
    ensures Squares(ys) as real == ys[0] as real * ys[0] as real + Squares(ys[1..]) as real
    ensures Total(ys) as real == ys[0] as real + Total(ys[1..]) as real
    ensures |ys| as real == |ys[1..]| as real + 1.0
  {
    IntProduct(ys[0], ys[0]);
  }

  lemma ExpandStep(y: real, m: real, q: real, s: real, n: real, d: real)
    requires d == Expanded(q, s, n, m)
    ensures (y - m) * (y - m) + d == Expanded(y * y + q, y + s, n + 1.0, m)
  {
    assert (y - m) * (y - m) == y * y - 2.0 * (m * y) + m * m;
    assert m * (y + s) == m * y + m * s;
    assert (n + 1.0) * (m * m) == n * (m * m) + m * m;
  }

  predicate MeanAndDeviation(n: real, sd: real, s: real, q: real, m: real) {
    n * m == s && n * (sd * sd) == Expanded(q, s, n, m)
  }

  lemma StddevFacts(ys: seq<int>, sd: real) returns (m: real)
    requires ys != [] && IsStddev(ys, sd)
    ensures MeanAndDeviation(|ys| as real, sd, Total(ys) as real, Squares(ys) as real, m)
  {
    m := Mean(ys);
    DeviationsExpand(ys, m);
    MeanTimesCount(ys);
  }

  predicate IsSquare(x: real, y: real) { x * x == y }

  // n·sd is a root of the integer spread.
  lemma SpreadIsScaledVariance(ys: seq<int>, sd: real, m: real)
    requires MeanAndDeviation(|ys| as real, sd, Total(ys) as real, Squares(ys) as real, m)
    ensures IsSquare(|ys| as real * sd, Spread(ys) as real)
  {
    SpreadAsReal(ys);
    Scaled(|ys| as real, sd, Total(ys) as real, Squares(ys) as real, m, Spread(ys) as real);
  }

  predicate IsSpread(n: real, q: real, s: real, spread: real) { spread == n * q - s * s }

  lemma SpreadAsReal(ys: seq<int>)
    ensures IsSpread(|ys| as real, Squares(ys) as real, Total(ys) as real, Spread(ys) as real)
  {
    IntProduct(|ys|, Squares(ys));
    IntProduct(Total(ys), Total(ys));
  }

  lemma MeanTimesCount(ys: seq<int>)
    requires ys != []
    ensures |ys| as real * Mean(ys) == Total(ys) as real
  {}

  lemma IntProduct(a: int, b: int)
    ensures (a * b) as real == a as real * b as real
  {}

  lemma Scaled(n: real, sd: real, s: real, q: real, m: real, spread: real)
    requires MeanAndDeviation(n, sd, s, q, m) && IsSpread(n, q, s, spread)
    ensures IsSquare(n * sd, spread)
  {
    assert (n * sd) * (n * sd) == n * (n * (sd * sd));
    assert n * (q - 2.0 * (m * s) + n * (m * m)) == n * q - 2.0 * (n * (m * s)) + n * (n * (m * m));
    assert n * (m * s) == s * s;
    assert n * (n * (m * m)) == s * s;
  }

  // The two SQL branches together are the single integer test.
  lemma VerdictIsInteger(ys: seq<int>, y: int, sd: real)
    requires ys != [] && IsStddev(ys, sd)
    ensures SqlFlags(Mean(ys), sd, y) <==> Deviates(ys, y)
  {
    TestPremise(ys, y, sd);
    ThreeSigma(|ys| as real, y as real - Mean(ys), sd, Distance(ys, y) as real, Spread(ys) as real);
    DeviatesAsReal(ys, y);
    GapForm(Mean(ys), sd, y);
  }

  predicate InScale(n: real, gap: real, sd: real, d: real, spread: real) {
    n >= 1.0 && sd >= 0.0 && n * gap == d && IsSquare(n * sd, spread)
  }

  lemma TestPremise(ys: seq<int>, y: int, sd: real)
    requires ys != [] && IsStddev(ys, sd)
    ensures InScale(|ys| as real, y as real - Mean(ys), sd, Distance(ys, y) as real, Spread(ys) as real)
  {
    var m := StddevFacts(ys, sd);
    SpreadIsScaledVariance(ys, sd, m);
    DistanceIsScaledGap(ys, y);
  }

  function Size(x: real): real { if x >= 0.0 then x else -x }

  lemma GapForm(mean: real, sd: real, y: int)
    ensures SqlFlags(mean, sd, y)
      <==> (sd == 0.0 && y as real - mean != 0.0) || (sd > 0.0 && Size(y as real - mean) / sd > 3.0)
  {}

  lemma DeviatesAsReal(ys: seq<int>, y: int)
    ensures Deviates(ys, y) <==> Distance(ys, y) as real * Distance(ys, y) as real > 9.0 * Spread(ys) as real
  {
    IntProduct(Distance(ys, y), Distance(ys, y));
  }

  lemma DistanceIsScaledGap(ys: seq<int>, y: int)
    requires ys != []
    ensures |ys| as real * (y as real - Mean(ys)) == Distance(ys, y) as real
  {
    var n, m := |ys| as real, Mean(ys);
    MeanTimesCount(ys);
    IntProduct(|ys|, y);
    assert n * (y as real - m) == n * y as real - n * m;
  }

  lemma ThreeSigma(n: real, gap: real, sd: real, d: real, spread: real)
    requires InScale(n, gap, sd, d, spread)
    ensures ((sd == 0.0 && gap != 0.0) || (sd > 0.0 && Size(gap) / sd > 3.0)) <==> d * d > 9.0 * spread
  {
    var size := Size(gap);
    var t := n * sd;
    var e := n * size;
    assert e * e == d * d && e >= 0.0 && t >= 0.0 by { ProductSign(n, size); ProductSign(n, sd); assert e == d || e == -d; }
    assert 9.0 * spread == (3.0 * t) * (3.0 * t);
    SquaresOrder(e, 3.0 * t);
    assert e > 3.0 * t <==> size > 3.0 * sd by {
      assert n * (3.0 * sd) == 3.0 * t;
      ScaleOrder(n, size, 3.0 * sd);
    }
    if sd > 0.0 {
      QuotientOrder(size, sd);
    }
  }

  lemma ProductSign(a: real, b: real)
    requires a >= 0.0 && b >= 0.0
    ensures a * b >= 0.0
  {}

  lemma SquaresOrder(a: real, b: real)
    requires a >= 0.0 && b >= 0.0
    ensures a > b <==> a * a > b * b
  {
    assert a * a - b * b == (a - b) * (a + b);
    if a > b {
      assert a + b > 0.0;
      assert (a - b) * (a + b) > 0.0;
    } else {
      assert b * b - a * a == (b - a) * (b + a);
      ProductSign(b - a, b + a);
    }
  }

  lemma ScaleOrder(n: real, a: real, b: real)
    requires n >= 1.0
    ensures n * a > n * b <==> a > b
  {
    assert n * a - n * b == n * (a - b);
    if a <= b {
      ProductSign(n, b - a);
      assert n * (b - a) == -(n * (a - b));
    }
  }

  lemma QuotientOrder(size: real, sd: real)
    requires sd > 0.0
    ensures size / sd > 3.0 <==> size > 3.0 * sd
  {
    var q := size / sd;
    assert q * sd == size;
    assert q * sd - 3.0 * sd == (q - 3.0) * sd;
    if q <= 3.0 {
      ProductSign(3.0 - q, sd);
      assert (3.0 - q) * sd == -((q - 3.0) * sd);
    }
  }

  // ------------------------------------------------------------ the schedule

  predicate Flagged(closed: Closed, k: Key) {
    k in closed && |Sample(closed, k)| >= MinSampleSize && Deviates(Sample(closed, k), closed[k])
  }

  // What is stored: the yield and what determines mean, deviation and z-score.
  datatype Anomaly = Anomaly(amount: int, total: int, squares: int, samples: nat)

  function RowOf(closed: Closed, k: Key): Anomaly
    requires k in closed
  {
    var ys := Sample(closed, k);
    Anomaly(closed[k], Total(ys), Squares(ys), |ys|)
  }

  // INSERT of every flagged epoch, ON CONFLICT DO NOTHING.
  function Scanned(recorded: map<Key, Anomaly>, closed: Closed): map<Key, Anomaly> {
    map k | k in closed.Keys + recorded.Keys && (k in recorded || Flagged(closed, k)) ::
      if k in recorded then recorded[k] else RowOf(closed, k)
  }

  datatype Op = Close(key: Key, amount: int) | Scan

  datatype State = State(closed: Closed, recorded: map<Key, Anomaly>)

  // Closing is idempotent: an epoch keeps the yield it closed with.
  function Step(s: State, op: Op): State {
    match op
    case Close(key, amount) => if key in s.closed then s else s.(closed := s.closed[key := amount])
    case Scan => s.(recorded := Scanned(s.recorded, s.closed))
  }

  function Run(ops: seq<Op>): State {
    if ops == [] then State(map[], map[]) else Step(Run(ops[..|ops| - 1]), ops[|ops| - 1])
  }

  class EpochAnomalyService {
    var closed: Closed
    var recorded: map<Key, Anomaly>

    constructor ()
      ensures State(closed, recorded) == Run([])
    {
      closed, recorded := map[], map[];
    }

    method CloseEpoch(key: Key, amount: int)
      modifies this
      ensures State(closed, recorded) == Step(old(State(closed, recorded)), Close(key, amount))
    {
      if key !in closed {
        closed := closed[key := amount];
      }
    }

    // Returns the rows this scan inserted.
    method ScanAndRecord() returns (inserted: map<Key, Anomaly>)
      modifies this
      ensures State(closed, recorded) == Step(old(State(closed, recorded)), Scan)
      ensures inserted.Keys == recorded.Keys - old(recorded.Keys)
      ensures forall k :: k in inserted ==> Flagged(closed, k) && inserted[k] == RowOf(closed, k)
    {
      var flagged := map k | k in closed && Flagged(closed, k) :: RowOf(closed, k);
      inserted := flagged - recorded.Keys;
      recorded := flagged + recorded;
      assert recorded == Scanned(old(recorded), closed);
    }
  }

  // -------------------------------------------- what is scored and recorded

  lemma NothingClosed(vault: nat, lo: int, hi: int)
    ensures Window(map[], vault, lo, hi) == []
    decreases hi - lo
  {
    if lo <= hi {
      NothingClosed(vault, lo, hi - 1);
    }
  }

  lemma {:induction false} ClosingEntersWindow(closed: Closed, j: Key, amount: int, vault: nat, lo: int, hi: int)
    requires j !in closed
    ensures multiset(Window(closed[j := amount], vault, lo, hi))
         == multiset(Window(closed, vault, lo, hi)) + if j.vault == vault && lo <= j.epoch <= hi then multiset{amount} else multiset{}
    decreases hi - lo
  {
    if lo <= hi {
      ClosingEntersWindow(closed, j, amount, vault, lo, hi - 1);
    }
  }

  // The sample of an epoch is empty before anything is closed, and an epoch
  // that closes enters it exactly when it is one of the thirty before it.
  lemma ClosingEntersSample(closed: Closed, j: Key, amount: int, k: Key)
    requires j !in closed
    ensures Sample(map[], k) == []
    ensures multiset(Sample(closed[j := amount], k))
         == multiset(Sample(closed, k))
            + if j.vault == k.vault && 1 <= k.epoch - j.epoch <= 30 then multiset{amount} else multiset{}
  {
    NothingClosed(k.vault, k.epoch - AnomalyWindow, k.epoch - 1);
    ClosingEntersWindow(closed, j, amount, k.vault, k.epoch - AnomalyWindow, k.epoch - 1);
  }

  // A closed epoch is flagged exactly when seven or more of the thirty before
  // it are closed and the SQL verdict over them says so.
  lemma FlaggedIff(closed: Closed, k: Key, sd: real)
    requires Sample(closed, k) != [] ==> IsStddev(Sample(closed, k), sd)
    ensures Flagged(closed, k)
      <==> k in closed && |Sample(closed, k)| >= 7 && SqlFlags(Mean(Sample(closed, k)), sd, closed[k])
  {
    if k in closed && |Sample(closed, k)| >= 7 {
      VerdictIsInteger(Sample(closed, k), closed[k], sd);
    }
  }

  // The row holds the yield and, of the sample, its sum, the sum of its
  // squares and its size.
  predicate Describes(row: Anomaly, ys: seq<int>, y: int) {
    row.amount == y && row.total == Total(ys) && row.squares == Squares(ys) && row.samples == |ys|
  }

  // The scan at place i finds k flagged.
  predicate Flags(ops: seq<Op>, i: int, k: Key) {
    0 <= i < |ops| && ops[i].Scan? && Flagged(Run(ops[..i]).closed, k)
  }

  lemma FlagsOfInit(ops: seq<Op>, k: Key)
    requires ops != []
    ensures forall i :: 0 <= i < |ops| - 1 ==>
              ops[..|ops| - 1][..i] == ops[..i] && (Flags(ops[..|ops| - 1], i, k) <==> Flags(ops, i, k))
  {
    assert forall i :: 0 <= i < |ops| - 1 ==> ops[..|ops| - 1][..i] == ops[..i];
  }

  // After any schedule exactly the epochs that some scan found flagged are
  // recorded.
  lemma {:induction false} RecordedIffFlagged(ops: seq<Op>, k: Key)
    ensures k in Run(ops).recorded <==> exists i :: Flags(ops, i, k)
  {
    if ops != [] {
      var n := |ops| - 1;
      RecordedIffFlagged(ops[..n], k);
      FlagsOfInit(ops, k);
      if i :| Flags(ops[..n], i, k) {
        assert Flags(ops, i, k);
      }
      if i :| Flags(ops, i, k) && i < n {
        assert Flags(ops[..n], i, k);
      }
      assert k in Run(ops).recorded <==> k in Run(ops[..n]).recorded || Flags(ops, n, k);
    }
  }

  // And the row of each is as the first of those scans saw it.
  lemma {:induction false} RecordedByFirstScan(ops: seq<Op>, i: int, k: Key)
    requires Flags(ops, i, k) && forall j :: 0 <= j < i ==> !Flags(ops, j, k)
    ensures k in Run(ops).recorded && k in Run(ops[..i]).closed
    ensures Describes(Run(ops).recorded[k], Sample(Run(ops[..i]).closed, k), Run(ops[..i]).closed[k])
  {
    var n := |ops| - 1;
    FlagsOfInit(ops, k);
    assert forall j :: Flags(ops[..n], j, k) ==> Flags(ops, j, k);
    if i < n {
      RecordedByFirstScan(ops[..n], i, k);
    } else {
      RecordedIffFlagged(ops[..n], k);
      assert k !in Run(ops[..n]).recorded;
    }
  }

  // ------------------------------------------------- which closings are harmless

  predicate InWindow(k: Key, j: Key) {
    j.vault == k.vault && k.epoch - AnomalyWindow <= j.epoch < k.epoch
  }

  // Closing j now does not enter the window of a closed epoch that already
  // has a full sample.
  ghost predicate Harmless(closed: Closed, j: Key) {
    forall k :: k in closed && InWindow(k, j) ==> |Sample(closed, k)| < MinSampleSize || j in closed
  }

  ghost predicate AllHarmless(ops: seq<Op>) {
    forall i :: 0 <= i < |ops| && ops[i].Close? ==> Harmless(Run(ops[..i]).closed, ops[i].key)
  }

  lemma {:induction false} WindowUnchanged(closed: Closed, j: Key, amount: int, vault: nat, lo: int, hi: int)
    requires !(j.vault == vault && lo <= j.epoch <= hi)
    ensures Window(closed[j := amount], vault, lo, hi) == Window(closed, vault, lo, hi)
    decreases hi - lo
  {
    if lo <= hi {
      WindowUnchanged(closed, j, amount, vault, lo, hi - 1);
    }
  }

  lemma {:induction false} WindowGrows(closed: Closed, j: Key, amount: int, vault: nat, lo: int, hi: int)
    requires j !in closed && j.vault == vault && lo <= j.epoch <= hi
    ensures |Window(closed[j := amount], vault, lo, hi)| == |Window(closed, vault, lo, hi)| + 1
    decreases hi - lo
  {
    if j.epoch < hi {
      WindowGrows(closed, j, amount, vault, lo, hi - 1);
    } else {
      WindowUnchanged(closed, j, amount, vault, lo, hi - 1);
    }
  }

  // Every recorded row is what a scan of the present table would record.
  ghost predicate UpToDate(s: State) {
    forall k :: k in s.recorded ==> Flagged(s.closed, k) && s.recorded[k] == RowOf(s.closed, k)
  }

  lemma HarmlessKeepsUpToDate(s: State, op: Op)
    requires UpToDate(s) && (op.Close? ==> Harmless(s.closed, op.key))
    ensures UpToDate(Step(s, op))
  {
    if op.Close? && op.key !in s.closed {
      forall k | k in s.recorded ensures Sample(s.closed[op.key := op.amount], k) == Sample(s.closed, k) {
        WindowUnchanged(s.closed, op.key, op.amount, k.vault, k.epoch - AnomalyWindow, k.epoch - 1);
      }
    }
  }

  lemma {:induction false} RunUpToDate(ops: seq<Op>)
    requires AllHarmless(ops)
    ensures UpToDate(Run(ops))
  {
    if ops != [] {
      var init := ops[..|ops| - 1];
      assert forall i :: 0 <= i < |init| ==> init[..i] == ops[..i];
      RunUpToDate(init);
      HarmlessKeepsUpToDate(Run(init), ops[|ops| - 1]);
    }
  }

  function Closings(ops: seq<Op>): seq<Op> {
    if ops == [] then []
    else Closings(ops[..|ops| - 1]) + (if ops[|ops| - 1].Close? then [ops[|ops| - 1]] else [])
  }

  lemma {:induction false} ScansDoNotClose(ops: seq<Op>)
    ensures Run(Closings(ops)) == State(Run(ops).closed, map[])
  {
    if ops != [] {
      var init, last := ops[..|ops| - 1], ops[|ops| - 1];
      ScansDoNotClose(init);
      if last.Close? {
        RunLast(Closings(init), last);
      } else {
        assert Closings(ops) == Closings(init);
      }
    }
  }

  lemma RunLast(ops: seq<Op>, op: Op)
    ensures Run(ops + [op]) == Step(Run(ops), op)
  {
    assert (ops + [op])[..|ops|] == ops;
  }

  // The scans of a schedule make no difference to what a last scan leaves.
  ghost predicate ScansDoNotMatter(ops: seq<Op>) {
    Run(ops + [Scan]).recorded == Run(Closings(ops) + [Scan]).recorded
  }

  // They make no difference to which epochs are flagged in the end.
  ghost predicate SameVerdicts(ops: seq<Op>) {
    Run(ops + [Scan]).recorded.Keys == Run(Closings(ops) + [Scan]).recorded.Keys
  }

  lemma HarmlessSchedule(ops: seq<Op>)
    requires AllHarmless(ops)
    ensures ScansDoNotMatter(ops) && SameVerdicts(ops)
  {
    RunUpToDate(ops);
    ScansDoNotClose(ops);
    RunLast(ops, Scan);
    RunLast(Closings(ops), Scan);
  }

  // --------------------------------------------------- and no others are

  // Closing the keys in this order, each with the yield `amount` gives it.
  function ClosingsOf(keys: seq<Key>, amount: map<Key, int>): seq<Op> {
    if keys == [] then []
    else
      var last := keys[|keys| - 1];
      ClosingsOf(keys[..|keys| - 1], amount) + [Close(last, AmountOf(last, amount))]
  }

  function AmountOf(k: Key, amount: map<Key, int>): int {
    if k in amount then amount[k] else 10
  }

  function KeySet(keys: seq<Key>): set<Key> { set k | k in keys }

  // No epoch is closed into the window of a closed epoch that already has a
  // full sample; only the order of the keys matters.
  ghost predicate HarmlessOrder(keys: seq<Key>) {
    AllHarmless(ClosingsOf(keys, map[]))
  }

  // Whatever the yields and wherever the scans, the last scan leaves the same.
  ghost predicate AlwaysIndependent(keys: seq<Key>) {
    forall amount: map<Key, int>, ops: seq<Op> :: Closings(ops) == ClosingsOf(keys, amount) ==> ScansDoNotMatter(ops)
  }

  // Whatever the yields and wherever the scans, the same epochs are flagged.
  ghost predicate AlwaysSameVerdicts(keys: seq<Key>) {
    forall amount: map<Key, int>, ops: seq<Op> :: Closings(ops) == ClosingsOf(keys, amount) ==> SameVerdicts(ops)
  }

  lemma {:induction false} ClosedKeys(keys: seq<Key>, amount: map<Key, int>)
    ensures var closed := Run(ClosingsOf(keys, amount)).closed;
            closed.Keys == KeySet(keys) && forall k :: k in closed ==> closed[k] == AmountOf(k, amount)
  {
    if keys != [] {
      var init, last := keys[..|keys| - 1], keys[|keys| - 1];
      ClosedKeys(init, amount);
      RunLast(ClosingsOf(init, amount), Close(last, AmountOf(last, amount)));
      assert keys == init + [last];
    }
  }

  lemma {:induction false} WindowSize(small: Closed, large: Closed, vault: nat, lo: int, hi: int)
    requires small.Keys <= large.Keys
    ensures |Window(small, vault, lo, hi)| <= |Window(large, vault, lo, hi)|
    decreases hi - lo
  {
    if lo <= hi {
      WindowSize(small, large, vault, lo, hi - 1);
    }
  }

  lemma SameKeysSameSizes(a: Closed, b: Closed)
    requires a.Keys == b.Keys
    ensures forall k :: |Sample(a, k)| == |Sample(b, k)|
  {
    forall k ensures |Sample(a, k)| == |Sample(b, k)| {
      WindowSize(a, b, k.vault, k.epoch - AnomalyWindow, k.epoch - 1);
      WindowSize(b, a, k.vault, k.epoch - AnomalyWindow, k.epoch - 1);
    }
  }

  lemma {:induction false} ClosingsPrefix(keys: seq<Key>, amount: map<Key, int>, n: nat)
    requires n <= |keys|
    ensures |ClosingsOf(keys, amount)| == |keys|
    ensures ClosingsOf(keys, amount)[..n] == ClosingsOf(keys[..n], amount)
    decreases |keys|
  {
    if n == |keys| {
      assert keys[..n] == keys;
      if n > 0 {
        ClosingsPrefix(keys[..n - 1], amount, n - 1);
      }
    } else {
      var init := keys[..|keys| - 1];
      ClosingsPrefix(init, amount, n);
      assert init[..n] == keys[..n];
    }
  }

  lemma {:induction false} ClosingAt(keys: seq<Key>, amount: map<Key, int>, i: nat)
    requires i < |keys|
    ensures |ClosingsOf(keys, amount)| == |keys| && ClosingsOf(keys, amount)[i] == Close(keys[i], AmountOf(keys[i], amount))
  {
    ClosingsPrefix(keys, amount, i + 1);
    var upto := keys[..i + 1];
    assert upto[..i] == keys[..i];
    ClosingsPrefix(keys, amount, i);
    assert ClosingsOf(keys, amount)[i] == ClosingsOf(keys, amount)[..i + 1][i];
  }

  // The closing at place i of a schedule is that of some place in the order,
  // with the same epochs closed before it.
  lemma {:induction false} PlaceInOrder(ops: seq<Op>, i: nat) returns (n: nat)
    requires i < |ops| && ops[i].Close?
    ensures n < |Closings(ops)| && Closings(ops)[n] == ops[i] && Closings(ops)[..n] == Closings(ops[..i])
    decreases |ops|
  {
    var init := ops[..|ops| - 1];
    if i < |ops| - 1 {
      n := PlaceInOrder(init, i);
      assert init[..i] == ops[..i];
      assert Closings(ops)[..n] == Closings(init)[..n];
    } else {
      n := |Closings(init)|;
    }
  }

  lemma OrderDecidesHarm(keys: seq<Key>, amount: map<Key, int>, ops: seq<Op>)
    requires HarmlessOrder(keys) && Closings(ops) == ClosingsOf(keys, amount)
    ensures AllHarmless(ops)
  {
    forall i | 0 <= i < |ops| && ops[i].Close? ensures Harmless(Run(ops[..i]).closed, ops[i].key) {
      var n := PlaceInOrder(ops, i);
      ClosingsPrefix(keys, amount, |keys|);
      ClosingsPrefix(keys, amount, n);
      ClosingsPrefix(keys, map[], n);
      ClosingAt(keys, amount, n);
      ClosingAt(keys, map[], n);
      ScansDoNotClose(ops[..i]);
      ClosedKeys(keys[..n], amount);
      ClosedKeys(keys[..n], map[]);
      SameKeysSameSizes(Run(ops[..i]).closed, Run(ClosingsOf(keys[..n], map[])).closed);
      assert Harmless(Run(ClosingsOf(keys, map[])[..n]).closed, keys[n]);
    }
  }

  lemma {:induction false} WindowTens(closed: Closed, vault: nat, lo: int, hi: int)
    requires forall k: Key :: k in closed && k.vault == vault && lo <= k.epoch <= hi ==> closed[k] == 10
    ensures forall y :: y in Window(closed, vault, lo, hi) ==> y == 10
    decreases hi - lo
  {
    if lo <= hi {
      WindowTens(closed, vault, lo, hi - 1);
    }
  }

  lemma {:induction false} TensAreFlat(ys: seq<int>)
    requires forall y :: y in ys ==> y == 10
    ensures Total(ys) == 10 * |ys| && Squares(ys) == 100 * |ys|
  {
    if ys != [] {
      assert forall y :: y in ys[1..] ==> y in ys;
      assert ys[0] in ys;
      TensAreFlat(ys[1..]);
    }
  }

  lemma HundredDeviates(ys: seq<int>)
    requires ys != [] && forall y :: y in ys ==> y == 10
    ensures Deviates(ys, 100)
  {
    TensAreFlat(ys);
    var n := |ys|;
    assert n * (100 * n) == 100 * (n * n) && (10 * n) * (10 * n) == 100 * (n * n);
    assert Distance(ys, 100) == 90 * n && Spread(ys) == 0;
    assert (90 * n) * (90 * n) == 8100 * (n * n) && n * n > 0;
  }

  lemma {:induction false} RowsStay(ops: seq<Op>, more: seq<Op>, k: Key)
    requires k in Run(ops).recorded
    ensures k in Run(ops + more).recorded && Run(ops + more).recorded[k] == Run(ops).recorded[k]
    decreases |more|
  {
    if more == [] {
      assert ops + more == ops;
    } else {
      var init, last := more[..|more| - 1], more[|more| - 1];
      RowsStay(ops, init, k);
      assert ops + more == ops + init + [last];
      RunLast(ops + init, last);
    }
  }

  lemma {:induction false} ClosingsConcat(a: seq<Op>, b: seq<Op>)
    ensures Closings(a + b) == Closings(a) + Closings(b)
    decreases |b|
  {
    if b == [] {
      assert a + b == a;
    } else {
      ClosingsConcat(a, b[..|b| - 1]);
      assert (a + b)[..|a + b| - 1] == a + b[..|b| - 1];
    }
  }

  lemma {:induction false} OnlyClosings(ops: seq<Op>)
    requires forall i :: 0 <= i < |ops| ==> ops[i].Close?
    ensures Closings(ops) == ops
  {
    if ops != [] {
      OnlyClosings(ops[..|ops| - 1]);
    }
  }

  lemma FlaggedBefore(closed: Closed, k: Key)
    requires k in closed && closed[k] == 100 && |Sample(closed, k)| >= MinSampleSize
    requires forall j :: j in closed && j != k ==> closed[j] == 10
    ensures Flagged(closed, k)
  {
    WindowTens(closed, k.vault, k.epoch - AnomalyWindow, k.epoch - 1);
    HundredDeviates(Sample(closed, k));
  }

  lemma {:induction false} SumsOfSnoc(ys: seq<int>, y: int)
    ensures Total(ys + [y]) == Total(ys) + y && Squares(ys + [y]) == Squares(ys) + y * y
  {
    if ys == [] {
      assert ys + [y] == [y];
    } else {
      SumsOfSnoc(ys[1..], y);
      assert (ys + [y])[1..] == ys[1..] + [y] && (ys + [y])[0] == ys[0];
    }
  }

  // A window of tens but for the thousand of j, if it reaches there.
  lemma {:induction false} OneThousand(closed: Closed, j: Key, lo: int, hi: int)
    requires j in closed && closed[j] == 1000
    requires forall k: Key :: k in closed && k.vault == j.vault && lo <= k.epoch <= hi && k != j ==> closed[k] == 10
    ensures var w, more := Window(closed, j.vault, lo, hi), if lo <= j.epoch <= hi then 1 else 0;
            Total(w) == 10 * |w| + 990 * more && Squares(w) == 100 * |w| + 999900 * more && more <= |w| <= Length(lo, hi)
    decreases hi - lo
  {
    if lo <= hi {
      OneThousand(closed, j, lo, hi - 1);
      if Key(j.vault, hi) in closed {
        SumsOfSnoc(Window(closed, j.vault, lo, hi - 1), closed[Key(j.vault, hi)]);
      } else {
        assert Window(closed, j.vault, lo, hi) == Window(closed, j.vault, lo, hi - 1);
      }
    }
  }

  function Length(lo: int, hi: int): nat { if lo <= hi then hi - lo + 1 else 0 }

  // Beside one thousand, a hundred no longer stands out.
  lemma ThousandHides(ys: seq<int>)
    requires 1 <= |ys| <= AnomalyWindow && Total(ys) == 10 * |ys| + 990 && Squares(ys) == 100 * |ys| + 999900
    ensures |ys| > MinSampleSize ==> !Deviates(ys, 100)
  {
    var n := |ys|;
    assert n * (100 * n + 999900) == 100 * (n * n) + 999900 * n;
    assert (10 * n + 990) * (10 * n + 990) == 100 * (n * n) + 19800 * n + 980100;
    assert Spread(ys) == 980100 * (n - 1) && Distance(ys, 100) == 90 * n - 990;
    SquareWithin(90 * n - 990, 1710);
  }

  lemma SquareWithin(d: int, bound: int)
    requires -bound <= d <= bound
    ensures d * d <= bound * bound
  {
    if d >= 0 {
      assert d * d <= d * bound <= bound * bound;
    } else {
      assert d * d == (-d) * (-d) <= (-d) * bound <= bound * bound;
    }
  }

  lemma HiddenAfter(closed: Closed, k: Key, j: Key)
    requires k in closed && closed[k] == 100 && j in closed && closed[j] == 1000 && InWindow(k, j)
    requires forall i :: i in closed && i != k && i != j ==> closed[i] == 10
    requires |Sample(closed, k)| > MinSampleSize
    ensures !Flagged(closed, k)
  {
    OneThousand(closed, j, k.epoch - AnomalyWindow, k.epoch - 1);
    ThousandHides(Sample(closed, k));
  }

  lemma {:induction false} ClosingsRecordNothing(ops: seq<Op>)
    requires forall i :: 0 <= i < |ops| ==> ops[i].Close?
    ensures Run(ops).recorded == map[]
  {
    OnlyClosings(ops);
    ScansDoNotClose(ops);
  }

  // Flagged by the scan in between and not by the last scan alone.
  lemma VerdictsDiffer(before: seq<Op>, rest: seq<Op>, k: Key)
    requires forall op :: op in before || op in rest ==> op.Close?
    requires Flagged(Run(before).closed, k) && k in Run(before).closed && !Flagged(Run(before + rest).closed, k)
    ensures !SameVerdicts(before + [Scan] + rest)
  {
    ClosingsRecordNothing(before);
    RunLast(before, Scan);
    RowsStay(before + [Scan], rest + [Scan], k);
    assert before + [Scan] + rest + [Scan] == before + [Scan] + (rest + [Scan]);
    OneScanMore(before, rest);
    ClosingsRecordNothing(before + rest);
    RunLast(before + rest, Scan);
  }

  // The yield 100 of k is flagged among tens, and not once the 1000 of the
  // late epoch is among them.
  lemma HarmfulOrder(keys: seq<Key>, i: nat, k: Key)
    requires i < |keys| && keys[i] !in KeySet(keys[..i]) && k in KeySet(keys[..i]) && InWindow(k, keys[i])
    requires |Sample(Run(ClosingsOf(keys[..i], map[])).closed, k)| >= MinSampleSize
    ensures !AlwaysSameVerdicts(keys)
  {
    var amount := map[k := 100, keys[i] := 1000];
    var before, close, after := OrderSplit(keys, amount, i);
    HundredIsFlagged(keys[..i], k, amount);
    LateIsHidden(keys, i, k, amount);
    VerdictsDiffer(before, [close] + after, k);
    OneScanMore(before, [close] + after);
  }

  lemma LateIsHidden(keys: seq<Key>, i: nat, k: Key, amount: map<Key, int>)
    requires i < |keys| && keys[i] !in KeySet(keys[..i]) && k in KeySet(keys[..i]) && InWindow(k, keys[i])
    requires |Sample(Run(ClosingsOf(keys[..i], map[])).closed, k)| >= MinSampleSize
    requires amount == map[k := 100, keys[i] := 1000]
    ensures !Flagged(Run(ClosingsOf(keys, amount)).closed, k)
  {
    var early, closed, j := Run(ClosingsOf(keys[..i], map[])).closed, Run(ClosingsOf(keys, amount)).closed, keys[i];
    ClosedKeys(keys[..i], map[]);
    ClosedKeys(keys, amount);
    assert k in keys && j in keys;
    WindowGrows(early, j, 10, k.vault, k.epoch - AnomalyWindow, k.epoch - 1);
    assert early[j := 10].Keys <= closed.Keys;
    WindowSize(early[j := 10], closed, k.vault, k.epoch - AnomalyWindow, k.epoch - 1);
    HiddenAfter(closed, k, j);
  }

  lemma OrderSplit(keys: seq<Key>, amount: map<Key, int>, i: nat) returns (before: seq<Op>, close: Op, after: seq<Op>)
    requires i < |keys|
    ensures ClosingsOf(keys, amount) == before + ([close] + after) && before == ClosingsOf(keys[..i], amount)
    ensures close == Close(keys[i], AmountOf(keys[i], amount))
    ensures forall op :: op in before || op in after ==> op.Close?
  {
    var cs := ClosingsOf(keys, amount);
    ClosingsPrefix(keys, amount, i);
    ClosingAt(keys, amount, i);
    before, close, after := cs[..i], cs[i], cs[i + 1..];
    assert cs == before + ([close] + after);
    forall m | 0 <= m < |keys| ensures cs[m].Close? {
      ClosingAt(keys, amount, m);
    }
  }

  lemma HundredIsFlagged(keys: seq<Key>, k: Key, amount: map<Key, int>)
    requires k in KeySet(keys) && |Sample(Run(ClosingsOf(keys, map[])).closed, k)| >= MinSampleSize
    requires k in amount && amount[k] == 100 && forall j :: j in keys && j != k ==> j !in amount
    ensures k in Run(ClosingsOf(keys, amount)).closed && Flagged(Run(ClosingsOf(keys, amount)).closed, k)
  {
    ClosedKeys(keys, amount);
    ClosedKeys(keys, map[]);
    SameKeysSameSizes(Run(ClosingsOf(keys, amount)).closed, Run(ClosingsOf(keys, map[])).closed);
    FlaggedBefore(Run(ClosingsOf(keys, amount)).closed, k);
  }

  lemma OneScanMore(before: seq<Op>, after: seq<Op>)
    requires forall op :: op in before || op in after ==> op.Close?
    ensures Closings(before + [Scan] + after) == before + after
  {
    ClosingsConcat(before + [Scan], after);
    ClosingsConcat(before, [Scan]);
    ClosingsConcat([], [Scan]);
    OnlyClosings(before);
    OnlyClosings(after);
    assert Closings([Scan]) == [];
    assert before + [] == before;
  }

  // Exactly the harmless orders make the verdicts, and with them the rows,
  // independent of the schedule of the scans.
  lemma IndependentIffHarmless(keys: seq<Key>)
    ensures AlwaysSameVerdicts(keys) <==> HarmlessOrder(keys)
    ensures AlwaysIndependent(keys) <==> HarmlessOrder(keys)
  {
    if HarmlessOrder(keys) {
      forall amount: map<Key, int>, ops: seq<Op> | Closings(ops) == ClosingsOf(keys, amount)
        ensures ScansDoNotMatter(ops) && SameVerdicts(ops)
      {
        OrderDecidesHarm(keys, amount, ops);
        HarmlessSchedule(ops);
      }
    } else {
      var cs := ClosingsOf(keys, map[]);
      var i :| 0 <= i < |cs| && cs[i].Close? && !Harmless(Run(cs[..i]).closed, cs[i].key);
      ClosingsPrefix(keys, map[], |keys|);
      ClosingsPrefix(keys, map[], i);
      ClosingAt(keys, map[], i);
      ClosedKeys(keys[..i], map[]);
      var k :| k in Run(cs[..i]).closed && InWindow(k, cs[i].key)
        && !(|Sample(Run(cs[..i]).closed, k)| < MinSampleSize || cs[i].key in Run(cs[..i]).closed);
      HarmfulOrder(keys, i, k);
      RowsSayVerdicts(keys);
    }
  }

  lemma RowsSayVerdicts(keys: seq<Key>)
    ensures AlwaysIndependent(keys) ==> AlwaysSameVerdicts(keys)
  {
    if AlwaysIndependent(keys) {
      forall amount: map<Key, int>, ops: seq<Op> | Closings(ops) == ClosingsOf(keys, amount) ensures SameVerdicts(ops) {
        assert ScansDoNotMatter(ops);
      }
    }
  }

  // Each vault's epochs close in increasing order.
  ghost predicate Increasing(keys: seq<Key>) {
    forall i, j :: 0 <= i < j < |keys| && keys[i].vault == keys[j].vault ==> keys[i].epoch <= keys[j].epoch
  }

  lemma IncreasingIsHarmless(keys: seq<Key>)
    requires Increasing(keys)
    ensures HarmlessOrder(keys) && AlwaysIndependent(keys) && AlwaysSameVerdicts(keys)
  {
    var cs := ClosingsOf(keys, map[]);
    ClosingsPrefix(keys, map[], |keys|);
    forall i | 0 <= i < |cs| && cs[i].Close? ensures Harmless(Run(cs[..i]).closed, cs[i].key) {
      ClosingsPrefix(keys, map[], i);
      ClosingAt(keys, map[], i);
      ClosedKeys(keys[..i], map[]);
      forall k | k in KeySet(keys[..i]) ensures !InWindow(k, keys[i]) {
        var j :| 0 <= j < i && keys[j] == k;
      }
    }
    IndependentIffHarmless(keys);
  }

  lemma {:induction false} WindowAtLeast(closed: Closed, vault: nat, lo: int, from: int, hi: int)
    requires lo <= from <= hi + 1 && forall e :: from <= e <= hi ==> Key(vault, e) in closed
    ensures |Window(closed, vault, lo, hi)| >= hi + 1 - from
    decreases hi - lo
  {
    if from <= hi {
      WindowAtLeast(closed, vault, lo, from, hi - 1);
    }
  }

  // Epochs 1 to 8 close, then epoch 0: with some yields a scan in between
  // flags an epoch that the last scan alone does not.
  lemma LateEpochMatters(vault: nat)
    ensures !AlwaysSameVerdicts([Key(vault, 1), Key(vault, 2), Key(vault, 3), Key(vault, 4), Key(vault, 5),
                                Key(vault, 6), Key(vault, 7), Key(vault, 8), Key(vault, 0)])
  {
    var first := [Key(vault, 1), Key(vault, 2), Key(vault, 3), Key(vault, 4), Key(vault, 5),
                  Key(vault, 6), Key(vault, 7), Key(vault, 8)];
    var keys := first + [Key(vault, 0)];
    assert keys[..8] == first;
    ClosedKeys(first, map[]);
    var closed := Run(ClosingsOf(first, map[])).closed;
    forall e | 1 <= e <= 7 ensures Key(vault, e) in closed {
      assert first[e - 1] == Key(vault, e) && first[e - 1] in first;
    }
    WindowAtLeast(closed, vault, -22, 1, 7);
    assert first[7] in first;
    HarmfulOrder(keys, 8, Key(vault, 8));
    assert keys == [Key(vault, 1), Key(vault, 2), Key(vault, 3), Key(vault, 4), Key(vault, 5),
                    Key(vault, 6), Key(vault, 7), Key(vault, 8), Key(vault, 0)];
  }

  // ------------------------------------------------------------ flat windows

  predicate Constant(ys: seq<int>) {
    forall i :: 0 <= i < |ys| ==> ys[i] == ys[0]
  }

  // Sum over the sample of (y − x)².
  function SquaredGaps(ys: seq<int>, x: int): int {
    if ys == [] then 0 else (ys[0] - x) * (ys[0] - x) + SquaredGaps(ys[1..], x)
  }

  lemma {:induction false} GapsExpand(ys: seq<int>, x: int)
    ensures SquaredGaps(ys, x) == Squares(ys) - 2 * (x * Total(ys)) + |ys| * (x * x)
  {
    if ys != [] {
      var y, rest := ys[0], ys[1..];
      GapsExpand(rest, x);
      assert (y - x) * (y - x) == y * y - 2 * (x * y) + x * x;
      assert x * (y + Total(rest)) == x * y + x * Total(rest);
      assert (|rest| + 1) * (x * x) == |rest| * (x * x) + x * x;
    }
  }

  lemma {:induction false} GapsZeroIff(ys: seq<int>, x: int)
    ensures SquaredGaps(ys, x) >= 0
    ensures SquaredGaps(ys, x) == 0 <==> forall i :: 0 <= i < |ys| ==> ys[i] == x
  {
    if ys != [] {
      GapsZeroIff(ys[1..], x);
      SquareSign(ys[0] - x);
      assert forall i :: 0 < i < |ys| ==> ys[i] == ys[1..][i - 1];
    }
  }

  lemma SquareSign(d: int)
    ensures d * d >= 0 && (d * d == 0 <==> d == 0)
  {}

  // One more yield adds its squared gaps to the spread.
  lemma SpreadStep(y: int, q: int, s: int, n: int)
    ensures (n + 1) * (y * y + q) - (y + s) * (y + s) == (n * q - s * s) + (q - 2 * (y * s) + n * (y * y))
  {
    assert (n + 1) * (y * y + q) == n * (y * y) + n * q + y * y + q;
    assert (y + s) * (y + s) == y * y + 2 * (y * s) + s * s;
  }

  // The spread is never negative, and zero exactly for a flat window: there
  // every yield but the common one is flagged.
  lemma {:induction false} FlatIffConstant(ys: seq<int>)
    ensures Spread(ys) >= 0 && (Spread(ys) == 0 <==> Constant(ys))
  {
    if ys != [] {
      var y, rest := ys[0], ys[1..];
      FlatIffConstant(rest);
      GapsExpand(rest, y);
      GapsZeroIff(rest, y);
      SpreadStep(y, Squares(rest), Total(rest), |rest|);
      assert Spread(ys) == Spread(rest) + SquaredGaps(rest, y);
      assert forall i :: 0 < i < |ys| ==> ys[i] == rest[i - 1];
    }
  }

  lemma {:induction false} ConstantTotal(ys: seq<int>, x: int)
    requires forall i :: 0 <= i < |ys| ==> ys[i] == x
    ensures Total(ys) == |ys| * x
  {
    if ys != [] {
      ConstantTotal(ys[1..], x);
      assert |ys| * x == x + (|ys| - 1) * x;
    }
  }

  lemma FlatWindowFlagsAnyOther(ys: seq<int>, y: int)
    requires ys != [] && Constant(ys)
    ensures Deviates(ys, y) <==> y != ys[0]
  {
    FlatIffConstant(ys);
    ConstantTotal(ys, ys[0]);
    var n := |ys|;
    assert Distance(ys, y) == n * (y - ys[0]);
    SquareSign(Distance(ys, y));
    if y != ys[0] {
      NonZeroProduct(n, y - ys[0]);
    }
  }

  lemma NonZeroProduct(n: int, d: int)
    requires n != 0 && d != 0
    ensures n * d != 0
  {}
}
