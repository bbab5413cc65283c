// The RPC semaphore (backend/src/services/rpcLimiter.ts), with the permit
// hand-over as written and as intended.
module RpcLimiter {
  type Task = nat

  // `inFlight` are the callers between their acquire and their release,
  // `started` all callers in the order they got a permit, `arrived` all callers in
  // the order they called acquire, `handOvers` how often release woke a waiter.
  datatype Sem = Sem(permits: nat, available: int, waiting: seq<Task>,
                     inFlight: set<Task>, started: seq<Task>, arrived: seq<Task>, handOvers: nat)

  function New(permits: nat): Sem { Sem(permits, permits, [], {}, [], [], 0) }

  datatype Op = Acquire(task: Task) | Release(task: Task)

  // A task acquires once, and releases once after it got its permit.
  predicate Allowed(s: Sem, op: Op) {
    match op
    case Acquire(t) => t !in s.arrived
    case Release(t) => t in s.inFlight
  }

  // `decrement` is whether the hand-over also takes one off `available`; the
  // source does.
  function Step(s: Sem, op: Op, decrement: bool): Sem {
    match op
    case Acquire(t) =>
      if s.available > 0
      then s.(available := s.available - 1, inFlight := s.inFlight + {t},
              started := s.started + [t], arrived := s.arrived + [t])
      else s.(waiting := s.waiting + [t], arrived := s.arrived + [t])
    case Release(t) =>
      var left := s.(inFlight := s.inFlight - {t});
      if s.waiting != []
      then left.(waiting := s.waiting[1..],
                 available := if decrement then s.available - 1 else s.available,
                 inFlight := left.inFlight + {s.waiting[0]},
                 started := s.started + [s.waiting[0]],
                 handOvers := s.handOvers + 1)
      else left.(available := s.available + 1)
  }

  function Exec(s: Sem, ops: seq<Op>, decrement: bool): Sem {
    if ops == [] then s else Step(Exec(s, ops[..|ops| - 1], decrement), ops[|ops| - 1], decrement)
  }

  predicate AllowedRun(s: Sem, ops: seq<Op>, decrement: bool) {
    ops != [] ==>
      AllowedRun(s, ops[..|ops| - 1], decrement)
      && Allowed(Exec(s, ops[..|ops| - 1], decrement), ops[|ops| - 1])
  }

  // The semaphore object. `started`, `arrived` and `inFlight` are history.
  class RpcSemaphore {
    const permits: nat
    var available: int
    var waiting: seq<Task>
    ghost var inFlight: set<Task>
    ghost var started: seq<Task>
    ghost var arrived: seq<Task>
    ghost var handOvers: nat

    ghost function View(): Sem
      reads this
    {
      Sem(permits, available, waiting, inFlight, started, arrived, handOvers)
    }

    constructor (permits: nat)
      ensures this.permits == permits && View() == New(permits)
    {
      this.permits := permits;
      available, waiting := permits, [];
      inFlight, started, arrived, handOvers := {}, [], [], 0;
    }

    // Returns true when the caller may go on at once, false when it waits.
    method Acquire(task: Task) returns (granted: bool)
      modifies this
      ensures View() == Step(old(View()), Op.Acquire(task), true)
      ensures granted <==> old(available) > 0
    {
      arrived := arrived + [task];
      if available > 0 {
        available := available - 1;
        inFlight, started := inFlight + {task}, started + [task];
        return true;
      }
      waiting := waiting + [task];
      return false;
    }

    // The waiter's callback.
    method Wake(task: Task)
      modifies this`available, this`inFlight, this`started, this`handOvers
      ensures available == old(available) - 1 && handOvers == old(handOvers) + 1
      ensures inFlight == old(inFlight) + {task} && started == old(started) + [task]
    {
      available := available - 1;
      inFlight, started, handOvers := inFlight + {task}, started + [task], handOvers + 1;
    }

    method Release(task: Task)
      modifies this
      ensures View() == Step(old(View()), Op.Release(task), true)
    {
      inFlight := inFlight - {task};
      if waiting != [] {
        var next := waiting[0];
        waiting := waiting[1..];
        Wake(next);
      } else {
        available := available + 1;
      }
    }
  }

  // ------------------------------------------------------------ invariants

  ghost predicate Distinct(s: Sem) {
    && s.arrived == s.started + s.waiting
    && (forall i, j :: 0 <= i < j < |s.arrived| ==> s.arrived[i] != s.arrived[j])
    && (forall t :: t in s.inFlight ==> t in s.started)
  }

  // The exact law: every hand-over of the code as written loses a permit.
  ghost predicate Law(s: Sem, decrement: bool) {
    && |s.inFlight| + s.available == s.permits - (if decrement then s.handOvers else 0)
    && |s.inFlight| <= s.permits
    && (s.waiting != [] ==> s.available <= 0)
    && (!decrement ==> s.available >= 0)
  }

  // The next waiter has never run.
  lemma NextWaiterIsNew(s: Sem)
    requires Distinct(s) && s.waiting != []
    ensures s.waiting[0] !in s.started && s.waiting[0] !in s.inFlight
  {
    forall i | 0 <= i < |s.started| ensures s.started[i] != s.waiting[0] {
      assert s.arrived[i] == s.started[i] && s.arrived[|s.started|] == s.waiting[0];
    }
  }

  lemma StepKeepsDistinct(s: Sem, op: Op, decrement: bool)
    requires Distinct(s) && Law(s, decrement) && Allowed(s, op)
    ensures Distinct(Step(s, op, decrement))
  {
    match op {
      case Acquire(t) =>
        if s.available > 0 {
          assert s.waiting == [] && s.started + [t] + [] == s.arrived + [t];
        } else {
          assert s.started + (s.waiting + [t]) == s.arrived + [t];
        }
      case Release(t) =>
        if s.waiting != [] {
          assert s.started + [s.waiting[0]] + s.waiting[1..] == s.arrived;
        }
    }
  }

  lemma StepKeepsLaw(s: Sem, op: Op, decrement: bool)
    requires Distinct(s) && Law(s, decrement) && Allowed(s, op)
    ensures Law(Step(s, op, decrement), decrement)
    ensures Step(s, op, decrement).permits == s.permits
  {
    match op {
      case Acquire(t) =>
        assert t !in s.started && t !in s.inFlight by {
          forall i | 0 <= i < |s.started| ensures s.started[i] != t {
            assert s.started[i] == s.arrived[i];
          }
        }
      case Release(t) =>
        if s.waiting != [] {
          NextWaiterIsNew(s);
        }
    }
  }

  // In every reachable state: at most `permits` in flight, first come first
  // served, and the law of the permits.
  lemma {:induction false} SemaphoreLaw(permits: nat, ops: seq<Op>, decrement: bool)
    requires AllowedRun(New(permits), ops, decrement)
    ensures var s := Exec(New(permits), ops, decrement);
            Distinct(s) && Law(s, decrement) && s.permits == permits
  {
    if ops != [] {
      var init := ops[..|ops| - 1];
      SemaphoreLaw(permits, init, decrement);
      StepKeepsDistinct(Exec(New(permits), init, decrement), ops[|ops| - 1], decrement);
      StepKeepsLaw(Exec(New(permits), init, decrement), ops[|ops| - 1], decrement);
    }
  }

  // Without the second decrement a waiter exists only at available = 0.
  lemma IntendedSemaphoreConserves(permits: nat, ops: seq<Op>)
    requires AllowedRun(New(permits), ops, false)
    ensures var s := Exec(New(permits), ops, false);
            |s.inFlight| + s.available == permits && (s.waiting != [] ==> s.available == 0)
  {
    SemaphoreLaw(permits, ops, false);
  }

  // When nobody is in flight, the next caller gets a permit exactly when
  // fewer hand-overs than permits have happened.
  lemma IdleSemaphoreGrantsIff(permits: nat, ops: seq<Op>, task: Task)
    requires AllowedRun(New(permits), ops, true)
    requires Exec(New(permits), ops, true).inFlight == {}
    ensures var s := Exec(New(permits), ops, true);
            task in Step(s, Acquire(task), true).inFlight <==> s.handOvers < permits
  {
    SemaphoreLaw(permits, ops, true);
  }

  // ------------------------------------------------------ the dead state

  ghost predicate Dead(s: Sem) {
    s.inFlight == {} && s.available <= 0
  }

  // From a dead state no task ever runs again, whatever is called.
  lemma {:induction false} DeadForever(s: Sem, ops: seq<Op>)
    requires Dead(s) && AllowedRun(s, ops, true)
    ensures Dead(Exec(s, ops, true)) && Exec(s, ops, true).started == s.started
  {
    if ops != [] {
      DeadForever(s, ops[..|ops| - 1]);
    }
  }

  function Acquires(n: nat): seq<Op> {
    seq(n, i requires 0 <= i < n => Acquire(i))
  }

  function Releases(n: nat): seq<Op> {
    seq(n, i requires 0 <= i < n => Release(i))
  }

  // Twice as many callers as permits, then everyone releases in turn.
  function DeadlyRun(permits: nat): seq<Op> {
    Acquires(2 * permits) + Releases(2 * permits)
  }

  function Range(lo: nat, hi: nat): (r: seq<Task>)
    requires lo <= hi
    ensures |r| == hi - lo && forall i :: 0 <= i < |r| ==> r[i] == lo + i
  {
    seq(hi - lo, i requires 0 <= i < hi - lo => lo + i)
  }

  function Tasks(lo: nat, hi: nat): set<Task>
    requires lo <= hi
  {
    set t | t in Range(lo, hi)
  }

  lemma ExecSnoc(s: Sem, ops: seq<Op>, op: Op, decrement: bool)
    ensures Exec(s, ops + [op], decrement) == Step(Exec(s, ops, decrement), op, decrement)
    ensures AllowedRun(s, ops + [op], decrement) <==>
            AllowedRun(s, ops, decrement) && Allowed(Exec(s, ops, decrement), op)
  {
    assert (ops + [op])[..|ops + [op]| - 1] == ops;
  }

  lemma RangeGrows(lo: nat, hi: nat)
    requires lo <= hi
    ensures Range(lo, hi + 1) == Range(lo, hi) + [hi]
    ensures Tasks(lo, hi + 1) == Tasks(lo, hi) + {hi}
  {
    assert Range(lo, hi + 1)[hi - lo] == hi;
  }

  lemma RangeShrinks(lo: nat, hi: nat)
    requires lo < hi
    ensures Range(lo, hi) == [lo] + Range(lo + 1, hi)
    ensures Tasks(lo + 1, hi) == Tasks(lo, hi) - {lo}
  {
    assert Range(lo, hi) == [lo] + Range(lo + 1, hi);
    forall t ensures t in Tasks(lo + 1, hi) <==> t in Tasks(lo, hi) - {lo} {
      assert t in Tasks(lo, hi) <==> t == lo || t in Tasks(lo + 1, hi);
    }
  }

  // After n callers: the first `permits` run, the others wait.
  function Loaded(permits: nat, n: nat): Sem {
    var ran := if n <= permits then n else permits;
    Sem(permits, permits - ran, Range(ran, n), Tasks(0, ran), Range(0, ran), Range(0, n), 0)
  }

  lemma LoadOne(permits: nat, n: nat)
    ensures Step(Loaded(permits, n), Acquire(n), true) == Loaded(permits, n + 1)
    ensures Allowed(Loaded(permits, n), Acquire(n))
  {
    RangeGrows(0, n);
    if n >= permits {
      RangeGrows(permits, n);
    }
  }

  lemma {:induction false} AfterAcquires(permits: nat, n: nat)
    ensures AllowedRun(New(permits), Acquires(n), true)
    ensures Exec(New(permits), Acquires(n), true) == Loaded(permits, n)
  {
    if n == 0 {
      assert Acquires(0) == [] && Range(0, 0) == [] && Tasks(0, 0) == {};
    } else {
      AfterAcquires(permits, n - 1);
      assert Acquires(n) == Acquires(n - 1) + [Acquire(n - 1)];
      ExecSnoc(New(permits), Acquires(n - 1), Acquire(n - 1), true);
      LoadOne(permits, n - 1);
    }
  }

  // After n of the 2·permits callers released: the first `permits` releases
  // wake a waiter each and lose a permit each.
  function Drained(permits: nat, n: nat): Sem
    requires n <= 2 * permits
  {
    var woken := if n <= permits then n else permits;
    Sem(permits, n - 2 * woken, Range(permits + woken, 2 * permits), Tasks(n, permits + woken),
        Range(0, permits + woken), Range(0, 2 * permits), woken)
  }

  lemma DrainOne(permits: nat, n: nat)
    requires n < 2 * permits
    ensures Step(Drained(permits, n), Release(n), true) == Drained(permits, n + 1)
    ensures Allowed(Drained(permits, n), Release(n))
  {
    if n < permits {
      RangeShrinks(permits + n, 2 * permits);
      RangeGrows(0, permits + n);
      RangeGrows(n, permits + n);
      RangeShrinks(n, permits + n + 1);
      assert n in Range(n, permits + n) by { assert Range(n, permits + n)[0] == n; }
    } else {
      RangeShrinks(n, 2 * permits);
      assert n in Range(n, 2 * permits) by { assert Range(n, 2 * permits)[0] == n; }
    }
  }

  lemma {:induction false} AfterReleases(permits: nat, n: nat)
    requires n <= 2 * permits
    ensures AllowedRun(New(permits), Acquires(2 * permits) + Releases(n), true)
    ensures Exec(New(permits), Acquires(2 * permits) + Releases(n), true) == Drained(permits, n)
  {
    if n == 0 {
      AfterAcquires(permits, 2 * permits);
      assert Acquires(2 * permits) + Releases(0) == Acquires(2 * permits);
    } else {
      AfterReleases(permits, n - 1);
      var before := Acquires(2 * permits) + Releases(n - 1);
      assert Acquires(2 * permits) + Releases(n) == before + [Release(n - 1)];
      ExecSnoc(New(permits), before, Release(n - 1), true);
      DrainOne(permits, n - 1);
    }
  }

  // For every number of permits the code reaches a dead state.
  lemma DeadStateIsReachable(permits: nat)
    ensures AllowedRun(New(permits), DeadlyRun(permits), true)
    ensures Dead(Exec(New(permits), DeadlyRun(permits), true))
    ensures Exec(New(permits), DeadlyRun(permits), true).waiting == []
  {
    AfterReleases(permits, 2 * permits);
    assert Range(2 * permits, 2 * permits) == [];
  }
}
