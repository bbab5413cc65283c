// Webhook delivery: first attempts by the queue worker, in-place retries,
// circuit breaker and fallback escalation
// (backend/src/services/webhookWorker.ts, backend/src/services/notifications.ts).
module Webhooks {
  import opened Common

  const CIRCUIT_BREAKER_THRESHOLD := 5
  const MAX_DELIVERY_ATTEMPTS := 6

  datatype Hook = Hook(active: bool, failures: nat, open: bool, fallback: Option<int>)

  datatype Row = Row(webhook: int, attempt: nat, delivered: bool)

  // A queued webhook-deliver job; `delivery` is the log row it already owns.
  datatype Job = Job(webhook: int, delivery: Option<nat>)

  // `attempts` and `successes` count the network requests and their successes,
  // `replays` the operator's replays, per webhook.
  datatype System = System(hooks: map<int, Hook>, rows: seq<Row>, queue: seq<Job>,
                           attempts: multiset<int>, successes: multiset<int>, replays: multiset<int>)

  datatype Outcome = Throttled | Rejected | Accepted | Refused | Unreachable

  datatype Op =
    | Notify(webhooks: seq<int>)
    | Work(job: nat, outcome: Outcome, requeued: bool)
    | Retry(row: nat, outcome: Outcome)
    | Replay(row: nat)

  // Deliverable webhooks are active with a closed circuit.
  function Enqueued(hooks: map<int, Hook>, ws: seq<int>): seq<Job> {
    if ws == [] then []
    else
      var w := ws[|ws| - 1];
      Enqueued(hooks, ws[..|ws| - 1])
      + if w in hooks && hooks[w].active && !hooks[w].open then [Job(w, None)] else []
  }

  // The counter and the circuit after one more failure.
  function Failed(h: Hook): Hook {
    h.(failures := h.failures + 1, open := h.open || h.failures + 1 >= CIRCUIT_BREAKER_THRESHOLD)
  }

  function FailFirst(s: System, w: int, delivery: Option<nat>): System
    requires w in s.hooks
  {
    s.(hooks := s.hooks[w := Failed(s.hooks[w])],
       rows := match delivery
               case Some(d) => if d < |s.rows| then s.rows[d := s.rows[d].(attempt := s.rows[d].attempt + 1)] else s.rows
               case None => s.rows + [Row(w, 1, false)])
  }

  function Succeed(s: System, w: int, delivery: Option<nat>): System
    requires w in s.hooks
  {
    s.(hooks := s.hooks[w := s.hooks[w].(failures := 0)],
       rows := if delivery.Some? && delivery.value < |s.rows|
               then s.rows[delivery.value := s.rows[delivery.value].(delivered := true)] else s.rows,
       successes := s.successes + multiset{w})
  }

  function Remove(queue: seq<Job>, i: nat): seq<Job>
    requires i < |queue|
  {
    queue[..i] + queue[i + 1..]
  }

  // processWebhookDelivery. A thrown network error may make the queue run the
  // job again.
  function WorkStep(s: System, i: nat, outcome: Outcome, requeued: bool): System
    requires i < |s.queue|
  {
    var job := s.queue[i];
    var taken := s.(queue := Remove(s.queue, i));
    if job.webhook !in s.hooks || s.hooks[job.webhook].open then taken
    else
      var counted := taken.(attempts := s.attempts + multiset{job.webhook});
      match outcome
      case Throttled => taken
      case Rejected => FailFirst(taken, job.webhook, job.delivery)
      case Accepted => Succeed(counted, job.webhook, job.delivery)
      case Refused => FailFirst(counted, job.webhook, job.delivery)
      case Unreachable =>
        var f := FailFirst(counted, job.webhook, job.delivery);
        if requeued then f.(queue := f.queue + [job]) else f
  }

  // Rows that the scan of processRetries may select.
  predicate Selectable(s: System, r: nat) {
    r < |s.rows| && !s.rows[r].delivered && s.rows[r].attempt < MAX_DELIVERY_ATTEMPTS
    && s.rows[r].webhook in s.hooks && s.hooks[s.rows[r].webhook].active
  }

  function Escalated(s: System, r: nat): seq<Job>
    requires r < |s.rows| && s.rows[r].webhook in s.hooks
  {
    var fallback := s.hooks[s.rows[r].webhook].fallback;
    if s.rows[r].attempt + 1 < MAX_DELIVERY_ATTEMPTS || fallback.None? then []
    else [Job(fallback.value, None)]
  }

  // One row of processRetries. A refused answer and a failed URL check count
  // against the circuit, a thrown network error does not.
  function RetryStep(s: System, r: nat, outcome: Outcome): System {
    if !Selectable(s, r) || s.hooks[s.rows[r].webhook].open then s
    else
      var w := s.rows[r].webhook;
      var counted := if outcome.Rejected? then s else s.(attempts := s.attempts + multiset{w});
      match outcome
      case Accepted => Succeed(counted, w, Some(r))
      case Throttled => s
      case _ =>
        counted.(hooks := if outcome.Unreachable? then s.hooks else s.hooks[w := Failed(s.hooks[w])],
                 rows := s.rows[r := s.rows[r].(attempt := s.rows[r].attempt + 1)],
                 queue := s.queue + Escalated(s, r))
  }

  // replayWebhookDelivery: refused while the circuit is open.
  function ReplayStep(s: System, r: nat): System {
    if r >= |s.rows| || s.rows[r].webhook !in s.hooks || s.hooks[s.rows[r].webhook].open then s
    else
      var w := s.rows[r].webhook;
      s.(rows := s.rows + [Row(w, 1, false)],
         queue := s.queue + [Job(w, Some(|s.rows|))],
         replays := s.replays + multiset{w})
  }

  function Step(s: System, op: Op): System {
    match op
    case Notify(ws) => s.(queue := s.queue + Enqueued(s.hooks, ws))
    case Work(i, outcome, requeued) => if i < |s.queue| then WorkStep(s, i, outcome, requeued) else s
    case Retry(r, outcome) => RetryStep(s, r, outcome)
    case Replay(r) => ReplayStep(s, r)
  }

  function Exec(s: System, ops: seq<Op>): System
    decreases |ops|, 1
  {
    if ops == [] then s else ExecNonempty(s, ops)
  }

  function ExecNonempty(s: System, ops: seq<Op>): System
    requires ops != []
    decreases |ops|, 0
  {
    Step(Exec(s, ops[..|ops| - 1]), ops[|ops| - 1])
  }

  // ------------------------------------------------------- the two services

  class DeliveryService {
    var hooks: map<int, Hook>
    var rows: seq<Row>
    var queue: seq<Job>
    ghost var attempts: multiset<int>
    ghost var successes: multiset<int>
    ghost var replays: multiset<int>

    ghost function View(): System
      reads this
    {
      System(hooks, rows, queue, attempts, successes, replays)
    }

    method RecordFailure(w: int, delivery: Option<nat>)
      requires w in hooks
      modifies this
      ensures View() == FailFirst(old(View()), w, delivery)
    {
      var newFailures := hooks[w].failures + 1;
      if newFailures >= CIRCUIT_BREAKER_THRESHOLD {
        hooks := hooks[w := hooks[w].(failures := newFailures, open := true)];
      } else {
        hooks := hooks[w := hooks[w].(failures := newFailures)];
      }
      if delivery.Some? {
        if delivery.value < |rows| {
          rows := rows[delivery.value := rows[delivery.value].(attempt := rows[delivery.value].attempt + 1)];
        }
      } else {
        rows := rows + [Row(w, 1, false)];
      }
    }

    method MarkDelivered(w: int, delivery: Option<nat>)
      requires w in hooks
      modifies this
      ensures View() == Succeed(old(View()), w, delivery)
    {
      if hooks[w].failures > 0 {
        hooks := hooks[w := hooks[w].(failures := 0)];
      }
      if delivery.Some? && delivery.value < |rows| {
        rows := rows[delivery.value := rows[delivery.value].(delivered := true)];
      }
      successes := successes + multiset{w};
      assert hooks == old(hooks)[w := old(hooks)[w].(failures := 0)];
    }

    method ProcessWebhookDelivery(i: nat, outcome: Outcome, requeued: bool)
      requires i < |queue|
      modifies this
      ensures View() == WorkStep(old(View()), i, outcome, requeued)
    {
      var job := queue[i];
      queue := queue[..i] + queue[i + 1..];
      if job.webhook !in hooks {
        return;
      }
      if hooks[job.webhook].open {
        return;
      }
      if outcome.Throttled? {
        return;
      }
      if outcome.Rejected? {
        RecordFailure(job.webhook, job.delivery);
        return;
      }
      attempts := attempts + multiset{job.webhook};
      if outcome.Accepted? {
        MarkDelivered(job.webhook, job.delivery);
        return;
      }
      RecordFailure(job.webhook, job.delivery);
      if outcome.Unreachable? && requeued {
        queue := queue + [job];
      }
    }

    method RegisterRetryFailure(w: int)
      requires w in hooks
      modifies this`hooks
      ensures hooks == old(hooks)[w := Failed(old(hooks)[w])]
    {
      var failures := hooks[w].failures + 1;
      if failures >= CIRCUIT_BREAKER_THRESHOLD {
        hooks := hooks[w := hooks[w].(failures := failures, open := true)];
        return;
      }
      hooks := hooks[w := hooks[w].(failures := failures)];
    }

    method MaybeEscalateToFallback(fallback: Option<int>, nextAttempt: nat)
      modifies this`queue
      ensures queue == old(queue) + if nextAttempt < MAX_DELIVERY_ATTEMPTS || fallback.None? then [] else [Job(fallback.value, None)]
    {
      if nextAttempt < MAX_DELIVERY_ATTEMPTS || fallback.None? {
        return;
      }
      queue := queue + [Job(fallback.value, None)];
    }

    // One due row, as scanned.
    method RetryRow(r: nat, scanned: Row, fallback: Option<int>, outcome: Outcome)
      requires Selectable(View(), r) && rows[r] == scanned && hooks[scanned.webhook].fallback == fallback
      modifies this
      ensures View() == RetryStep(old(View()), r, outcome)
    {
      var w := scanned.webhook;
      if hooks[w].open || outcome.Throttled? {
        return;
      }
      if !outcome.Rejected? {
        attempts := attempts + multiset{w};
      }
      if outcome.Accepted? {
        MarkDelivered(w, Some(r));
      } else {
        FailRetry(r, scanned.attempt + 1, fallback, !outcome.Unreachable?);
      }
    }

    // A failed retry; an unreachable endpoint is not counted against it.
    method FailRetry(r: nat, nextAttempt: nat, fallback: Option<int>, counted: bool)
      requires r < |rows| && rows[r].webhook in hooks
      modifies this`hooks, this`rows, this`queue
      ensures var w := old(rows)[r].webhook; hooks == if counted then old(hooks)[w := Failed(old(hooks)[w])] else old(hooks)
      ensures rows == old(rows)[r := old(rows)[r].(attempt := nextAttempt)]
      ensures queue == old(queue) + if nextAttempt >= MAX_DELIVERY_ATTEMPTS && fallback.Some? then [Job(fallback.value, None)] else []
    {
      if counted {
        RegisterRetryFailure(rows[r].webhook);
      }
      rows := rows[r := rows[r].(attempt := nextAttempt)];
      MaybeEscalateToFallback(fallback, nextAttempt);
    }

    // The whole batch over the rows the scan returned: at most 50, each once.
    method ProcessRetries(due: seq<nat>, outcomes: nat -> Outcome)
      requires |due| <= 50 && NoDuplicates(due)
      requires forall i :: 0 <= i < |due| ==> Selectable(View(), due[i]) && !hooks[rows[due[i]].webhook].open
      modifies this
      ensures View() == Exec(old(View()), RetryOps(due, outcomes))
    {
      var scannedRows, scannedHooks := rows, hooks;
      for i := 0 to |due|
        invariant View() == Exec(old(View()), RetryOps(due, outcomes)[..i])
        invariant SameShape(scannedHooks, hooks) && |rows| == |scannedRows|
        invariant forall j :: i <= j < |due| ==> rows[due[j]] == scannedRows[due[j]]
      {
        var scanned := scannedRows[due[i]];
        assert RetryOps(due, outcomes)[..i + 1][..i] == RetryOps(due, outcomes)[..i];
        RetryFrame(View(), due[i], outcomes(i));
        RetryRow(due[i], scanned, scannedHooks[scanned.webhook].fallback, outcomes(i));
      }
      assert RetryOps(due, outcomes)[..|due|] == RetryOps(due, outcomes);
    }

    method NotifyHooks(ws: seq<int>)
      modifies this`queue
      ensures View() == Step(old(View()), Notify(ws))
    {
      for i := 0 to |ws|
        invariant queue == old(queue) + Enqueued(hooks, ws[..i])
      {
        assert ws[..i + 1][..i] == ws[..i];
        if ws[i] in hooks && hooks[ws[i]].active && !hooks[ws[i]].open {
          queue := queue + [Job(ws[i], None)];
        }
      }
      assert ws[..|ws|] == ws;
    }
  }

  function RetryOps(due: seq<nat>, outcomes: nat -> Outcome): (ops: seq<Op>)
    ensures |ops| == |due|
    ensures forall i :: 0 <= i < |due| ==> ops[i] == Retry(due[i], outcomes(i))
  {
    seq(|due|, i requires 0 <= i < |due| => Retry(due[i], outcomes(i)))
  }

  lemma RetryFrame(s: System, r: nat, outcome: Outcome)
    ensures var n := RetryStep(s, r, outcome);
            && SameShape(s.hooks, n.hooks) && |n.rows| == |s.rows|
            && forall i :: 0 <= i < |s.rows| && i != r ==> n.rows[i] == s.rows[i]
  {}

  // Delivery never changes which webhooks exist, are active, or fall back where.
  ghost predicate SameShape(a: map<int, Hook>, b: map<int, Hook>) {
    a.Keys == b.Keys && forall w :: w in a ==> a[w].active == b[w].active && a[w].fallback == b[w].fallback
  }

  // ------------------------------------------------------------- potential

  function Remaining(r: Row, w: int): nat {
    if r.webhook == w && !r.delivered && r.attempt < MAX_DELIVERY_ATTEMPTS then MAX_DELIVERY_ATTEMPTS - r.attempt else 0
  }

  function Pending(rows: seq<Row>, w: int): nat {
    if rows == [] then 0 else Pending(rows[..|rows| - 1], w) + Remaining(rows[|rows| - 1], w)
  }

  lemma PendingAppend(rows: seq<Row>, r: Row, w: int)
    ensures Pending(rows + [r], w) == Pending(rows, w) + Remaining(r, w)
  {
    assert (rows + [r])[..|rows + [r]| - 1] == rows;
  }

  lemma {:induction false} PendingUpdate(rows: seq<Row>, i: nat, r: Row, w: int)
    requires i < |rows|
    ensures Pending(rows[i := r], w) == Pending(rows, w) - Remaining(rows[i], w) + Remaining(r, w)
  {
    var n := |rows| - 1;
    if i < n {
      PendingUpdate(rows[..n], i, r, w);
      assert rows[i := r][..n] == rows[..n][i := r];
    } else {
      assert rows[i := r][..n] == rows[..n];
    }
  }

  // How many more requests webhook w can get without a success or a replay.
  function Budget(s: System, w: int): int {
    if w !in s.hooks || s.hooks[w].open then 0
    else 1 + 6 * (4 - s.hooks[w].failures) + Pending(s.rows, w)
  }

  ghost predicate BreakerOk(s: System) {
    forall w :: w in s.hooks && !s.hooks[w].open ==> s.hooks[w].failures < CIRCUIT_BREAKER_THRESHOLD
  }

  lemma FailFirstSpends(s: System, v: int, delivery: Option<nat>, w: int)
    requires BreakerOk(s) && v in s.hooks && !s.hooks[v].open
    ensures var n := FailFirst(s, v, delivery);
            BreakerOk(n) && Budget(n, w) <= Budget(s, w) - if v == w then 1 else 0
  {
    match delivery {
      case Some(d) =>
        if d < |s.rows| {
          PendingUpdate(s.rows, d, s.rows[d].(attempt := s.rows[d].attempt + 1), w);
        }
      case None => PendingAppend(s.rows, Row(v, 1, false), w);
    }
  }

  lemma SucceedRefills(s: System, v: int, delivery: Option<nat>, w: int)
    requires BreakerOk(s) && v in s.hooks && !s.hooks[v].open
    ensures var n := Succeed(s, v, delivery);
            BreakerOk(n) && Budget(n, w) <= Budget(s, w) + if v == w then 24 else 0
  {
    if delivery.Some? && delivery.value < |s.rows| {
      var d := delivery.value;
      PendingUpdate(s.rows, d, s.rows[d].(delivered := true), w);
    }
  }

  // Requests so far plus the budget left grow only by successes and replays.
  function Account(s: System, w: int): int {
    s.attempts[w] + Budget(s, w) - 25 * s.successes[w] - 5 * s.replays[w]
  }

  lemma WorkSpends(s: System, i: nat, outcome: Outcome, requeued: bool, w: int)
    requires BreakerOk(s) && i < |s.queue|
    ensures var n := WorkStep(s, i, outcome, requeued);
            BreakerOk(n) && Account(n, w) <= Account(s, w)
  {
    var job := s.queue[i];
    var taken := s.(queue := Remove(s.queue, i));
    if job.webhook in s.hooks && !s.hooks[job.webhook].open {
      var counted := taken.(attempts := s.attempts + multiset{job.webhook});
      FailFirstSpends(taken, job.webhook, job.delivery, w);
      FailFirstSpends(counted, job.webhook, job.delivery, w);
      SucceedRefills(counted, job.webhook, job.delivery, w);
    }
  }

  lemma RetrySpends(s: System, r: nat, outcome: Outcome, w: int)
    requires BreakerOk(s)
    ensures var n := RetryStep(s, r, outcome);
            BreakerOk(n) && Account(n, w) <= Account(s, w)
  {
    if Selectable(s, r) && !s.hooks[s.rows[r].webhook].open {
      var v := s.rows[r].webhook;
      PendingUpdate(s.rows, r, s.rows[r].(attempt := s.rows[r].attempt + 1), w);
      SucceedRefills(s.(attempts := s.attempts + multiset{v}), v, Some(r), w);
    }
  }

  lemma StepSpends(s: System, op: Op, w: int)
    requires BreakerOk(s)
    ensures BreakerOk(Step(s, op)) && Account(Step(s, op), w) <= Account(s, w)
  {
    match op {
      case Notify(_) =>
      case Work(i, outcome, requeued) => if i < |s.queue| { WorkSpends(s, i, outcome, requeued, w); }
      case Retry(r, outcome) => RetrySpends(s, r, outcome, w);
      case Replay(r) =>
        if r < |s.rows| {
          PendingAppend(s.rows, Row(s.rows[r].webhook, 1, false), w);
        }
    }
  }

  // Over every serial run without an operator reset.
  lemma {:induction false} RunSpends(s: System, ops: seq<Op>, w: int)
    requires BreakerOk(s)
    ensures BreakerOk(Exec(s, ops)) && Account(Exec(s, ops), w) <= Account(s, w)
  {
    if ops != [] {
      RunSpends(s, ops[..|ops| - 1], w);
      StepSpends(Exec(s, ops[..|ops| - 1]), ops[|ops| - 1], w);
    }
  }

  // Nothing sent, logged or failed yet.
  ghost predicate Fresh(s: System) {
    && (forall w :: w in s.hooks ==> s.hooks[w].failures == 0 && !s.hooks[w].open)
    && s.rows == [] && s.attempts == multiset{} && s.successes == multiset{} && s.replays == multiset{}
  }

  // A webhook gets at most 25 requests, 25 more per success and 5 more per
  // replay, for any number of events and whatever the fallback links.
  lemma AttemptsAreBounded(s: System, ops: seq<Op>, w: int)
    requires Fresh(s)
    ensures var n := Exec(s, ops);
            n.attempts[w] <= 25 * (1 + n.successes[w]) + 5 * n.replays[w]
  {
    RunSpends(s, ops, w);
    var n := Exec(s, ops);
    assert Budget(s, w) <= 25;
    assert Budget(n, w) >= 0;
  }

  // Only existing webhooks get requests.
  lemma {:induction false} OnlyKnownHooks(s: System, ops: seq<Op>)
    requires Fresh(s)
    ensures Exec(s, ops).hooks.Keys == s.hooks.Keys
    ensures forall w :: w in Exec(s, ops).attempts ==> w in s.hooks
  {
    if ops != [] {
      OnlyKnownHooks(s, ops[..|ops| - 1]);
      StepKnowsHooks(Exec(s, ops[..|ops| - 1]), ops[|ops| - 1]);
    }
  }

  lemma StepKnowsHooks(s: System, op: Op)
    requires forall w :: w in s.attempts ==> w in s.hooks
    ensures Step(s, op).hooks.Keys == s.hooks.Keys
    ensures forall w :: w in Step(s, op).attempts ==> w in s.hooks
  {}

  lemma {:induction false} BoundedMultiset(m: multiset<int>, keys: set<int>, bound: nat)
    requires forall w :: w in m ==> w in keys
    requires forall w :: m[w] <= bound
    ensures |m| <= bound * |keys|
    decreases keys
  {
    if w :| w in keys {
      var rest := m[w := 0];
      assert forall v :: v in rest ==> v in m && v != w;
      BoundedMultiset(rest, keys - {w}, bound);
      assert m == rest + multiset{w}[w := m[w]];
      assert |multiset{w}[w := m[w]]| == m[w];
      assert bound * |keys| == bound * |keys - {w}| + bound;
    } else {
      assert forall w :: w !in m;
      assert m == multiset{};
    }
  }

  // Over all webhooks: fallbacks may form a cycle, yet without a success or a
  // replay the system sends at most 25 requests per webhook in total.
  lemma TotalAttemptsAreBounded(s: System, ops: seq<Op>)
    requires Fresh(s)
    requires Exec(s, ops).successes == multiset{} && Exec(s, ops).replays == multiset{}
    ensures |Exec(s, ops).attempts| <= 25 * |s.hooks.Keys|
  {
    OnlyKnownHooks(s, ops);
    forall w ensures Exec(s, ops).attempts[w] <= 25 {
      AttemptsAreBounded(s, ops, w);
    }
    BoundedMultiset(Exec(s, ops).attempts, s.hooks.Keys, 25);
  }

  // ----------------------------------------------------------- who hears what

  predicate Deliverable(hooks: map<int, Hook>, w: int) { w in hooks && hooks[w].active && !hooks[w].open }

  lemma {:induction false} EnqueuedIff(hooks: map<int, Hook>, ws: seq<int>, w: int)
    ensures multiset(Enqueued(hooks, ws))[Job(w, None)] == if Deliverable(hooks, w) then multiset(ws)[w] else 0
    ensures forall j :: j in Enqueued(hooks, ws) ==> j.delivery.None? && j.webhook in ws && Deliverable(hooks, j.webhook)
  {
    if ws != [] {
      var n := |ws| - 1;
      EnqueuedIff(hooks, ws[..n], w);
      assert ws == ws[..n] + [ws[n]];
    }
  }

  // A first attempt is queued for exactly the active webhooks with a closed
  // circuit, once for each time they are listed, behind what was queued.
  lemma NotifyQueuesIff(s: System, ws: seq<int>, w: int)
    ensures var queue := Step(s, Notify(ws)).queue;
            s.queue <= queue
            && multiset(queue)[Job(w, None)] == multiset(s.queue)[Job(w, None)] + (if Deliverable(s.hooks, w) then multiset(ws)[w] else 0)
            && forall j :: j in queue[|s.queue|..] ==> j.delivery.None? && j.webhook in ws && Deliverable(s.hooks, j.webhook)
  {
    EnqueuedIff(s.hooks, ws, w);
    assert Step(s, Notify(ws)).queue[|s.queue|..] == Enqueued(s.hooks, ws);
  }

  // The row used up its last attempt in this step.
  predicate UsedUp(s: System, n: System, r: nat) {
    r < |s.rows| && r < |n.rows| && s.rows[r].attempt < MAX_DELIVERY_ATTEMPTS
    && n.rows[r].attempt >= MAX_DELIVERY_ATTEMPTS && !n.rows[r].delivered
  }

  function FallbackOf(s: System, w: int): Option<int> {
    if w in s.hooks then s.hooks[w].fallback else None
  }

  // A retry adds one job without a delivery, for the fallback of its webhook,
  // when it uses the row up, and no job otherwise.
  lemma RetryEscalatesIff(s: System, r: nat, outcome: Outcome)
    ensures var n := Step(s, Retry(r, outcome));
            n.queue == s.queue + if UsedUp(s, n, r) && FallbackOf(s, s.rows[r].webhook).Some?
                                 then [Job(FallbackOf(s, s.rows[r].webhook).value, None)] else []
    ensures forall i :: i != r ==> !UsedUp(s, Step(s, Retry(r, outcome)), i)
  {
    RetryFrame(s, r, outcome);
  }

  // The rows of w that retries used up.
  function UsedUpRows(s: System, ops: seq<Op>, w: int): set<nat> {
    if ops == [] then {}
    else
      var before, op := Exec(s, ops[..|ops| - 1]), ops[|ops| - 1];
      UsedUpRows(s, ops[..|ops| - 1], w)
      + if op.Retry? && UsedUp(before, Step(before, op), op.row) && before.rows[op.row].webhook == w then {op.row} else {}
  }

  // The jobs that retries of w's rows put on the queue.
  function EscalatedJobs(s: System, ops: seq<Op>, w: int): seq<Job> {
    if ops == [] then []
    else
      var before, op := Exec(s, ops[..|ops| - 1]), ops[|ops| - 1];
      var after := Step(before, op);
      EscalatedJobs(s, ops[..|ops| - 1], w)
      + if op.Retry? && op.row < |before.rows| && before.rows[op.row].webhook == w && |after.queue| >= |before.queue|
        then after.queue[|before.queue|..] else []
  }

  // Rows are never dropped or given to another webhook, attempts never go
  // down, and a delivered row stays delivered.
  ghost predicate RowsGrow(s: System, n: System) {
    |s.rows| <= |n.rows|
    && forall i :: 0 <= i < |s.rows| ==>
         n.rows[i].webhook == s.rows[i].webhook && n.rows[i].attempt >= s.rows[i].attempt
         && (s.rows[i].delivered ==> n.rows[i].delivered)
  }

  lemma StepGrowsRows(s: System, op: Op)
    ensures RowsGrow(s, Step(s, op)) && SameShape(s.hooks, Step(s, op).hooks)
  {
    match op
    case Work(i, outcome, requeued) => if i < |s.queue| { WorkGrowsRows(s, i, outcome, requeued); }
    case Retry(r, outcome) => RetryGrowsRows(s, r, outcome);
    case _ =>
  }

  lemma WorkGrowsRows(s: System, i: nat, outcome: Outcome, requeued: bool)
    requires i < |s.queue|
    ensures RowsGrow(s, WorkStep(s, i, outcome, requeued)) && SameShape(s.hooks, WorkStep(s, i, outcome, requeued).hooks)
  {}

  lemma RetryGrowsRows(s: System, r: nat, outcome: Outcome)
    ensures RowsGrow(s, RetryStep(s, r, outcome)) && SameShape(s.hooks, RetryStep(s, r, outcome).hooks)
  {}

  lemma {:induction false} RunGrowsRows(s: System, ops: seq<Op>)
    ensures RowsGrow(s, Exec(s, ops)) && SameShape(s.hooks, Exec(s, ops).hooks)
  {
    if ops != [] {
      RunGrowsRows(s, ops[..|ops| - 1]);
      StepGrowsRows(Exec(s, ops[..|ops| - 1]), ops[|ops| - 1]);
    }
  }

  // A delivered row is never tried again: a retry of it, at any later time,
  // changes nothing.
  lemma DeliveredIsNeverRetried(s: System, ops: seq<Op>, r: nat, outcome: Outcome)
    requires r < |s.rows| && s.rows[r].delivered
    ensures Exec(s, ops + [Retry(r, outcome)]) == Exec(s, ops) && !Selectable(Exec(s, ops), r)
  {
    RunGrowsRows(s, ops);
    ExecSnoc(s, ops, Retry(r, outcome));
  }

  lemma ExecSnoc(s: System, ops: seq<Op>, op: Op)
    ensures Exec(s, ops + [op]) == Step(Exec(s, ops), op)
  {
    assert (ops + [op])[..|ops + [op]| - 1] == ops;
  }

  lemma {:induction false} UsedUpStays(s: System, ops: seq<Op>, w: int)
    ensures forall r :: r in UsedUpRows(s, ops, w) ==>
              r < |Exec(s, ops).rows| && Exec(s, ops).rows[r].attempt >= MAX_DELIVERY_ATTEMPTS
  {
    if ops != [] {
      UsedUpStays(s, ops[..|ops| - 1], w);
      StepGrowsRows(Exec(s, ops[..|ops| - 1]), ops[|ops| - 1]);
    }
  }

  function Repeat(j: Job, n: nat): seq<Job> { seq(n, i => j) }

  // Over every run: for each row of w that retries used up its fallback gets
  // one job, and without a fallback nobody does.
  lemma {:induction false} EscalationsAreUsedUpRows(s: System, ops: seq<Op>, w: int)
    ensures EscalatedJobs(s, ops, w)
         == if FallbackOf(s, w).Some? then Repeat(Job(FallbackOf(s, w).value, None), |UsedUpRows(s, ops, w)|) else []
  {
    if ops != [] {
      var init, op := ops[..|ops| - 1], ops[|ops| - 1];
      var before := Exec(s, init);
      EscalationsAreUsedUpRows(s, init, w);
      UsedUpStays(s, init, w);
      RunGrowsRows(s, init);
      if op.Retry? {
        RetryEscalatesIff(before, op.row, op.outcome);
        OneMoreEscalation(s, init, op, w);
      }
    }
  }

  lemma OneMoreEscalation(s: System, init: seq<Op>, op: Op, w: int)
    requires op.Retry? && SameShape(s.hooks, Exec(s, init).hooks)
    requires forall r :: r in UsedUpRows(s, init, w) ==>
               r < |Exec(s, init).rows| && Exec(s, init).rows[r].attempt >= MAX_DELIVERY_ATTEMPTS
    requires EscalatedJobs(s, init, w)
          == if FallbackOf(s, w).Some? then Repeat(Job(FallbackOf(s, w).value, None), |UsedUpRows(s, init, w)|) else []
    ensures EscalatedJobs(s, init + [op], w)
         == if FallbackOf(s, w).Some? then Repeat(Job(FallbackOf(s, w).value, None), |UsedUpRows(s, init + [op], w)|) else []
  {
    var before := Exec(s, init);
    assert (init + [op])[..|init + [op]| - 1] == init;
    RetryEscalatesIff(before, op.row, op.outcome);
    if UsedUp(before, Step(before, op), op.row) && before.rows[op.row].webhook == w {
      assert op.row !in UsedUpRows(s, init, w);
      assert |UsedUpRows(s, init + [op], w)| == |UsedUpRows(s, init, w)| + 1;
    } else {
      assert UsedUpRows(s, init + [op], w) == UsedUpRows(s, init, w);
    }
  }

  // ------------------------------------------------------------ the breaker

  // What a step says of webhook w: a request that succeeded, a failure that
  // counts against it, or nothing.
  datatype Verdict = Silent | Success | Failure

  function VerdictOf(s: System, op: Op, w: int): Verdict {
    match op
    case Work(i, outcome, _) =>
      if i >= |s.queue| || s.queue[i].webhook != w || w !in s.hooks || s.hooks[w].open then Silent
      else (match outcome case Accepted => Success case Throttled => Silent case _ => Failure)
    case Retry(r, outcome) =>
      if !Selectable(s, r) || s.rows[r].webhook != w || s.hooks[w].open then Silent
      else (match outcome
            case Accepted => Success
            case Throttled => Silent
            case Unreachable => Silent
            case _ => Failure)
    case _ => Silent
  }

  // Failures of w in a row, since its last success.
  function Streak(s: System, ops: seq<Op>, w: int): nat
    requires w in s.hooks
  {
    if ops == [] then s.hooks[w].failures
    else
      match VerdictOf(Exec(s, ops[..|ops| - 1]), ops[|ops| - 1], w)
      case Silent => Streak(s, ops[..|ops| - 1], w)
      case Success => 0
      case Failure => Streak(s, ops[..|ops| - 1], w) + 1
  }

  ghost predicate ReachedFive(s: System, ops: seq<Op>, w: int)
    requires w in s.hooks
  {
    exists n :: 0 <= n <= |ops| && Streak(s, ops[..n], w) >= CIRCUIT_BREAKER_THRESHOLD
  }

  // The counter is the streak, and the circuit is open exactly once five
  // failures have come in a row.
  lemma {:induction false} CircuitOpensAtFiveInARow(s: System, ops: seq<Op>, w: int)
    requires w in s.hooks && !s.hooks[w].open && s.hooks[w].failures < CIRCUIT_BREAKER_THRESHOLD
    ensures var n := Exec(s, ops);
            w in n.hooks && n.hooks[w].failures == Streak(s, ops, w) && (n.hooks[w].open <==> ReachedFive(s, ops, w))
  {
    if ops == [] {
      assert forall n :: 0 <= n <= |ops| ==> ops[..n] == [];
    } else {
      var m := |ops| - 1;
      CircuitOpensAtFiveInARow(s, ops[..m], w);
      ReachedLater(s, ops, w);
      BreakerStep(Exec(s, ops[..m]), ops[m], w);
    }
  }

  lemma ReachedLater(s: System, ops: seq<Op>, w: int)
    requires w in s.hooks && ops != []
    ensures ReachedFive(s, ops, w) <==>
              ReachedFive(s, ops[..|ops| - 1], w) || Streak(s, ops, w) >= CIRCUIT_BREAKER_THRESHOLD
  {
    var init := ops[..|ops| - 1];
    assert ops[..|ops|] == ops;
    assert forall n :: 0 <= n <= |init| ==> init[..n] == ops[..n];
    if ReachedFive(s, init, w) {
      var n :| 0 <= n <= |init| && Streak(s, init[..n], w) >= CIRCUIT_BREAKER_THRESHOLD;
      assert Streak(s, ops[..n], w) >= CIRCUIT_BREAKER_THRESHOLD;
    }
    if n :| 0 <= n <= |ops| && Streak(s, ops[..n], w) >= CIRCUIT_BREAKER_THRESHOLD {
      if n < |ops| {
        assert Streak(s, init[..n], w) >= CIRCUIT_BREAKER_THRESHOLD;
      }
    }
  }

  lemma BreakerStep(s: System, op: Op, w: int)
    requires w in s.hooks
    ensures var n, f := Step(s, op), s.hooks[w].failures;
            w in n.hooks
            && match VerdictOf(s, op, w)
               case Silent => n.hooks[w] == s.hooks[w]
               case Success => n.hooks[w] == s.hooks[w].(failures := 0)
               case Failure => n.hooks[w] == s.hooks[w].(failures := f + 1, open := s.hooks[w].open || f + 1 >= 5)
  {}

  // A refused retry leaves a trace exactly on an undelivered row with attempts
  // left, of an active webhook whose circuit is closed.
  lemma RetriedIff(s: System, r: nat)
    ensures Step(s, Retry(r, Refused)) != s
      <==> r < |s.rows| && !s.rows[r].delivered && s.rows[r].attempt < 6
           && s.rows[r].webhook in s.hooks && s.hooks[s.rows[r].webhook].active && !s.hooks[s.rows[r].webhook].open
  {
    if Selectable(s, r) && !s.hooks[s.rows[r].webhook].open {
      assert Step(s, Retry(r, Refused)).rows[r].attempt == s.rows[r].attempt + 1;
    }
  }

  // ---------------------------------------------------------- the delivery log

  // What a step tries on behalf of a row, or of no row yet.
  datatype Try = NoTry | Try(webhook: int, row: Option<nat>, delivered: bool)

  function TryOf(s: System, op: Op): Try {
    match op
    case Work(i, outcome, _) =>
      if i >= |s.queue| || s.queue[i].webhook !in s.hooks || s.hooks[s.queue[i].webhook].open || outcome.Throttled? then NoTry
      else Try(s.queue[i].webhook, s.queue[i].delivery, outcome.Accepted?)
    case Retry(r, outcome) =>
      if !Selectable(s, r) || s.hooks[s.rows[r].webhook].open || outcome.Throttled? then NoTry
      else Try(s.rows[r].webhook, Some(r), outcome.Accepted?)
    case _ => NoTry
  }

  // Failed tries on behalf of row r, and whether one was delivered.
  function Failures(s: System, ops: seq<Op>, r: nat): nat {
    if ops == [] then 0
    else
      var t := TryOf(Exec(s, ops[..|ops| - 1]), ops[|ops| - 1]);
      Failures(s, ops[..|ops| - 1], r) + if t.Try? && t.row == Some(r) && !t.delivered then 1 else 0
  }

  predicate DeliveredBy(s: System, ops: seq<Op>, r: nat) {
    ops != []
    && (DeliveredBy(s, ops[..|ops| - 1], r)
        || var t := TryOf(Exec(s, ops[..|ops| - 1]), ops[|ops| - 1]); t.Try? && t.row == Some(r) && t.delivered)
  }

  // A row of the log counts the failed tries made for it, and is delivered
  // exactly when it was before or one of them was.
  lemma {:induction false} RowCountsItsTries(s: System, ops: seq<Op>, r: nat)
    requires r < |s.rows|
    ensures var n := Exec(s, ops);
            r < |n.rows|
            && n.rows[r] == Row(s.rows[r].webhook, s.rows[r].attempt + Failures(s, ops, r), s.rows[r].delivered || DeliveredBy(s, ops, r))
  {
    if ops != [] {
      RowCountsItsTries(s, ops[..|ops| - 1], r);
      RowAfterTry(Exec(s, ops[..|ops| - 1]), ops[|ops| - 1], r);
    }
  }

  function AfterTry(row: Row, t: Try, r: nat): Row {
    if !t.Try? || t.row != Some(r) then row
    else if t.delivered then row.(delivered := true)
    else row.(attempt := row.attempt + 1)
  }

  lemma RowAfterTry(s: System, op: Op, r: nat)
    requires r < |s.rows|
    ensures r < |Step(s, op).rows| && Step(s, op).rows[r] == AfterTry(s.rows[r], TryOf(s, op), r)
  {
    match op
    case Work(i, outcome, requeued) => if i < |s.queue| { RowAfterWork(s, i, outcome, requeued, r); }
    case Retry(q, outcome) => RowAfterRetry(s, q, outcome, r);
    case _ =>
  }

  lemma RowAfterWork(s: System, i: nat, outcome: Outcome, requeued: bool, r: nat)
    requires i < |s.queue| && r < |s.rows|
    ensures var n := WorkStep(s, i, outcome, requeued);
            r < |n.rows| && n.rows[r] == AfterTry(s.rows[r], TryOf(s, Work(i, outcome, requeued)), r)
  {}

  lemma RowAfterRetry(s: System, q: nat, outcome: Outcome, r: nat)
    requires r < |s.rows|
    ensures var n := RetryStep(s, q, outcome);
            r < |n.rows| && n.rows[r] == AfterTry(s.rows[r], TryOf(s, Retry(q, outcome)), r)
  {}

  // New rows: one for a failed first attempt, which no row was there for, and
  // one for a replay, which gets a job of its own; each with attempt 1.
  lemma NewRows(s: System, op: Op)
    ensures var n, t := Step(s, op), TryOf(s, op);
            n.rows[|s.rows|..] == if t.Try? && t.row.None? && !t.delivered then [Row(t.webhook, 1, false)]
                                  else if n.replays != s.replays then [Row(s.rows[op.row].webhook, 1, false)] else []
    ensures var n := Step(s, op);
            n.replays != s.replays ==>
              op.Replay? && op.row < |s.rows| && n.queue == s.queue + [Job(s.rows[op.row].webhook, Some(|s.rows|))]
  {
    if op.Replay? && op.row < |s.rows| {
      var w := s.rows[op.row].webhook;
      assert (s.replays + multiset{w})[w] == s.replays[w] + 1;
    }
  }

  // A worker takes its job off the queue, leaving the others in order, and only
  // a network error of a closed circuit may put it back, at the end.
  lemma WorkTakesItsJob(s: System, i: nat, outcome: Outcome, requeued: bool)
    requires i < |s.queue|
    ensures var job := s.queue[i];
            Step(s, Work(i, outcome, requeued)).queue
            == s.queue[..i] + s.queue[i + 1..]
               + if outcome.Unreachable? && requeued && job.webhook in s.hooks && !s.hooks[job.webhook].open then [job] else []
  {
    assert Remove(s.queue, i) + [] == Remove(s.queue, i);
  }

  // The requests made of a webhook are its tries but those that fail the URL
  // check, which never leave the process.
  lemma RequestsAreTries(s: System, op: Op, w: int)
    ensures var t := TryOf(s, op);
            Step(s, op).attempts[w]
            == s.attempts[w] + if t.Try? && t.webhook == w && !((op.Work? || op.Retry?) && op.outcome.Rejected?) then 1 else 0
    ensures var t := TryOf(s, op);
            Step(s, op).successes[w] == s.successes[w] + if t.Try? && t.webhook == w && t.delivered then 1 else 0
  {}

  // A replay is made exactly for a row whose webhook exists and is closed.
  lemma ReplayedIff(s: System, r: nat)
    ensures Step(s, Replay(r)) != s <==> r < |s.rows| && s.rows[r].webhook in s.hooks && !s.hooks[s.rows[r].webhook].open
  {
    assert |s.rows + [Row(0, 1, false)]| != |s.rows|;
  }

  // ------------------------------------------------------------- tightness

  lemma {:induction false} ExecConcat(s: System, p: seq<Op>, q: seq<Op>)
    ensures Exec(s, p + q) == Exec(Exec(s, p), q)
  {
    if q == [] {
      assert p + q == p;
    } else {
      ExecConcat(s, p, q[..|q| - 1]);
      assert (p + q)[..|p + q| - 1] == p + q[..|q| - 1];
    }
  }

  lemma ExecTwo(s: System, a: Op, b: Op)
    ensures Exec(s, [a, b]) == Step(Step(s, a), b)
  {
    assert [a, b][..1] == [a] && [a][..0] == [];
    assert Exec(s, [a]) == Step(Exec(s, []), a);
  }

  // An event whose first attempt is refused.
  function RefusedEvent(w: int): seq<Op> { [Notify([w]), Work(0, Refused, false)] }

  lemma RefusedEventStep(s: System, w: int)
    requires w in s.hooks && s.hooks[w].active && !s.hooks[w].open && s.queue == []
    ensures Exec(s, RefusedEvent(w))
         == s.(hooks := s.hooks[w := Failed(s.hooks[w])], rows := s.rows + [Row(w, 1, false)],
               attempts := s.attempts + multiset{w})
  {
    ExecTwo(s, Notify([w]), Work(0, Refused, false));
    assert [w][..0] == [];
    assert Enqueued(s.hooks, [w]) == Enqueued(s.hooks, []) + [Job(w, None)];
    var notified := Step(s, Notify([w]));
    assert notified.queue == [Job(w, None)];
    assert Remove(notified.queue, 0) == [];
  }

  function Timeouts(r: nat, n: nat): seq<Op> { seq(n, i => Retry(r, Unreachable)) }

  lemma {:induction false} TimeoutsStep(s: System, r: nat, n: nat)
    requires Selectable(s, r) && !s.hooks[s.rows[r].webhook].open && s.hooks[s.rows[r].webhook].fallback.None?
    requires s.rows[r].attempt + n <= MAX_DELIVERY_ATTEMPTS
    ensures Exec(s, Timeouts(r, n))
         == s.(rows := s.rows[r := s.rows[r].(attempt := s.rows[r].attempt + n)],
               attempts := s.attempts[s.rows[r].webhook := s.attempts[s.rows[r].webhook] + n])
  {
    if n > 0 {
      TimeoutsStep(s, r, n - 1);
      assert Timeouts(r, n)[..n - 1] == Timeouts(r, n - 1);
      assert Timeouts(r, n)[n - 1] == Retry(r, Unreachable);
    }
  }

  function RefusedEvents(w: int, n: nat): seq<Op> {
    if n == 0 then [] else RefusedEvents(w, n - 1) + RefusedEvent(w)
  }

  // The state after n refused events, below the threshold.
  function Refusing(s: System, w: int, n: nat): System
    requires w in s.hooks
  {
    s.(hooks := s.hooks[w := s.hooks[w].(failures := n)], rows := seq(n, i => Row(w, 1, false)),
       attempts := multiset{}[w := n])
  }

  lemma RefusingNext(s: System, w: int, n: nat)
    requires w in s.hooks && s.hooks[w].active && !s.hooks[w].open && s.queue == [] && n + 1 < CIRCUIT_BREAKER_THRESHOLD
    ensures Exec(Refusing(s, w, n), RefusedEvent(w)) == Refusing(s, w, n + 1)
  {
    var mid := Refusing(s, w, n);
    RefusedEventStep(mid, w);
    assert mid.hooks[w := Failed(mid.hooks[w])] == s.hooks[w := s.hooks[w].(failures := n + 1)];
    assert mid.rows + [Row(w, 1, false)] == seq(n + 1, i => Row(w, 1, false));
    assert mid.attempts + multiset{w} == multiset{}[w := n + 1];
  }

  lemma RefusingNone(s: System, w: int)
    requires w in s.hooks && s.hooks[w].failures == 0 && s.rows == [] && s.attempts == multiset{}
    ensures Refusing(s, w, 0) == s
  {
    assert s.hooks[w := s.hooks[w].(failures := 0)] == s.hooks;
  }

  lemma {:induction false} RefusedEventsStep(s: System, w: int, n: nat)
    requires w in s.hooks && s.hooks[w].active && !s.hooks[w].open && s.hooks[w].failures == 0
    requires s.rows == [] && s.attempts == multiset{} && s.queue == [] && n < CIRCUIT_BREAKER_THRESHOLD
    ensures Exec(s, RefusedEvents(w, n)) == Refusing(s, w, n)
  {
    if n == 0 {
      NoRefusedEvents(s, w);
    } else {
      RefusedEventsStep(s, w, n - 1);
      RefusingNext(s, w, n - 1);
      OneRefusedMore(s, w, n - 1, Refusing(s, w, n - 1), Refusing(s, w, n));
    }
  }

  lemma NoRefusedEvents(s: System, w: int)
    requires w in s.hooks && s.hooks[w].failures == 0 && s.rows == [] && s.attempts == multiset{}
    ensures Exec(s, RefusedEvents(w, 0)) == Refusing(s, w, 0)
  {
    RefusingNone(s, w);
  }

  lemma OneRefusedMore(s: System, w: int, n: nat, mid: System, end: System)
    requires Exec(s, RefusedEvents(w, n)) == mid && Exec(mid, RefusedEvent(w)) == end
    ensures Exec(s, RefusedEvents(w, n + 1)) == end
  {
    RunThen(s, RefusedEvents(w, n), mid, RefusedEvent(w), end);
  }

  lemma RunThen(s: System, p: seq<Op>, mid: System, q: seq<Op>, end: System)
    requires Exec(s, p) == mid && Exec(mid, q) == end
    ensures Exec(s, p + q) == end
  {
    ExecConcat(s, p, q);
  }

  function AllTimeouts(n: nat): seq<Op> {
    if n == 0 then [] else AllTimeouts(n - 1) + Timeouts(n - 1, 5)
  }

  // The state after the first n of the rows timed out to the end.
  function TimedOut(s: System, w: int, n: nat): System {
    s.(rows := seq(|s.rows|, i => if i < n then Row(w, 6, false) else Row(w, 1, false)),
       attempts := s.attempts[w := s.attempts[w] + 5 * n])
  }

  ghost predicate UntouchedRows(s: System, w: int) {
    && w in s.hooks && s.hooks[w].active && !s.hooks[w].open && s.hooks[w].fallback.None?
    && forall i :: 0 <= i < |s.rows| ==> s.rows[i] == Row(w, 1, false)
  }

  lemma TimedOutNext(s: System, w: int, n: nat)
    requires UntouchedRows(s, w) && n < |s.rows|
    ensures Exec(TimedOut(s, w, n), Timeouts(n, 5)) == TimedOut(s, w, n + 1)
  {
    var mid := TimedOut(s, w, n);
    TimeoutsStep(mid, n, 5);
    assert mid.rows[n := Row(w, 6, false)] == TimedOut(s, w, n + 1).rows;
  }

  lemma {:induction false} AllTimeoutsStep(s: System, w: int, n: nat)
    requires UntouchedRows(s, w) && n <= |s.rows|
    ensures Exec(s, AllTimeouts(n)) == TimedOut(s, w, n)
  {
    if n == 0 {
      assert TimedOut(s, w, 0).rows == s.rows;
    } else {
      AllTimeoutsStep(s, w, n - 1);
      ExecConcat(s, AllTimeouts(n - 1), Timeouts(n - 1, 5));
      TimedOutNext(s, w, n - 1);
    }
  }

  // The bound is reached: four refused events, five time-outs for each of
  // their rows, and the refused event that opens the circuit.
  lemma TwentyFiveIsReached(s: System, w: int)
    requires Fresh(s) && w in s.hooks && s.hooks[w].active && s.hooks[w].fallback.None? && s.queue == []
    ensures var n := Exec(s, RefusedEvents(w, 4) + AllTimeouts(4) + RefusedEvent(w));
            w in n.hooks && n.hooks[w].open && n.attempts[w] == 25 && n.successes == multiset{}
  {
    RefusedEventsStep(s, w, 4);
    var s1 := Exec(s, RefusedEvents(w, 4));
    AllTimeoutsStep(s1, w, 4);
    ExecConcat(s, RefusedEvents(w, 4), AllTimeouts(4));
    var s2 := Exec(s1, AllTimeouts(4));
    ExecConcat(s, RefusedEvents(w, 4) + AllTimeouts(4), RefusedEvent(w));
    RefusedEventStep(s2, w);
  }
}
