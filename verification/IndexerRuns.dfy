// The steps that one tick and one backfill of the indexer
// (backend/src/services/indexer.ts) take in the machine, what they leave, and
// that they keep the invariant.
module IndexerRuns {
  import opened Common
  import opened Handlers
  import opened EventStore
  import opened IndexerMachine
  import opened IndexerCoverage
  import opened IndexerSchedules
  import opened IndexerWriters
  import opened IndexerInterleavings

  // ------------------------------------------------------ the steps of a tick

  // The batches of one replay from `cursor`; the i-th call is answered rpc(i).
  function BatchSteps(cfg: Config, cursor: nat, to: nat, rpc: nat -> Option<nat>, call: nat): seq<Step>
    requires cfg.batchSize > 0
    decreases if cursor < to then to - cursor else 0
  {
    if cursor >= to then []
    else
      [ReplayBatch(rpc(call), {})]
      + if rpc(call).None? then [] else BatchSteps(cfg, Min(cursor + cfg.batchSize, to), to, rpc, call + 1)
  }

  // No call of that replay fails.
  predicate Answered(cfg: Config, cursor: nat, to: nat, rpc: nat -> Option<nat>, call: nat)
    requires cfg.batchSize > 0
    decreases if cursor < to then to - cursor else 0
  {
    cursor < to ==> rpc(call).Some? && Answered(cfg, Min(cursor + cfg.batchSize, to), to, rpc, call + 1)
  }

  function CatchUpSteps(cfg: Config, c: Contract, marker: nat, to: nat, rpc: nat -> Option<nat>, cleared: bool): seq<Step>
    requires cfg.batchSize > 0
  {
    [ReplayPick(c)] + BatchSteps(cfg, marker, to, rpc, 0)
    + if Answered(cfg, marker, to, rpc, 0) then [ReplayClear(cleared)] else []
  }

  // The contracts one after the other.
  function ReplaySteps(cfg: Config, order: seq<Contract>, markers: map<Contract, nat>, to: nat,
                       rpc: (Contract, nat) -> Option<nat>, cleared: Contract -> bool): seq<Step>
    requires cfg.batchSize > 0 && forall c :: c in order ==> c in markers
  {
    if order == [] then []
    else
      var c := order[|order| - 1];
      ReplaySteps(cfg, order[..|order| - 1], markers, to, rpc, cleared)
      + CatchUpSteps(cfg, c, markers[c], to, i => rpc(c, i), cleared(c))
  }

  // What these steps leave in the database and in memory.
  function Replayed(cfg: Config, c: Contract, cursor: nat, to: nat, rpc: nat -> Option<nat>, call: nat, db: Database): Database
    requires cfg.batchSize > 0
    decreases if cursor < to then to - cursor else 0
  {
    if cursor >= to || rpc(call).None? then db
    else
      var events := UpTo(Answer(cfg.chain, cursor + 1, rpc(call).value, {c}), to);
      Replayed(cfg, c, Min(cursor + cfg.batchSize, to), to, rpc, call + 1, ProcessAll({}, db, events))
  }

  // One round of the loop of a replay; a failed call ends it.
  lemma ReplayRound(cfg: Config, c: Contract, cursor: nat, to: nat, rpc: nat -> Option<nat>, call: nat, db: Database)
    requires cfg.batchSize > 0 && cursor < to
    ensures rpc(call).None? ==>
              !Answered(cfg, cursor, to, rpc, call) && Replayed(cfg, c, cursor, to, rpc, call, db) == db
    ensures rpc(call).Some? ==>
              var next := Min(cursor + cfg.batchSize, to);
              var events := UpTo(Answer(cfg.chain, cursor + 1, rpc(call).value, {c}), to);
              && Answered(cfg, cursor, to, rpc, call) == Answered(cfg, next, to, rpc, call + 1)
              && Replayed(cfg, c, cursor, to, rpc, call, db)
                 == Replayed(cfg, c, next, to, rpc, call + 1, ProcessAll({}, db, events))
  {}

  datatype Caught = Caught(db: Database, controls: map<Contract, Control>)

  function CaughtUpWith(cfg: Config, c: Contract, marker: nat, to: nat, rpc: nat -> Option<nat>, cleared: bool, s: Caught): Caught
    requires cfg.batchSize > 0
  {
    var db := Replayed(cfg, c, marker, to, rpc, 0, s.db);
    if !Answered(cfg, marker, to, rpc, 0) || !cleared then Caught(db, s.controls)
    else
      Caught(db.(controls := Unmark(db.controls, c)),
             if c in s.controls then s.controls[c := s.controls[c].(marker := None)] else s.controls)
  }

  function AllCaughtUp(cfg: Config, order: seq<Contract>, markers: map<Contract, nat>, to: nat,
                       rpc: (Contract, nat) -> Option<nat>, cleared: Contract -> bool, s: Caught): Caught
    requires cfg.batchSize > 0 && forall c :: c in order ==> c in markers
  {
    if order == [] then s
    else
      var c := order[|order| - 1];
      CaughtUpWith(cfg, c, markers[c], to, i => rpc(c, i), cleared(c),
                   AllCaughtUp(cfg, order[..|order| - 1], markers, to, rpc, cleared, s))
  }

  // The memory of a process, but for the tick.
  function InTick(s: Caught, running: bool, lastLedger: nat, version: nat, tick: Tick): System {
    System(s.db, Memory(running, lastLedger, s.controls, version, tick, map[]))
  }

  // Where the machine is after the batches of one replay.
  function AfterReplay(cfg: Config, s: System, rpc: nat -> Option<nat>, call: nat): System
    requires cfg.batchSize > 0 && s.mem.tick.TickBatch?
  {
    var t := s.mem.tick;
    System(Replayed(cfg, t.contract, t.cursor, t.to, rpc, call, s.db),
           s.mem.(tick := if Answered(cfg, t.cursor, t.to, rpc, call) then TickClear(t.plan, t.contract, t.to)
                          else Done(t.plan, t.contract)))
  }

  lemma AfterReplayStep(cfg: Config, s: System, rpc: nat -> Option<nat>, call: nat)
    requires cfg.batchSize > 0 && s.mem.tick.TickBatch? && s.mem.tick.cursor < s.mem.tick.to
    ensures AfterReplay(cfg, s, rpc, call)
         == if rpc(call).Some? && BatchEnd(cfg, s.mem.tick) < s.mem.tick.to
            then AfterReplay(cfg, AfterBatch(cfg, s, rpc(call)), rpc, call + 1)
            else AfterBatch(cfg, s, rpc(call))
  {
    var t := s.mem.tick;
    if rpc(call).Some? {
      var db := ProcessAll({}, s.db, ReplayEvents(cfg, t, rpc(call).value));
      assert Replayed(cfg, t.contract, t.cursor, t.to, rpc, call, s.db)
          == Replayed(cfg, t.contract, BatchEnd(cfg, t), t.to, rpc, call + 1, db);
      assert Answered(cfg, t.cursor, t.to, rpc, call) == Answered(cfg, BatchEnd(cfg, t), t.to, rpc, call + 1);
    }
  }

  lemma BatchStepsStep(cfg: Config, t: Tick, rpc: nat -> Option<nat>, call: nat)
    requires cfg.batchSize > 0 && t.TickBatch? && t.cursor < t.to
    ensures BatchSteps(cfg, t.cursor, t.to, rpc, call)
         == [ReplayBatch(rpc(call), {})]
            + if rpc(call).Some? && BatchEnd(cfg, t) < t.to then BatchSteps(cfg, BatchEnd(cfg, t), t.to, rpc, call + 1) else []
  {}

  lemma {:induction false} ReplayRun(cfg: Config, s: System, rpc: nat -> Option<nat>, call: nat)
    requires cfg.batchSize > 0 && s.mem.tick.TickBatch? && s.mem.tick.cursor < s.mem.tick.to
    ensures Exec(cfg, s, BatchSteps(cfg, s.mem.tick.cursor, s.mem.tick.to, rpc, call)) == AfterReplay(cfg, s, rpc, call)
    decreases s.mem.tick.to - s.mem.tick.cursor
  {
    var t, s1 := s.mem.tick, AfterBatch(cfg, s, rpc(call));
    AfterReplayStep(cfg, s, rpc, call);
    BatchStepsStep(cfg, t, rpc, call);
    if rpc(call).Some? && BatchEnd(cfg, t) < t.to {
      ReplayRun(cfg, s1, rpc, call + 1);
      FirstBatch(cfg, s, rpc(call), BatchSteps(cfg, BatchEnd(cfg, t), t.to, rpc, call + 1));
    } else {
      FirstBatch(cfg, s, rpc(call), []);
    }
  }

  function AfterBatch(cfg: Config, s: System, answer: Option<nat>): System
    requires s.mem.tick.TickBatch?
  {
    var t := s.mem.tick;
    if answer.None? then s.(mem := s.mem.(tick := Done(t.plan, t.contract)))
    else
      System(ProcessAll({}, s.db, ReplayEvents(cfg, t, answer.value)),
             s.mem.(tick := if BatchEnd(cfg, t) < t.to then t.(cursor := BatchEnd(cfg, t))
                            else TickClear(t.plan, t.contract, t.to)))
  }

  lemma FirstBatch(cfg: Config, s: System, answer: Option<nat>, rest: seq<Step>)
    requires s.mem.tick.TickBatch?
    ensures Exec(cfg, s, [ReplayBatch(answer, {})] + rest) == Exec(cfg, AfterBatch(cfg, s, answer), rest)
  {
    ExecOne(cfg, s, ReplayBatch(answer, {}));
    ExecConcat(cfg, s, [ReplayBatch(answer, {})], rest);
  }

  lemma CatchUpRun(cfg: Config, c: Contract, plan: Plan, rpc: nat -> Option<nat>, cleared: bool,
                   s: Caught, running: bool, lastLedger: nat)
    requires cfg.batchSize > 0 && c in plan.todo
    ensures Exec(cfg, InTick(s, running, lastLedger, plan.version, TickReplay(plan)),
                 CatchUpSteps(cfg, c, plan.todo[c], lastLedger, rpc, cleared))
         == InTick(CaughtUpWith(cfg, c, plan.todo[c], lastLedger, rpc, cleared, s), running, lastLedger, plan.version, Done(plan, c))
  {
    var marker := plan.todo[c];
    var batches := BatchSteps(cfg, marker, lastLedger, rpc, 0);
    var done := Answered(cfg, marker, lastLedger, rpc, 0);
    var s0 := InTick(s, running, lastLedger, plan.version, TickReplay(plan));
    var s1 := Next(cfg, s0, ReplayPick(c));
    var reach := if marker < lastLedger then lastLedger else marker;
    var db := Replayed(cfg, c, marker, lastLedger, rpc, 0, s.db);
    var s2 := InTick(Caught(db, s.controls), running, lastLedger, plan.version, if done then TickClear(plan, c, reach) else Done(plan, c));
    ExecOne(cfg, s0, ReplayPick(c));
    ExecConcat(cfg, s0, [ReplayPick(c)], batches);
    if marker < lastLedger {
      ReplayRun(cfg, s1, rpc, 0);
    } else {
      assert batches == [] && Exec(cfg, s1, []) == s1;
    }
    assert Exec(cfg, s0, [ReplayPick(c)] + batches) == s2;
    if done {
      ClearRun(cfg, s2, cleared);
      ExecConcat(cfg, s0, [ReplayPick(c)] + batches, [ReplayClear(cleared)]);
    } else {
      assert [ReplayPick(c)] + batches + [] == [ReplayPick(c)] + batches;
    }
  }

  lemma ClearRun(cfg: Config, s: System, cleared: bool)
    requires s.mem.tick.TickClear? && s.mem.tick.plan.version == s.mem.version
    ensures var c := s.mem.tick.contract;
            Exec(cfg, s, [ReplayClear(cleared)])
            == if !cleared then s.(mem := s.mem.(tick := Done(s.mem.tick.plan, c)))
               else System(s.db.(controls := Unmark(s.db.controls, c)),
                           s.mem.(tick := Done(s.mem.tick.plan, c),
                                  controls := if c in s.mem.controls then s.mem.controls[c := s.mem.controls[c].(marker := None)]
                                              else s.mem.controls))
  {
    ExecOne(cfg, s, ReplayClear(cleared));
  }

  // What is left of the markers after a part of the order.
  function Left(markers: map<Contract, nat>, order: seq<Contract>): map<Contract, nat> {
    map c | c in markers && c !in order :: markers[c]
  }

  lemma {:induction false} ReplayStepsRun(cfg: Config, order: seq<Contract>, plan: Plan, rpc: (Contract, nat) -> Option<nat>,
                                          cleared: Contract -> bool, s: Caught, running: bool, lastLedger: nat)
    requires cfg.batchSize > 0 && (forall c :: c in order ==> c in plan.todo) && NoDuplicates(order)
    ensures Exec(cfg, InTick(s, running, lastLedger, plan.version, TickReplay(plan)),
                 ReplaySteps(cfg, order, plan.todo, lastLedger, rpc, cleared))
         == InTick(AllCaughtUp(cfg, order, plan.todo, lastLedger, rpc, cleared, s), running, lastLedger, plan.version,
                   TickReplay(plan.(todo := Left(plan.todo, order))))
  {
    var s0 := InTick(s, running, lastLedger, plan.version, TickReplay(plan));
    if order == [] {
      assert Left(plan.todo, order) == plan.todo;
    } else {
      var init, c := order[..|order| - 1], order[|order| - 1];
      var before := AllCaughtUp(cfg, init, plan.todo, lastLedger, rpc, cleared, s);
      var left := plan.(todo := Left(plan.todo, init));
      ReplayStepsRun(cfg, init, plan, rpc, cleared, s, running, lastLedger);
      assert c !in init;
      CatchUpRun(cfg, c, left, i => rpc(c, i), cleared(c), before, running, lastLedger);
      ExecConcat(cfg, s0, ReplaySteps(cfg, init, plan.todo, lastLedger, rpc, cleared),
                 CatchUpSteps(cfg, c, plan.todo[c], lastLedger, i => rpc(c, i), cleared(c)));
      LeftLess(plan.todo, init, c);
      assert order == init + [c];
    }
  }

  lemma LeftLess(markers: map<Contract, nat>, order: seq<Contract>, c: Contract)
    ensures Left(markers, order) - {c} == Left(markers, order + [c])
  {}

  // A failed fetch ends the tick, as does a failed commit.
  function FetchSteps(filter: set<Contract>, fetch: Option<nat>, committed: bool, retried: bool): seq<Step> {
    if fetch.None? && filter != {} then [TickFetch(fetch)]
    else [TickFetch(fetch), TickCommit(committed, {})] + if committed then [TickFinish(retried)] else []
  }

  // What fetch, commit and finish leave.
  function Fetched(cfg: Config, s: System, fetch: Option<nat>, committed: bool, retried: bool): System
    requires s.mem.tick.TickReplay?
  {
    var plan, filter := s.mem.tick.plan, ActiveContracts(cfg.watched, s.mem.controls);
    var mem := s.mem.(tick := TickIdle);
    if (fetch.None? && filter != {}) || !committed then s.(mem := mem)
    else
      var events := if filter == {} then [] else Answer(cfg.chain, plan.from, fetch.value, filter);
      System(ProcessAll({}, s.db, events).(cursor := plan.latest),
             if retried then mem.(lastLedger := plan.latest) else mem.(running := false))
  }

  lemma FetchRun(cfg: Config, s: System, fetch: Option<nat>, committed: bool, retried: bool)
    requires s.mem.tick.TickReplay? && s.mem.tick.plan.todo == map[]
    ensures Exec(cfg, s, FetchSteps(ActiveContracts(cfg.watched, s.mem.controls), fetch, committed, retried))
         == Fetched(cfg, s, fetch, committed, retried)
  {
    var filter := ActiveContracts(cfg.watched, s.mem.controls);
    if fetch.None? && filter != {} {
      ExecOne(cfg, s, TickFetch(fetch));
    } else {
      NobodyAnswers(cfg.chain, s.mem.tick.plan.from, if fetch.Some? then fetch.value else 0);
      if committed {
        ExecThree(cfg, s, TickFetch(fetch), TickCommit(true, {}), TickFinish(retried));
        assert [TickFetch(fetch), TickCommit(true, {})] + [TickFinish(retried)]
            == [TickFetch(fetch), TickCommit(true, {}), TickFinish(retried)];
      } else {
        ExecTwo(cfg, s, TickFetch(fetch), TickCommit(false, {}));
        assert [TickFetch(fetch), TickCommit(false, {})] + [] == [TickFetch(fetch), TickCommit(false, {})];
      }
    }
  }

  // Every contract once.
  ghost predicate IsOrder(order: seq<Contract>, keys: set<Contract>) {
    NoDuplicates(order) && forall c :: c in order <==> c in keys
  }

  // ---------------------------------------- tick steps keep the invariant

  // A step of a tick that misses nothing, none of whose answers falls short of
  // `low` and whose tip is at most `top`.
  predicate OfTick(step: Step, top: nat, low: nat) {
    match step
    case TickBegin(latest) => latest <= top
    case TickFetch(answer) => answer.Some? ==> low <= answer.value
    case ReplayBatch(answer, missed) => missed == {} && (answer.Some? ==> low <= answer.value)
    case TickRead(_) => true
    case TickLoad => true
    case ReplayPick(_) => true
    case ReplayClear(_) => true
    case TickCommit(_, missed) => missed == {}
    case TickFinish(_) => true
    case _ => false
  }

  predicate AllOfTick(steps: seq<Step>, top: nat, low: nat) {
    forall i :: 0 <= i < |steps| ==> OfTick(steps[i], top, low)
  }

  predicate Bounded(s: System, bound: nat) {
    var t := s.mem.tick;
    s.mem.jobs == map[] && s.mem.lastLedger <= bound
    && (t.TickGot? || t.TickLoading? || t.TickFetched? || t.TickCommitted? ==> t.latest <= bound)
    && (t.TickReplay? || t.TickBatch? || t.TickClear? ==> t.plan.latest <= bound)
  }

  lemma TickStepSeparate(cfg: Config, s: System, step: Step, bound: nat)
    requires Calm(s) && Bounded(s, bound) && OfTick(step, bound, bound)
    ensures Separate(cfg, s, step) && Bounded(Next(cfg, s, step), bound)
  {
    ControlOf(cfg, s, step);
  }

  lemma {:induction false} TickStepsSeparate(cfg: Config, s: System, steps: seq<Step>, bound: nat)
    requires Calm(s) && Bounded(s, bound) && AllOfTick(steps, bound, bound)
    ensures SeparateRun(cfg, s, steps) && Bounded(Exec(cfg, s, steps), bound)
  {
    if steps != [] {
      var n := |steps| - 1;
      TickStepsSeparate(cfg, s, steps[..n], bound);
      SeparateRunsAreOrderly(cfg, s, steps[..n]);
      TickStepSeparate(cfg, Exec(cfg, s, steps[..n]), steps[n], bound);
    }
  }

  lemma {:induction false} BatchStepsOfTick(cfg: Config, cursor: nat, to: nat, rpc: nat -> Option<nat>, call: nat, top: nat, low: nat)
    requires cfg.batchSize > 0 && forall i :: rpc(i).Some? ==> low <= rpc(i).value
    ensures AllOfTick(BatchSteps(cfg, cursor, to, rpc, call), top, low)
    decreases if cursor < to then to - cursor else 0
  {
    if cursor < to {
      assert OfTick(ReplayBatch(rpc(call), {}), top, low);
      if rpc(call).Some? {
        BatchStepsOfTick(cfg, Min(cursor + cfg.batchSize, to), to, rpc, call + 1, top, low);
      }
    }
  }

  lemma {:induction false} ReplayStepsOfTick(cfg: Config, order: seq<Contract>, markers: map<Contract, nat>, to: nat,
                                             rpc: (Contract, nat) -> Option<nat>, cleared: Contract -> bool, top: nat, low: nat)
    requires cfg.batchSize > 0 && forall c :: c in order ==> c in markers
    requires forall c, i :: rpc(c, i).Some? ==> low <= rpc(c, i).value
    ensures AllOfTick(ReplaySteps(cfg, order, markers, to, rpc, cleared), top, low)
  {
    if order != [] {
      var c := order[|order| - 1];
      ReplayStepsOfTick(cfg, order[..|order| - 1], markers, to, rpc, cleared, top, low);
      BatchStepsOfTick(cfg, markers[c], to, i => rpc(c, i), 0, top, low);
      assert AllOfTick(CatchUpSteps(cfg, c, markers[c], to, i => rpc(c, i), cleared(c)), top, low);
    }
  }

  // The steps of one whole tick.
  function TickSteps(cfg: Config, order: seq<Contract>, tip: nat, loaded: bool, markers: map<Contract, nat>, to: nat,
                     rpc: (Contract, nat) -> Option<nat>, cleared: Contract -> bool, fetch: Option<nat>, committed: bool,
                     retried: bool, filter: set<Contract>): seq<Step>
    requires cfg.batchSize > 0 && forall c :: c in order ==> c in markers
  {
    [TickBegin(tip), TickRead(loaded), TickLoad] + ReplaySteps(cfg, order, markers, to, rpc, cleared)
    + FetchSteps(filter, fetch, committed, retried)
  }

  lemma TickStepsOfTick(cfg: Config, order: seq<Contract>, tip: nat, loaded: bool, markers: map<Contract, nat>, to: nat,
                        rpc: (Contract, nat) -> Option<nat>, cleared: Contract -> bool, fetch: Option<nat>, committed: bool,
                        retried: bool, filter: set<Contract>, low: nat)
    requires cfg.batchSize > 0 && (forall c :: c in order ==> c in markers) && AnswersReach(rpc, fetch, low)
    ensures AllOfTick(TickSteps(cfg, order, tip, loaded, markers, to, rpc, cleared, fetch, committed, retried, filter), tip, low)
  {
    ReplayStepsOfTick(cfg, order, markers, to, rpc, cleared, tip, low);
    assert AllOfTick(FetchSteps(filter, fetch, committed, retried), tip, low);
    assert AllOfTick([TickBegin(tip), TickRead(loaded), TickLoad], tip, low);
  }

  // ------------------------------------------ batches that miss nothing

  // What memory believes of the contracts a batch is about to fetch: nothing
  // has replaced the controls since they were chosen.
  predicate Knows(s: System) {
    var mem, t := s.mem, s.mem.tick;
    && (t.TickReplay? || t.TickBatch? || t.TickClear? ==> Unpaused(mem.controls, t.plan.todo.Keys))
    && (t.TickBatch? || t.TickClear? ==> t.contract in t.plan.todo)
    && (t.TickFetched? ==> Unpaused(mem.controls, t.filter))
    && forall id :: id in mem.jobs && (mem.jobs[id].JobReady? || mem.jobs[id].JobCommitted?) ==>
         Unpaused(mem.controls, mem.jobs[id].filter)
  }

  // Steps of a tick and of operators.
  predicate BesideJobs(step: Step, top: nat) {
    OfTick(step, top, 0) || step.Pause? || step.Resume?
  }

  lemma TickStepPlain(cfg: Config, s: System, step: Step, top: nat)
    requires Knows(s) && s.mem.jobs == map[] && BesideJobs(step, top)
    ensures Plain(cfg, s, step) && Knows(Next(cfg, s, step)) && Next(cfg, s, step).mem.jobs == map[]
  {
    ControlOf(cfg, s, step);
    NothingSkipped(cfg, s, step);
    KnowsOfTick(cfg, s, step, top);
  }

  lemma KnowsOfTick(cfg: Config, s: System, step: Step, top: nat)
    requires Knows(s) && s.mem.jobs == map[] && BesideJobs(step, top)
    ensures Knows(Control0(cfg, s, step)) && Control0(cfg, s, step).mem.jobs == map[]
  {}

  lemma NothingSkipped(cfg: Config, s: System, step: Step)
    requires Knows(s) && Missed(step) == {}
    ensures Plain(cfg, s, step)
  {
    var end := EndingOf(s, step);
    if end.Ends? {
      forall e | e in BatchOf(cfg, s, end.who, end.horizon) ensures !IsPaused(s.mem.controls, e.contract) {
        BatchOfKnown(cfg, s, end.who, end.horizon, e);
      }
    }
  }

  lemma BatchOfKnown(cfg: Config, s: System, who: Who, horizon: nat, e: Event)
    requires Knows(s) && Ready(s, who) && e in BatchOf(cfg, s, who, horizon)
    ensures !IsPaused(s.mem.controls, e.contract)
  {}

  lemma {:induction false} TickStepsPlain(cfg: Config, s: System, steps: seq<Step>, top: nat)
    requires Knows(s) && s.mem.jobs == map[] && forall i :: 0 <= i < |steps| ==> BesideJobs(steps[i], top)
    ensures PlainRun(cfg, s, steps) && Knows(Exec(cfg, s, steps)) && Exec(cfg, s, steps).mem.jobs == map[]
  {
    if steps != [] {
      var n := |steps| - 1;
      TickStepsPlain(cfg, s, steps[..n], top);
      TickStepPlain(cfg, Exec(cfg, s, steps[..n]), steps[n], top);
    }
  }

  // A step of the one backfill.
  predicate OfJob(step: Step) {
    (step.JobBegin? || step.JobRead? || step.JobLoad? || step.JobBatch? || step.JobFinish?) && step.id == 0 && Missed(step) == {}
  }

  predicate AllOfJob(steps: seq<Step>) {
    forall i :: 0 <= i < |steps| ==> OfJob(steps[i])
  }

  lemma MoreOfJob(steps: seq<Step>, more: seq<Step>)
    requires AllOfJob(steps) && AllOfJob(more)
    ensures AllOfJob(steps + more)
  {}

  predicate LoneJob(s: System) {
    s.mem.tick.TickIdle? && s.mem.jobs.Keys <= {0}
  }

  lemma JobStepPlain(cfg: Config, s: System, step: Step)
    requires Knows(s) && LoneJob(s) && OfJob(step)
    ensures Plain(cfg, s, step) && Knows(Next(cfg, s, step)) && LoneJob(Next(cfg, s, step))
  {
    ControlOf(cfg, s, step);
    NothingSkipped(cfg, s, step);
    KnowsOfJob(cfg, s, step);
  }

  lemma KnowsOfJob(cfg: Config, s: System, step: Step)
    requires Knows(s) && LoneJob(s) && OfJob(step)
    ensures Knows(Control0(cfg, s, step)) && LoneJob(Control0(cfg, s, step))
  {}

  lemma {:induction false} JobStepsPlain(cfg: Config, s: System, steps: seq<Step>)
    requires Knows(s) && LoneJob(s) && AllOfJob(steps)
    ensures PlainRun(cfg, s, steps) && Knows(Exec(cfg, s, steps)) && LoneJob(Exec(cfg, s, steps))
  {
    if steps != [] {
      var n := |steps| - 1;
      JobStepsPlain(cfg, s, steps[..n]);
      JobStepPlain(cfg, Exec(cfg, s, steps[..n]), steps[n]);
    }
  }

  // No answer falls short of the tip.
  ghost predicate AnswersReach(rpc: (Contract, nat) -> Option<nat>, fetch: Option<nat>, bound: nat) {
    (fetch.Some? ==> bound <= fetch.value) && forall c, i :: rpc(c, i).Some? ==> bound <= rpc(c, i).value
  }

  lemma RunKeepsBoth(cfg: Config, s: System, steps: seq<Step>)
    requires Calm(s) && SeparateRun(cfg, s, steps)
    ensures Calm(Exec(cfg, s, steps)) && (Inv(cfg, s) ==> Inv(cfg, Exec(cfg, s, steps)))
  {
    SeparateRunsAreOrderly(cfg, s, steps);
    if Inv(cfg, s) {
      RunKeepsInv(cfg, s, steps);
    }
  }

  // ------------------------------------------------- the steps of a backfill

  function JobStart(from: Option<nat>, tip: nat, loaded: bool): seq<Step> {
    [JobBegin(0, from, tip), JobRead(0, loaded), JobLoad(0)]
  }

  // n batches of a backfill after its start.
  function JobSteps(from: Option<nat>, tip: nat, loaded: bool, sizes: nat -> nat, rpc: nat -> Option<nat>,
                    committed: nat -> bool, n: nat): seq<Step>
  {
    if n == 0 then JobStart(from, tip, loaded)
    else
      JobSteps(from, tip, loaded, sizes, rpc, committed, n - 1)
      + [JobBatch(0, sizes(n - 1), rpc(n - 1), committed(n - 1), {}), JobFinish(0)]
  }

  // The loop condition of the backfill has failed.
  function LoopEnds(): Step { JobBatch(0, 0, None, false, {}) }

  // A backfill and nothing else is under way.
  predicate OnlyJob(s: System, tip: nat) {
    LoneJob(s) && forall id :: id in s.mem.jobs ==> s.mem.jobs[id].tip == tip
  }

  // Its answers reach the tip and it begins no later than the cursor.
  predicate JobReaches(s: System, step: Step, tip: nat) {
    OfJob(step)
    && (step.JobBegin? ==> step.tip == tip && s.mem.jobs == map[] && (step.from.Some? ==> step.from.value <= s.db.cursor))
    && (step.JobBatch? && step.answer.Some? ==> tip <= step.answer.value)
  }

  lemma JobStepSeparate(cfg: Config, s: System, step: Step, tip: nat)
    requires OnlyJob(s, tip) && JobReaches(s, step, tip)
    ensures Separate(cfg, s, step) && OnlyJob(Next(cfg, s, step), tip)
  {
    ControlOf(cfg, s, step);
    OnlyJobOfControl(cfg, s, step, tip);
  }

  lemma OnlyJobOfControl(cfg: Config, s: System, step: Step, tip: nat)
    requires OnlyJob(s, tip) && JobReaches(s, step, tip)
    ensures OnlyJob(Control0(cfg, s, step), tip)
  {}

  lemma SeparateSnoc(cfg: Config, s: System, steps: seq<Step>, step: Step)
    ensures SeparateRun(cfg, s, steps + [step]) <==> SeparateRun(cfg, s, steps) && Separate(cfg, Exec(cfg, s, steps), step)
    ensures Exec(cfg, s, steps + [step]) == Next(cfg, Exec(cfg, s, steps), step)
  {
    assert (steps + [step])[..|steps + [step]| - 1] == steps;
    ExecSnoc(cfg, s, steps, step);
  }

  lemma OneJobStepMore(cfg: Config, s: System, steps: seq<Step>, step: Step, tip: nat)
    requires SeparateRun(cfg, s, steps) && OnlyJob(Exec(cfg, s, steps), tip) && JobReaches(Exec(cfg, s, steps), step, tip)
    ensures SeparateRun(cfg, s, steps + [step]) && OnlyJob(Exec(cfg, s, steps + [step]), tip)
  {
    JobStepSeparate(cfg, Exec(cfg, s, steps), step, tip);
    SeparateSnoc(cfg, s, steps, step);
  }

  lemma JobStartSeparate(cfg: Config, s: System, from: Option<nat>, tip: nat, loaded: bool)
    requires s.mem.tick.TickIdle? && s.mem.jobs == map[] && (from.Some? ==> from.value <= s.db.cursor)
    ensures SeparateRun(cfg, s, JobStart(from, tip, loaded)) && OnlyJob(Exec(cfg, s, JobStart(from, tip, loaded)), tip)
  {
    OneJobStepMore(cfg, s, [], JobBegin(0, from, tip), tip);
    OneJobStepMore(cfg, s, [] + [JobBegin(0, from, tip)], JobRead(0, loaded), tip);
    OneJobStepMore(cfg, s, [] + [JobBegin(0, from, tip)] + [JobRead(0, loaded)], JobLoad(0), tip);
    assert [] + [JobBegin(0, from, tip)] + [JobRead(0, loaded)] + [JobLoad(0)] == JobStart(from, tip, loaded);
  }

  lemma {:induction false} JobStepsSeparate(cfg: Config, s: System, from: Option<nat>, tip: nat, loaded: bool, sizes: nat -> nat,
                                            rpc: nat -> Option<nat>, committed: nat -> bool, n: nat)
    requires s.mem.tick.TickIdle? && s.mem.jobs == map[]
    requires (from.Some? ==> from.value <= s.db.cursor) && forall i :: rpc(i).Some? ==> tip <= rpc(i).value
    ensures var steps := JobSteps(from, tip, loaded, sizes, rpc, committed, n);
            SeparateRun(cfg, s, steps) && OnlyJob(Exec(cfg, s, steps), tip)
  {
    if n == 0 {
      JobStartSeparate(cfg, s, from, tip, loaded);
    } else {
      JobStepsSeparate(cfg, s, from, tip, loaded, sizes, rpc, committed, n - 1);
      var init := JobSteps(from, tip, loaded, sizes, rpc, committed, n - 1);
      var batch := JobBatch(0, sizes(n - 1), rpc(n - 1), committed(n - 1), {});
      OneJobStepMore(cfg, s, init, batch, tip);
      OneJobStepMore(cfg, s, init + [batch], JobFinish(0), tip);
      assert init + [batch] + [JobFinish(0)] == init + [batch, JobFinish(0)];
    }
  }

  lemma {:induction false} JobStepsOfJob(from: Option<nat>, tip: nat, loaded: bool, sizes: nat -> nat,
                                         rpc: nat -> Option<nat>, committed: nat -> bool, n: nat)
    ensures AllOfJob(JobSteps(from, tip, loaded, sizes, rpc, committed, n))
  {
    if n > 0 {
      JobStepsOfJob(from, tip, loaded, sizes, rpc, committed, n - 1);
      MoreOfJob(JobSteps(from, tip, loaded, sizes, rpc, committed, n - 1),
                [JobBatch(0, sizes(n - 1), rpc(n - 1), committed(n - 1), {}), JobFinish(0)]);
    }
  }

  // A backfill between two batches; it goes on until a batch fails.
  datatype Filled = Filled(db: Database, lastLedger: nat, cursor: nat, going: bool)

  function OneBatch(cfg: Config, filter: set<Contract>, tip: nat, size: nat, answer: Option<nat>, committed: bool, s: Filled): Filled {
    if answer.None? || !committed then s.(going := false)
    else
      var batchTo := Min(s.cursor + size, tip);
      Filled(ProcessAll({}, s.db, Answer(cfg.chain, s.cursor + 1, answer.value, filter)).(cursor := batchTo), batchTo, batchTo, true)
  }

  function FilledAfter(cfg: Config, filter: set<Contract>, tip: nat, sizes: nat -> nat, rpc: nat -> Option<nat>,
                       committed: nat -> bool, s: Filled, n: nat): Filled
  {
    if n == 0 then s
    else
      OneBatch(cfg, filter, tip, sizes(n - 1), rpc(n - 1), committed(n - 1),
               FilledAfter(cfg, filter, tip, sizes, rpc, committed, s, n - 1))
  }

  // Each of the n batches was begun below the tip, after no failure.
  predicate GoesOn(cfg: Config, filter: set<Contract>, tip: nat, sizes: nat -> nat, rpc: nat -> Option<nat>,
                   committed: nat -> bool, s: Filled, n: nat)
  {
    n == 0
    || (GoesOn(cfg, filter, tip, sizes, rpc, committed, s, n - 1)
        && var before := FilledAfter(cfg, filter, tip, sizes, rpc, committed, s, n - 1); before.going && before.cursor < tip)
  }

  lemma OneBatchMore(cfg: Config, filter: set<Contract>, tip: nat, sizes: nat -> nat, rpc: nat -> Option<nat>,
                     committed: nat -> bool, s: Filled, n: nat)
    requires GoesOn(cfg, filter, tip, sizes, rpc, committed, s, n)
    requires var before := FilledAfter(cfg, filter, tip, sizes, rpc, committed, s, n); before.going && before.cursor < tip
    ensures GoesOn(cfg, filter, tip, sizes, rpc, committed, s, n + 1)
    ensures FilledAfter(cfg, filter, tip, sizes, rpc, committed, s, n + 1)
         == OneBatch(cfg, filter, tip, sizes(n), rpc(n), committed(n), FilledAfter(cfg, filter, tip, sizes, rpc, committed, s, n))
  {}

  lemma {:induction false} FilledFacts(cfg: Config, filter: set<Contract>, tip: nat, sizes: nat -> nat, rpc: nat -> Option<nat>,
                                       committed: nat -> bool, s: Filled, n: nat)
    requires s.going && GoesOn(cfg, filter, tip, sizes, rpc, committed, s, n)
    ensures var end := FilledAfter(cfg, filter, tip, sizes, rpc, committed, s, n);
            && (forall i :: 0 <= i < n && (end.going || i < n - 1) ==> rpc(i).Some? && committed(i))
            && (!end.going ==> n > 0 && !(rpc(n - 1).Some? && committed(n - 1)))
            && (end.cursor == s.cursor || (end.cursor <= tip && end.db.cursor == end.lastLedger == end.cursor))
    decreases n
  {
    if n > 0 {
      FilledFacts(cfg, filter, tip, sizes, rpc, committed, s, n - 1);
    }
  }

  function InJob(running: bool, controls: map<Contract, Control>, version: nat, filter: set<Contract>, tip: nat, s: Filled): System {
    System(s.db, Memory(running, s.lastLedger, controls, version, TickIdle,
                        if s.going then map[0 := JobReady(s.cursor, tip, filter)] else map[]))
  }

  // One batch and its note in memory.
  lemma JobStepRun(cfg: Config, running: bool, controls: map<Contract, Control>, version: nat, filter: set<Contract>, tip: nat,
                   size: nat, answer: Option<nat>, committed: bool, s: Filled)
    requires s.going && s.cursor < tip
    ensures var begun := InJob(running, controls, version, filter, tip, s);
            Next(cfg, Next(cfg, begun, JobBatch(0, size, answer, committed, {})), JobFinish(0))
            == InJob(running, controls, version, filter, tip, OneBatch(cfg, filter, tip, size, answer, committed, s))
  {
    var begun := InJob(running, controls, version, filter, tip, s);
    assert begun.mem.jobs[0] == JobReady(s.cursor, tip, filter);
    var after := Next(cfg, begun, JobBatch(0, size, answer, committed, {}));
    if answer.None? || !committed {
      assert after.mem.jobs == map[];
    } else {
      assert after.mem.jobs == map[0 := JobCommitted(Min(s.cursor + size, tip), tip, filter)];
      assert Next(cfg, after, JobFinish(0)).mem.jobs == map[0 := JobReady(Min(s.cursor + size, tip), tip, filter)];
    }
  }

  // Where a backfill stands right after its start.
  function Begun(cfg: Config, s: System, from: Option<nat>): Filled {
    Filled(s.db, s.mem.lastLedger, if from.Some? then from.value else s.mem.lastLedger, true)
  }

  lemma {:induction false} FillRun(cfg: Config, start: System, from: Option<nat>, tip: nat, loaded: bool, sizes: nat -> nat,
                                   rpc: nat -> Option<nat>, committed: nat -> bool, n: nat)
    requires start.mem.tick.TickIdle? && start.mem.jobs == map[]
    ensures var mem := Load(start.mem, Read(start.db, loaded));
            var filter := ActiveContracts(cfg.watched, mem.controls);
            var begun := Begun(cfg, start, from);
            (filter != {} || cfg.watched == {}) && GoesOn(cfg, filter, tip, sizes, rpc, committed, begun, n) ==>
              Exec(cfg, start, JobSteps(from, tip, loaded, sizes, rpc, committed, n))
              == InJob(mem.running, mem.controls, mem.version, filter, tip,
                       FilledAfter(cfg, filter, tip, sizes, rpc, committed, begun, n))
    decreases n
  {
    var mem := Load(start.mem, Read(start.db, loaded));
    var filter := ActiveContracts(cfg.watched, mem.controls);
    if n == 0 {
      StartOfJob(cfg, start, from, tip, loaded);
    } else {
      FillRun(cfg, start, from, tip, loaded, sizes, rpc, committed, n - 1);
      var init := JobSteps(from, tip, loaded, sizes, rpc, committed, n - 1);
      var batch := JobBatch(0, sizes(n - 1), rpc(n - 1), committed(n - 1), {});
      ExecSnoc(cfg, start, init, batch);
      ExecSnoc(cfg, start, init + [batch], JobFinish(0));
      assert init + [batch] + [JobFinish(0)] == init + [batch, JobFinish(0)];
      var before := FilledAfter(cfg, filter, tip, sizes, rpc, committed, Begun(cfg, start, from), n - 1);
      if before.going && before.cursor < tip {
        JobStepRun(cfg, mem.running, mem.controls, mem.version, filter, tip, sizes(n - 1), rpc(n - 1), committed(n - 1), before);
      }
    }
  }

  lemma StartOfJob(cfg: Config, s: System, from: Option<nat>, tip: nat, loaded: bool)
    requires s.mem.jobs == map[]
    ensures var mem := Load(s.mem, Read(s.db, loaded));
            var filter := ActiveContracts(cfg.watched, mem.controls);
            Exec(cfg, s, JobStart(from, tip, loaded))
            == if filter == {} && cfg.watched != {} then s.(mem := mem)
               else s.(mem := mem.(jobs := map[0 := JobReady(if from.Some? then from.value else s.mem.lastLedger, tip, filter)]))
  {
    ExecThree(cfg, s, JobBegin(0, from, tip), JobRead(0, loaded), JobLoad(0));
    var first := if from.Some? then from.value else s.mem.lastLedger;
    var s1 := s.(mem := s.mem.(jobs := map[0 := JobStarting(first, tip)]));
    var s2 := s.(mem := s.mem.(jobs := map[0 := JobLoading(first, tip, Read(s.db, loaded))]));
    assert Next(cfg, s, JobBegin(0, from, tip)) == s1;
    assert Next(cfg, s1, JobRead(0, loaded)).mem.jobs == s2.mem.jobs;
    JobLoads(cfg, s2, first, tip, Read(s.db, loaded));
  }

  lemma JobLoads(cfg: Config, s: System, first: nat, tip: nat, read: Option<map<Contract, Control>>)
    requires s.mem.jobs == map[0 := JobLoading(first, tip, read)]
    ensures var mem := Load(s.mem, read);
            var filter := ActiveContracts(cfg.watched, mem.controls);
            Next(cfg, s, JobLoad(0))
            == s.(mem := mem.(jobs := if filter == {} && cfg.watched != {} then map[] else map[0 := JobReady(first, tip, filter)]))
  {
    assert map[0 := JobLoading(first, tip, read)] - {0} == map[];
    assert forall j: Job :: map[0 := JobLoading(first, tip, read)][0 := j] == map[0 := j];
  }

  // The loop condition fails, or the job is over already.
  lemma EndOfJob(cfg: Config, running: bool, controls: map<Contract, Control>, version: nat, filter: set<Contract>, tip: nat, s: Filled)
    requires s.going ==> s.cursor >= tip
    ensures Next(cfg, InJob(running, controls, version, filter, tip, s), LoopEnds())
         == InJob(running, controls, version, filter, tip, s.(going := false))
  {
    assert map[0 := JobReady(s.cursor, tip, filter)] - {0} == map[];
  }

  lemma WholeFill(cfg: Config, start: System, from: Option<nat>, tip: nat, loaded: bool, sizes: nat -> nat,
                  rpc: nat -> Option<nat>, committed: nat -> bool, n: nat)
    requires start.mem.tick.TickIdle? && start.mem.jobs == map[]
    ensures var mem := Load(start.mem, Read(start.db, loaded));
            var filter := ActiveContracts(cfg.watched, mem.controls);
            var begun := Begun(cfg, start, from);
            var end := FilledAfter(cfg, filter, tip, sizes, rpc, committed, begun, n);
            (filter != {} || cfg.watched == {}) && GoesOn(cfg, filter, tip, sizes, rpc, committed, begun, n)
            && (end.going ==> end.cursor >= tip) ==>
              Exec(cfg, start, JobSteps(from, tip, loaded, sizes, rpc, committed, n) + [LoopEnds()])
              == InJob(mem.running, mem.controls, mem.version, filter, tip, end.(going := false))
  {
    var mem := Load(start.mem, Read(start.db, loaded));
    var filter := ActiveContracts(cfg.watched, mem.controls);
    var end := FilledAfter(cfg, filter, tip, sizes, rpc, committed, Begun(cfg, start, from), n);
    FillRun(cfg, start, from, tip, loaded, sizes, rpc, committed, n);
    ExecSnoc(cfg, start, JobSteps(from, tip, loaded, sizes, rpc, committed, n), LoopEnds());
    if end.going ==> end.cursor >= tip {
      EndOfJob(cfg, mem.running, mem.controls, mem.version, filter, tip, end);
    }
  }

  // Every contract is paused: the backfill ends as it starts.
  lemma NothingToFill(cfg: Config, s: System, from: Option<nat>, tip: nat, loaded: bool)
    requires s.mem.tick.TickIdle? && s.mem.jobs == map[]
    ensures var mem := Load(s.mem, Read(s.db, loaded));
            ActiveContracts(cfg.watched, mem.controls) == {} && cfg.watched != {} ==>
              Exec(cfg, s, JobStart(from, tip, loaded) + [LoopEnds()]) == s.(mem := mem)
  {
    StartOfJob(cfg, s, from, tip, loaded);
    ExecSnoc(cfg, s, JobStart(from, tip, loaded), LoopEnds());
  }

  lemma BackfillKeepsBoth(cfg: Config, s: System, from: Option<nat>, tip: nat, loaded: bool, sizes: nat -> nat,
                          rpc: nat -> Option<nat>, committed: nat -> bool, n: nat)
    requires s.mem.tick.TickIdle? && s.mem.jobs == map[]
    ensures var after := Exec(cfg, s, JobSteps(from, tip, loaded, sizes, rpc, committed, n) + [LoopEnds()]);
            Calm(s) && (from.Some? ==> from.value <= s.db.cursor) && (forall i :: rpc(i).Some? ==> tip <= rpc(i).value) ==>
              Calm(after) && (Inv(cfg, s) ==> Inv(cfg, after))
  {
    if Calm(s) && (from.Some? ==> from.value <= s.db.cursor) && (forall i :: rpc(i).Some? ==> tip <= rpc(i).value) {
      var steps := JobSteps(from, tip, loaded, sizes, rpc, committed, n);
      JobStepsSeparate(cfg, s, from, tip, loaded, sizes, rpc, committed, n);
      OneJobStepMore(cfg, s, steps, LoopEnds(), tip);
      RunKeepsBoth(cfg, s, steps + [LoopEnds()]);
    }
  }

  lemma BackfillIsPlain(cfg: Config, s: System, from: Option<nat>, tip: nat, loaded: bool, sizes: nat -> nat,
                        rpc: nat -> Option<nat>, committed: nat -> bool, n: nat)
    requires s.mem.tick.TickIdle? && s.mem.jobs == map[]
    ensures PlainRun(cfg, s, JobSteps(from, tip, loaded, sizes, rpc, committed, n) + [LoopEnds()])
  {
    JobStepsOfJob(from, tip, loaded, sizes, rpc, committed, n);
    MoreOfJob(JobSteps(from, tip, loaded, sizes, rpc, committed, n), [LoopEnds()]);
    JobStepsPlain(cfg, s, JobSteps(from, tip, loaded, sizes, rpc, committed, n) + [LoopEnds()]);
  }

  lemma TickKeepsBoth(cfg: Config, s: System, order: seq<Contract>, tip: nat, loaded: bool, markers: map<Contract, nat>, to: nat,
                      rpc: (Contract, nat) -> Option<nat>, cleared: Contract -> bool, fetch: Option<nat>, committed: bool,
                      retried: bool, filter: set<Contract>)
    requires cfg.batchSize > 0 && (forall c :: c in order ==> c in markers) && s.mem.jobs == map[] && s.mem.tick.TickIdle?
    requires s.mem.lastLedger <= tip
    ensures var steps := TickSteps(cfg, order, tip, loaded, markers, to, rpc, cleared, fetch, committed, retried, filter);
            Calm(s) && AnswersReach(rpc, fetch, tip) ==>
              Calm(Exec(cfg, s, steps)) && (Inv(cfg, s) ==> Inv(cfg, Exec(cfg, s, steps)))
  {
    if Calm(s) && AnswersReach(rpc, fetch, tip) {
      var steps := TickSteps(cfg, order, tip, loaded, markers, to, rpc, cleared, fetch, committed, retried, filter);
      TickStepsOfTick(cfg, order, tip, loaded, markers, to, rpc, cleared, fetch, committed, retried, filter, tip);
      TickStepsSeparate(cfg, s, steps, tip);
      RunKeepsBoth(cfg, s, steps);
    }
  }

  lemma TickIsPlain(cfg: Config, s: System, order: seq<Contract>, tip: nat, loaded: bool, markers: map<Contract, nat>, to: nat,
                    rpc: (Contract, nat) -> Option<nat>, cleared: Contract -> bool, fetch: Option<nat>, committed: bool,
                    retried: bool, filter: set<Contract>)
    requires cfg.batchSize > 0 && (forall c :: c in order ==> c in markers) && s.mem.jobs == map[] && s.mem.tick.TickIdle?
    ensures PlainRun(cfg, s, TickSteps(cfg, order, tip, loaded, markers, to, rpc, cleared, fetch, committed, retried, filter))
  {
    TickStepsOfTick(cfg, order, tip, loaded, markers, to, rpc, cleared, fetch, committed, retried, filter, 0);
    var steps := TickSteps(cfg, order, tip, loaded, markers, to, rpc, cleared, fetch, committed, retried, filter);
    assert forall i :: 0 <= i < |steps| ==> OfTick(steps[i], tip, 0);
    TickStepsPlain(cfg, s, steps, tip);
  }

  // Catching up changes no pause, and, when nothing fails, leaves no marker.
  lemma {:induction false} AllCaughtUpKeeps(cfg: Config, order: seq<Contract>, markers: map<Contract, nat>, to: nat,
                                            rpc: (Contract, nat) -> Option<nat>, cleared: Contract -> bool, s: Caught)
    requires cfg.batchSize > 0 && forall c :: c in order ==> c in markers
    ensures var after := AllCaughtUp(cfg, order, markers, to, rpc, cleared, s);
            && (forall c :: IsPaused(after.controls, c) <==> IsPaused(s.controls, c))
            && ((forall c, i :: rpc(c, i).Some?) && (forall c :: cleared(c)) ==>
                  Resumed(after.controls) == Left(Resumed(s.controls), order))
  {
    if order == [] {
      assert Left(Resumed(s.controls), order) == Resumed(s.controls);
    } else {
      var init, c := order[..|order| - 1], order[|order| - 1];
      AllCaughtUpKeeps(cfg, init, markers, to, rpc, cleared, s);
      if (forall c, i :: rpc(c, i).Some?) && (forall c :: cleared(c)) {
        AlwaysAnswered(cfg, markers[c], to, i => rpc(c, i), 0);
        var before := AllCaughtUp(cfg, init, markers, to, rpc, cleared, s).controls;
        ForgetOne(before, c);
        LeftLess(Resumed(s.controls), init, c);
        assert order == init + [c];
      }
    }
  }

  lemma ForgetOne(controls: map<Contract, Control>, c: Contract)
    ensures Resumed(if c in controls then controls[c := controls[c].(marker := None)] else controls) == Resumed(controls) - {c}
  {}

  lemma SameActive(cfg: Config, a: map<Contract, Control>, b: map<Contract, Control>)
    requires forall c :: IsPaused(a, c) <==> IsPaused(b, c)
    ensures ActiveContracts(cfg.watched, a) == ActiveContracts(cfg.watched, b)
  {}

  lemma {:induction false} AlwaysAnswered(cfg: Config, cursor: nat, to: nat, rpc: nat -> Option<nat>, call: nat)
    requires cfg.batchSize > 0 && forall i :: rpc(i).Some?
    ensures Answered(cfg, cursor, to, rpc, call)
    decreases if cursor < to then to - cursor else 0
  {
    if cursor < to {
      AlwaysAnswered(cfg, Min(cursor + cfg.batchSize, to), to, rpc, call + 1);
    }
  }

  lemma NoneSkipped(controls: map<Contract, Control>, es: seq<Event>)
    requires forall e :: e in es ==> !IsPaused(controls, e.contract)
    ensures Skipped(controls, es) == {}
  {}

  // No event answers to an empty filter.
  lemma NobodyAnswers(chain: seq<Event>, from: nat, horizon: nat)
    ensures Answer(chain, from, horizon, {}) == []
  {
    var a := Answer(chain, from, horizon, {});
    if a != [] {
      HasElement(a);
    }
  }
}
