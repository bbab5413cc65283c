// Schedules of the step machine: without overlap every run is orderly, and
// what overlap does otherwise, in runs from boot.
module IndexerSchedules {
  import opened Common
  import opened Handlers
  import opened EventStore
  import opened IndexerMachine
  import opened IndexerCoverage

  // ------------------------------------------------------- without overlap

  // RPC answers reach the ledger the batch will be recorded up to and no event
  // they miss is lost, an admin backfill starts no later than the recorded
  // cursor, no backfill is under way beside a tick, and none commits before
  // memory has taken note of the commit of another.
  predicate Separate(cfg: Config, s: System, step: Step) {
    var mem, t := s.mem, s.mem.tick;
    match step
    case TickBegin(_) => mem.jobs == map[]
    case TickFetch(answer) => t.TickReplay? && answer.Some? ==> t.plan.latest <= answer.value
    case ReplayBatch(answer, missed) =>
      t.TickBatch? && answer.Some? ==> BatchEnd(cfg, t) <= answer.value && ReplayReaches(cfg, s, answer.value, missed)
    case TickCommit(ok, missed) => t.TickFetched? && ok ==> NoneLost(cfg, s, t.filter, t.latest, missed)
    case JobBegin(_, from, _) => t.TickIdle? && (from.Some? ==> from.value <= s.db.cursor)
    case JobBatch(id, size, answer, _, missed) =>
      Commits(s, step) ==>
        JobEnd(mem.jobs[id], size) <= answer.value && Noted(mem.jobs)
        && NoneLost(cfg, s, mem.jobs[id].filter, JobEnd(mem.jobs[id], size), missed)
    case _ => true
  }

  // Memory has taken note of every commit.
  predicate Noted(jobs: map<nat, Job>) {
    forall id :: id in jobs ==> !jobs[id].JobCommitted?
  }

  predicate SeparateRun(cfg: Config, s: System, steps: seq<Step>) {
    steps != [] ==>
      SeparateRun(cfg, s, steps[..|steps| - 1])
      && Separate(cfg, Exec(cfg, s, steps[..|steps| - 1]), steps[|steps| - 1])
  }

  predicate Unpaused(controls: map<Contract, Control>, cs: set<Contract>) {
    forall c :: c in cs ==> !IsPaused(controls, c)
  }

  // A tick that nothing interferes with.
  predicate PlanCalm(s: System, plan: Plan) {
    s.mem.running && plan.from == s.mem.lastLedger + 1 && Unpaused(s.mem.controls, plan.todo.Keys)
  }

  predicate TickCalm(s: System) {
    var mem, t := s.mem, s.mem.tick;
    match t
    case TickIdle => true
    case TickGot(from, _) => mem.running && from == mem.lastLedger + 1
    case TickLoading(from, _, _) => mem.running && from == mem.lastLedger + 1
    case TickReplay(plan) => PlanCalm(s, plan)
    case TickBatch(plan, contract, cursor, to) => PlanCalm(s, plan) && contract in plan.todo && cursor < to == mem.lastLedger
    case TickClear(plan, contract, reach) => PlanCalm(s, plan) && contract in plan.todo && mem.lastLedger <= reach
    case TickFetched(from, latest, filter, horizon) =>
      mem.running && from == mem.lastLedger + 1 && (filter != {} ==> latest <= horizon) && Unpaused(mem.controls, filter)
    case TickCommitted(latest) => s.db.cursor <= latest
  }

  predicate Calm(s: System) {
    && (s.mem.tick.TickIdle? || s.mem.jobs == map[])
    && (s.mem.running && !s.mem.tick.TickCommitted? && Noted(s.mem.jobs) ==> s.db.cursor <= s.mem.lastLedger)
    && (forall id :: id in s.mem.jobs && s.mem.jobs[id].JobCommitted? ==> s.db.cursor == s.mem.jobs[id].cursor)
    && TickCalm(s)
  }

  lemma SeparateIsOrderly(cfg: Config, s: System, step: Step)
    requires Calm(s) && Separate(cfg, s, step)
    ensures Orderly(cfg, s, step)
  {}

  lemma SeparateKeepsCalm(cfg: Config, s: System, step: Step)
    requires Calm(s) && Separate(cfg, s, step)
    ensures Calm(Next(cfg, s, step))
  {
    ControlOf(cfg, s, step);
    CalmOfControl(Next(cfg, s, step), Control0(cfg, s, step));
    if step.ReplayBatch? || step.TickCommit? || step.JobBatch? {
      DeliveringKeepsCalm(cfg, s, step);
    } else {
      OtherKeepsCalm(cfg, s, step);
    }
  }

  lemma CalmOfControl(a: System, b: System)
    requires a.mem == b.mem && a.db.cursor == b.db.cursor
    ensures Calm(a) <==> Calm(b)
  {}

  lemma DeliveringKeepsCalm(cfg: Config, s: System, step: Step)
    requires Calm(s) && Separate(cfg, s, step)
    requires step.ReplayBatch? || step.TickCommit? || step.JobBatch?
    ensures Calm(Control0(cfg, s, step))
  {
    var n := Control0(cfg, s, step);
    if step.JobBatch? && Commits(s, step) {
      assert n.mem.jobs[step.id].JobCommitted?;
    } else {
      NotedBefore(s.mem.jobs, n.mem.jobs);
    }
  }

  // A commit still to be noted stays so but for a finish or a crash.
  lemma NotedBefore(jobs: map<nat, Job>, after: map<nat, Job>)
    requires forall id :: id in jobs && jobs[id].JobCommitted? ==> id in after && after[id] == jobs[id]
    ensures Noted(after) ==> Noted(jobs)
  {}

  lemma OtherKeepsCalm(cfg: Config, s: System, step: Step)
    requires Calm(s) && Separate(cfg, s, step)
    requires !step.ReplayBatch? && !step.TickCommit? && !step.JobBatch?
    ensures Calm(Control0(cfg, s, step))
  {
    var n := Control0(cfg, s, step);
    if !step.JobFinish? && !step.Crash? {
      NotedBefore(s.mem.jobs, n.mem.jobs);
    } else if step.JobFinish? && step.id in s.mem.jobs && s.mem.jobs[step.id].JobCommitted? {
      assert n.mem.lastLedger == s.db.cursor;
    }
  }

  lemma {:induction false} SeparateRunsAreOrderly(cfg: Config, s: System, steps: seq<Step>)
    requires Calm(s) && SeparateRun(cfg, s, steps)
    ensures OrderlyRun(cfg, s, steps) && Calm(Exec(cfg, s, steps))
  {
    if steps != [] {
      var n := |steps| - 1;
      SeparateRunsAreOrderly(cfg, s, steps[..n]);
      var before := Exec(cfg, s, steps[..n]);
      SeparateIsOrderly(cfg, before, steps[n]);
      SeparateKeepsCalm(cfg, before, steps[n]);
    }
  }

  // ------------------------------------------------------------ with overlap

  lemma ExecThree(cfg: Config, s: System, a: Step, b: Step, c: Step)
    ensures Exec(cfg, s, [a, b, c]) == Next(cfg, Next(cfg, Next(cfg, s, a), b), c)
  {
    ExecTwo(cfg, s, a, b);
    ExecSnoc(cfg, s, [a, b], c);
    assert [a, b] + [c] == [a, b, c];
  }

  lemma ExecFour(cfg: Config, s: System, a: Step, b: Step, c: Step, d: Step)
    ensures Exec(cfg, s, [a, b, c, d]) == Next(cfg, Next(cfg, Next(cfg, Next(cfg, s, a), b), c), d)
  {
    ExecThree(cfg, s, a, b, c);
    ExecSnoc(cfg, s, [a, b, c], d);
    assert [a, b, c] + [d] == [a, b, c, d];
  }

  lemma ExecFive(cfg: Config, s: System, a: Step, b: Step, c: Step, d: Step, e: Step)
    ensures Exec(cfg, s, [a, b, c, d, e]) == Next(cfg, Next(cfg, Next(cfg, Next(cfg, Next(cfg, s, a), b), c), d), e)
  {
    ExecFour(cfg, s, a, b, c, d);
    ExecSnoc(cfg, s, [a, b, c, d], e);
    assert [a, b, c, d] + [e] == [a, b, c, d, e];
  }

  lemma ExecSix(cfg: Config, s: System, a: Step, b: Step, c: Step, d: Step, e: Step, f: Step)
    ensures Exec(cfg, s, [a, b, c, d, e, f])
         == Next(cfg, Next(cfg, Next(cfg, Next(cfg, Next(cfg, Next(cfg, s, a), b), c), d), e), f)
  {
    ExecFive(cfg, s, a, b, c, d, e);
    ExecSnoc(cfg, s, [a, b, c, d, e], f);
    assert [a, b, c, d, e] + [f] == [a, b, c, d, e, f];
  }

  lemma AnswerOfOne(x: Event, from: nat, horizon: nat, filter: set<Contract>)
    ensures Answer([x], from, horizon, filter)
         == if from <= x.ledger <= horizon && x.contract in filter then [x] else []
  {
    var a := Answer([x], from, horizon, filter);
    if a != [] {
      assert a[0] in a;
    } else {
      assert x !in a;
    }
  }

  function CleanTick(latest: nat): seq<Step> {
    [TickBegin(latest), TickRead(true), TickLoad, TickFetch(Some(latest)), TickCommit(true, {}), TickFinish(true)]
  }

  // A tick that finds nothing resumed and gets no event.
  lemma QuietTick(cfg: Config, s: System, latest: nat) returns (n: System)
    requires s.mem.running && s.mem.tick.TickIdle? && s.mem.lastLedger < latest
    requires Resumed(s.db.controls) == map[]
    requires Answer(cfg.chain, s.mem.lastLedger + 1, latest, ActiveContracts(cfg.watched, s.db.controls)) == []
    ensures n == Exec(cfg, s, CleanTick(latest))
    ensures n == System(s.db.(cursor := latest),
                        s.mem.(lastLedger := latest, controls := s.db.controls, version := s.mem.version + 1))
  {
    var s1 := Next(cfg, s, TickBegin(latest));
    var s2 := Next(cfg, s1, TickRead(true));
    var s3 := Next(cfg, s2, TickLoad);
    var s4 := Next(cfg, s3, TickFetch(Some(latest)));
    var s5 := Next(cfg, s4, TickCommit(true, {}));
    n := Next(cfg, s5, TickFinish(true));
    ExecSix(cfg, s, TickBegin(latest), TickRead(true), TickLoad, TickFetch(Some(latest)), TickCommit(true, {}), TickFinish(true));
  }

  // V is paused at ledger 10 and the cursor goes on to 20 without it.
  function PausedAtTen(): seq<Step> {
    CleanTick(10) + [Pause("V")] + CleanTick(20)
  }

  function VPaused(): map<Contract, Control> { map["V" := Control(true, Some(10))] }

  function VResumed(): map<Contract, Control> { map["V" := Control(false, Some(10))] }

  lemma AfterPausedAtTen(cfg: Config, books: Books, x: Event)
    requires cfg == Config([x], {"V", "W"}, 0, cfg.batchSize) && x.contract == "V" && x.ledger > 10
    ensures Exec(cfg, Boot(cfg, books), PausedAtTen())
         == System(Database(20, VPaused(), {}, Empty(books)), Memory(true, 20, VPaused(), 2, TickIdle, map[]))
  {
    AnswerOfOne(x, 1, 10, ActiveContracts(cfg.watched, map[]));
    var s1 := QuietTick(cfg, Boot(cfg, books), 10);
    ExecSnoc(cfg, Boot(cfg, books), CleanTick(10), Pause("V"));
    var s2 := Next(cfg, s1, Pause("V"));
    assert ActiveContracts(cfg.watched, VPaused()) == {"W"};
    AnswerOfOne(x, 11, 20, {"W"});
    var s3 := QuietTick(cfg, s2, 20);
    ExecConcat(cfg, Boot(cfg, books), CleanTick(10) + [Pause("V")], CleanTick(20));
  }

  // While a tick (latest 30) is in flight an admin backfill of 1..5 lowers the
  // cursor; V is then resumed.
  function Lower(): seq<Step> {
    [TickBegin(30), JobBegin(0, Some(0), 5), JobRead(0, true), JobLoad(0), JobBatch(0, 5, Some(30), true, {}), JobFinish(0)]
  }

  function BackfillDuringTick(): seq<Step> { Lower() + [Resume("V"), TickRead(true)] }

  // The replay finds its marker ahead of the lowered cursor and is skipped,
  // the marker is cleared, and the tick goes on from ledger 21.
  function RestOfTick(): seq<Step> {
    [TickLoad, ReplayPick("V"), ReplayClear(true), TickFetch(Some(30)), TickCommit(true, {}), TickFinish(true)]
  }

  lemma JobStarts(cfg: Config, s: System)
    requires cfg.watched == {"V", "W"} && s.db.controls == VPaused() && s.mem.jobs == map[]
    ensures Next(cfg, Next(cfg, Next(cfg, s, JobBegin(0, Some(0), 5)), JobRead(0, true)), JobLoad(0))
         == s.(mem := s.mem.(controls := VPaused(), version := s.mem.version + 1, jobs := map[0 := JobReady(0, 5, {"W"})]))
  {
    assert ActiveContracts(cfg.watched, VPaused()) == {"W"};
    var s1 := Next(cfg, s, JobBegin(0, Some(0), 5));
    assert s1.mem.jobs == map[0 := JobStarting(0, 5)];
    var s2 := Next(cfg, s1, JobRead(0, true));
    assert s2.mem.jobs == map[0 := JobLoading(0, 5, Some(VPaused()))];
    assert Next(cfg, s2, JobLoad(0)).mem.jobs == map[0 := JobReady(0, 5, {"W"})];
  }

  lemma JobLowers(cfg: Config, s: System)
    requires s.mem.jobs == map[0 := JobReady(0, 5, {"W"})] && Answer(cfg.chain, 1, 30, {"W"}) == []
    ensures Next(cfg, Next(cfg, s, JobBatch(0, 5, Some(30), true, {})), JobFinish(0))
         == System(s.db.(cursor := 5), s.mem.(lastLedger := 5, jobs := map[0 := JobReady(5, 5, {"W"})]))
  {
    var s1 := Next(cfg, s, JobBatch(0, 5, Some(30), true, {}));
    assert s1.mem.jobs == map[0 := JobCommitted(5, 5, {"W"})];
    assert Next(cfg, s1, JobFinish(0)).mem.jobs == map[0 := JobReady(5, 5, {"W"})];
  }

  lemma BackfillLowersCursor(cfg: Config, s: System)
    requires cfg.watched == {"V", "W"}
    requires s.db.cursor == 20 && s.db.controls == VPaused()
    requires s.mem == Memory(true, 20, VPaused(), 2, TickIdle, map[])
    requires Answer(cfg.chain, 1, 30, {"W"}) == []
    ensures Exec(cfg, s, Lower())
         == System(s.db.(cursor := 5), Memory(true, 5, VPaused(), 3, TickGot(21, 30), map[0 := JobReady(5, 5, {"W"})]))
  {
    var s1 := Next(cfg, s, TickBegin(30));
    JobStarts(cfg, s1);
    var s4 := Next(cfg, Next(cfg, Next(cfg, s1, JobBegin(0, Some(0), 5)), JobRead(0, true)), JobLoad(0));
    JobLowers(cfg, s4);
    ExecSix(cfg, s, TickBegin(30), JobBegin(0, Some(0), 5), JobRead(0, true), JobLoad(0), JobBatch(0, 5, Some(30), true, {}), JobFinish(0));
  }

  lemma ResumedDuringTick(cfg: Config, s: System, jobs: map<nat, Job>)
    requires s.db.controls == VPaused() && s.mem == Memory(true, 5, VPaused(), 3, TickGot(21, 30), jobs)
    ensures Exec(cfg, s, [Resume("V"), TickRead(true)])
         == System(s.db.(controls := VResumed()), s.mem.(tick := TickLoading(21, 30, Some(VResumed()))))
  {
    ExecTwo(cfg, s, Resume("V"), TickRead(true));
    assert Next(cfg, s, Resume("V")).db.controls == VResumed();
  }

  lemma ReplaySkipped(cfg: Config, s: System)
    requires s.db.controls == VResumed() && s.mem.tick == TickLoading(21, 30, Some(VResumed())) && s.mem.lastLedger == 5
    ensures var n := Next(cfg, Next(cfg, Next(cfg, s, TickLoad), ReplayPick("V")), ReplayClear(true));
            n.db == s.db.(controls := map["V" := Control(false, None)]) && n.mem.controls == map["V" := Control(false, None)]
            && n.mem.tick == TickReplay(Plan(21, 30, s.mem.version + 1, map[]))
  {
    assert Resumed(VResumed()) == map["V" := 10];
    var s1 := Next(cfg, s, TickLoad);
    var s2 := Next(cfg, s1, ReplayPick("V"));
    assert s2.mem.tick == TickClear(Plan(21, 30, s.mem.version + 1, map["V" := 10]), "V", 10);
    assert map["V" := 10] - {"V"} == map[];
    assert VResumed()["V" := Control(false, None)] == map["V" := Control(false, None)];
  }

  lemma TickSkipsReplay(cfg: Config, s: System)
    requires cfg.watched == {"V", "W"}
    requires s.db.controls == VResumed() && s.mem.tick == TickLoading(21, 30, Some(VResumed())) && s.mem.lastLedger == 5
    requires Answer(cfg.chain, 21, 30, {"V", "W"}) == []
    ensures Exec(cfg, s, RestOfTick()).db
         == s.db.(cursor := 30, controls := map["V" := Control(false, None)])
  {
    ReplaySkipped(cfg, s);
    var s3 := Next(cfg, Next(cfg, Next(cfg, s, TickLoad), ReplayPick("V")), ReplayClear(true));
    assert ActiveContracts(cfg.watched, s3.mem.controls) == {"V", "W"};
    var s4 := Next(cfg, s3, TickFetch(Some(30)));
    ExecSix(cfg, s, TickLoad, ReplayPick("V"), ReplayClear(true), TickFetch(Some(30)), TickCommit(true, {}), TickFinish(true));
  }

  // A lost reach: every answer reaches the tip of its time and the backfill
  // starts at 0, yet the event of V at ledger 15 is neither handed nor excused.
  lemma LoweredCursorLosesEvent(x: Event, books: Books)
    requires x.contract == "V" && x.ledger == 15
    ensures var cfg := Config([x], {"V", "W"}, 0, 100);
            var s := Exec(cfg, Boot(cfg, books), PausedAtTen() + BackfillDuringTick() + RestOfTick());
            s.db.cursor == 30 && Relevant(cfg, x) && !Covered(cfg, s.db, s.db.cursor)
  {
    var cfg := Config([x], {"V", "W"}, 0, 100);
    AfterPausedAtTen(cfg, books, x);
    var s1 := Exec(cfg, Boot(cfg, books), PausedAtTen());
    AnswerOfOne(x, 1, 30, {"W"});
    BackfillLowersCursor(cfg, s1);
    var s2 := Exec(cfg, s1, Lower());
    ResumedDuringTick(cfg, s2, s2.mem.jobs);
    ExecConcat(cfg, s1, Lower(), [Resume("V"), TickRead(true)]);
    ExecConcat(cfg, Boot(cfg, books), PausedAtTen(), BackfillDuringTick());
    AnswerOfOne(x, 21, 30, {"V", "W"});
    TickSkipsReplay(cfg, Exec(cfg, s1, BackfillDuringTick()));
    ExecConcat(cfg, Boot(cfg, books), PausedAtTen() + BackfillDuringTick(), RestOfTick());
    assert Relevant(cfg, x);
  }

  // V is resumed and the tick starts to replay it.
  function UpToReplay(): seq<Step> { [Resume("V"), TickBegin(30), TickRead(true), TickLoad, ReplayPick("V")] }

  function InReplay(s: System): System {
    System(s.db.(controls := VResumed()), Memory(true, 20, VResumed(), 3, TickBatch(Plan(21, 30, 3, map["V" := 10]), "V", 10, 20), map[]))
  }

  lemma ReplayStarts(cfg: Config, s: System)
    requires s.db.controls == VPaused() && s.mem == Memory(true, 20, VPaused(), 2, TickIdle, map[])
    ensures Exec(cfg, s, UpToReplay()) == InReplay(s)
  {
    var s1 := Next(cfg, s, Resume("V"));
    assert s1.db.controls == VResumed();
    var s2 := Next(cfg, s1, TickBegin(30));
    assert Resumed(VResumed()) == map["V" := 10];
    var s3 := Next(cfg, s2, TickRead(true));
    var s4 := Next(cfg, s3, TickLoad);
    assert s4.mem.tick == TickReplay(Plan(21, 30, 3, map["V" := 10]));
    assert Next(cfg, s4, ReplayPick("V")) == InReplay(s);
    ExecFive(cfg, s, Resume("V"), TickBegin(30), TickRead(true), TickLoad, ReplayPick("V"));
  }

  // A backfill has read the controls while V was still paused; the tick reads
  // them after the resume, the backfill puts its stale reading in memory once
  // V is caught up, and the tick fetches without V.
  function StaleReading(): seq<Step> { [JobBegin(0, Some(20), 20), JobRead(0, true)] }

  function StaleTick(): seq<Step> {
    [ReplayBatch(Some(20), {}), ReplayClear(true), JobLoad(0), TickFetch(Some(30)), TickCommit(true, {}), TickFinish(true)]
  }

  lemma ReplayStartsBeside(cfg: Config, s: System, j: Job)
    requires s.db.controls == VPaused() && s.mem == Memory(true, 20, VPaused(), 2, TickIdle, map[0 := j])
    ensures Exec(cfg, s, UpToReplay()) == InReplay(s).(mem := InReplay(s).mem.(jobs := map[0 := j]))
  {
    var s1 := Next(cfg, s, Resume("V"));
    assert s1.db.controls == VResumed();
    var s2 := Next(cfg, s1, TickBegin(30));
    assert Resumed(VResumed()) == map["V" := 10];
    var s3 := Next(cfg, s2, TickRead(true));
    var s4 := Next(cfg, s3, TickLoad);
    assert s4.mem.tick == TickReplay(Plan(21, 30, 3, map["V" := 10]));
    ExecFive(cfg, s, Resume("V"), TickBegin(30), TickRead(true), TickLoad, ReplayPick("V"));
  }

  lemma StaleTickRuns(cfg: Config, s: System)
    requires cfg.watched == {"V", "W"} && cfg.batchSize == 100
    requires s.db.controls == VResumed() && s.db.handed == {}
    requires s.mem == Memory(true, 20, VResumed(), 3, TickBatch(Plan(21, 30, 3, map["V" := 10]), "V", 10, 20),
                             map[0 := JobLoading(20, 20, Some(VPaused()))])
    requires UpTo(Answer(cfg.chain, 11, 20, {"V"}), 20) == [] && Answer(cfg.chain, 21, 30, {"W"}) == []
    ensures var n := Exec(cfg, s, StaleTick());
            n.db.cursor == 30 && n.db.handed == {} && n.db.controls == map["V" := Control(false, None)]
  {
    var plan := Plan(21, 30, 3, map["V" := 10]);
    var s1 := Next(cfg, s, ReplayBatch(Some(20), {}));
    assert s1.mem.tick == TickClear(plan, "V", 20) && s1.db == s.db;
    var s2 := Next(cfg, s1, ReplayClear(true));
    assert map["V" := 10] - {"V"} == map[];
    assert s2.db.controls == map["V" := Control(false, None)];
    assert ActiveContracts(cfg.watched, VPaused()) == {"W"};
    var s3 := Next(cfg, s2, JobLoad(0));
    assert s3.mem.controls == VPaused() && s3.mem.tick == TickReplay(Plan(21, 30, 3, map[]));
    var s4 := Next(cfg, s3, TickFetch(Some(30)));
    assert s4.mem.tick == TickFetched(21, 30, {"W"}, 30);
    var s5 := Next(cfg, s4, TickCommit(true, {}));
    ExecSix(cfg, s, ReplayBatch(Some(20), {}), ReplayClear(true), JobLoad(0), TickFetch(Some(30)), TickCommit(true, {}), TickFinish(true));
  }

  // A stale reading: neither cursor ever goes down and no batch misses an
  // event, yet the event of V at ledger 25 is neither handed nor excused.
  lemma StaleControlsLoseEvent(x: Event, books: Books)
    requires x.contract == "V" && x.ledger == 25
    ensures var cfg := Config([x], {"V", "W"}, 0, 100);
            var s := Exec(cfg, Boot(cfg, books), PausedAtTen() + StaleReading() + UpToReplay() + StaleTick());
            s.db.cursor == 30 && Relevant(cfg, x) && !Covered(cfg, s.db, s.db.cursor)
  {
    var cfg := Config([x], {"V", "W"}, 0, 100);
    StaleSetup(cfg, books, x);
    var s1 := Exec(cfg, Boot(cfg, books), PausedAtTen() + StaleReading());
    ReplayStartsBeside(cfg, s1, JobLoading(20, 20, Some(VPaused())));
    ExecConcat(cfg, Boot(cfg, books), PausedAtTen() + StaleReading(), UpToReplay());
    AnswerOfOne(x, 11, 20, {"V"});
    AnswerOfOne(x, 21, 30, {"W"});
    StaleTickRuns(cfg, Exec(cfg, s1, UpToReplay()));
    ExecConcat(cfg, Boot(cfg, books), PausedAtTen() + StaleReading() + UpToReplay(), StaleTick());
    assert Relevant(cfg, x);
  }

  lemma StaleSetup(cfg: Config, books: Books, x: Event)
    requires cfg == Config([x], {"V", "W"}, 0, 100) && x.contract == "V" && x.ledger == 25
    ensures Exec(cfg, Boot(cfg, books), PausedAtTen() + StaleReading())
         == System(Database(20, VPaused(), {}, Empty(books)),
                   Memory(true, 20, VPaused(), 2, TickIdle, map[0 := JobLoading(20, 20, Some(VPaused()))]))
  {
    AfterPausedAtTen(cfg, books, x);
    var s1 := Exec(cfg, Boot(cfg, books), PausedAtTen());
    ExecTwo(cfg, s1, JobBegin(0, Some(20), 20), JobRead(0, true));
    var s2 := Next(cfg, s1, JobBegin(0, Some(20), 20));
    assert Next(cfg, s2, JobRead(0, true)).mem.jobs == map[0 := JobLoading(20, 20, Some(VPaused()))];
    ExecConcat(cfg, Boot(cfg, books), PausedAtTen(), StaleReading());
  }
}
