// The configured start block of the indexer (backend/src/services/indexer.ts):
// when a run hands over nothing at or below it.
module IndexerFloor {
  import opened Common
  import opened Handlers
  import opened EventStore
  import opened IndexerMachine
  import opened IndexerCoverage
  import opened IndexerSchedules

  predicate MarkersAbove(controls: map<Contract, Control>, floor: nat) {
    forall c :: c in controls && controls[c].marker.Some? ==> controls[c].marker.value >= floor
  }

  predicate ReadAbove(read: Option<map<Contract, Control>>, floor: nat) {
    read.Some? ==> MarkersAbove(read.value, floor)
  }

  predicate PlanAbove(plan: Plan, floor: nat) {
    plan.latest >= floor && plan.from > floor && forall c :: c in plan.todo ==> plan.todo[c] >= floor
  }

  predicate TickAbove(t: Tick, floor: nat) {
    match t
    case TickIdle => true
    case TickGot(from, latest) => from > floor && latest >= floor
    case TickLoading(from, latest, read) => from > floor && latest >= floor && ReadAbove(read, floor)
    case TickReplay(plan) => PlanAbove(plan, floor)
    case TickBatch(plan, _, cursor, _) => PlanAbove(plan, floor) && cursor >= floor
    case TickClear(plan, _, _) => PlanAbove(plan, floor)
    case TickFetched(from, latest, _, _) => from > floor && latest >= floor
    case TickCommitted(latest) => latest >= floor
  }

  predicate JobAbove(j: Job, floor: nat) {
    j.cursor >= floor && (j.JobLoading? ==> ReadAbove(j.read, floor))
  }

  // Everything the state resumes or fetches from lies at or above the floor.
  predicate Above(s: System, floor: nat) {
    && (s.db.cursor == 0 || s.db.cursor >= floor)
    && s.mem.lastLedger >= floor
    && MarkersAbove(s.db.controls, floor) && MarkersAbove(s.mem.controls, floor)
    && TickAbove(s.mem.tick, floor)
    && forall id :: id in s.mem.jobs ==> JobAbove(s.mem.jobs[id], floor)
  }

  // An explicit backfill starts at or above the floor, and no contract is
  // paused for the first time before the first commit.
  predicate Respects(s: System, step: Step, floor: nat) {
    match step
    case JobBegin(id, from, _) => id !in s.mem.jobs && from.Some? ==> from.value >= floor
    case Pause(c) => Marker(s.db.controls, c).None? ==> s.db.cursor >= floor
    case _ => true
  }

  // Exactly those steps leave a state above its floor there.
  lemma StaysAboveIff(cfg: Config, s: System, step: Step)
    requires Above(s, cfg.startBlock)
    ensures Above(Next(cfg, s, step), cfg.startBlock) <==> Respects(s, step, cfg.startBlock)
  {
    var k := Control0(cfg, s, step);
    ControlOf(cfg, s, step);
    if step.JobBegin? || step.JobRead? || step.JobLoad? || step.JobBatch? || step.JobFinish? {
      JobStaysAboveIff(cfg, s, step);
    } else {
      OtherStaysAboveIff(cfg, s, step);
    }
    assert Above(Next(cfg, s, step), cfg.startBlock) <==> Above(k, cfg.startBlock);
  }

  lemma JobStaysAboveIff(cfg: Config, s: System, step: Step)
    requires Above(s, cfg.startBlock)
    requires step.JobBegin? || step.JobRead? || step.JobLoad? || step.JobBatch? || step.JobFinish?
    ensures Above(Control0(cfg, s, step), cfg.startBlock) <==> Respects(s, step, cfg.startBlock)
  {
    var n := Control0(cfg, s, step);
    if step.id in n.mem.jobs {
      assert JobAbove(n.mem.jobs[step.id], cfg.startBlock) <==> Respects(s, step, cfg.startBlock);
    }
  }

  lemma OtherStaysAboveIff(cfg: Config, s: System, step: Step)
    requires Above(s, cfg.startBlock)
    requires !step.JobBegin? && !step.JobRead? && !step.JobLoad? && !step.JobBatch? && !step.JobFinish?
    ensures Above(Control0(cfg, s, step), cfg.startBlock) <==> Respects(s, step, cfg.startBlock)
  {
    if step.Pause? || step.Resume? || step.Crash? {
      OperatorStaysAboveIff(cfg, s, step);
    } else {
      TickStaysAbove(cfg, s, step);
    }
  }

  lemma OperatorStaysAboveIff(cfg: Config, s: System, step: Step)
    requires Above(s, cfg.startBlock) && (step.Pause? || step.Resume? || step.Crash?)
    ensures Above(Control0(cfg, s, step), cfg.startBlock) <==> Respects(s, step, cfg.startBlock)
  {
    if step.Pause? {
      var n := Control0(cfg, s, step);
      assert n.db.controls[step.contract].marker.Some?;
    }
  }

  lemma TickStaysAbove(cfg: Config, s: System, step: Step)
    requires Above(s, cfg.startBlock) && !step.Pause? && !step.Resume? && !step.Crash?
    requires !step.JobBegin? && !step.JobRead? && !step.JobLoad? && !step.JobBatch? && !step.JobFinish?
    ensures Above(Control0(cfg, s, step), cfg.startBlock)
  {
    if step.TickBegin? || step.TickRead? || step.TickLoad? || step.ReplayPick? {
      TickBeginsAbove(cfg, s, step);
    } else {
      TickEndsAbove(cfg, s, step);
    }
  }

  lemma TickBeginsAbove(cfg: Config, s: System, step: Step)
    requires Above(s, cfg.startBlock) && (step.TickBegin? || step.TickRead? || step.TickLoad? || step.ReplayPick?)
    ensures Above(Control0(cfg, s, step), cfg.startBlock)
  {}

  lemma TickEndsAbove(cfg: Config, s: System, step: Step)
    requires Above(s, cfg.startBlock)
    requires step.ReplayBatch? || step.ReplayClear? || step.TickFetch? || step.TickCommit? || step.TickFinish?
    ensures Above(Control0(cfg, s, step), cfg.startBlock)
  {
    if step.ReplayBatch? || step.ReplayClear? {
      ReplayStaysAbove(cfg, s, step);
    }
  }

  lemma ReplayStaysAbove(cfg: Config, s: System, step: Step)
    requires Above(s, cfg.startBlock) && (step.ReplayBatch? || step.ReplayClear?)
    ensures Above(Control0(cfg, s, step), cfg.startBlock)
  {}

  // What such a state hands over lies above the floor.
  lemma HandsAbove(cfg: Config, s: System, step: Step, e: Event)
    requires Above(s, cfg.startBlock) && e in Next(cfg, s, step).db.handed && e !in s.db.handed
    ensures e.ledger > cfg.startBlock
  {
    HandsOver(cfg, s, step, e);
  }

  predicate RespectsAll(cfg: Config, s: System, steps: seq<Step>) {
    steps != [] ==>
      RespectsAll(cfg, s, steps[..|steps| - 1])
      && Respects(Exec(cfg, s, steps[..|steps| - 1]), steps[|steps| - 1], cfg.startBlock)
  }

  // Nothing at or below the start block is handed over, from boot, while
  // explicit backfills start at or above it and nobody pauses a contract
  // before the first commit.
  lemma {:induction false} NothingBelowStartBlock(cfg: Config, books: Books, steps: seq<Step>)
    requires RespectsAll(cfg, Boot(cfg, books), steps)
    ensures var s := Exec(cfg, Boot(cfg, books), steps);
            Above(s, cfg.startBlock) && forall e :: e in s.db.handed ==> e.ledger > cfg.startBlock
  {
    if steps != [] {
      var n := |steps| - 1;
      NothingBelowStartBlock(cfg, books, steps[..n]);
      var before := Exec(cfg, Boot(cfg, books), steps[..n]);
      StaysAboveIff(cfg, before, steps[n]);
      forall e | e in Next(cfg, before, steps[n]).db.handed && e !in before.db.handed ensures e.ledger > cfg.startBlock {
        HandsAbove(cfg, before, steps[n], e);
      }
    }
  }

  // The first tick fetches from right behind the start block.
  lemma FirstTickStartsBehind(cfg: Config, books: Books, latest: nat)
    requires latest > cfg.startBlock
    ensures Next(cfg, Boot(cfg, books), TickBegin(latest)).mem.tick == TickGot(cfg.startBlock + 1, latest)
  {}

  // ------------------------------------------------ paused before the first commit

  function PausedFirst(): seq<Step> { [Pause("V")] + CleanTick(20) + [Resume("V")] }

  function ReplaysAll(): seq<Step> { [TickBegin(30), TickRead(true), TickLoad, ReplayPick("V"), ReplayBatch(Some(30), {})] }

  function AtZero(paused: bool): map<Contract, Control> { map["V" := Control(paused, Some(0))] }

  lemma AfterPausedFirst(cfg: Config, books: Books, x: Event)
    requires cfg == Config([x], {"V", "W"}, 10, 100) && x.contract == "V"
    ensures Exec(cfg, Boot(cfg, books), PausedFirst())
         == System(Database(20, AtZero(false), {}, Empty(books)), Memory(true, 20, AtZero(true), 1, TickIdle, map[]))
  {
    var s := Boot(cfg, books);
    ExecOne(cfg, s, Pause("V"));
    var s1 := System(Database(0, AtZero(true), {}, Empty(books)), Restart(cfg, s.db));
    PausedAtBoot(cfg, books);
    assert ActiveContracts(cfg.watched, AtZero(true)) == {"W"};
    AnswerOfOne(x, 11, 20, {"W"});
    var s2 := QuietTick(cfg, s1, 20);
    ExecConcat(cfg, s, [Pause("V")], CleanTick(20));
    ExecSnoc(cfg, s, [Pause("V")] + CleanTick(20), Resume("V"));
    assert Next(cfg, s2, Resume("V")).db.controls == AtZero(false);
  }

  lemma PausedAtBoot(cfg: Config, books: Books)
    ensures Next(cfg, Boot(cfg, books), Pause("V"))
         == System(Database(0, AtZero(true), {}, Empty(books)), Restart(cfg, Boot(cfg, books).db))
  {
    assert Next(cfg, Boot(cfg, books), Pause("V")).db.controls == AtZero(true);
  }

  lemma ReplaysFromZero(cfg: Config, s: System, x: Event)
    requires cfg == Config([x], {"V", "W"}, 10, 100) && x.contract == "V" && x.ledger == 5
    requires s.db.controls == AtZero(false) && s.mem == Memory(true, 20, AtZero(true), 1, TickIdle, map[])
    ensures x in Exec(cfg, s, ReplaysAll()).db.handed
  {
    var s1 := Next(cfg, s, TickBegin(30));
    assert Resumed(AtZero(false)) == map["V" := 0];
    var s2 := Next(cfg, s1, TickRead(true));
    var s3 := Next(cfg, s2, TickLoad);
    var s4 := Next(cfg, s3, ReplayPick("V"));
    assert s4.mem.tick == TickBatch(Plan(21, 30, 2, map["V" := 0]), "V", 0, 20);
    HandsOver(cfg, s4, ReplayBatch(Some(30), {}), x);
    ExecFive(cfg, s, TickBegin(30), TickRead(true), TickLoad, ReplayPick("V"), ReplayBatch(Some(30), {}));
  }

  // A contract paused before the first commit is marked at ledger 0, not at
  // the start block: once resumed it is replayed from the first ledger on.
  lemma PausedBeforeFirstCommit(x: Event, books: Books)
    requires x.contract == "V" && x.ledger == 5
    ensures var cfg := Config([x], {"V", "W"}, 10, 100);
            x in Exec(cfg, Boot(cfg, books), PausedFirst() + ReplaysAll()).db.handed && x.ledger <= cfg.startBlock
  {
    var cfg := Config([x], {"V", "W"}, 10, 100);
    AfterPausedFirst(cfg, books, x);
    var s := Exec(cfg, Boot(cfg, books), PausedFirst());
    ReplaysFromZero(cfg, s, x);
    ExecConcat(cfg, Boot(cfg, books), PausedFirst(), ReplaysAll());
  }
}
