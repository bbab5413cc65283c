// Runs from boot, event by event, in which overlap or a lost row makes an
// event count twice, and one in which a pause inside a batch loses an event.
module IndexerRaces {
  import opened Common
  import opened Handlers
  import opened EventStore
  import opened IndexerMachine
  import opened IndexerCoverage
  import opened IndexerSchedules
  import opened IndexerWriters
  import opened IndexerInterleavings
  import opened IndexerRuns
  import opened IndexerExactlyOnce

  function Does(steps: seq<Step>): seq<Act> { seq(|steps|, i requires 0 <= i < |steps| => Do(steps[i])) }

  predicate NoBatch(step: Step) { !step.ReplayBatch? && !step.TickCommit? && !step.JobBatch? && !step.Crash? }

  lemma {:induction false} DoesSteps(cfg: Config, s: State, steps: seq<Step>)
    requires forall i :: 0 <= i < |steps| ==> NoBatch(steps[i])
    ensures PerformAll(cfg, s, Does(steps)) == s.(sys := Exec(cfg, s.sys, steps))
  {
    if steps == [] {
      assert Does(steps) == [];
    } else {
      var init := steps[..|steps| - 1];
      DoesSteps(cfg, s, init);
      PerformSnoc(cfg, s, Does(init), Do(steps[|steps| - 1]));
      assert Does(steps) == Does(init) + [Do(steps[|steps| - 1])];
    }
  }

  lemma PerformThree(cfg: Config, s: State, a: Act, b: Act, c: Act)
    ensures PerformAll(cfg, s, [a, b, c]) == Perform(cfg, Perform(cfg, Perform(cfg, s, a), b), c)
  {
    PerformOne(cfg, s, a);
    PerformSnoc(cfg, s, [a], b);
    PerformSnoc(cfg, s, [a, b], c);
    assert [a] + [b] == [a, b] && [a, b] + [c] == [a, b, c];
  }

  // ------------------------------------------------- a tick and a backfill

  // A tick has fetched 1..10 while a backfill of the same range is ready.
  function BothFetch(): seq<Step> {
    [TickBegin(10), TickRead(true), TickLoad, TickFetch(Some(10)), JobBegin(0, Some(0), 10), JobRead(0, true)]
  }

  function Raced(books: Books): System {
    System(Database(0, map[], {}, Empty(books)),
           Memory(true, 0, map[], 2, TickFetched(1, 10, {"V"}, 10), map[0 := JobReady(0, 10, {"V"})]))
  }

  lemma BothFetched(cfg: Config, books: Books)
    requires cfg.watched == {"V"} && cfg.startBlock == 0
    ensures Exec(cfg, Boot(cfg, books), BothFetch() + [JobLoad(0)]) == Raced(books)
  {
    var s := Boot(cfg, books);
    var s1 := Next(cfg, s, TickBegin(10));
    var s2 := Next(cfg, s1, TickRead(true));
    var s3 := Next(cfg, s2, TickLoad);
    assert Resumed(map[]) == map[];
    assert s3.mem.tick == TickReplay(Plan(1, 10, 1, map[]));
    assert ActiveContracts(cfg.watched, map[]) == {"V"};
    var s4 := Next(cfg, s3, TickFetch(Some(10)));
    TheJobLoads(cfg, s4);
    ExecSix(cfg, s, TickBegin(10), TickRead(true), TickLoad, TickFetch(Some(10)), JobBegin(0, Some(0), 10), JobRead(0, true));
    ExecSnoc(cfg, s, BothFetch(), JobLoad(0));
  }

  lemma TheJobLoads(cfg: Config, s: System)
    requires cfg.watched == {"V"} && s.db.controls == map[] && s.mem.jobs == map[]
    ensures Next(cfg, Next(cfg, Next(cfg, s, JobBegin(0, Some(0), 10)), JobRead(0, true)), JobLoad(0))
         == s.(mem := s.mem.(controls := map[], version := s.mem.version + 1, jobs := map[0 := JobReady(0, 10, {"V"})]))
  {
    assert ActiveContracts(cfg.watched, map[]) == {"V"};
    assert Next(cfg, s, JobBegin(0, Some(0), 10)).mem.jobs == map[0 := JobStarting(0, 10)];
    assert map[0 := JobStarting(0, 10)][0 := JobLoading(0, 10, Some(map[]))] == map[0 := JobLoading(0, 10, Some(map[]))];
    assert map[0 := JobLoading(0, 10, Some(map[]))][0 := JobReady(0, 10, {"V"})] == map[0 := JobReady(0, 10, {"V"})];
  }

  // Both look for the row of the one event before either has committed it.
  function BothLook(): seq<Act> {
    [Open(TheTick, 10, 0), Admit(TheTick), Look(TheTick)] + [Open(TheJob(0), 10, 10), Admit(TheJob(0)), Look(TheJob(0))]
  }

  // A transaction over [x] that has found no row.
  function Looked(size: nat, x: Event): Work { Work(false, size, 10, [x], 1, Unseen(x), {}, {}, []) }

  lemma LooksAlone(cfg: Config, s: State, who: Who, size: nat, x: Event)
    requires Ready(s.sys, who) && !Direct(s.sys, who) && who !in s.works && BatchOf(cfg, s.sys, who, 10) == [x]
    requires s.sys.mem.controls == map[] && s.store.rows == {}
    ensures PerformAll(cfg, s, [Open(who, 10, size), Admit(who), Look(who)]) == s.(works := s.works[who := Looked(size, x)])
  {
    PerformThree(cfg, s, Open(who, 10, size), Admit(who), Look(who));
    var s1 := Perform(cfg, s, Open(who, 10, size));
    var w := Work(false, size, 10, [x], 0, Between, {}, {}, []);
    assert s1.works == s.works[who := w];
    var s2 := Perform(cfg, s1, Admit(who));
    assert s2.works == s.works[who := w.(next := 1, stage := Admitted(x))];
    assert Visible(s.store, w.(next := 1, stage := Admitted(x))).rows == {};
  }

  lemma BothLooked(cfg: Config, books: Books, x: Event)
    requires cfg.chain == [x] && cfg.watched == {"V"} && x.contract == "V" && 1 <= x.ledger <= 10
    ensures PerformAll(cfg, State(Raced(books), Empty(books), map[]), BothLook())
         == State(Raced(books), Empty(books), map[TheTick := Looked(0, x), TheJob(0) := Looked(10, x)])
  {
    var s := State(Raced(books), Empty(books), map[]);
    AnswerOfOne(x, 1, 10, {"V"});
    LooksAlone(cfg, s, TheTick, 0, x);
    var s1 := s.(works := map[TheTick := Looked(0, x)]);
    LooksAlone(cfg, s1, TheJob(0), 10, x);
    PerformConcat(cfg, s, [Open(TheTick, 10, 0), Admit(TheTick), Look(TheTick)],
                  [Open(TheJob(0), 10, 10), Admit(TheJob(0)), Look(TheJob(0))]);
  }

  function Commit(who: Who): seq<Act> { [Handle(who), Record(who, true), Close(who, true)] }

  // A looked transaction runs its handler, inserts and commits, the others
  // having inserted nothing that is not committed.
  lemma CommitsAlone(cfg: Config, s: State, who: Who, size: nat, x: Event)
    requires who in s.works && s.works[who] == Looked(size, x) && Ready(s.sys, who)
    requires forall v :: v in s.works ==> s.works[v].rows == {}
    ensures var n := PerformAll(cfg, s, Commit(who));
            && n.works == s.works - {who}
            && n.store.applied == s.store.applied + [x]
            && n.store.books == Apply(s.store.books, x.contract, x.body)
            && n.sys == Next(cfg, s.sys, LastStep(s.sys, who, Looked(size, x), true))
  {
    PerformThree(cfg, s, Handle(who), Record(who, true), Close(who, true));
    var w := Looked(size, x);
    var s1 := Perform(cfg, s, Handle(who));
    assert s1.works == s.works[who := w.(stage := Handled(x), applied := [x])] by {
      assert [] + [x] == [x];
    }
    var s2 := Perform(cfg, s1, Record(who, true));
    assert !SlotLocked(s1, who, RowOf(x));
    assert Finished(s2.works[who]) && s2.works[who].applied == [x] && s2.works.Keys == s.works.Keys;
    assert LogOf([x])[..0] == [] && Run(s.store.books, LogOf([x])) == Apply(s.store.books, x.contract, x.body);
    assert s2.works - {who} == s.works - {who};
  }

  function Race(): seq<Act> { Does(BothFetch() + [JobLoad(0)]) + BothLook() + Commit(TheTick) + Commit(TheJob(0)) }

  // No crash, answers that reach, matching types: the tick and the backfill
  // both look before the other commits, and the event counts twice.
  lemma OverlapAppliesTwice(x: Event, books: Books)
    requires x.contract == "V" && 1 <= x.ledger <= 10
    ensures var cfg := Config([x], {"V"}, 0, 100);
            var s := PerformAll(cfg, Start(cfg, books), Race());
            s.store.applied == [x, x] && s.store.books == Apply(Apply(books, "V", x.body), "V", x.body)
  {
    var cfg := Config([x], {"V"}, 0, 100);
    var start, ready := Start(cfg, books), Does(BothFetch() + [JobLoad(0)]);
    DoesSteps(cfg, start, BothFetch() + [JobLoad(0)]);
    BothFetched(cfg, books);
    BothLooked(cfg, books, x);
    PerformConcat(cfg, start, ready, BothLook());
    var s1 := State(Raced(books), Empty(books), map[TheTick := Looked(0, x), TheJob(0) := Looked(10, x)]);
    CommitsAlone(cfg, s1, TheTick, 0, x);
    PerformConcat(cfg, start, ready + BothLook(), Commit(TheTick));
    var s2 := PerformAll(cfg, s1, Commit(TheTick));
    JobStaysReady(cfg, s1.sys, Looked(0, x));
    CommitsAlone(cfg, s2, TheJob(0), 10, x);
    PerformConcat(cfg, start, ready + BothLook() + Commit(TheTick), Commit(TheJob(0)));
    assert [] + [x] + [x] == [x, x];
  }

  lemma JobStaysReady(cfg: Config, sys: System, w: Work)
    requires sys.mem.tick.TickFetched? && Ready(sys, TheJob(0))
    ensures Ready(Next(cfg, sys, LastStep(sys, TheTick, w, true)), TheJob(0))
  {
    CloseKeepsBase(cfg, sys, w, true, TheTick, TheJob(0));
  }

  // ------------------------------------------------------ a row that is lost

  // V was paused at ledger 10 and resumed; a tick has begun to replay it.
  function Replaying(): seq<Step> { PausedAtTen() + UpToReplay() }

  function AtReplay(books: Books): System {
    InReplay(System(Database(20, VPaused(), {}, Empty(books)), Memory(true, 20, VPaused(), 2, TickIdle, map[])))
  }

  lemma ReplayIsReached(cfg: Config, books: Books, x: Event) returns (acts: seq<Act>)
    requires cfg == Config([x], {"V", "W"}, 0, cfg.batchSize) && x.contract == "V" && x.ledger > 10
    ensures PerformAll(cfg, Start(cfg, books), acts) == Alone(AtReplay(books))
  {
    AfterPausedAtTen(cfg, books, x);
    ReplayStarts(cfg, Exec(cfg, Boot(cfg, books), PausedAtTen()));
    ExecConcat(cfg, Boot(cfg, books), PausedAtTen(), UpToReplay());
    assert forall i :: 0 <= i < |Replaying()| ==> BesideJobs(Replaying()[i], 30);
    TickStepsPlain(cfg, Boot(cfg, books), Replaying(), 30);
    acts := PlainRunIsActs(cfg, Boot(cfg, books), Replaying());
  }

  // A replay batch over [x] up to the handler.
  function HandleOne(): seq<Act> { [Open(TheTick, 30, 0), Admit(TheTick), Look(TheTick), Handle(TheTick)] }

  function HandledOne(x: Event): Work { Work(true, 0, 30, [x], 1, Handled(x), {}, {}, []) }

  lemma ReplayHandles(cfg: Config, s: State, x: Event)
    requires s.works == map[] && s.sys.mem.tick.TickBatch? && ReplayEvents(cfg, s.sys.mem.tick, 30) == [x]
    requires !IsPaused(s.sys.mem.controls, x.contract) && !Recognises(s.store.rows, x)
    ensures PerformAll(cfg, s, HandleOne()) == State(s.sys, Half(s.store, x), map[TheTick := HandledOne(x)])
  {
    PerformFour(cfg, s, Open(TheTick, 30, 0), Admit(TheTick), Look(TheTick), Handle(TheTick));
    var w := Work(true, 0, 30, [x], 0, Between, {}, {}, []);
    assert Perform(cfg, s, Open(TheTick, 30, 0)).works == map[TheTick := w];
  }

  lemma ReplayOfOne(cfg: Config, t: Tick, x: Event)
    requires cfg.chain == [x] && t.TickBatch? && t.contract == x.contract && t.cursor < 15 <= t.to <= 30 && x.ledger == 15
    ensures ReplayEvents(cfg, t, 30) == [x]
  {
    AnswerOfOne(x, t.cursor + 1, 30, {t.contract});
    assert [x][..0] == [];
    assert UpTo([x], t.to) == [x] by {
      assert x in UpTo([x], t.to);
      var a := UpTo([x], t.to);
      assert a[0] in a;
    }
  }

  // The handler ran twice, and no row was there in between.
  predicate CountedTwice(s: State, books: Books, x: Event) {
    s.store.applied == [x, x] && s.store.books == Apply(Apply(books, x.contract, x.body), x.contract, x.body)
  }

  lemma HandledTwice(cfg: Config, s: State, books: Books, x: Event)
    requires s.store == Half(Empty(books), x) && s.works == map[] && s.sys.mem.tick.TickBatch?
    requires ReplayEvents(cfg, s.sys.mem.tick, 30) == [x] && !IsPaused(s.sys.mem.controls, x.contract)
    ensures CountedTwice(PerformAll(cfg, s, HandleOne()), books, x)
  {
    ReplayHandles(cfg, s, x);
    assert [] + [x] + [x] == [x, x];
  }

  // The next tick of the restarted process.
  function NextTick(): seq<Step> { [TickBegin(30), TickRead(true), TickLoad, ReplayPick("V")] }

  lemma NextTickReplays(cfg: Config, s: System)
    requires s.db.cursor == 20 && s.db.controls == VResumed() && s.mem == Memory(true, 20, map[], 0, TickIdle, map[])
    ensures var n := Exec(cfg, s, NextTick());
            n.mem.controls == VResumed() && n.mem.tick == TickBatch(Plan(21, 30, 1, map["V" := 10]), "V", 10, 20)
  {
    var s1 := Next(cfg, s, TickBegin(30));
    assert Resumed(VResumed()) == map["V" := 10];
    var s2 := Next(cfg, s1, TickRead(true));
    var s3 := Next(cfg, s2, TickLoad);
    ExecFour(cfg, s, TickBegin(30), TickRead(true), TickLoad, ReplayPick("V"));
  }

  // A crash between handler and row: the next tick replays the event, and it
  // counts twice, whatever its types.
  lemma TornReplayAppliesTwice(x: Event, books: Books) returns (acts: seq<Act>)
    requires x.contract == "V" && x.ledger == 15
    ensures var cfg := Config([x], {"V", "W"}, 0, 100);
            CountedTwice(PerformAll(cfg, Start(cfg, books), acts + HandleOne() + [Do(Crash)] + Does(NextTick()) + HandleOne()), books, x)
  {
    var cfg := Config([x], {"V", "W"}, 0, 100);
    acts := ReplayIsReached(cfg, books, x);
    var start, s := Start(cfg, books), Alone(AtReplay(books));
    ReplayOfOne(cfg, s.sys.mem.tick, x);
    ReplayHandles(cfg, s, x);
    PerformConcat(cfg, start, acts, HandleOne());
    PerformSnoc(cfg, start, acts + HandleOne(), Do(Crash));
    var s1 := State(System(s.sys.db, Restart(cfg, s.sys.db)), Half(Empty(books), x), map[]);
    assert PerformAll(cfg, start, acts + HandleOne() + [Do(Crash)]) == s1;
    DoesSteps(cfg, s1, NextTick());
    NextTickReplays(cfg, s1.sys);
    PerformConcat(cfg, start, acts + HandleOne() + [Do(Crash)], Does(NextTick()));
    var s2 := s1.(sys := Exec(cfg, s1.sys, NextTick()));
    ReplayOfOne(cfg, s2.sys.mem.tick, x);
    HandledTwice(cfg, s2, books, x);
    PerformConcat(cfg, start, acts + HandleOne() + [Do(Crash)] + Does(NextTick()), HandleOne());
  }

  // An insert that fails, and is swallowed: the next batch of the same replay,
  // which has no upper ledger either, finds the event again.
  lemma FailedInsertAppliesTwice(x: Event, books: Books) returns (acts: seq<Act>)
    requires x.contract == "V" && x.ledger == 15
    ensures var cfg := Config([x], {"V", "W"}, 0, 2);
            CountedTwice(PerformAll(cfg, Start(cfg, books),
                                    acts + HandleOne() + [Record(TheTick, false), Close(TheTick, true)] + HandleOne()), books, x)
  {
    var cfg := Config([x], {"V", "W"}, 0, 2);
    acts := ReplayIsReached(cfg, books, x);
    var start, s := Start(cfg, books), Alone(AtReplay(books));
    ReplayOfOne(cfg, s.sys.mem.tick, x);
    ReplayHandles(cfg, s, x);
    PerformConcat(cfg, start, acts, HandleOne());
    var s1 := State(s.sys, Half(Empty(books), x), map[TheTick := HandledOne(x)]);
    BatchGoesOn(cfg, s1, x);
    PerformSnoc(cfg, start, acts + HandleOne(), Record(TheTick, false));
    PerformSnoc(cfg, start, acts + HandleOne() + [Record(TheTick, false)], Close(TheTick, true));
    assert acts + HandleOne() + [Record(TheTick, false)] + [Close(TheTick, true)]
        == acts + HandleOne() + [Record(TheTick, false), Close(TheTick, true)];
    var s2 := Perform(cfg, Perform(cfg, s1, Record(TheTick, false)), Close(TheTick, true));
    ReplayOfOne(cfg, s2.sys.mem.tick, x);
    HandledTwice(cfg, s2, books, x);
    PerformConcat(cfg, start, acts + HandleOne() + [Record(TheTick, false), Close(TheTick, true)], HandleOne());
  }

  lemma BatchGoesOn(cfg: Config, s: State, x: Event)
    requires cfg.batchSize == 2 && s.works == map[TheTick := HandledOne(x)]
    requires s.sys.mem.tick == TickBatch(Plan(21, 30, 3, map["V" := 10]), "V", 10, 20)
    ensures var n := Perform(cfg, Perform(cfg, s, Record(TheTick, false)), Close(TheTick, true));
            n.store == s.store && n.works == map[] && n.sys.mem.controls == s.sys.mem.controls
            && n.sys.mem.tick == TickBatch(Plan(21, 30, 3, map["V" := 10]), "V", 12, 20)
  {
    var s1 := Perform(cfg, s, Record(TheTick, false));
    assert s1.works == map[TheTick := HandledOne(x).(stage := Between)];
    assert s1.works - {TheTick} == map[];
  }

  // ------------------------------------------------- a pause inside a batch

  // One backfill reads the controls while V is paused, another once it is
  // resumed; the pause check of the event falls between the two.
  function PauseInside(): seq<Step> { [Pause("V"), JobBegin(0, Some(20), 20), JobRead(0, true), JobLoad(0)] }

  function ResumeInside(): seq<Step> { [Resume("V"), JobBegin(1, Some(20), 20), JobRead(1, true), JobLoad(1)] }

  function MissActs(): seq<Act> { [Open(TheTick, 30, 0)] + (Does(PauseInside()) + [Admit(TheTick)]) + Does(ResumeInside()) }

  function PausedInside(): seq<Act> { MissActs() + [Close(TheTick, true)] + [Do(ReplayClear(true))] }

  lemma PausesInside(cfg: Config, s: System)
    requires cfg.watched == {"V", "W"} && s.db.controls == VResumed() && s.mem.jobs == map[]
    ensures Exec(cfg, s, PauseInside())
         == System(s.db.(controls := VPaused()),
                   s.mem.(controls := VPaused(), version := s.mem.version + 1, jobs := map[0 := JobReady(20, 20, {"W"})]))
  {
    ExecFour(cfg, s, Pause("V"), JobBegin(0, Some(20), 20), JobRead(0, true), JobLoad(0));
    assert Next(cfg, s, Pause("V")).db.controls == VPaused();
    assert ActiveContracts(cfg.watched, VPaused()) == {"W"};
    assert map[0 := JobStarting(20, 20)][0 := JobLoading(20, 20, Some(VPaused()))] == map[0 := JobLoading(20, 20, Some(VPaused()))];
    assert map[0 := JobLoading(20, 20, Some(VPaused()))][0 := JobReady(20, 20, {"W"})] == map[0 := JobReady(20, 20, {"W"})];
  }

  lemma ResumesInside(cfg: Config, s: System)
    requires cfg.watched == {"V", "W"} && s.db.controls == VPaused() && 1 !in s.mem.jobs
    ensures var n := Exec(cfg, s, ResumeInside());
            n.db == s.db.(controls := VResumed()) && n.mem.controls == VResumed() && n.mem.tick == s.mem.tick
  {
    ExecFour(cfg, s, Resume("V"), JobBegin(1, Some(20), 20), JobRead(1, true), JobLoad(1));
    assert Next(cfg, s, Resume("V")).db.controls == VResumed();
    assert "V" in ActiveContracts(cfg.watched, VResumed());
  }

  // What the tick's work is once the check has let the event fall.
  function MissedOne(x: Event): Work { Work(true, 0, 30, [x], 1, Between, {x}, {}, []) }

  lemma ClosesOverMissed(cfg: Config, s: State, books: Books, x: Event)
    requires cfg == Config([x], {"V", "W"}, 0, 100) && x.contract == "V" && x.ledger == 15
    requires s.works == map[TheTick := MissedOne(x)]
    requires s.sys.db == Database(20, VResumed(), {}, Empty(books)) && s.sys.mem.controls == VResumed()
    requires s.sys.mem.tick == TickBatch(Plan(21, 30, 3, map["V" := 10]), "V", 10, 20)
    ensures var n := Perform(cfg, Perform(cfg, s, Close(TheTick, true)), Do(ReplayClear(true)));
            n.sys.db.cursor == 20 && n.sys.db.handed == {} && n.sys.db.controls == map["V" := Control(false, None)]
  {
    var s1 := Perform(cfg, s, Close(TheTick, true));
    ReplayOfOne(cfg, s.sys.mem.tick, x);
    assert ProcessAll({x}, s.sys.db, [x]) == s.sys.db by {
      assert [x][..0] == [];
    }
    assert s1.sys.db == s.sys.db && s1.sys.mem.tick == TickClear(Plan(21, 30, 3, map["V" := 10]), "V", 20);
    assert VResumed()["V" := Control(false, None)] == map["V" := Control(false, None)];
  }

  lemma LetsFall(cfg: Config, s: State, x: Event)
    requires s.works == map[TheTick := Work(true, 0, 30, [x], 0, Between, {}, {}, [])]
    requires s.sys.mem.controls == VPaused() && x.contract == "V"
    ensures Perform(cfg, s, Admit(TheTick)) == s.(works := map[TheTick := MissedOne(x)])
  {
    var w := s.works[TheTick];
    assert AdmitNext(s.sys.mem.controls, w) == MissedOne(x);
    assert s.works[TheTick := MissedOne(x)] == map[TheTick := MissedOne(x)];
  }

  lemma OpensOne(cfg: Config, s: State, x: Event)
    requires s.works == map[] && s.sys.mem.tick.TickBatch? && ReplayEvents(cfg, s.sys.mem.tick, 30) == [x]
    ensures Perform(cfg, s, Open(TheTick, 30, 0)) == s.(works := map[TheTick := Work(true, 0, 30, [x], 0, Between, {}, {}, [])])
  {}

  lemma MissesInside(cfg: Config, books: Books, x: Event)
    requires cfg == Config([x], {"V", "W"}, 0, 100) && x.contract == "V" && x.ledger == 15
    ensures var n := PerformAll(cfg, Alone(AtReplay(books)), MissActs());
            && n.works == map[TheTick := MissedOne(x)]
            && n.sys.db == Database(20, VResumed(), {}, Empty(books)) && n.sys.mem.controls == VResumed()
            && n.sys.mem.tick == AtReplay(books).mem.tick
  {
    var s := Alone(AtReplay(books));
    ReplayOfOne(cfg, s.sys.mem.tick, x);
    var s1 := s.(works := map[TheTick := Work(true, 0, 30, [x], 0, Between, {}, {}, [])]);
    OpensOne(cfg, s, x);
    PerformOne(cfg, s, Open(TheTick, 30, 0));
    var s2 := ThenPauses(cfg, s1, x);
    PerformConcat(cfg, s, [Open(TheTick, 30, 0)], Does(PauseInside()) + [Admit(TheTick)]);
    ThenResumes(cfg, s2);
    PerformConcat(cfg, s, [Open(TheTick, 30, 0)] + (Does(PauseInside()) + [Admit(TheTick)]), Does(ResumeInside()));
  }

  lemma ThenPauses(cfg: Config, s: State, x: Event) returns (n: State)
    requires cfg.watched == {"V", "W"} && s.sys.db.controls == VResumed() && s.sys.mem.jobs == map[] && x.contract == "V"
    requires s.works == map[TheTick := Work(true, 0, 30, [x], 0, Between, {}, {}, [])]
    ensures n == PerformAll(cfg, s, Does(PauseInside()) + [Admit(TheTick)])
    ensures n.works == map[TheTick := MissedOne(x)] && n.sys.db == s.sys.db.(controls := VPaused())
    ensures 1 !in n.sys.mem.jobs && n.sys.mem.tick == s.sys.mem.tick
  {
    DoesSteps(cfg, s, PauseInside());
    PausesInside(cfg, s.sys);
    LetsFall(cfg, s.(sys := Exec(cfg, s.sys, PauseInside())), x);
    PerformSnoc(cfg, s, Does(PauseInside()), Admit(TheTick));
    n := PerformAll(cfg, s, Does(PauseInside()) + [Admit(TheTick)]);
  }

  lemma ThenResumes(cfg: Config, s: State)
    requires cfg.watched == {"V", "W"} && s.sys.db.controls == VPaused() && 1 !in s.sys.mem.jobs
    ensures var n := PerformAll(cfg, s, Does(ResumeInside()));
            n.works == s.works && n.sys.db == s.sys.db.(controls := VResumed()) && n.sys.mem.controls == VResumed()
            && n.sys.mem.tick == s.sys.mem.tick
  {
    DoesSteps(cfg, s, ResumeInside());
    ResumesInside(cfg, s.sys);
  }

  // When the batch ends memory takes V for active, neither cursor ever goes
  // down and every answer reaches its end; yet the event of V at ledger 15 is
  // neither handed over nor excused.
  lemma PauseInsideLosesEvent(x: Event, books: Books) returns (acts: seq<Act>)
    requires x.contract == "V" && x.ledger == 15
    ensures var cfg := Config([x], {"V", "W"}, 0, 100);
            var sys := PerformAll(cfg, Start(cfg, books), acts + PausedInside()).sys;
            sys.db.cursor == 20 && Relevant(cfg, x) && !Covered(cfg, sys.db, sys.db.cursor)
  {
    var cfg := Config([x], {"V", "W"}, 0, 100);
    acts := ReplayIsReached(cfg, books, x);
    var start, s := Start(cfg, books), Alone(AtReplay(books));
    MissesInside(cfg, books, x);
    ClosesOverMissed(cfg, PerformAll(cfg, s, MissActs()), books, x);
    PerformSnoc(cfg, s, MissActs(), Close(TheTick, true));
    PerformSnoc(cfg, s, MissActs() + [Close(TheTick, true)], Do(ReplayClear(true)));
    PerformConcat(cfg, start, acts, PausedInside());
    assert Relevant(cfg, x);
  }
}
