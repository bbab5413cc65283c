// Interleavings of the indexer's writers: without overlap every act is
// orderly, whatever event the pause checks fall between; a batch that nothing
// interrupts is one step of the control machine; and a run in which a reload
// between two pause checks loses an event.
module IndexerInterleavings {
  import opened Common
  import opened Handlers
  import opened EventStore
  import opened IndexerMachine
  import opened IndexerCoverage
  import opened IndexerSchedules
  import opened IndexerWriters

  // ------------------------------------------------------- without overlap

  // The answer reaches the ledger the batch will be recorded up to.
  predicate AnswerReaches(cfg: Config, sys: System, who: Who, size: nat, horizon: nat)
    requires Ready(sys, who)
  {
    match who
    case TheTick => sys.mem.tick.TickBatch? ==> BatchEnd(cfg, sys.mem.tick) <= horizon
    case TheJob(id) => JobEnd(sys.mem.jobs[id], size) <= horizon
  }

  // Answers reach the ledger their batch is recorded up to, an admin backfill
  // starts no later than the recorded cursor, no backfill is under way beside
  // a tick, and none commits before memory has noted the commit of another.
  predicate SeparateAct(cfg: Config, s: State, act: Act) {
    match act
    case Do(step) => MayDo(s, step) ==> Separate(cfg, s.sys, step)
    case Open(who, horizon, size) => Ready(s.sys, who) ==> AnswerReaches(cfg, s.sys, who, size, horizon)
    case Close(who, ok) => who.TheJob? && ok ==> Noted(s.sys.mem.jobs)
    case _ => true
  }

  predicate SeparateActs(cfg: Config, s: State, acts: seq<Act>) {
    acts != [] ==>
      SeparateActs(cfg, s, acts[..|acts| - 1])
      && SeparateAct(cfg, PerformAll(cfg, s, acts[..|acts| - 1]), acts[|acts| - 1])
  }

  // A missed event of a watched contract is excused by a marker, or was handed
  // over, or lies at or before the start block.
  predicate Spared(cfg: Config, sys: System, m: Event) {
    m.contract in cfg.watched ==>
      Marker(sys.db.controls, m.contract).Some? || m in sys.db.handed || m.ledger <= cfg.startBlock
  }

  // The tick misses nothing; what a backfill misses is spared.
  predicate WorkSteady(cfg: Config, sys: System, who: Who, w: Work) {
    Fits(cfg, sys, who, w) && AnswerReaches(cfg, sys, who, w.size, w.horizon)
    && if who.TheTick? then w.missed == {} else forall m :: m in w.missed ==> Spared(cfg, sys, m)
  }

  ghost predicate Steady(cfg: Config, s: State) {
    Calm(s.sys) && Inv(cfg, s.sys) && forall who :: who in s.works ==> WorkSteady(cfg, s.sys, who, s.works[who])
  }

  // The contracts whose events a tick fetches are not believed paused.
  lemma TickMissesNothing(cfg: Config, sys: System, w: Work, e: Event)
    requires Calm(sys) && Fits(cfg, sys, TheTick, w) && e in w.batch
    ensures !IsPaused(sys.mem.controls, e.contract)
  {}

  // What is believed paused is excused.
  lemma PausedIsSpared(cfg: Config, sys: System, e: Event)
    requires Inv(cfg, sys) && e in cfg.chain && IsPaused(sys.mem.controls, e.contract)
    ensures Spared(cfg, sys, e)
  {
    if e.contract in cfg.watched && Marker(sys.db.controls, e.contract).None? && e.ledger > cfg.startBlock {
      assert Relies(sys, e.contract, e.ledger);
      assert Relevant(cfg, e);
    }
  }

  lemma BatchIsOfChain(cfg: Config, sys: System, who: Who, horizon: nat, e: Event)
    requires Ready(sys, who) && e in BatchOf(cfg, sys, who, horizon)
    ensures e in cfg.chain
  {}

  // Only the end of a replay takes a marker off.
  lemma SparedStays(cfg: Config, sys: System, step: Step, m: Event)
    requires Spared(cfg, sys, m) && !(step.ReplayClear? && sys.mem.tick.TickClear?)
    ensures Spared(cfg, Next(cfg, sys, step), m)
  {
    ControlOf(cfg, sys, step);
    HandsOver(cfg, sys, step, m);
  }

  lemma StepKeepsOthers(cfg: Config, sys: System, step: Step, who: Who, w: Work)
    requires Calm(sys) && WorkSteady(cfg, sys, who, w) && SameBase(sys, Next(cfg, sys, step), who)
    ensures WorkSteady(cfg, Next(cfg, sys, step), who, w)
  {
    SameBaseFits(cfg, sys, Next(cfg, sys, step), who, w);
    if who.TheJob? {
      forall m | m in w.missed ensures Spared(cfg, Next(cfg, sys, step), m) {
        SparedStays(cfg, sys, step, m);
      }
    }
  }

  // The end of a steady batch is separate.
  lemma CloseIsSeparate(cfg: Config, s: State, who: Who, ok: bool)
    requires Steady(cfg, s) && MayClose(s, who, ok) && SeparateAct(cfg, s, Close(who, ok))
    ensures Separate(cfg, s.sys, LastStep(s.sys, who, s.works[who], ok))
  {
    assert WorkSteady(cfg, s.sys, who, s.works[who]);
  }

  lemma ActOfControl(cfg: Config, s: State, act: Act)
    requires Steady(cfg, s) && SeparateAct(cfg, s, act)
    ensures forall i :: 0 <= i < |StepsOf(s, act)| ==> Separate(cfg, s.sys, StepsOf(s, act)[i])
  {
    if act.Close? && MayClose(s, act.who, act.ok) {
      CloseIsSeparate(cfg, s, act.who, act.ok);
    }
  }

  lemma StepKeepsSteady(cfg: Config, s: State, act: Act)
    requires Steady(cfg, s) && SeparateAct(cfg, s, act) && StepsOf(s, act) != []
    ensures Steady(cfg, Perform(cfg, s, act))
  {
    var step, n := StepsOf(s, act)[0], Perform(cfg, s, act);
    ActOfControl(cfg, s, act);
    SeparateIsOrderly(cfg, s.sys, step);
    SeparateKeepsCalm(cfg, s.sys, step);
    StepKeepsInv(cfg, s.sys, step);
    SteadyFits(cfg, s);
    forall who | who in n.works ensures WorkSteady(cfg, n.sys, who, n.works[who]) {
      ControlAct(cfg, s, act, who);
      assert WorkSteady(cfg, s.sys, who, s.works[who]);
      StepKeepsOthers(cfg, s.sys, step, who, s.works[who]);
    }
  }

  lemma SteadyFits(cfg: Config, s: State)
    requires Steady(cfg, s)
    ensures AllFit(cfg, s)
  {
    forall who | who in s.works ensures Fits(cfg, s.sys, who, s.works[who]) {
      assert WorkSteady(cfg, s.sys, who, s.works[who]);
    }
  }

  lemma EventKeepsSteady(cfg: Config, s: State, act: Act)
    requires Steady(cfg, s) && SeparateAct(cfg, s, act) && StepsOf(s, act) == []
    ensures Steady(cfg, Perform(cfg, s, act))
  {
    var n := Perform(cfg, s, act);
    SameSystem(cfg, s, act);
    forall who | who in n.works ensures WorkSteady(cfg, n.sys, who, n.works[who]) {
      EventAct(cfg, s, act, who);
      if who in s.works {
        assert WorkSteady(cfg, s.sys, who, s.works[who]);
        if !SameTask(s.works[who], n.works[who]) {
          AdmitKeepsSteady(cfg, s, who);
        }
      }
    }
  }

  lemma SameSystem(cfg: Config, s: State, act: Act)
    requires StepsOf(s, act) == []
    ensures Perform(cfg, s, act).sys == s.sys
  {}

  lemma AdmitKeepsSteady(cfg: Config, s: State, who: Who)
    requires Steady(cfg, s) && who in s.works && s.works[who].next < |s.works[who].batch|
    ensures WorkSteady(cfg, s.sys, who, AdmitNext(s.sys.mem.controls, s.works[who]))
  {
    var w := s.works[who];
    var e := w.batch[w.next];
    assert WorkSteady(cfg, s.sys, who, w) && e in w.batch;
    if who.TheTick? {
      TickMissesNothing(cfg, s.sys, w, e);
    } else if IsPaused(s.sys.mem.controls, e.contract) {
      BatchIsOfChain(cfg, s.sys, who, w.horizon, e);
      PausedIsSpared(cfg, s.sys, e);
    }
  }

  lemma OrderlySnoc(cfg: Config, s: System, steps: seq<Step>, step: Step)
    ensures OrderlyRun(cfg, s, steps + [step]) <==> OrderlyRun(cfg, s, steps) && Orderly(cfg, Exec(cfg, s, steps), step)
  {
    assert (steps + [step])[..|steps + [step]| - 1] == steps;
  }

  lemma {:induction false} SeparateActsAreOrderly(cfg: Config, s: State, acts: seq<Act>)
    requires Steady(cfg, s) && SeparateActs(cfg, s, acts)
    ensures OrderlyRun(cfg, s.sys, AllSteps(cfg, s, acts)) && Steady(cfg, PerformAll(cfg, s, acts))
  {
    if acts != [] {
      var init, last := acts[..|acts| - 1], acts[|acts| - 1];
      var before := PerformAll(cfg, s, init);
      SeparateActsAreOrderly(cfg, s, init);
      if StepsOf(before, last) == [] {
        EventKeepsSteady(cfg, before, last);
        assert AllSteps(cfg, s, acts) == AllSteps(cfg, s, init);
      } else {
        StepKeepsSteady(cfg, before, last);
        ActOfControl(cfg, before, last);
        SeparateIsOrderly(cfg, before.sys, StepsOf(before, last)[0]);
        WritersRunControl(cfg, s, init);
        OrderlySnoc(cfg, s.sys, AllSteps(cfg, s, init), StepsOf(before, last)[0]);
      }
    }
  }

  // Hence no gap arises from boot when ticks and backfills do not overlap,
  // between whatever events pauses, resumes and readings of them fall.
  lemma NoGapWithoutOverlap(cfg: Config, books: Books, acts: seq<Act>)
    requires SeparateActs(cfg, Start(cfg, books), acts)
    ensures OrderlyRun(cfg, Boot(cfg, books), AllSteps(cfg, Start(cfg, books), acts))
    ensures var sys := PerformAll(cfg, Start(cfg, books), acts).sys;
            Covered(cfg, sys.db, sys.db.cursor) && Covered(cfg, sys.db, sys.mem.lastLedger)
  {
    BootInv(cfg, books);
    SeparateActsAreOrderly(cfg, Start(cfg, books), acts);
    NoGapInAnyOrderlyActs(cfg, books, acts);
  }

  // --------------------------------------------- batches nothing interrupts

  lemma PerformFour(cfg: Config, s: State, a: Act, b: Act, c: Act, d: Act)
    ensures PerformAll(cfg, s, [a, b, c, d]) == Perform(cfg, Perform(cfg, Perform(cfg, Perform(cfg, s, a), b), c), d)
  {
    PerformOne(cfg, s, a);
    PerformSnoc(cfg, s, [a], b);
    PerformSnoc(cfg, s, [a, b], c);
    PerformSnoc(cfg, s, [a, b, c], d);
    assert [a] + [b] == [a, b] && [a, b] + [c] == [a, b, c] && [a, b, c] + [d] == [a, b, c, d];
  }

  // One event, whatever becomes of it; acts whose moment has not come do nothing.
  function EventActs(who: Who): seq<Act> { [Admit(who), Look(who), Handle(who), Record(who, true)] }

  function EventsActs(who: Who, n: nat): seq<Act> {
    if n == 0 then [] else EventsActs(who, n - 1) + EventActs(who)
  }

  function Block(who: Who, horizon: nat, size: nat, n: nat, ok: bool): seq<Act> {
    [Open(who, horizon, size)] + EventsActs(who, n) + [Close(who, ok)]
  }

  // The work alone after one more event.
  predicate Moved(controls: map<Contract, Control>, store: Store, w: Work, after: Store, v: Work)
    requires w.next < |w.batch|
  {
    var e := w.batch[w.next];
    && v.direct == w.direct && v.size == w.size && v.horizon == w.horizon && v.batch == w.batch
    && v.next == w.next + 1 && v.stage == Between
    && v.missed == (if IsPaused(controls, e.contract) then w.missed + {e} else w.missed)
    && Visible(after, v) == (if IsPaused(controls, e.contract) then Visible(store, w) else Deliver(Visible(store, w), e))
    && (!w.direct ==> after == store)
  }

  lemma PublishMore(store: Store, w: Work, e: Event)
    requires !Recognises(store.rows + w.rows, e)
    ensures Publish(store, RecordRow(store, w.(stage := Handled(e), applied := w.applied + [e]))) == Deliver(Publish(store, w), e)
  {
    assert LogOf(w.applied + [e])[..|w.applied|] == LogOf(w.applied);
    assert store.rows + (w.rows + {RowOf(e)}) == store.rows + w.rows + {RowOf(e)};
    assert store.applied + (w.applied + [e]) == store.applied + w.applied + [e];
  }

  lemma OneEvent(cfg: Config, s: State, who: Who)
    requires s.works.Keys == {who} && s.works[who].stage.Between? && s.works[who].next < |s.works[who].batch|
    ensures var n, w := PerformAll(cfg, s, EventActs(who)), s.works[who];
            && n.sys == s.sys && n.works.Keys == {who}
            && Moved(s.sys.mem.controls, s.store, w, n.store, n.works[who])
  {
    PerformFour(cfg, s, Admit(who), Look(who), Handle(who), Record(who, true));
    var w, e := s.works[who], s.works[who].batch[s.works[who].next];
    var s1 := Perform(cfg, s, Admit(who));
    assert s1.works.Keys == {who};
    if !IsPaused(s.sys.mem.controls, e.contract) {
      var s2 := Perform(cfg, s1, Look(who));
      assert s2.works.Keys == {who};
      if !Recognises(Visible(s.store, w).rows, e) {
        LookedUp(cfg, s2, who, e);
      }
    }
  }

  lemma LookedUp(cfg: Config, s: State, who: Who, e: Event)
    requires s.works.Keys == {who} && s.works[who].stage == Unseen(e) && !Recognises(Visible(s.store, s.works[who]).rows, e)
    ensures var n, w := Perform(cfg, Perform(cfg, s, Handle(who)), Record(who, true)), s.works[who];
            && n.sys == s.sys && n.works.Keys == {who} && SameTask(n.works[who], w) && n.works[who].stage == Between
            && Visible(n.store, n.works[who]) == Deliver(Visible(s.store, w), e)
            && (!w.direct ==> n.store == s.store)
  {
    var w := s.works[who];
    var s1 := Perform(cfg, s, Handle(who));
    assert s1.works.Keys == {who} && !SlotLocked(s1, who, RowOf(e));
    if !w.direct {
      PublishMore(s.store, w.(stage := Handled(e)), e);
    }
  }

  // The events of a batch that memory takes for paused.
  function Skipped(controls: map<Contract, Control>, es: seq<Event>): set<Event> {
    set e | e in es && IsPaused(controls, e.contract)
  }

  // The work alone after n events; `db` is the database it began with.
  predicate Through(controls: map<Contract, Control>, db: Database, w: Work, n: nat, after: Store, v: Work)
    requires n <= |w.batch|
  {
    && v.direct == w.direct && v.size == w.size && v.horizon == w.horizon && v.batch == w.batch
    && v.next == n && v.stage == Between
    && v.missed == Skipped(controls, w.batch[..n])
    && Visible(after, v) == ProcessAll(Skipped(controls, w.batch), db, w.batch[..n]).store
    && (!w.direct ==> after == db.store)
  }

  lemma OneMore(controls: map<Contract, Control>, db: Database, w: Work, n: nat, store: Store, u: Work, after: Store, v: Work)
    requires n < |w.batch| && Through(controls, db, w, n, store, u) && Moved(controls, store, u, after, v)
    ensures Through(controls, db, w, n + 1, after, v)
  {
    var batch := w.batch;
    assert batch[..n + 1][..n] == batch[..n] && batch[..n + 1] == batch[..n] + [batch[n]];
    assert batch[n] in batch;
    assert Skipped(controls, batch[..n + 1])
        == Skipped(controls, batch[..n]) + if IsPaused(controls, batch[n].contract) then {batch[n]} else {};
  }

  lemma {:induction false} AllEvents(cfg: Config, s: State, who: Who, n: nat) returns (m: State)
    requires s.works.Keys == {who} && n <= |s.works[who].batch|
    requires var w := s.works[who]; w.stage == Between && w.next == 0 && w.missed == {} && w.rows == {} && w.applied == []
    ensures m == PerformAll(cfg, s, EventsActs(who, n)) && m.sys == s.sys && m.works.Keys == {who}
    ensures Through(s.sys.mem.controls, s.sys.db.(store := s.store), s.works[who], n, m.store, m.works[who])
  {
    if n == 0 {
      m := s;
      NothingPublished(s.store, s.works[who]);
    } else {
      var before := AllEvents(cfg, s, who, n - 1);
      PerformConcat(cfg, s, EventsActs(who, n - 1), EventActs(who));
      m := NextEvent(cfg, before, who, s.sys.db.(store := s.store), s.works[who], n - 1);
    }
  }

  lemma NextEvent(cfg: Config, s: State, who: Who, db: Database, w: Work, n: nat) returns (m: State)
    requires s.works.Keys == {who} && n < |w.batch| && Through(s.sys.mem.controls, db, w, n, s.store, s.works[who])
    ensures m == PerformAll(cfg, s, EventActs(who)) && m.sys == s.sys && m.works.Keys == {who}
    ensures Through(s.sys.mem.controls, db, w, n + 1, m.store, m.works[who])
  {
    m := PerformAll(cfg, s, EventActs(who));
    OneEvent(cfg, s, who);
    OneMore(s.sys.mem.controls, db, w, n, s.store, s.works[who], m.store, m.works[who]);
  }

  lemma NothingPublished(store: Store, w: Work)
    requires w.rows == {} && w.applied == []
    ensures Visible(store, w) == store
  {
    assert store.applied + [] == store.applied && LogOf([]) == [];
  }

  // A batch nothing interrupts is one step of the control machine, and leaves
  // the event store of that step.
  lemma BlockIsStep(cfg: Config, sys: System, who: Who, horizon: nat, size: nat, ok: bool)
    requires Ready(sys, who) && (Direct(sys, who) ==> ok)
    ensures var batch := BatchOf(cfg, sys, who, horizon);
            var last := EndStep(sys, who, horizon, size, ok, Skipped(sys.mem.controls, batch));
            var n := Next(cfg, sys, last);
            PerformAll(cfg, Alone(sys), Block(who, horizon, size, |batch|, ok)) == Alone(n)
  {
    var batch, s := BatchOf(cfg, sys, who, horizon), Alone(sys);
    var s1 := Perform(cfg, s, Open(who, horizon, size));
    assert s1.works == map[who := Work(Direct(sys, who), size, horizon, batch, 0, Between, {}, {}, [])];
    var s2 := AllEvents(cfg, s1, who, |batch|);
    assert batch[..|batch|] == batch && sys.db.(store := s.store) == sys.db;
    assert s2.works - {who} == map[];
    ClosesAlone(cfg, s2, who, ok, batch);
    PerformOne(cfg, s, Open(who, horizon, size));
    PerformConcat(cfg, s, [Open(who, horizon, size)], EventsActs(who, |batch|));
    PerformSnoc(cfg, s, [Open(who, horizon, size)] + EventsActs(who, |batch|), Close(who, ok));
  }

  lemma ClosesAlone(cfg: Config, s: State, who: Who, ok: bool, batch: seq<Event>)
    requires s.works.Keys == {who} && Fits(cfg, s.sys, who, s.works[who]) && Finished(s.works[who]) && (s.works[who].direct ==> ok)
    requires s.works[who].batch == batch && s.works[who].missed == Skipped(s.sys.mem.controls, batch)
    requires Visible(s.store, s.works[who]) == ProcessAll(Skipped(s.sys.mem.controls, batch), s.sys.db, batch).store
    requires !s.works[who].direct ==> s.store == s.sys.db.store
    ensures Perform(cfg, s, Close(who, ok)) == Alone(Next(cfg, s.sys, LastStep(s.sys, who, s.works[who], ok)))
  {
    assert s.works - {who} == map[];
    StoreOfLastStep(cfg, s.sys, who, s.works[who], ok);
  }

  lemma StoreOfLastStep(cfg: Config, sys: System, who: Who, w: Work, ok: bool)
    requires Fits(cfg, sys, who, w) && (w.direct ==> ok)
    ensures Next(cfg, sys, LastStep(sys, who, w, ok)).db.store
         == if ok then ProcessAll(w.missed, sys.db, w.batch).store else sys.db.store
  {}

  // No batch under way, and the store that of the control machine.
  function Alone(sys: System): State { State(sys, sys.db.store, map[]) }

  function EndStep(sys: System, who: Who, horizon: nat, size: nat, ok: bool, missed: set<Event>): Step {
    LastStep(sys, who, Work(false, size, horizon, [], 0, Between, missed, {}, []), ok)
  }

  // The batch that a control step ends, if any.
  datatype Ending = NoBatch | Ends(who: Who, horizon: nat, size: nat, ok: bool)

  function EndingOf(sys: System, step: Step): (end: Ending)
    ensures end.Ends? ==> Ready(sys, end.who) && (Direct(sys, end.who) ==> end.ok)
    ensures end.Ends? ==> EndStep(sys, end.who, end.horizon, end.size, end.ok, Missed(step)) == step
  {
    var t := sys.mem.tick;
    match step
    case ReplayBatch(answer, _) => if t.TickBatch? && answer.Some? then Ends(TheTick, answer.value, 0, true) else NoBatch
    case TickCommit(ok, _) => if t.TickFetched? then Ends(TheTick, 0, 0, ok) else NoBatch
    case JobBatch(id, size, answer, committed, _) =>
      if Ready(sys, TheJob(id)) && answer.Some? then Ends(TheJob(id), answer.value, size, committed) else NoBatch
    case _ => NoBatch
  }

  // A backfill at its end goes off the list, whether it asked or not.
  function WithoutBatch(step: Step): Step {
    match step
    case JobBatch(id, size, _, committed, missed) => JobBatch(id, size, None, committed, missed)
    case _ => step
  }

  // The acts of one step: a whole batch, or the step itself.
  function ActsOf(cfg: Config, sys: System, step: Step): seq<Act> {
    match EndingOf(sys, step)
    case NoBatch => [Do(WithoutBatch(step))]
    case Ends(who, horizon, size, ok) => Block(who, horizon, size, |BatchOf(cfg, sys, who, horizon)|, ok)
  }

  // The step misses exactly the events whose contract memory takes for paused.
  predicate Plain(cfg: Config, sys: System, step: Step) {
    var end := EndingOf(sys, step);
    end.Ends? ==> Missed(step) == Skipped(sys.mem.controls, BatchOf(cfg, sys, end.who, end.horizon))
  }

  lemma StepIsActs(cfg: Config, sys: System, step: Step)
    requires Plain(cfg, sys, step)
    ensures PerformAll(cfg, Alone(sys), ActsOf(cfg, sys, step)) == Alone(Next(cfg, sys, step))
  {
    match EndingOf(sys, step)
    case NoBatch =>
      var act := Do(WithoutBatch(step));
      PerformOne(cfg, Alone(sys), act);
      DoesAlone(cfg, sys, step, act);
    case Ends(who, horizon, size, ok) =>
      BlockIsStep(cfg, sys, who, horizon, size, ok);
  }

  lemma PerformOne(cfg: Config, s: State, act: Act)
    ensures PerformAll(cfg, s, [act]) == Perform(cfg, s, act)
  {
    PerformSnoc(cfg, s, [], act);
    assert [] + [act] == [act] && PerformAll(cfg, s, []) == s;
  }

  lemma DoesAlone(cfg: Config, sys: System, step: Step, act: Act)
    requires EndingOf(sys, step) == NoBatch && act == Do(WithoutBatch(step))
    ensures Perform(cfg, Alone(sys), act) == Alone(Next(cfg, sys, step))
  {
    StoreStays(cfg, sys, step);
    if step.TickCommit? || step.ReplayBatch? || step.JobBatch? {
      assert Next(cfg, sys, act.step) == Next(cfg, sys, step);
    }
  }

  lemma StoreStays(cfg: Config, sys: System, step: Step)
    requires EndingOf(sys, step) == NoBatch
    ensures Next(cfg, sys, step).db.store == sys.db.store
  {}

  predicate PlainRun(cfg: Config, sys: System, steps: seq<Step>) {
    steps != [] ==>
      PlainRun(cfg, sys, steps[..|steps| - 1])
      && Plain(cfg, Exec(cfg, sys, steps[..|steps| - 1]), steps[|steps| - 1])
  }

  // A run of the control machine whose batches come one at a time is a run of
  // the writers, with the same event store.
  lemma {:induction false} PlainRunIsActs(cfg: Config, sys: System, steps: seq<Step>) returns (acts: seq<Act>)
    requires PlainRun(cfg, sys, steps)
    ensures PerformAll(cfg, Alone(sys), acts) == Alone(Exec(cfg, sys, steps))
  {
    if steps == [] {
      acts := [];
    } else {
      var n := |steps| - 1;
      var init := PlainRunIsActs(cfg, sys, steps[..n]);
      var before := Exec(cfg, sys, steps[..n]);
      acts := init + ActsOf(cfg, before, steps[n]);
      PerformConcat(cfg, Alone(sys), init, ActsOf(cfg, before, steps[n]));
      StepIsActs(cfg, before, steps[n]);
    }
  }
}
