// What one tick and one backfill do when nothing disturbs them
// (backend/src/services/indexer.ts): which events they hand over, and where
// cursors and markers are afterwards.
module IndexerProgress {
  import opened Common
  import opened Handlers
  import opened EventStore
  import opened IndexerMachine
  import opened IndexerCoverage
  import opened IndexerSchedules
  import opened IndexerRuns

  // ------------------------------------------------------------------- a tick

  // No failure, no other actor; replay answers reach the ledger replayed up to
  // and the answer to the fetch is up to `horizon`.
  predicate TickGoesWell(step: Step, last: nat, horizon: nat) {
    match step
    case TickRead(ok) => ok
    case TickLoad => true
    case ReplayPick(_) => true
    case ReplayBatch(answer, missed) => answer.Some? && answer.value >= last && missed == {}
    case ReplayClear(ok) => ok
    case TickFetch(answer) => answer == Some(horizon)
    case TickCommit(ok, missed) => ok && missed == {}
    case TickFinish(ok) => ok
    case _ => false
  }

  // Watched, not paused, and behind the cursor of memory.
  predicate IsNew(cfg: Config, s: System, horizon: nat, e: Event) {
    e.contract in cfg.watched && !(e.contract in s.db.controls && s.db.controls[e.contract].paused)
    && s.mem.lastLedger < e.ledger <= horizon
  }

  // Of a resumed contract, after its marker and up to the cursor of memory.
  predicate WasSkipped(s: System, e: Event) {
    e.contract in s.db.controls && !s.db.controls[e.contract].paused
    && s.db.controls[e.contract].marker.Some? && s.db.controls[e.contract].marker.value < e.ledger <= s.mem.lastLedger
  }

  // The markers of paused contracts stay, the others are gone.
  function OnlyPausedMarked(controls: map<Contract, Control>): map<Contract, Control> {
    map c | c in controls :: if controls[c].paused then controls[c] else Control(false, None)
  }

  ghost predicate TickDone(cfg: Config, s: System, latest: nat, horizon: nat, n: System) {
    && n.db.cursor == latest && n.mem.lastLedger == latest
    && n.db.controls == OnlyPausedMarked(s.db.controls)
    && forall e :: e in n.db.handed
         <==> e in s.db.handed || (e in cfg.chain && (IsNew(cfg, s, horizon, e) || WasSkipped(s, e)))
  }

  // A tick that goes well hands over, of what it had not before, exactly the
  // new events and those its resumed contracts were skipped over, and leaves
  // both cursors at the tip and markers on paused contracts alone.
  lemma TickHandsExactly(cfg: Config, s: System, latest: nat, horizon: nat, steps: seq<Step>)
    requires s.mem.running && s.mem.tick.TickIdle? && s.mem.lastLedger < latest
    requires forall step :: step in steps ==> TickGoesWell(step, s.mem.lastLedger, horizon)
    ensures var n := Exec(cfg, s, [TickBegin(latest)] + steps);
            n.mem.tick.TickIdle? ==> TickDone(cfg, s, latest, horizon, n)
  {
    StaysUnderWay(cfg, s, latest, horizon, steps);
    var n := Exec(cfg, s, [TickBegin(latest)] + steps);
    if n.mem.tick.TickIdle? {
      forall e ensures e in n.db.handed
                 <==> e in s.db.handed || (e in cfg.chain && (IsNew(cfg, s, horizon, e) || WasSkipped(s, e))) {
        assert HandedRightly(cfg, s, horizon, n, e);
      }
    }
  }

  // The steps of a whole tick of the indexer are such steps.
  lemma WholeTick(cfg: Config, s: System, order: seq<Contract>, latest: nat, markers: map<Contract, nat>,
                  rpc: (Contract, nat) -> Option<nat>, cleared: Contract -> bool, horizon: nat, filter: set<Contract>)
    requires cfg.batchSize > 0 && forall c :: c in order ==> c in markers
    requires s.mem.running && s.mem.tick.TickIdle? && s.mem.lastLedger < latest
    requires (forall c, i :: rpc(c, i).Some? && rpc(c, i).value >= s.mem.lastLedger) && forall c :: cleared(c)
    ensures var n := Exec(cfg, s, TickSteps(cfg, order, latest, true, markers, s.mem.lastLedger, rpc, cleared, Some(horizon),
                                            true, true, filter));
            n.mem.tick.TickIdle? ==> TickDone(cfg, s, latest, horizon, n)
  {
    var last := s.mem.lastLedger;
    var replays := ReplaySteps(cfg, order, markers, last, rpc, cleared);
    var rest := [TickRead(true), TickLoad] + replays + [TickFetch(Some(horizon)), TickCommit(true, {}), TickFinish(true)];
    ReplaysGoWell(cfg, order, markers, last, rpc, cleared, horizon);
    TickHandsExactly(cfg, s, latest, horizon, rest);
    assert [TickBegin(latest)] + rest
        == TickSteps(cfg, order, latest, true, markers, last, rpc, cleared, Some(horizon), true, true, filter);
  }

  predicate AllGoWell(steps: seq<Step>, last: nat, horizon: nat) {
    forall step :: step in steps ==> TickGoesWell(step, last, horizon)
  }

  lemma {:induction false} BatchesGoWell(cfg: Config, cursor: nat, to: nat, rpc: nat -> Option<nat>, call: nat, horizon: nat)
    requires cfg.batchSize > 0 && forall i :: rpc(i).Some? && rpc(i).value >= to
    ensures AllGoWell(BatchSteps(cfg, cursor, to, rpc, call), to, horizon)
    decreases if cursor < to then to - cursor else 0
  {
    if cursor < to {
      BatchesGoWell(cfg, Min(cursor + cfg.batchSize, to), to, rpc, call + 1, horizon);
    }
  }

  lemma {:induction false} ReplaysGoWell(cfg: Config, order: seq<Contract>, markers: map<Contract, nat>, to: nat,
                                         rpc: (Contract, nat) -> Option<nat>, cleared: Contract -> bool, horizon: nat)
    requires cfg.batchSize > 0 && forall c :: c in order ==> c in markers
    requires (forall c, i :: rpc(c, i).Some? && rpc(c, i).value >= to) && forall c :: cleared(c)
    ensures AllGoWell(ReplaySteps(cfg, order, markers, to, rpc, cleared), to, horizon)
  {
    if order != [] {
      var c := order[|order| - 1];
      ReplaysGoWell(cfg, order[..|order| - 1], markers, to, rpc, cleared, horizon);
      BatchesGoWell(cfg, markers[c], to, i => rpc(c, i), 0, horizon);
      assert AllGoWell(CatchUpSteps(cfg, c, markers[c], to, i => rpc(c, i), cleared(c)), to, horizon);
    }
  }

  predicate Cleared(s: System, t: Tick, c: Contract) {
    match t
    case TickGot(_, _) => false
    case TickLoading(_, _, _) => false
    case TickReplay(plan) => c !in plan.todo
    case TickBatch(plan, _, _, _) => c !in plan.todo
    case TickClear(plan, _, _) => c !in plan.todo
    case _ => true
  }

  // What the tick has in hand fits the state it started from.
  predicate Fits(cfg: Config, s: System, latest: nat, horizon: nat, n: System) {
    && n.mem.running && n.mem.jobs == s.mem.jobs
    && n.mem.lastLedger == (if n.mem.tick.TickIdle? then latest else s.mem.lastLedger)
    && n.db.cursor == (if n.mem.tick.TickIdle? || n.mem.tick.TickCommitted? then latest else s.db.cursor)
    && match n.mem.tick
       case TickIdle => true
       case TickGot(from, to) => from == s.mem.lastLedger + 1 && to == latest
       case TickLoading(from, to, read) => from == s.mem.lastLedger + 1 && to == latest && read == Some(s.db.controls)
       case TickReplay(plan) => PlanFits(s, latest, n, plan)
       case TickBatch(plan, c, cursor, to) =>
         PlanFits(s, latest, n, plan) && c in plan.todo && plan.todo[c] <= cursor < to == s.mem.lastLedger
       case TickClear(plan, c, reach) => PlanFits(s, latest, n, plan) && c in plan.todo && reach >= s.mem.lastLedger
       case TickFetched(from, to, filter, upTo) =>
         from == s.mem.lastLedger + 1 && to == latest && filter == ActiveContracts(cfg.watched, s.db.controls) && (upTo == horizon)
       case TickCommitted(to) => to == latest
  }

  predicate PlanFits(s: System, latest: nat, n: System, plan: Plan) {
    && plan.from == s.mem.lastLedger + 1 && plan.latest == latest && plan.version == n.mem.version
    && n.mem.controls == n.db.controls
    && forall c :: c in plan.todo ==> c in Resumed(s.db.controls) && plan.todo[c] == Resumed(s.db.controls)[c]
  }

  // Exactly the markers of the contracts dealt with are gone.
  predicate ControlsFit(s: System, n: System) {
    n.db.controls.Keys == s.db.controls.Keys
    && forall c :: c in s.db.controls ==>
         n.db.controls[c] == if !s.db.controls[c].paused && Cleared(s, n.mem.tick, c) then Control(false, None) else s.db.controls[c]
  }

  // Between what must and what may have been handed over by now.
  predicate HandedRightly(cfg: Config, s: System, horizon: nat, n: System, e: Event) {
    && (e in n.db.handed ==> e in s.db.handed || (e in cfg.chain && MayBeHanded(cfg, s, horizon, n.mem.tick, e)))
    && (e in s.db.handed || (e in cfg.chain && MustBeHanded(cfg, s, horizon, n.mem.tick, e)) ==> e in n.db.handed)
  }

  predicate Committed(t: Tick) { t.TickCommitted? || t.TickIdle? }

  predicate MayBeHanded(cfg: Config, s: System, horizon: nat, t: Tick, e: Event) {
    (Committed(t) && IsNew(cfg, s, horizon, e))
    || (WasSkipped(s, e) && (Cleared(s, t, e.contract) || ((t.TickBatch? || t.TickClear?) && t.contract == e.contract)))
  }

  predicate MustBeHanded(cfg: Config, s: System, horizon: nat, t: Tick, e: Event) {
    (Committed(t) && IsNew(cfg, s, horizon, e))
    || (WasSkipped(s, e)
        && (Cleared(s, t, e.contract)
            || (t.TickBatch? && t.contract == e.contract && e.ledger <= t.cursor)
            || (t.TickClear? && t.contract == e.contract)))
  }

  ghost predicate UnderWay(cfg: Config, s: System, latest: nat, horizon: nat, n: System) {
    Fits(cfg, s, latest, horizon, n) && ControlsFit(s, n) && forall e :: HandedRightly(cfg, s, horizon, n, e)
  }

  lemma {:induction false} StaysUnderWay(cfg: Config, s: System, latest: nat, horizon: nat, steps: seq<Step>)
    requires s.mem.running && s.mem.tick.TickIdle? && s.mem.lastLedger < latest
    requires forall step :: step in steps ==> TickGoesWell(step, s.mem.lastLedger, horizon)
    ensures UnderWay(cfg, s, latest, horizon, Exec(cfg, s, [TickBegin(latest)] + steps))
  {
    if steps == [] {
      ExecOne(cfg, s, TickBegin(latest));
      assert [TickBegin(latest)] + steps == [TickBegin(latest)];
    } else {
      var init, step := steps[..|steps| - 1], steps[|steps| - 1];
      StaysUnderWay(cfg, s, latest, horizon, init);
      assert [TickBegin(latest)] + steps == ([TickBegin(latest)] + init) + [step];
      ExecSnoc(cfg, s, [TickBegin(latest)] + init, step);
      var n := Exec(cfg, s, [TickBegin(latest)] + init);
      ControlOf(cfg, n, step);
      StepFits(cfg, s, latest, horizon, n, step);
      forall e ensures HandedRightly(cfg, s, horizon, Next(cfg, n, step), e) {
        assert HandedRightly(cfg, s, horizon, n, e);
        HandsOver(cfg, n, step, e);
        StepHandsRightly(cfg, s, latest, horizon, n, step, e);
      }
    }
  }

  lemma StepFits(cfg: Config, s: System, latest: nat, horizon: nat, n: System, step: Step)
    requires Fits(cfg, s, latest, horizon, n) && ControlsFit(s, n) && TickGoesWell(step, s.mem.lastLedger, horizon)
    ensures Fits(cfg, s, latest, horizon, Control0(cfg, n, step)) && ControlsFit(s, Control0(cfg, n, step))
  {
    if step.TickRead? || step.TickLoad? || step.ReplayPick? {
      EarlyStepFits(cfg, s, latest, horizon, n, step);
    } else {
      LateStepFits(cfg, s, latest, horizon, n, step);
    }
  }

  lemma EarlyStepFits(cfg: Config, s: System, latest: nat, horizon: nat, n: System, step: Step)
    requires Fits(cfg, s, latest, horizon, n) && ControlsFit(s, n) && TickGoesWell(step, s.mem.lastLedger, horizon)
    requires step.TickRead? || step.TickLoad? || step.ReplayPick?
    ensures Fits(cfg, s, latest, horizon, Control0(cfg, n, step)) && ControlsFit(s, Control0(cfg, n, step))
  {
    if n.mem.tick.TickGot? || n.mem.tick.TickLoading? {
      assert n.db.controls == s.db.controls;
    }
  }

  lemma LateStepFits(cfg: Config, s: System, latest: nat, horizon: nat, n: System, step: Step)
    requires Fits(cfg, s, latest, horizon, n) && ControlsFit(s, n) && TickGoesWell(step, s.mem.lastLedger, horizon)
    requires !step.TickRead? && !step.TickLoad? && !step.ReplayPick?
    ensures Fits(cfg, s, latest, horizon, Control0(cfg, n, step)) && ControlsFit(s, Control0(cfg, n, step))
  {}

  lemma StepHandsRightly(cfg: Config, s: System, latest: nat, horizon: nat, n: System, step: Step, e: Event)
    requires Fits(cfg, s, latest, horizon, n) && TickGoesWell(step, s.mem.lastLedger, horizon)
    requires HandedRightly(cfg, s, horizon, n, e)
    ensures e in n.db.handed || (e in cfg.chain && Delivers(cfg, n, step, e))
            ==> e in s.db.handed || (e in cfg.chain && MayBeHanded(cfg, s, horizon, Control0(cfg, n, step).mem.tick, e))
    ensures e in s.db.handed || (e in cfg.chain && MustBeHanded(cfg, s, horizon, Control0(cfg, n, step).mem.tick, e))
            ==> e in n.db.handed || (e in cfg.chain && Delivers(cfg, n, step, e))
  {}

  // -------------------------------------------------------------- a backfill

  // No failure, no other actor; answers reach the tip and end by `horizon`.
  predicate JobGoesWell(step: Step, id: nat, tip: nat, horizon: nat) {
    match step
    case JobRead(i, ok) => i == id && ok
    case JobLoad(i) => i == id
    case JobBatch(i, _, answer, committed, missed) =>
      i == id && answer.Some? && tip <= answer.value <= horizon && committed && missed == {}
    case JobFinish(i) => i == id
    case _ => false
  }

  // The loop is over.
  predicate LoopIsOver(s: System, id: nat) {
    id in s.mem.jobs ==> s.mem.jobs[id].JobReady? && s.mem.jobs[id].cursor >= s.mem.jobs[id].tip
  }

  predicate Active(cfg: Config, s: System, c: Contract) {
    c in cfg.watched && !(c in s.db.controls && s.db.controls[c].paused)
  }

  ghost predicate NoneActive(cfg: Config, s: System) {
    cfg.watched != {} && forall c :: c in cfg.watched ==> !Active(cfg, s, c)
  }

  predicate InRange(cfg: Config, s: System, first: nat, to: nat, e: Event) {
    e in cfg.chain && Active(cfg, s, e.contract) && first < e.ledger <= to
  }

  // A backfill that goes well hands over the events of active contracts after
  // its start up to the tip, none before its start and none of the others, and
  // leaves both cursors at the tip, unless it starts there, and no marker
  // changed. With all contracts paused nothing happens.
  lemma BackfillHandsExactly(cfg: Config, s: System, id: nat, from: Option<nat>, tip: nat, horizon: nat, steps: seq<Step>)
    requires id !in s.mem.jobs && forall step :: step in steps ==> JobGoesWell(step, id, tip, horizon)
    ensures var n := Exec(cfg, s, [JobBegin(id, from, tip)] + steps);
            LoopIsOver(n, id) ==> Backfilled(cfg, s, from, tip, horizon, n)
  {
    StaysInJob(cfg, s, id, from, tip, horizon, steps);
    var n := Exec(cfg, s, [JobBegin(id, from, tip)] + steps);
    if LoopIsOver(n, id) {
      forall e
        ensures e in n.db.handed ==>
                  e in s.db.handed || (!NoneActive(cfg, s) && First(s, from) < tip && InRange(cfg, s, First(s, from), horizon, e))
        ensures e in s.db.handed || (!NoneActive(cfg, s) && InRange(cfg, s, First(s, from), tip, e)) ==> e in n.db.handed
      {
        assert JobHandedRightly(cfg, s, id, from, tip, horizon, n, e);
      }
    }
  }

  ghost predicate Backfilled(cfg: Config, s: System, from: Option<nat>, tip: nat, horizon: nat, n: System) {
    var first := if from.Some? then from.value else s.mem.lastLedger;
    && n.db.controls == s.db.controls
    && (if NoneActive(cfg, s) || first >= tip
        then n.db.handed == s.db.handed && n.db.cursor == s.db.cursor && n.mem.lastLedger == s.mem.lastLedger
        else (n.db.cursor == tip && n.mem.lastLedger == tip
              && (forall e :: e in n.db.handed ==> e in s.db.handed || InRange(cfg, s, first, horizon, e))
              && forall e :: e in s.db.handed || InRange(cfg, s, first, tip, e) ==> e in n.db.handed))
  }

  // The steps of a whole backfill of the indexer are such steps.
  lemma WholeBackfill(cfg: Config, s: System, from: Option<nat>, tip: nat, sizes: nat -> nat, rpc: nat -> Option<nat>,
                      committed: nat -> bool, n: nat, horizon: nat)
    requires s.mem.jobs == map[]
    requires forall i :: rpc(i).Some? && tip <= rpc(i).value <= horizon && committed(i)
    requires LoopIsOver(Exec(cfg, s, JobSteps(from, tip, true, sizes, rpc, committed, n)), 0)
    ensures Backfilled(cfg, s, from, tip, horizon,
                       Exec(cfg, s, JobSteps(from, tip, true, sizes, rpc, committed, n) + [LoopEnds()]))
  {
    var steps := JobSteps(from, tip, true, sizes, rpc, committed, n);
    JobStepsGoWell(from, tip, sizes, rpc, committed, n, horizon);
    assert steps == [JobBegin(0, from, tip)] + steps[1..];
    BackfillHandsExactly(cfg, s, 0, from, tip, horizon, steps[1..]);
    ExecSnoc(cfg, s, steps, LoopEnds());
  }

  // The loop of the indexer ends with its range done or broken off.
  lemma FillIsOver(cfg: Config, s: System, from: Option<nat>, tip: nat, loaded: bool, sizes: nat -> nat,
                   rpc: nat -> Option<nat>, committed: nat -> bool, n: nat)
    requires s.mem.tick.TickIdle? && s.mem.jobs == map[]
    requires var filter := ActiveContracts(cfg.watched, Load(s.mem, Read(s.db, loaded)).controls);
             var end := FilledAfter(cfg, filter, tip, sizes, rpc, committed, Begun(cfg, s, from), n);
             if filter == {} && cfg.watched != {} then n == 0
             else GoesOn(cfg, filter, tip, sizes, rpc, committed, Begun(cfg, s, from), n) && (end.going ==> end.cursor >= tip)
    ensures LoopIsOver(Exec(cfg, s, JobSteps(from, tip, loaded, sizes, rpc, committed, n)), 0)
  {
    FillRun(cfg, s, from, tip, loaded, sizes, rpc, committed, n);
    StartOfJob(cfg, s, from, tip, loaded);
  }

  lemma {:induction false} JobStepsGoWell(from: Option<nat>, tip: nat, sizes: nat -> nat, rpc: nat -> Option<nat>,
                                          committed: nat -> bool, n: nat, horizon: nat)
    requires forall i :: rpc(i).Some? && tip <= rpc(i).value <= horizon && committed(i)
    ensures var steps := JobSteps(from, tip, true, sizes, rpc, committed, n);
            steps != [] && steps[0] == JobBegin(0, from, tip)
            && forall i :: 0 < i < |steps| ==> JobGoesWell(steps[i], 0, tip, horizon)
  {
    if n > 0 {
      JobStepsGoWell(from, tip, sizes, rpc, committed, n - 1, horizon);
    }
  }

  function First(s: System, from: Option<nat>): nat { if from.Some? then from.value else s.mem.lastLedger }

  // Where the backfill has come to.
  function Reached(s: System, id: nat, tip: nat, n: System): nat { if id in n.mem.jobs then n.mem.jobs[id].cursor else tip }

  ghost predicate JobFits(cfg: Config, s: System, id: nat, from: Option<nat>, tip: nat, n: System) {
    var first := First(s, from);
    && n.db.controls == s.db.controls
    && (id !in n.mem.jobs ==>
          if NoneActive(cfg, s) || first >= tip
          then n.db.cursor == s.db.cursor && n.mem.lastLedger == s.mem.lastLedger
          else n.db.cursor == tip == n.mem.lastLedger)
    && (id in n.mem.jobs ==>
          var j := n.mem.jobs[id];
          && j.tip == tip && first <= j.cursor <= (if first < tip then tip else first)
          && (j.JobLoading? ==> j.read == Some(s.db.controls))
          && (j.JobReady? || j.JobCommitted? ==> j.filter == ActiveContracts(cfg.watched, s.db.controls) && !NoneActive(cfg, s))
          && (j.JobStarting? || j.JobLoading? ==> j.cursor == first)
          && (j.JobStarting? || j.JobLoading? || (j.JobReady? && j.cursor == first && first >= tip) ==>
                n.db.cursor == s.db.cursor && n.mem.lastLedger == s.mem.lastLedger)
          && (j.JobReady? && j.cursor > first ==> n.db.cursor == n.mem.lastLedger == j.cursor)
          && (j.JobCommitted? ==> n.db.cursor == j.cursor && first < tip))
  }

  ghost predicate JobHandedRightly(cfg: Config, s: System, id: nat, from: Option<nat>, tip: nat, horizon: nat, n: System, e: Event) {
    && (e in n.db.handed ==>
          e in s.db.handed || (!NoneActive(cfg, s) && First(s, from) < tip && InRange(cfg, s, First(s, from), horizon, e)))
    && (e in s.db.handed || (!NoneActive(cfg, s) && InRange(cfg, s, First(s, from), Reached(s, id, tip, n), e)) ==> e in n.db.handed)
  }

  lemma {:induction false} StaysInJob(cfg: Config, s: System, id: nat, from: Option<nat>, tip: nat, horizon: nat, steps: seq<Step>)
    requires id !in s.mem.jobs && forall step :: step in steps ==> JobGoesWell(step, id, tip, horizon)
    ensures var n := Exec(cfg, s, [JobBegin(id, from, tip)] + steps);
            JobFits(cfg, s, id, from, tip, n) && forall e :: JobHandedRightly(cfg, s, id, from, tip, horizon, n, e)
  {
    if steps == [] {
      ExecOne(cfg, s, JobBegin(id, from, tip));
      assert [JobBegin(id, from, tip)] + steps == [JobBegin(id, from, tip)];
    } else {
      var init, step := steps[..|steps| - 1], steps[|steps| - 1];
      StaysInJob(cfg, s, id, from, tip, horizon, init);
      assert [JobBegin(id, from, tip)] + steps == ([JobBegin(id, from, tip)] + init) + [step];
      ExecSnoc(cfg, s, [JobBegin(id, from, tip)] + init, step);
      var n := Exec(cfg, s, [JobBegin(id, from, tip)] + init);
      ControlOf(cfg, n, step);
      JobStepFits(cfg, s, id, from, tip, horizon, n, step);
      forall e ensures JobHandedRightly(cfg, s, id, from, tip, horizon, Next(cfg, n, step), e) {
        assert JobHandedRightly(cfg, s, id, from, tip, horizon, n, e);
        HandsOver(cfg, n, step, e);
        JobStepHandsRightly(cfg, s, id, from, tip, horizon, n, step, e);
      }
    }
  }

  lemma JobStepHandsRightly(cfg: Config, s: System, id: nat, from: Option<nat>, tip: nat, horizon: nat, n: System, step: Step, e: Event)
    requires JobFits(cfg, s, id, from, tip, n) && JobGoesWell(step, id, tip, horizon)
    requires JobHandedRightly(cfg, s, id, from, tip, horizon, n, e)
    ensures e in n.db.handed || (e in cfg.chain && Delivers(cfg, n, step, e)) ==>
              e in s.db.handed || (!NoneActive(cfg, s) && First(s, from) < tip && InRange(cfg, s, First(s, from), horizon, e))
    ensures e in s.db.handed || (!NoneActive(cfg, s) && InRange(cfg, s, First(s, from), Reached(s, id, tip, Control0(cfg, n, step)), e)) ==>
              e in n.db.handed || (e in cfg.chain && Delivers(cfg, n, step, e))
  {
    assert e.contract in ActiveContracts(cfg.watched, s.db.controls) <==> Active(cfg, s, e.contract);
    NoneActiveIff(cfg, s);
  }

  lemma NoneActiveIff(cfg: Config, s: System)
    ensures NoneActive(cfg, s) <==> ActiveContracts(cfg.watched, s.db.controls) == {} && cfg.watched != {}
  {
    assert forall c :: c in ActiveContracts(cfg.watched, s.db.controls) <==> Active(cfg, s, c);
  }

  lemma JobStepFits(cfg: Config, s: System, id: nat, from: Option<nat>, tip: nat, horizon: nat, n: System, step: Step)
    requires JobFits(cfg, s, id, from, tip, n) && JobGoesWell(step, id, tip, horizon)
    ensures JobFits(cfg, s, id, from, tip, Control0(cfg, n, step))
  {
    NoneActiveIff(cfg, s);
  }

  // ---------------------------------------------------------------- a pause

  // The marker of a paused contract is the cursor of its first pause, whatever
  // follows, until a replay clears it.
  lemma {:induction false} MarkerIsFirstPause(cfg: Config, s: System, c: Contract, steps: seq<Step>)
    requires c in s.db.controls ==> s.db.controls[c].marker.None?
    requires forall step :: step in steps ==> !step.ReplayClear?
    ensures var n := Exec(cfg, s, [Pause(c)] + steps);
            c in n.db.controls && n.db.controls[c].marker == Some(s.db.cursor)
  {
    if steps == [] {
      ExecOne(cfg, s, Pause(c));
      assert [Pause(c)] + steps == [Pause(c)];
    } else {
      var init, step := steps[..|steps| - 1], steps[|steps| - 1];
      MarkerIsFirstPause(cfg, s, c, init);
      assert [Pause(c)] + steps == ([Pause(c)] + init) + [step];
      ExecSnoc(cfg, s, [Pause(c)] + init, step);
      ControlOf(cfg, Exec(cfg, s, [Pause(c)] + init), step);
    }
  }

  // And it stays paused until it is resumed.
  lemma {:induction false} PausedUntilResumed(cfg: Config, s: System, c: Contract, steps: seq<Step>)
    ensures var n := Exec(cfg, s, steps);
            (c in n.db.controls && n.db.controls[c].paused)
            <==> PausedLast(steps, c) || (!Touched(steps, c) && c in s.db.controls && s.db.controls[c].paused)
  {
    if steps != [] {
      var init, step := steps[..|steps| - 1], steps[|steps| - 1];
      PausedUntilResumed(cfg, s, c, init);
      PausedAfter(cfg, Exec(cfg, s, init), step, c);
      PausedLastStep(init, step, c);
      assert steps == init + [step];
    }
  }

  lemma PausedAfter(cfg: Config, s: System, step: Step, c: Contract)
    ensures var n := Next(cfg, s, step);
            (c in n.db.controls && n.db.controls[c].paused)
            <==> step == Pause(c) || (step != Resume(c) && c in s.db.controls && s.db.controls[c].paused)
  {
    ControlOf(cfg, s, step);
  }

  lemma PausedLastStep(init: seq<Step>, step: Step, c: Contract)
    ensures PausedLast(init + [step], c) <==> step == Pause(c) || (step != Resume(c) && PausedLast(init, c))
  {
    var steps := init + [step];
    assert steps[|init|..] == [step];
    forall i | 0 <= i < |init| ensures steps[i..] == init[i..] + [step] {}
    if PausedLast(init, c) && step != Resume(c) {
      var i :| 0 <= i < |init| && init[i] == Pause(c) && Resume(c) !in init[i..];
      assert steps[i] == Pause(c);
    }
  }

  predicate Touched(steps: seq<Step>, c: Contract) { Pause(c) in steps || Resume(c) in steps }

  // The last of the pauses and resumes of c is a pause.
  predicate PausedLast(steps: seq<Step>, c: Contract) {
    exists i :: 0 <= i < |steps| && steps[i] == Pause(c) && Resume(c) !in steps[i..]
  }

  // ------------------------------------------------------------ the controls

  // A failed reading leaves the previous controls in place, in a tick and in a
  // backfill.
  lemma FailedReadingKeepsControls(cfg: Config, s: System, latest: nat, id: nat, from: Option<nat>, tip: nat, ok: bool)
    requires s.mem.running && s.mem.tick.TickIdle? && s.mem.lastLedger < latest && id !in s.mem.jobs
    ensures Exec(cfg, s, [TickBegin(latest), TickRead(ok), TickLoad]).mem.controls == if ok then s.db.controls else s.mem.controls
    ensures Exec(cfg, s, [JobBegin(id, from, tip), JobRead(id, ok), JobLoad(id)]).mem.controls
         == if ok then s.db.controls else s.mem.controls
  {
    ExecThree(cfg, s, TickBegin(latest), TickRead(ok), TickLoad);
    ExecThree(cfg, s, JobBegin(id, from, tip), JobRead(id, ok), JobLoad(id));
  }
}
