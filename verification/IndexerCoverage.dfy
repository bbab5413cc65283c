// Coverage of the step machine: what a state relies on having been handed
// over, when a step is safe for every chain, and that no gap arises in a run
// of such steps, whatever overlaps.
module IndexerCoverage {
  import opened Common
  import opened Handlers
  import opened EventStore
  import opened IndexerMachine

  ghost predicate Relevant(cfg: Config, e: Event) {
    e in cfg.chain && e.contract in cfg.watched && e.ledger > cfg.startBlock
  }

  // Every watched event up to `ledger` was handed over by a finished batch
  // unless its contract carries a marker strictly below it.
  ghost predicate Covered(cfg: Config, db: Database, ledger: nat) {
    forall e :: Relevant(cfg, e) && e.ledger <= ledger ==>
      e in db.handed || (Marker(db.controls, e.contract).Some? && Marker(db.controls, e.contract).value < e.ledger)
  }

  ghost predicate HandedUpTo(cfg: Config, db: Database, c: Contract, ledger: nat) {
    forall e :: Relevant(cfg, e) && e.contract == c && e.ledger <= ledger ==> e in db.handed
  }

  // -------------------------------------------------- what a state relies on

  predicate UpToMarker(controls: map<Contract, Control>, c: Contract, l: nat) {
    Marker(controls, c).Some? && l <= Marker(controls, c).value
  }

  predicate ReadUpTo(read: Option<map<Contract, Control>>, c: Contract, l: nat) {
    read.Some? && UpToMarker(read.value, c, l)
  }

  predicate ReadPaused(read: Option<map<Contract, Control>>, c: Contract) {
    read.Some? && IsPaused(read.value, c)
  }

  predicate Planned(plan: Plan, c: Contract, l: nat) {
    c in plan.todo && l <= plan.todo[c]
  }

  // The tick takes contract c to be caught up to l.
  predicate CaughtUp(t: Tick, c: Contract, l: nat) {
    match t
    case TickLoading(_, _, read) => ReadUpTo(read, c, l)
    case TickReplay(plan) => Planned(plan, c, l)
    case TickBatch(plan, contract, cursor, _) => Planned(plan, c, l) || (c == contract && l <= cursor)
    case TickClear(plan, contract, reach) => Planned(plan, c, l) || (c == contract && l <= reach)
    case _ => false
  }

  // The tick goes on from behind l, or is going to record l without c.
  predicate TickOwes(t: Tick, c: Contract, l: nat) {
    match t
    case TickIdle => false
    case TickGot(from, _) => l < from
    case TickLoading(from, _, read) => l < from || ReadPaused(read, c)
    case TickReplay(plan) => l < plan.from
    case TickBatch(plan, _, _, _) => l < plan.from
    case TickClear(plan, _, _) => l < plan.from
    case TickFetched(from, latest, filter, _) => l < from || (c !in filter && l <= latest)
    case TickCommitted(latest) => l <= latest
  }

  // The same of one backfill.
  predicate JobOwes(j: Job, c: Contract, l: nat) {
    l <= j.cursor
    || match j
       case JobStarting(_, _) => false
       case JobLoading(_, _, read) => ReadPaused(read, c)
       case JobReady(_, tip, filter) => c !in filter && l <= tip
       case JobCommitted(_, tip, filter) => c !in filter && l <= tip
  }

  predicate JobClaims(j: Job, c: Contract, l: nat) {
    j.JobLoading? && ReadUpTo(j.read, c, l)
  }

  predicate SomeJobOwes(jobs: map<nat, Job>, c: Contract, l: nat) {
    exists id :: id in jobs && JobOwes(jobs[id], c, l)
  }

  predicate SomeJobClaims(jobs: map<nat, Job>, c: Contract, l: nat) {
    exists id :: id in jobs && JobClaims(jobs[id], c, l)
  }

  // A record says that c was handed over up to l.
  predicate Claimed(s: System, c: Contract, l: nat) {
    UpToMarker(s.db.controls, c, l) || UpToMarker(s.mem.controls, c, l) || CaughtUp(s.mem.tick, c, l)
    || SomeJobClaims(s.mem.jobs, c, l)
  }

  // The cursor is, or may be, taken past l without fetching c's events at l
  // again; a paused contract is left out of whatever is recorded next.
  predicate Owed(s: System, c: Contract, l: nat) {
    l <= s.db.cursor || l <= s.mem.lastLedger
    || IsPaused(s.db.controls, c) || IsPaused(s.mem.controls, c)
    || TickOwes(s.mem.tick, c, l)
    || SomeJobOwes(s.mem.jobs, c, l)
  }

  // Control state alone: no chain and no event enters here.
  predicate Relies(s: System, c: Contract, l: nat) {
    Claimed(s, c, l) || (Marker(s.db.controls, c).None? && Owed(s, c, l))
  }

  lemma ReliesDownward(s: System, c: Contract, l: nat, k: nat)
    requires Relies(s, c, l) && k <= l
    ensures Relies(s, c, k)
  {
    ClaimedDownward(s, c, l, k);
    if Marker(s.db.controls, c).None? && SomeJobOwes(s.mem.jobs, c, l) {
      var id :| id in s.mem.jobs && JobOwes(s.mem.jobs[id], c, l);
      assert JobOwes(s.mem.jobs[id], c, k);
    }
  }

  lemma ClaimedDownward(s: System, c: Contract, l: nat, k: nat)
    requires k <= l
    ensures Claimed(s, c, l) ==> Claimed(s, c, k)
  {
    if SomeJobClaims(s.mem.jobs, c, l) {
      var id :| id in s.mem.jobs && JobClaims(s.mem.jobs[id], c, l);
      assert JobClaims(s.mem.jobs[id], c, k);
    }
  }

  // The invariant: whatever is relied on has been handed over.
  ghost predicate Inv(cfg: Config, s: System) {
    forall c, l: nat {:trigger Relies(s, c, l)} :: c in cfg.watched && Relies(s, c, l) ==> HandedUpTo(cfg, s.db, c, l)
  }

  // Then the recorded cursor and the cursor in memory have no gap behind them.
  lemma InvCovers(cfg: Config, s: System)
    requires Inv(cfg, s)
    ensures Covered(cfg, s.db, s.db.cursor) && Covered(cfg, s.db, s.mem.lastLedger)
  {
    forall e | Relevant(cfg, e) && (e.ledger <= s.db.cursor || e.ledger <= s.mem.lastLedger)
      ensures e in s.db.handed
              || (Marker(s.db.controls, e.contract).Some? && Marker(s.db.controls, e.contract).value < e.ledger)
    {
      var m := Marker(s.db.controls, e.contract);
      if m.None? || e.ledger <= m.value {
        assert Relies(s, e.contract, e.ledger);
      }
    }
  }

  lemma BootInv(cfg: Config, books: Books)
    ensures Inv(cfg, Boot(cfg, books))
  {}

  // ------------------------------------------------------- what a step hands

  // The step fetches the events of c at ledger l.
  predicate Fetches(cfg: Config, s: System, step: Step, c: Contract, l: nat) {
    var mem, t := s.mem, s.mem.tick;
    match step
    case ReplayBatch(answer, _) =>
      t.TickBatch? && answer.Some? && c == t.contract && t.cursor < l <= answer.value && l <= t.to
    case TickCommit(ok, _) => t.TickFetched? && ok && c in t.filter && t.from <= l <= t.horizon
    case JobBatch(id, _, answer, committed, _) =>
      Commits(s, step) && c in mem.jobs[id].filter && mem.jobs[id].cursor < l <= answer.value
    case _ => false
  }

  // The backfill batch is committed.
  predicate Commits(s: System, step: Step)
    requires step.JobBatch?
  {
    step.id in s.mem.jobs && s.mem.jobs[step.id].JobReady? && s.mem.jobs[step.id].cursor < s.mem.jobs[step.id].tip
    && step.answer.Some? && step.committed
  }

  function Missed(step: Step): set<Event> {
    match step
    case ReplayBatch(_, missed) => missed
    case TickCommit(_, missed) => missed
    case JobBatch(_, _, _, _, missed) => missed
    case _ => {}
  }

  predicate Delivers(cfg: Config, s: System, step: Step, e: Event) {
    Fetches(cfg, s, step, e.contract, e.ledger) && e !in Missed(step)
  }

  lemma HandsOver(cfg: Config, s: System, step: Step, e: Event)
    ensures e in Next(cfg, s, step).db.handed <==> e in s.db.handed || (e in cfg.chain && Delivers(cfg, s, step, e))
  {
    var t := s.mem.tick;
    match step
    case ReplayBatch(answer, missed) =>
      if t.TickBatch? && answer.Some? {
        ProcessAllHands(missed, s.db, ReplayEvents(cfg, t, answer.value));
      }
    case TickCommit(ok, missed) =>
      if t.TickFetched? {
        ProcessAllHands(missed, s.db, Answer(cfg.chain, t.from, t.horizon, t.filter));
      }
    case JobBatch(id, _, answer, _, missed) =>
      if Commits(s, step) {
        ProcessAllHands(missed, s.db, JobEvents(cfg, s.mem.jobs[id], answer.value));
      }
    case _ => OthersHandNothing(cfg, s, step, e);
  }

  lemma OthersHandNothing(cfg: Config, s: System, step: Step, e: Event)
    requires !step.ReplayBatch? && !step.TickCommit? && !step.JobBatch?
    ensures Next(cfg, s, step).db.handed == s.db.handed && !Delivers(cfg, s, step, e)
  {}

  // ------------------------------------------------ the control part of a step

  // Cursor, markers and memory after the step, without its events.
  function Control0(cfg: Config, s: System, step: Step): System {
    var db, mem, t := s.db, s.mem, s.mem.tick;
    match step
    case ReplayBatch(answer, _) =>
      if !t.TickBatch? || answer.None? then Next(cfg.(chain := []), s, step)
      else s.(mem := mem.(tick := if BatchEnd(cfg, t) < t.to then t.(cursor := BatchEnd(cfg, t))
                                  else TickClear(t.plan, t.contract, t.to)))
    case TickCommit(ok, _) =>
      if !t.TickFetched? || !ok then Next(cfg.(chain := []), s, step)
      else System(db.(cursor := t.latest), mem.(tick := TickCommitted(t.latest)))
    case JobBatch(id, size, answer, committed, _) =>
      if !Commits(s, step) then Next(cfg.(chain := []), s, step)
      else
        var j := mem.jobs[id];
        System(db.(cursor := JobEnd(j, size)), mem.(jobs := mem.jobs[id := JobCommitted(JobEnd(j, size), j.tip, j.filter)]))
    case _ => Next(cfg.(chain := []), s, step)
  }

  lemma ControlOf(cfg: Config, s: System, step: Step)
    ensures var n, k := Next(cfg, s, step), Control0(cfg, s, step);
            n.mem == k.mem && n.db.cursor == k.db.cursor && n.db.controls == k.db.controls
  {
    var mem, t := s.mem, s.mem.tick;
    match step
    case ReplayBatch(answer, missed) =>
      if t.TickBatch? && answer.Some? {
        ProcessAllHands(missed, s.db, ReplayEvents(cfg, t, answer.value));
      }
    case TickCommit(ok, missed) =>
      if t.TickFetched? {
        ProcessAllHands(missed, s.db, Answer(cfg.chain, t.from, t.horizon, t.filter));
      }
    case JobBatch(id, _, answer, _, missed) =>
      if Commits(s, step) {
        ProcessAllHands(missed, s.db, JobEvents(cfg, mem.jobs[id], answer.value));
      }
    case _ =>
  }

  lemma SameControlSameReliance(a: System, b: System, c: Contract, l: nat)
    requires a.mem == b.mem && a.db.cursor == b.db.cursor && a.db.controls == b.db.controls
    ensures Relies(a, c, l) <==> Relies(b, c, l)
  {}

  // ------------------------------------------------- safe for every chain

  ghost predicate SafeForEveryChain(cfg: Config, s: System, step: Step) {
    forall chain: seq<Event> :: Inv(cfg.(chain := chain), s) ==> Inv(cfg.(chain := chain), Next(cfg.(chain := chain), s, step))
  }

  // An event at ledger l of c may be there that is not handed over.
  predicate MayLack(cfg: Config, s: System, step: Step, c: Contract, l: nat) {
    !Fetches(cfg, s, step, c, l)
    || exists m :: m in Missed(step) && m.contract == c && m.ledger == l && m !in s.db.handed
  }

  predicate NewlyRelied(cfg: Config, s: System, step: Step, c: Contract, l: nat) {
    Relies(Control0(cfg, s, step), c, l) && !Relies(s, c, l) && MayLack(cfg, s, step, c, l)
  }

  // Every ledger newly relied on was relied on before, is fetched by the step
  // and not missed, or lies at or before the start block.
  ghost predicate NothingNew(cfg: Config, s: System, step: Step) {
    forall c, l: nat {:trigger NewlyRelied(cfg, s, step, c, l)} ::
      c in cfg.watched && l > cfg.startBlock ==> !NewlyRelied(cfg, s, step, c, l)
  }

  lemma NothingNewKeepsInv(cfg: Config, s: System, step: Step)
    requires Inv(cfg, s) && NothingNew(cfg, s, step)
    ensures Inv(cfg, Next(cfg, s, step))
  {
    var n := Next(cfg, s, step);
    ControlOf(cfg, s, step);
    forall c, l: nat | c in cfg.watched && Relies(n, c, l) ensures HandedUpTo(cfg, n.db, c, l) {
      forall e | Relevant(cfg, e) && e.contract == c && e.ledger <= l ensures e in n.db.handed {
        ReliesDownward(n, c, l, e.ledger);
        SameControlSameReliance(n, Control0(cfg, s, step), c, e.ledger);
        assert !NewlyRelied(cfg, s, step, c, e.ledger);
        HandsOver(cfg, s, step, e);
      }
    }
  }

  lemma LongString(n: nat) returns (id: string)
    ensures |id| == n
  {
    id := seq(n, i => 'x');
  }

  // There is always an event nobody has handed over.
  lemma {:induction false} LongestId(es: set<Event>) returns (n: nat)
    ensures forall e :: e in es ==> |e.id| < n
  {
    if es == {} {
      n := 0;
    } else {
      var e :| e in es;
      var m := LongestId(es - {e});
      n := m + |e.id| + 1;
    }
  }

  lemma FreshEvent(es: set<Event>, c: Contract, l: nat) returns (e: Event)
    ensures e !in es && e.contract == c && e.ledger == l
  {
    var n := LongestId(es);
    var id := LongString(n);
    e := Event(id, c, l, "contract", "deposit", (0, 0), Other);
  }

  // An event at that ledger that the step leaves out.
  lemma LackingEvent(cfg: Config, s: System, step: Step, c: Contract, l: nat) returns (x: Event)
    requires MayLack(cfg, s, step, c, l)
    ensures x.contract == c && x.ledger == l && x !in s.db.handed && !Delivers(cfg, s, step, x)
  {
    if Fetches(cfg, s, step, c, l) {
      x :| x in Missed(step) && x.contract == c && x.ledger == l && x !in s.db.handed;
    } else {
      x := FreshEvent(s.db.handed, c, l);
    }
  }

  lemma NewReliedIsUnsafe(cfg: Config, s: System, step: Step, c: Contract, l: nat)
    requires c in cfg.watched && l > cfg.startBlock && NewlyRelied(cfg, s, step, c, l)
    ensures !SafeForEveryChain(cfg, s, step)
  {
    var x := LackingEvent(cfg, s, step, c, l);
    var one := cfg.(chain := [x]);
    var n := Next(one, s, step);
    FreshKeepsInv(cfg, s, x);
    LackingStays(cfg, s, step, x);
    ControlOf(one, s, step);
    Control0Same(cfg, [x], s, step);
    SameControlSameReliance(n, Control0(cfg, s, step), c, l);
    assert Relevant(one, x) && Relies(n, c, l);
    assert !Inv(one, n);
  }

  lemma LackingStays(cfg: Config, s: System, step: Step, x: Event)
    requires x !in s.db.handed && !Delivers(cfg, s, step, x)
    ensures x !in Next(cfg.(chain := [x]), s, step).db.handed
  {
    HandsOver(cfg.(chain := [x]), s, step, x);
    FetchesSame(cfg, [x], s, step, x.contract, x.ledger);
  }

  lemma FetchesSame(cfg: Config, chain: seq<Event>, s: System, step: Step, c: Contract, l: nat)
    ensures Fetches(cfg, s, step, c, l) <==> Fetches(cfg.(chain := chain), s, step, c, l)
  {}

  lemma Control0Same(cfg: Config, chain: seq<Event>, s: System, step: Step)
    ensures Control0(cfg, s, step) == Control0(cfg.(chain := chain), s, step)
  {
    assert cfg.(chain := []) == cfg.(chain := chain).(chain := []);
  }

  // A chain of one event that is not relied on.
  lemma FreshKeepsInv(cfg: Config, s: System, x: Event)
    requires !Relies(s, x.contract, x.ledger)
    ensures Inv(cfg.(chain := [x]), s)
  {
    var one := cfg.(chain := [x]);
    forall d, k: nat | d in cfg.watched && Relies(s, d, k) ensures HandedUpTo(one, s.db, d, k) {
      if d == x.contract && x.ledger <= k {
        ReliesDownward(s, d, k, x.ledger);
      }
    }
  }

  lemma NothingNewSame(cfg: Config, chain: seq<Event>, s: System, step: Step)
    requires NothingNew(cfg, s, step)
    ensures NothingNew(cfg.(chain := chain), s, step)
  {
    var other := cfg.(chain := chain);
    forall c, l: nat | c in other.watched && l > other.startBlock ensures !NewlyRelied(other, s, step, c, l) {
      assert !NewlyRelied(cfg, s, step, c, l);
      FetchesSame(cfg, chain, s, step, c, l);
      Control0Same(cfg, chain, s, step);
    }
  }

  // A step keeps the invariant on every chain exactly when it relies on
  // nothing new.
  lemma SafeIffNothingNew(cfg: Config, s: System, step: Step)
    ensures SafeForEveryChain(cfg, s, step) <==> NothingNew(cfg, s, step)
  {
    if NothingNew(cfg, s, step) {
      forall chain: seq<Event> | Inv(cfg.(chain := chain), s)
        ensures Inv(cfg.(chain := chain), Next(cfg.(chain := chain), s, step))
      {
        NothingNewSame(cfg, chain, s, step);
        NothingNewKeepsInv(cfg.(chain := chain), s, step);
      }
    } else {
      var c, l: nat :| c in cfg.watched && l > cfg.startBlock && NewlyRelied(cfg, s, step, c, l);
      NewReliedIsUnsafe(cfg, s, step, c, l);
    }
  }

  // ------------------------------------------------------------- the guards

  // Nothing new is promised by relying on c up to l.
  predicate Settled(cfg: Config, s: System, c: Contract, l: nat) {
    l <= cfg.startBlock || Relies(s, c, l)
  }

  // c is recorded as handed over up to l.
  predicate Behind(cfg: Config, s: System, c: Contract, l: nat) {
    l <= cfg.startBlock || Claimed(s, c, l)
  }

  // A missed event that does no harm.
  predicate Excused(cfg: Config, s: System, m: Event) {
    m in s.db.handed || Settled(cfg, s, m.contract, m.ledger)
  }

  // A batch may be recorded up to `end`: every fetched contract without a
  // marker was answered that far, or was already relied on that far, and each
  // of its events up to there that was missed is excused.
  predicate Reaches(cfg: Config, s: System, filter: set<Contract>, answer: nat, end: nat, missed: set<Event>) {
    (forall c :: c in filter && c in cfg.watched && Marker(s.db.controls, c).None? ==>
       end <= answer || Settled(cfg, s, c, end))
    && NoneLost(cfg, s, filter, end, missed)
  }

  // No event the batch missed is lost by recording `end`.
  predicate NoneLost(cfg: Config, s: System, filter: set<Contract>, end: nat, missed: set<Event>) {
    forall m :: m in missed && m.contract in filter && m.contract in cfg.watched && m.ledger <= end
                && Marker(s.db.controls, m.contract).None? ==>
      Excused(cfg, s, m)
  }

  // Clearing the marker of c is harmless: neither memory nor a reading of the
  // controls under way takes c for paused, and c is caught up to both cursors,
  // to where the tick goes on, to where every backfill goes on, and to the end
  // of those that leave c out.
  predicate MayClear(cfg: Config, s: System, plan: Plan, c: Contract) {
    !IsPaused(s.mem.controls, c)
    && Behind(cfg, s, c, s.db.cursor)
    && Behind(cfg, s, c, s.mem.lastLedger)
    && (plan.from == 0 || Behind(cfg, s, c, plan.from - 1))
    && forall id :: id in s.mem.jobs ==> JobBehind(cfg, s, s.mem.jobs[id], c)
  }

  predicate JobBehind(cfg: Config, s: System, j: Job, c: Contract) {
    Behind(cfg, s, c, j.cursor)
    && match j
       case JobStarting(_, _) => true
       case JobLoading(_, _, read) => !ReadPaused(read, c)
       case JobReady(_, tip, filter) => c !in filter ==> Behind(cfg, s, c, tip)
       case JobCommitted(_, tip, filter) => c !in filter ==> Behind(cfg, s, c, tip)
  }

  // The replay batch reaches its end, and each event it missed is excused.
  predicate ReplayReaches(cfg: Config, s: System, answer: nat, missed: set<Event>)
    requires s.mem.tick.TickBatch?
  {
    var c, end := s.mem.tick.contract, BatchEnd(cfg, s.mem.tick);
    (end <= answer || Settled(cfg, s, c, end))
    && forall m :: m in missed && m.contract == c && m.ledger <= end ==> Excused(cfg, s, m)
  }

  // What the environment and the operators must respect at a step. Steps not
  // named are always harmless.
  predicate Orderly(cfg: Config, s: System, step: Step) {
    var db, mem, t := s.db, s.mem, s.mem.tick;
    match step
    case ReplayBatch(answer, missed) =>
      t.TickBatch? && answer.Some? && t.contract in cfg.watched ==> ReplayReaches(cfg, s, answer.value, missed)
    case ReplayClear(ok) =>
      t.TickClear? && ok && t.contract in cfg.watched && !IsPaused(db.controls, t.contract)
      && Marker(db.controls, t.contract).Some? ==>
        MayClear(cfg, s, t.plan, t.contract)
    case TickCommit(ok, missed) => t.TickFetched? && ok ==> Reaches(cfg, s, t.filter, t.horizon, t.latest, missed)
    case JobBegin(id, from, tip) =>
      id !in mem.jobs && from.Some? ==>
        forall c :: c in cfg.watched && Marker(db.controls, c).None? ==> Settled(cfg, s, c, from.value)
    case JobBatch(id, size, answer, committed, missed) =>
      Commits(s, step) ==> Reaches(cfg, s, mem.jobs[id].filter, answer.value, JobEnd(mem.jobs[id], size), missed)
    case _ => true
  }

  // Steps without a guard.
  predicate Free(step: Step) {
    step.TickBegin? || step.TickRead? || step.TickLoad? || step.ReplayPick? || step.TickFetch? || step.TickFinish?
    || step.JobRead? || step.JobLoad? || step.JobFinish? || step.Pause? || step.Resume? || step.Crash?
  }

  lemma FreeStep(cfg: Config, s: System, step: Step)
    requires Free(step)
    ensures NothingNew(cfg, s, step)
  {
    forall c, l: nat | c in cfg.watched && l > cfg.startBlock ensures !NewlyRelied(cfg, s, step, c, l) {
      if step.JobRead? || step.JobLoad? || step.JobFinish? {
        FreeJobStep(cfg, s, step, c, l);
      } else {
        FreeStepJobs(cfg, s, step, c, l);
        if step.Pause? || step.Resume? || step.Crash? {
          FreeOtherStep(cfg, s, step, c, l);
        } else {
          FreeTickStep(cfg, s, step, c, l);
        }
      }
    }
  }

  lemma FreeStepJobs(cfg: Config, s: System, step: Step, c: Contract, l: nat)
    requires Free(step) && !step.JobRead? && !step.JobLoad? && !step.JobFinish?
    ensures SomeJobOwes(Control0(cfg, s, step).mem.jobs, c, l) ==> SomeJobOwes(s.mem.jobs, c, l)
    ensures SomeJobClaims(Control0(cfg, s, step).mem.jobs, c, l) ==> SomeJobClaims(s.mem.jobs, c, l)
  {
    var n := Control0(cfg, s, step);
    assert n.mem.jobs == s.mem.jobs || n.mem.jobs == map[];
  }

  lemma FreeTickStep(cfg: Config, s: System, step: Step, c: Contract, l: nat)
    requires step.TickBegin? || step.TickRead? || step.TickLoad? || step.ReplayPick? || step.TickFetch? || step.TickFinish?
    requires SomeJobOwes(Control0(cfg, s, step).mem.jobs, c, l) ==> SomeJobOwes(s.mem.jobs, c, l)
    requires SomeJobClaims(Control0(cfg, s, step).mem.jobs, c, l) ==> SomeJobClaims(s.mem.jobs, c, l)
    requires c in cfg.watched
    ensures !NewlyRelied(cfg, s, step, c, l)
  {}

  lemma FreeOtherStep(cfg: Config, s: System, step: Step, c: Contract, l: nat)
    requires step.Pause? || step.Resume? || step.Crash?
    requires SomeJobOwes(Control0(cfg, s, step).mem.jobs, c, l) ==> SomeJobOwes(s.mem.jobs, c, l)
    requires SomeJobClaims(Control0(cfg, s, step).mem.jobs, c, l) ==> SomeJobClaims(s.mem.jobs, c, l)
    requires c in cfg.watched && l > cfg.startBlock
    ensures !NewlyRelied(cfg, s, step, c, l)
  {}

  // What one job does to the reliance on jobs, the others staying as they are.
  lemma OneJobChanges(s: System, n: System, id: nat, c: Contract, l: nat)
    requires forall k :: k in n.mem.jobs && k != id ==> k in s.mem.jobs && n.mem.jobs[k] == s.mem.jobs[k]
    ensures SomeJobOwes(n.mem.jobs, c, l) ==> SomeJobOwes(s.mem.jobs, c, l) || (id in n.mem.jobs && JobOwes(n.mem.jobs[id], c, l))
    ensures SomeJobClaims(n.mem.jobs, c, l) ==>
              SomeJobClaims(s.mem.jobs, c, l) || (id in n.mem.jobs && JobClaims(n.mem.jobs[id], c, l))
    ensures id in s.mem.jobs && JobOwes(s.mem.jobs[id], c, l) ==> SomeJobOwes(s.mem.jobs, c, l)
    ensures id in s.mem.jobs && JobClaims(s.mem.jobs[id], c, l) ==> SomeJobClaims(s.mem.jobs, c, l)
  {
    if k :| k in n.mem.jobs && JobOwes(n.mem.jobs[k], c, l) {
      assert k != id ==> JobOwes(s.mem.jobs[k], c, l);
    }
    if k :| k in n.mem.jobs && JobClaims(n.mem.jobs[k], c, l) {
      assert k != id ==> JobClaims(s.mem.jobs[k], c, l);
    }
  }

  lemma FreeJobStep(cfg: Config, s: System, step: Step, c: Contract, l: nat)
    requires step.JobRead? || step.JobLoad? || step.JobFinish?
    requires c in cfg.watched
    ensures !NewlyRelied(cfg, s, step, c, l)
  {
    OneJobChanges(s, Control0(cfg, s, step), step.id, c, l);
  }

  lemma ReplayBatchNew(cfg: Config, s: System, step: Step)
    requires step.ReplayBatch?
    ensures NothingNew(cfg, s, step) <==> Orderly(cfg, s, step)
  {
    var t := s.mem.tick;
    if t.TickBatch? && step.answer.Some? {
      var end, c := BatchEnd(cfg, t), t.contract;
      if !Orderly(cfg, s, step) {
        if end > step.answer.value && !Settled(cfg, s, c, end) {
          assert NewlyRelied(cfg, s, step, c, end);
        } else {
          var m :| m in step.missed && m.contract == c && m.ledger <= end && !Excused(cfg, s, m);
          assert NewlyRelied(cfg, s, step, c, m.ledger);
        }
      } else {
        forall d, l: nat | d in cfg.watched && l > cfg.startBlock ensures !NewlyRelied(cfg, s, step, d, l) {
          if d == c && l <= end && Relies(s, c, end) {
            ReliesDownward(s, c, end, l);
          }
        }
      }
    }
  }

  // The two ways of recording too much.
  lemma UnreachedIsNew(cfg: Config, s: System, step: Step, filter: set<Contract>, answer: nat, end: nat)
    requires !Reaches(cfg, s, filter, answer, end, Missed(step))
    requires forall c, l: nat :: c in filter && l <= end && Marker(s.db.controls, c).None? ==> Relies(Control0(cfg, s, step), c, l)
    requires forall c, l: nat :: l > answer ==> !Fetches(cfg, s, step, c, l)
    ensures !NothingNew(cfg, s, step)
  {
    if c :| (c in filter && c in cfg.watched && Marker(s.db.controls, c).None? && end > answer && !Settled(cfg, s, c, end)) {
      assert NewlyRelied(cfg, s, step, c, end);
    } else {
      var m :| m in Missed(step) && m.contract in filter && m.contract in cfg.watched
        && Marker(s.db.controls, m.contract).None? && m.ledger <= end && !Excused(cfg, s, m);
      assert NewlyRelied(cfg, s, step, m.contract, m.ledger);
    }
  }

  lemma CommitNew(cfg: Config, s: System, step: Step)
    requires step.TickCommit?
    ensures NothingNew(cfg, s, step) <==> Orderly(cfg, s, step)
  {
    var t := s.mem.tick;
    if t.TickFetched? && step.ok {
      if !Orderly(cfg, s, step) {
        UnreachedIsNew(cfg, s, step, t.filter, t.horizon, t.latest);
      } else {
        forall c, l: nat | c in cfg.watched && l > cfg.startBlock ensures !NewlyRelied(cfg, s, step, c, l) {
          if l <= t.latest && Relies(s, c, t.latest) {
            ReliesDownward(s, c, t.latest, l);
          }
        }
      }
    }
  }

  lemma JobBeginNew(cfg: Config, s: System, step: Step)
    requires step.JobBegin?
    ensures NothingNew(cfg, s, step) <==> Orderly(cfg, s, step)
  {
    var n := Control0(cfg, s, step);
    if step.id !in s.mem.jobs {
      if !Orderly(cfg, s, step) {
        var c :| c in cfg.watched && Marker(s.db.controls, c).None? && !Settled(cfg, s, c, step.from.value);
        assert JobOwes(n.mem.jobs[step.id], c, step.from.value);
        assert NewlyRelied(cfg, s, step, c, step.from.value);
      } else {
        forall c, l: nat | c in cfg.watched && l > cfg.startBlock ensures !NewlyRelied(cfg, s, step, c, l) {
          OneJobChanges(s, n, step.id, c, l);
          if step.from.Some? && l <= step.from.value && Relies(s, c, step.from.value) {
            ReliesDownward(s, c, step.from.value, l);
          }
        }
      }
    }
  }

  lemma JobBatchNew(cfg: Config, s: System, step: Step)
    requires step.JobBatch?
    ensures NothingNew(cfg, s, step) <==> Orderly(cfg, s, step)
  {
    if Commits(s, step) && !Orderly(cfg, s, step) {
      var j, n := s.mem.jobs[step.id], Control0(cfg, s, step);
      forall c, l: nat | c in j.filter && l <= JobEnd(j, step.size) && Marker(s.db.controls, c).None? ensures Relies(n, c, l) {
        assert JobOwes(n.mem.jobs[step.id], c, l);
      }
      UnreachedIsNew(cfg, s, step, j.filter, step.answer.value, JobEnd(j, step.size));
    } else {
      forall c, l: nat | c in cfg.watched && l > cfg.startBlock ensures !NewlyRelied(cfg, s, step, c, l) {
        JobBatchNothing(cfg, s, step, c, l);
      }
    }
  }

  lemma JobBatchNothing(cfg: Config, s: System, step: Step, c: Contract, l: nat)
    requires step.JobBatch? && Orderly(cfg, s, step) && c in cfg.watched && l > cfg.startBlock
    ensures !NewlyRelied(cfg, s, step, c, l)
  {
    OneJobChanges(s, Control0(cfg, s, step), step.id, c, l);
    if Commits(s, step) {
      var end := JobEnd(s.mem.jobs[step.id], step.size);
      if l <= end && Relies(s, c, end) {
        ReliesDownward(s, c, end, l);
      }
    }
  }

  // A ledger above everything the backfills claim of c.
  lemma {:induction false} AboveJobClaims(jobs: map<nat, Job>, c: Contract) returns (top: nat)
    ensures forall l: nat :: SomeJobClaims(jobs, c, l) ==> l <= top
  {
    if jobs == map[] {
      top := 0;
    } else {
      var id :| id in jobs;
      var rest := AboveJobClaims(jobs - {id}, c);
      var own := if jobs[id].JobLoading? && jobs[id].read.Some? then Marker(jobs[id].read.value, c) else None;
      top := Max(rest, if own.Some? then own.value else 0);
      forall l: nat | SomeJobClaims(jobs, c, l) ensures l <= top {
        var k :| k in jobs && JobClaims(jobs[k], c, l);
        if k != id {
          assert JobClaims((jobs - {id})[k], c, l);
          assert SomeJobClaims(jobs - {id}, c, l);
        }
      }
    }
  }

  // A ledger above everything claimed of c.
  lemma AboveClaims(cfg: Config, s: System, c: Contract) returns (l: nat)
    ensures l > cfg.startBlock && !Claimed(s, c, l)
  {
    var a, b, t := Marker(s.db.controls, c), Marker(s.mem.controls, c), s.mem.tick;
    var read := if t.TickLoading? && t.read.Some? then Marker(t.read.value, c) else None;
    var planned := if (t.TickReplay? || t.TickBatch? || t.TickClear?) && c in t.plan.todo then t.plan.todo[c] else 0;
    var caught := if t.TickBatch? then t.cursor else if t.TickClear? then t.reach else 0;
    var jobs := AboveJobClaims(s.mem.jobs, c);
    l := cfg.startBlock + (if a.Some? then a.value else 0) + (if b.Some? then b.value else 0)
      + (if read.Some? then read.value else 0) + planned + caught + jobs + 1;
  }

  // A step that takes the marker of c off, with nothing else owed than before.
  lemma UnmarkedOwes(cfg: Config, s: System, step: Step, l: nat)
    requires step.ReplayClear? && step.ok && s.mem.tick.TickClear?
    requires var c := s.mem.tick.contract; !IsPaused(s.db.controls, c) && Marker(s.db.controls, c).Some?
    ensures var c, n := s.mem.tick.contract, Control0(cfg, s, step);
            Marker(n.db.controls, c).None? && (Owed(n, c, l) <==> Owed(s, c, l)) && (Claimed(n, c, l) ==> Claimed(s, c, l))
  {}

  lemma MayClearIff(cfg: Config, s: System, step: Step)
    requires step.ReplayClear? && step.ok && s.mem.tick.TickClear? && s.mem.tick.contract in cfg.watched
    requires var c := s.mem.tick.contract; !IsPaused(s.db.controls, c) && Marker(s.db.controls, c).Some?
    ensures (forall l: nat :: l > cfg.startBlock ==> !NewlyRelied(cfg, s, step, s.mem.tick.contract, l))
      <==> MayClear(cfg, s, s.mem.tick.plan, s.mem.tick.contract)
  {
    var c, plan := s.mem.tick.contract, s.mem.tick.plan;
    if MayClear(cfg, s, plan, c) {
      forall l: nat | l > cfg.startBlock ensures !NewlyRelied(cfg, s, step, c, l) {
        UnmarkedOwes(cfg, s, step, l);
        if Owed(s, c, l) {
          BehindAll(cfg, s, plan, c, l);
        }
      }
    }
    if forall l: nat :: l > cfg.startBlock ==> !NewlyRelied(cfg, s, step, c, l) {
      forall l: nat | l > cfg.startBlock && Owed(s, c, l) ensures Claimed(s, c, l) {
        UnmarkedOwes(cfg, s, step, l);
        assert !NewlyRelied(cfg, s, step, c, l);
      }
      OwedIsBehind(cfg, s, plan, c);
    }
  }

  lemma OwedIsBehind(cfg: Config, s: System, plan: Plan, c: Contract)
    requires s.mem.tick.TickClear? && s.mem.tick.plan == plan
    requires forall l: nat :: l > cfg.startBlock && Owed(s, c, l) ==> Claimed(s, c, l)
    ensures MayClear(cfg, s, plan, c)
  {
    var above := AboveClaims(cfg, s, c);
    assert !Owed(s, c, above);
    forall id | id in s.mem.jobs ensures JobBehind(cfg, s, s.mem.jobs[id], c) {
      var j := s.mem.jobs[id];
      assert JobOwes(j, c, j.cursor);
      assert j.JobLoading? && ReadPaused(j.read, c) ==> JobOwes(j, c, above);
      assert (j.JobReady? || j.JobCommitted?) && c !in j.filter ==> JobOwes(j, c, j.tip);
    }
    assert Owed(s, c, s.db.cursor) && Owed(s, c, s.mem.lastLedger);
    assert plan.from > 0 ==> Owed(s, c, plan.from - 1);
  }

  lemma BehindAll(cfg: Config, s: System, plan: Plan, c: Contract, l: nat)
    requires s.mem.tick.TickClear? && s.mem.tick.plan == plan && !IsPaused(s.db.controls, c)
    requires MayClear(cfg, s, plan, c) && Owed(s, c, l) && l > cfg.startBlock
    ensures Claimed(s, c, l)
  {
    if l <= s.db.cursor {
      ClaimedDownward(s, c, s.db.cursor, l);
    } else if l <= s.mem.lastLedger {
      ClaimedDownward(s, c, s.mem.lastLedger, l);
    } else if l < plan.from {
      ClaimedDownward(s, c, plan.from - 1, l);
    } else {
      var id :| id in s.mem.jobs && JobOwes(s.mem.jobs[id], c, l);
      var j := s.mem.jobs[id];
      assert JobBehind(cfg, s, j, c);
      ClaimedDownward(s, c, if l <= j.cursor then j.cursor else j.tip, l);
    }
  }

  lemma ReplayClearNew(cfg: Config, s: System, step: Step)
    requires step.ReplayClear?
    ensures NothingNew(cfg, s, step) <==> Orderly(cfg, s, step)
  {
    var t := s.mem.tick;
    if (t.TickClear? && step.ok && t.contract in cfg.watched && !IsPaused(s.db.controls, t.contract)
        && Marker(s.db.controls, t.contract).Some?) {
      MayClearIff(cfg, s, step);
      forall d, l: nat | d in cfg.watched && l > cfg.startBlock && d != t.contract ensures !NewlyRelied(cfg, s, step, d, l) {
        OthersKeep(cfg, s, step, d, l);
      }
    } else {
      forall d, l: nat | d in cfg.watched && l > cfg.startBlock ensures !NewlyRelied(cfg, s, step, d, l) {
        NoMarkerLost(cfg, s, step, d, l);
      }
    }
  }

  lemma OthersKeep(cfg: Config, s: System, step: Step, d: Contract, l: nat)
    requires step.ReplayClear? && s.mem.tick.TickClear? && d != s.mem.tick.contract
    ensures !NewlyRelied(cfg, s, step, d, l)
  {}

  lemma NoMarkerLost(cfg: Config, s: System, step: Step, d: Contract, l: nat)
    requires step.ReplayClear? && d in cfg.watched
    requires var t := s.mem.tick;
             !(t.TickClear? && step.ok && t.contract in cfg.watched && !IsPaused(s.db.controls, t.contract)
               && Marker(s.db.controls, t.contract).Some?)
    ensures !NewlyRelied(cfg, s, step, d, l)
  {}

  lemma OrderlyIffNothingNew(cfg: Config, s: System, step: Step)
    ensures Orderly(cfg, s, step) <==> NothingNew(cfg, s, step)
  {
    match step
    case ReplayBatch(_, _) => ReplayBatchNew(cfg, s, step);
    case ReplayClear(_) => ReplayClearNew(cfg, s, step);
    case TickCommit(_, _) => CommitNew(cfg, s, step);
    case JobBegin(_, _, _) => JobBeginNew(cfg, s, step);
    case JobBatch(_, _, _, _, _) => JobBatchNew(cfg, s, step);
    case _ => FreeStep(cfg, s, step);
  }

  // Exactly the orderly steps keep the invariant on every chain, whatever else
  // is under way: ticks and any number of backfills may overlap.
  lemma SafeIffOrderly(cfg: Config, s: System, step: Step)
    ensures SafeForEveryChain(cfg, s, step) <==> Orderly(cfg, s, step)
  {
    OrderlyIffNothingNew(cfg, s, step);
    SafeIffNothingNew(cfg, s, step);
  }

  lemma StepKeepsInv(cfg: Config, s: System, step: Step)
    requires Inv(cfg, s) && Orderly(cfg, s, step)
    ensures Inv(cfg, Next(cfg, s, step))
  {
    OrderlyIffNothingNew(cfg, s, step);
    NothingNewKeepsInv(cfg, s, step);
  }

  // ---------------------------------------------------------------- the runs

  predicate OrderlyRun(cfg: Config, s: System, steps: seq<Step>) {
    steps != [] ==>
      OrderlyRun(cfg, s, steps[..|steps| - 1])
      && Orderly(cfg, Exec(cfg, s, steps[..|steps| - 1]), steps[|steps| - 1])
  }

  lemma {:induction false} RunKeepsInv(cfg: Config, s: System, steps: seq<Step>)
    requires Inv(cfg, s) && OrderlyRun(cfg, s, steps)
    ensures Inv(cfg, Exec(cfg, s, steps))
  {
    if steps != [] {
      var n := |steps| - 1;
      RunKeepsInv(cfg, s, steps[..n]);
      StepKeepsInv(cfg, Exec(cfg, s, steps[..n]), steps[n]);
    }
  }

  // No gap: in every state an orderly run reaches, under any interleaving of
  // ticks, backfills, pauses, resumes, failures, rollbacks and crashes.
  lemma NoGapInAnyOrderlyRun(cfg: Config, books: Books, steps: seq<Step>)
    requires OrderlyRun(cfg, Boot(cfg, books), steps)
    ensures var s := Exec(cfg, Boot(cfg, books), steps);
            Covered(cfg, s.db, s.db.cursor) && Covered(cfg, s.db, s.mem.lastLedger)
  {
    BootInv(cfg, books);
    RunKeepsInv(cfg, Boot(cfg, books), steps);
    InvCovers(cfg, Exec(cfg, Boot(cfg, books), steps));
  }

  // ------------------------------------------------- the guards, one by one

  // After the step the recorded cursor has no gap behind it, on any chain.
  ghost predicate GaplessForEveryChain(cfg: Config, s: System, step: Step) {
    forall chain: seq<Event> :: Inv(cfg.(chain := chain), s) ==>
      var n := Next(cfg.(chain := chain), s, step);
      Covered(cfg.(chain := chain), n.db, n.db.cursor)
  }

  lemma OrderlyIsGapless(cfg: Config, s: System, step: Step)
    requires Orderly(cfg, s, step)
    ensures GaplessForEveryChain(cfg, s, step)
  {
    SafeIffOrderly(cfg, s, step);
    forall chain: seq<Event> | Inv(cfg.(chain := chain), s)
      ensures var n := Next(cfg.(chain := chain), s, step); Covered(cfg.(chain := chain), n.db, n.db.cursor)
    {
      InvCovers(cfg.(chain := chain), Next(cfg.(chain := chain), s, step));
    }
  }

  // The cursor is at or past a ledger of c that is news and may be lacking.
  lemma GapAtCursor(cfg: Config, s: System, step: Step, c: Contract, l: nat)
    requires c in cfg.watched && cfg.startBlock < l <= Control0(cfg, s, step).db.cursor
    requires !Relies(s, c, l) && MayLack(cfg, s, step, c, l)
    requires Marker(Control0(cfg, s, step).db.controls, c).None?
    ensures !GaplessForEveryChain(cfg, s, step)
  {
    var x := LackingEvent(cfg, s, step, c, l);
    var one := cfg.(chain := [x]);
    FreshKeepsInv(cfg, s, x);
    LackingStays(cfg, s, step, x);
    ControlOf(one, s, step);
    Control0Same(cfg, [x], s, step);
    assert Relevant(one, x);
    assert !Covered(one, Next(one, s, step).db, Next(one, s, step).db.cursor);
  }

  // The tick records `latest` although it computed a capped range: safe, and
  // without a gap, for every chain exactly when the answer reaches `latest`
  // and no missed event is lost. `c` is a fetched contract without a marker of
  // which `latest` is news.
  lemma TickCommitSafeIff(cfg: Config, s: System, c: Contract, missed: set<Event>)
    requires s.mem.tick.TickFetched? && c in s.mem.tick.filter && c in cfg.watched
    requires Marker(s.db.controls, c).None? && !Settled(cfg, s, c, s.mem.tick.latest)
    ensures var t := s.mem.tick;
            var safe := t.latest <= t.horizon && NoneLost(cfg, s, t.filter, t.latest, missed);
            && (SafeForEveryChain(cfg, s, TickCommit(true, missed)) <==> safe)
            && (GaplessForEveryChain(cfg, s, TickCommit(true, missed)) <==> safe)
  {
    var t, step := s.mem.tick, TickCommit(true, missed);
    SafeIffOrderly(cfg, s, step);
    if Orderly(cfg, s, step) {
      OrderlyIsGapless(cfg, s, step);
    } else if t.latest > t.horizon {
      GapAtCursor(cfg, s, step, c, t.latest);
    } else {
      var m :| m in missed && m.contract in t.filter && m.contract in cfg.watched
        && Marker(s.db.controls, m.contract).None? && m.ledger <= t.latest && !Excused(cfg, s, m);
      GapAtCursor(cfg, s, step, m.contract, m.ledger);
    }
  }

  // A backfill from a given ledger is safe exactly when that ledger is already
  // relied on for every watched contract without a marker; up to either cursor
  // it always is.
  lemma BackfillSafeIff(cfg: Config, s: System, id: nat, from: nat, tip: nat)
    requires id !in s.mem.jobs
    ensures SafeForEveryChain(cfg, s, JobBegin(id, Some(from), tip))
            <==> forall c :: c in cfg.watched && Marker(s.db.controls, c).None? ==> Settled(cfg, s, c, from)
    ensures from <= s.db.cursor || from <= s.mem.lastLedger ==> SafeForEveryChain(cfg, s, JobBegin(id, Some(from), tip))
  {
    SafeIffOrderly(cfg, s, JobBegin(id, Some(from), tip));
  }

  // With nothing but the two cursors in play it must not start beyond both:
  // otherwise its first batch leaves a gap on some chain.
  lemma BackfillBeyondCursors(cfg: Config, s: System, id: nat, from: nat, tip: nat, c: Contract, batch: Step)
    requires s.mem.tick.TickIdle? && s.mem.jobs == map[] && cfg.startBlock < from < tip
    requires c in cfg.watched && c !in s.db.controls && c !in s.mem.controls
    requires batch.JobBatch? && batch.id == id && batch.size > 0 && batch.committed && batch.missed == {}
    requires batch.answer.Some? && batch.answer.value >= Min(from + batch.size, tip)
    ensures (forall chain: seq<Event> :: Inv(cfg.(chain := chain), s) ==> GaplessBackfill(cfg.(chain := chain), s, id, from, tip, batch))
      <==> from <= s.db.cursor || from <= s.mem.lastLedger
  {
    if from <= s.db.cursor || from <= s.mem.lastLedger {
      forall chain: seq<Event> | Inv(cfg.(chain := chain), s)
        ensures GaplessBackfill(cfg.(chain := chain), s, id, from, tip, batch)
      {
        var other := cfg.(chain := chain);
        StartKeepsInv(other, s, id, from, tip);
        BatchOfStarted(other, s, id, from, tip, batch);
        StepKeepsInv(other, Started(other, s, id, from, tip), batch);
        InvCovers(other, Next(other, Started(other, s, id, from, tip), batch));
      }
    } else {
      var x := FreshEvent(s.db.handed, c, from);
      var one := cfg.(chain := [x]);
      FreshKeepsInv(cfg, s, x);
      var n := Started(one, s, id, from, tip);
      StartedState(one, s, id, from, tip, c);
      HandsOver(one, n, batch, x);
      ControlOf(one, n, batch);
      assert Relevant(one, x);
      assert !GaplessBackfill(one, s, id, from, tip, batch);
    }
  }

  // A backfill that has read its controls.
  function Started(cfg: Config, s: System, id: nat, from: nat, tip: nat): System {
    Next(cfg, Next(cfg, Next(cfg, s, JobBegin(id, Some(from), tip)), JobRead(id, true)), JobLoad(id))
  }

  lemma StartedState(cfg: Config, s: System, id: nat, from: nat, tip: nat, c: Contract)
    requires s.mem.jobs == map[] && c in cfg.watched && c !in s.db.controls
    ensures var n, filter := Started(cfg, s, id, from, tip), ActiveContracts(cfg.watched, s.db.controls);
            && c in filter && n.db == s.db && n.mem.jobs == map[id := JobReady(from, tip, filter)]
  {
    assert c in ActiveContracts(cfg.watched, s.db.controls);
  }

  lemma StartKeepsInv(cfg: Config, s: System, id: nat, from: nat, tip: nat)
    requires Inv(cfg, s) && (from <= s.db.cursor || from <= s.mem.lastLedger)
    ensures Inv(cfg, Started(cfg, s, id, from, tip))
  {
    StepKeepsInv(cfg, s, JobBegin(id, Some(from), tip));
    var s1 := Next(cfg, s, JobBegin(id, Some(from), tip));
    StepKeepsInv(cfg, s1, JobRead(id, true));
    StepKeepsInv(cfg, Next(cfg, s1, JobRead(id, true)), JobLoad(id));
  }

  lemma BatchOfStarted(cfg: Config, s: System, id: nat, from: nat, tip: nat, batch: Step)
    requires s.mem.jobs == map[] && batch.JobBatch? && batch.id == id && batch.missed == {}
    requires batch.answer.Some? && batch.answer.value >= Min(from + batch.size, tip)
    ensures Orderly(cfg, Started(cfg, s, id, from, tip), batch)
  {}

  ghost predicate GaplessBackfill(cfg: Config, s: System, id: nat, from: nat, tip: nat, batch: Step) {
    var n := Next(cfg, Started(cfg, s, id, from, tip), batch);
    Covered(cfg, n.db, n.db.cursor)
  }

  // A replay batch is safe exactly when the answer reaches its end and each
  // event it missed, memory taking the contract for paused at the moment of
  // its check, was handed over before or is settled.
  lemma ReplayBatchSafeIff(cfg: Config, s: System, horizon: nat, missed: set<Event>)
    requires s.mem.tick.TickBatch? && s.mem.tick.contract in cfg.watched
    requires !Settled(cfg, s, s.mem.tick.contract, BatchEnd(cfg, s.mem.tick))
    ensures var c, end := s.mem.tick.contract, BatchEnd(cfg, s.mem.tick);
            SafeForEveryChain(cfg, s, ReplayBatch(Some(horizon), missed))
            <==> end <= horizon && forall m :: m in missed && m.contract == c && m.ledger <= end ==> Excused(cfg, s, m)
  {
    SafeIffOrderly(cfg, s, ReplayBatch(Some(horizon), missed));
  }

  // A marker may be cleared exactly when nobody takes the contract for paused
  // and it is caught up to every ledger that is recorded or resumed from.
  lemma ReplayClearSafeIff(cfg: Config, s: System)
    requires s.mem.tick.TickClear? && s.mem.tick.contract in cfg.watched
    requires var c := s.mem.tick.contract; !IsPaused(s.db.controls, c) && Marker(s.db.controls, c).Some?
    ensures SafeForEveryChain(cfg, s, ReplayClear(true)) <==> MayClear(cfg, s, s.mem.tick.plan, s.mem.tick.contract)
  {
    SafeIffOrderly(cfg, s, ReplayClear(true));
  }

  // A backfill batch is safe, and without a gap, exactly when the answer
  // reaches its end and no missed event is lost. `c` is a fetched contract
  // without a marker of which the end is news.
  lemma BackfillBatchSafeIff(cfg: Config, s: System, batch: Step, c: Contract)
    requires batch.JobBatch? && Commits(s, batch)
    requires c in s.mem.jobs[batch.id].filter && c in cfg.watched && Marker(s.db.controls, c).None?
    requires !Settled(cfg, s, c, JobEnd(s.mem.jobs[batch.id], batch.size))
    ensures var j := s.mem.jobs[batch.id];
            var safe := JobEnd(j, batch.size) <= batch.answer.value && NoneLost(cfg, s, j.filter, JobEnd(j, batch.size), batch.missed);
            && (SafeForEveryChain(cfg, s, batch) <==> safe)
            && (GaplessForEveryChain(cfg, s, batch) <==> safe)
  {
    var j := s.mem.jobs[batch.id];
    var end := JobEnd(j, batch.size);
    SafeIffOrderly(cfg, s, batch);
    if Orderly(cfg, s, batch) {
      OrderlyIsGapless(cfg, s, batch);
    } else if end > batch.answer.value {
      GapAtCursor(cfg, s, batch, c, end);
    } else {
      var m :| m in batch.missed && m.contract in j.filter && m.contract in cfg.watched
        && Marker(s.db.controls, m.contract).None? && m.ledger <= end && !Excused(cfg, s, m);
      GapAtCursor(cfg, s, batch, m.contract, m.ledger);
    }
  }

  // ------------------------------------------- what the replay guards prevent

  // After the step neither cursor has a gap behind it, on any chain.
  ghost predicate CursorsGapless(cfg: Config, s: System, steps: seq<Step>) {
    forall chain: seq<Event> :: Inv(cfg.(chain := chain), s) ==>
      var n := Exec(cfg.(chain := chain), s, steps);
      Covered(cfg.(chain := chain), n.db, n.db.cursor) && Covered(cfg.(chain := chain), n.db, n.mem.lastLedger)
  }

  // A tick about to clear the marker of a watched contract that is resumed.
  predicate Clearing(cfg: Config, s: System) {
    s.mem.tick.TickClear? && s.mem.tick.contract in cfg.watched
    && !IsPaused(s.db.controls, s.mem.tick.contract) && Marker(s.db.controls, s.mem.tick.contract).Some?
  }

  lemma ClearUncovers(cfg: Config, s: System, x: Event)
    requires Clearing(cfg, s) && x.contract == s.mem.tick.contract && Relevant(cfg, x) && x !in s.db.handed
    requires x.ledger <= s.db.cursor || x.ledger <= s.mem.lastLedger
    ensures var n := Next(cfg, s, ReplayClear(true));
            !Covered(cfg, n.db, n.db.cursor) || !Covered(cfg, n.db, n.mem.lastLedger)
  {}

  lemma ClearCovers(cfg: Config, s: System)
    requires Inv(cfg, s) && Clearing(cfg, s)
    requires Behind(cfg, s, s.mem.tick.contract, s.db.cursor) && Behind(cfg, s, s.mem.tick.contract, s.mem.lastLedger)
    ensures var n := Next(cfg, s, ReplayClear(true));
            Covered(cfg, n.db, n.db.cursor) && Covered(cfg, n.db, n.mem.lastLedger)
  {
    InvCovers(cfg, s);
    var c := s.mem.tick.contract;
    forall e | Relevant(cfg, e) && e.contract == c && (e.ledger <= s.db.cursor || e.ledger <= s.mem.lastLedger)
      ensures e in s.db.handed
    {
      var l := if e.ledger <= s.db.cursor then s.db.cursor else s.mem.lastLedger;
      assert Relies(s, c, l);
    }
  }

  // Clearing a marker leaves no gap behind the cursors, on any chain, exactly
  // when the contract is caught up to both.
  lemma ClearLeavesNoGapIff(cfg: Config, s: System)
    requires Clearing(cfg, s)
    ensures CursorsGapless(cfg, s, [ReplayClear(true)])
      <==> Behind(cfg, s, s.mem.tick.contract, s.db.cursor) && Behind(cfg, s, s.mem.tick.contract, s.mem.lastLedger)
  {
    var c := s.mem.tick.contract;
    if Behind(cfg, s, c, s.db.cursor) && Behind(cfg, s, c, s.mem.lastLedger) {
      forall chain: seq<Event> | Inv(cfg.(chain := chain), s)
        ensures var n := Exec(cfg.(chain := chain), s, [ReplayClear(true)]);
                Covered(cfg.(chain := chain), n.db, n.db.cursor) && Covered(cfg.(chain := chain), n.db, n.mem.lastLedger)
      {
        ExecOne(cfg.(chain := chain), s, ReplayClear(true));
        ClearCovers(cfg.(chain := chain), s);
      }
    } else {
      var x := FreshEvent(s.db.handed, c, if !Behind(cfg, s, c, s.db.cursor) then s.db.cursor else s.mem.lastLedger);
      var one := cfg.(chain := [x]);
      FreshKeepsInv(cfg, s, x);
      ExecOne(one, s, ReplayClear(true));
      ClearUncovers(one, s, x);
    }
  }

  // The last batch of a replay up to the cursor in memory.
  predicate LastBatch(cfg: Config, s: System) {
    s.mem.tick.TickBatch? && s.mem.tick.contract in cfg.watched
    && BatchEnd(cfg, s.mem.tick) == s.mem.tick.to == s.mem.lastLedger
    && !IsPaused(s.db.controls, s.mem.tick.contract) && Marker(s.db.controls, s.mem.tick.contract).Some?
  }

  lemma LastBatchThenClear(cfg: Config, s: System, horizon: nat, missed: set<Event>)
    requires LastBatch(cfg, s)
    ensures var n := Next(cfg, s, ReplayBatch(Some(horizon), missed));
            Clearing(cfg, n) && n.mem.lastLedger == s.mem.lastLedger && n.db.cursor == s.db.cursor
            && n.mem.tick == TickClear(s.mem.tick.plan, s.mem.tick.contract, s.mem.tick.to)
  {
    ControlOf(cfg, s, ReplayBatch(Some(horizon), missed));
  }

  // The last batch of a replay and the clearing of its marker leave no gap
  // behind the cursors, on any chain, exactly when the batch meets its guard.
  lemma ReplayLeavesNoGapIff(cfg: Config, s: System, horizon: nat, missed: set<Event>)
    requires LastBatch(cfg, s) && s.db.cursor <= s.mem.lastLedger
    ensures CursorsGapless(cfg, s, [ReplayBatch(Some(horizon), missed), ReplayClear(true)]) <==> ReplayReaches(cfg, s, horizon, missed)
  {
    var c, batch := s.mem.tick.contract, ReplayBatch(Some(horizon), missed);
    if ReplayReaches(cfg, s, horizon, missed) {
      forall chain: seq<Event> | Inv(cfg.(chain := chain), s)
        ensures var n := Exec(cfg.(chain := chain), s, [batch, ReplayClear(true)]);
                Covered(cfg.(chain := chain), n.db, n.db.cursor) && Covered(cfg.(chain := chain), n.db, n.mem.lastLedger)
      {
        var other := cfg.(chain := chain);
        ExecTwo(other, s, batch, ReplayClear(true));
        StepKeepsInv(other, s, batch);
        LastBatchThenClear(other, s, horizon, missed);
        ClearCovers(other, Next(other, s, batch));
      }
    } else {
      var l := UnreachedLedger(cfg, s, horizon, missed);
      var x := LackingEvent(cfg, s, batch, c, l);
      var one := cfg.(chain := [x]);
      FreshKeepsInv(cfg, s, x);
      LackingStays(cfg, s, batch, x);
      ExecTwo(one, s, batch, ReplayClear(true));
      LastBatchThenClear(one, s, horizon, missed);
      ClearUncovers(one, Next(one, s, batch), x);
    }
  }

  lemma UnreachedLedger(cfg: Config, s: System, horizon: nat, missed: set<Event>) returns (l: nat)
    requires LastBatch(cfg, s) && !ReplayReaches(cfg, s, horizon, missed)
    ensures cfg.startBlock < l <= s.mem.lastLedger && !Relies(s, s.mem.tick.contract, l)
    ensures MayLack(cfg, s, ReplayBatch(Some(horizon), missed), s.mem.tick.contract, l)
  {
    var c, end := s.mem.tick.contract, BatchEnd(cfg, s.mem.tick);
    if end > horizon && !Settled(cfg, s, c, end) {
      l := end;
    } else {
      var m :| m in missed && m.contract == c && m.ledger <= end && !Excused(cfg, s, m);
      l := m.ledger;
    }
  }
}
