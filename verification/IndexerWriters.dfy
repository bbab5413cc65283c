// The batches of the indexer event by event (processEvent, _processEventInner,
// recordEvent and withTransaction): several writers over one event store, each
// seeing the committed rows and its own. A replay writes directly; a tick and
// a backfill batch write inside a transaction. The control part is the machine
// of IndexerMachine.
module IndexerWriters {
  import opened Common
  import opened Handlers
  import opened EventStore
  import opened IndexerMachine
  import opened IndexerCoverage

  datatype Who = TheTick | TheJob(id: nat)

  // Where processEvent stands: the event has passed the pause check, the guard
  // has found no row of it, its handler has run.
  datatype Stage = Between | Admitted(e: Event) | Unseen(e: Event) | Handled(e: Event)

  // A batch under way: `next` events of the answer have been begun; `rows` and
  // `applied` are what the transaction has not yet committed.
  datatype Work = Work(direct: bool, size: nat, horizon: nat, batch: seq<Event>, next: nat, stage: Stage,
                       missed: set<Event>, rows: set<Row>, applied: seq<Event>)

  // `store` is what is committed, the books as if the handlers of a
  // transaction ran when it commits. That is so of rows changed in a single
  // statement, under their lock; of the others only while nothing overlaps.
  datatype State = State(sys: System, store: Store, works: map<Who, Work>)

  // Do is a step of the control machine other than the end of a batch. An act
  // whose moment has not come changes nothing. Record(who, false) is an insert
  // that fails, Close(who, false) a rollback.
  datatype Act =
    | Do(step: Step)
    | Open(who: Who, horizon: nat, size: nat)
    | Admit(who: Who)
    | Look(who: Who)
    | Handle(who: Who)
    | Record(who: Who, ok: bool)
    | Close(who: Who, ok: bool)

  predicate Ready(sys: System, who: Who) {
    match who
    case TheTick => sys.mem.tick.TickBatch? || sys.mem.tick.TickFetched?
    case TheJob(id) => id in sys.mem.jobs && sys.mem.jobs[id].JobReady? && sys.mem.jobs[id].cursor < sys.mem.jobs[id].tip
  }

  predicate Direct(sys: System, who: Who) { who.TheTick? && sys.mem.tick.TickBatch? }

  function BatchOf(cfg: Config, sys: System, who: Who, horizon: nat): seq<Event>
    requires Ready(sys, who)
  {
    var t := sys.mem.tick;
    match who
    case TheTick => if t.TickBatch? then ReplayEvents(cfg, t, horizon) else Answer(cfg.chain, t.from, t.horizon, t.filter)
    case TheJob(id) => JobEvents(cfg, sys.mem.jobs[id], horizon)
  }

  // The control step that ends the batch.
  function LastStep(sys: System, who: Who, w: Work, ok: bool): Step {
    match who
    case TheTick => if sys.mem.tick.TickBatch? then ReplayBatch(Some(w.horizon), w.missed) else TickCommit(ok, w.missed)
    case TheJob(id) => JobBatch(id, w.size, Some(w.horizon), ok, w.missed)
  }

  // Batches end by Close, but for the call that fails before there is one.
  predicate MayDo(s: State, step: Step) {
    match step
    case ReplayBatch(answer, _) => answer.None? && TheTick !in s.works
    case TickCommit(_, _) => false
    case JobBatch(id, _, answer, _, _) => answer.None? && TheJob(id) !in s.works
    case _ => true
  }

  // Another transaction has inserted into that slot and not ended: an insert waits.
  predicate SlotLocked(s: State, who: Who, r: Row) {
    exists v, q :: v in s.works && v != who && q in s.works[v].rows && Slot(q) == Slot(r)
  }

  predicate Finished(w: Work) { w.next >= |w.batch| && w.stage.Between? }

  predicate MayClose(s: State, who: Who, ok: bool) {
    who in s.works && Ready(s.sys, who) && if ok then Finished(s.works[who]) else !s.works[who].direct
  }

  // The committed store with what one transaction has done.
  function Publish(store: Store, w: Work): Store {
    Store(store.rows + w.rows, store.applied + w.applied, Run(store.books, LogOf(w.applied)))
  }

  // READ COMMITTED: what is committed, and one's own.
  function Visible(store: Store, w: Work): Store { if w.direct then store else Publish(store, w) }

  function AdmitNext(controls: map<Contract, Control>, w: Work): Work
    requires w.next < |w.batch|
  {
    var e := w.batch[w.next];
    if IsPaused(controls, e.contract) then w.(next := w.next + 1, missed := w.missed + {e})
    else w.(next := w.next + 1, stage := Admitted(e))
  }

  function LookUp(store: Store, w: Work): Work
    requires w.stage.Admitted?
  {
    w.(stage := if Recognises(Visible(store, w).rows, w.stage.e) then Between else Unseen(w.stage.e))
  }

  // The insert of a transaction sees what is committed and its own rows.
  function RecordRow(store: Store, w: Work): Work
    requires w.stage.Handled?
  {
    var row := RowOf(w.stage.e);
    w.(stage := Between, rows := if Taken(store.rows + w.rows, row) then w.rows else w.rows + {row})
  }

  function Perform(cfg: Config, s: State, act: Act): State {
    match act
    case Do(step) =>
      if !MayDo(s, step) then s
      else State(Next(cfg, s.sys, step), s.store, if step.Crash? then map[] else s.works)
    case Open(who, horizon, size) =>
      if who in s.works || !Ready(s.sys, who) then s
      else s.(works := s.works[who := Work(Direct(s.sys, who), size, horizon, BatchOf(cfg, s.sys, who, horizon), 0, Between,
                                           {}, {}, [])])
    case Admit(who) =>
      if who !in s.works || !s.works[who].stage.Between? || s.works[who].next >= |s.works[who].batch| then s
      else s.(works := s.works[who := AdmitNext(s.sys.mem.controls, s.works[who])])
    case Look(who) =>
      if who !in s.works || !s.works[who].stage.Admitted? then s
      else s.(works := s.works[who := LookUp(s.store, s.works[who])])
    case Handle(who) =>
      if who !in s.works || !s.works[who].stage.Unseen? then s
      else
        var w := s.works[who];
        var e := w.stage.e;
        if w.direct then s.(store := Half(s.store, e), works := s.works[who := w.(stage := Handled(e))])
        else s.(works := s.works[who := w.(stage := Handled(e), applied := w.applied + [e])])
    case Record(who, ok) =>
      if who !in s.works || !s.works[who].stage.Handled? then s
      else
        var w := s.works[who];
        var row := RowOf(w.stage.e);
        if !ok then if w.direct then s.(works := s.works[who := w.(stage := Between)]) else s
        else if SlotLocked(s, who, row) then s
        else if w.direct then
          s.(store := s.store.(rows := Insert(s.store.rows, row)), works := s.works[who := w.(stage := Between)])
        else s.(works := s.works[who := RecordRow(s.store, w)])
    case Close(who, ok) =>
      if !MayClose(s, who, ok) then s
      else
        var w := s.works[who];
        State(Next(cfg, s.sys, LastStep(s.sys, who, w, ok)), if ok && !w.direct then Publish(s.store, w) else s.store,
              s.works - {who})
  }

  function PerformAll(cfg: Config, s: State, acts: seq<Act>): State
    decreases |acts|, 1
  {
    if acts == [] then s else PerformNonempty(cfg, s, acts)
  }

  function PerformNonempty(cfg: Config, s: State, acts: seq<Act>): State
    requires acts != []
    decreases |acts|, 0
  {
    Perform(cfg, PerformAll(cfg, s, acts[..|acts| - 1]), acts[|acts| - 1])
  }

  function Start(cfg: Config, books: Books): State {
    State(Boot(cfg, books), Empty(books), map[])
  }

  lemma PerformSnoc(cfg: Config, s: State, acts: seq<Act>, act: Act)
    ensures PerformAll(cfg, s, acts + [act]) == Perform(cfg, PerformAll(cfg, s, acts), act)
  {
    assert (acts + [act])[..|acts + [act]| - 1] == acts;
  }

  lemma {:induction false} PerformConcat(cfg: Config, s: State, p: seq<Act>, q: seq<Act>)
    ensures PerformAll(cfg, s, p + q) == PerformAll(cfg, PerformAll(cfg, s, p), q)
  {
    if q == [] {
      assert p + q == p;
    } else {
      PerformConcat(cfg, s, p, q[..|q| - 1]);
      assert (p + q)[..|p + q| - 1] == p + q[..|q| - 1];
    }
  }

  // ------------------------------------------- the control machine underneath

  // The control steps that an act takes: one or none.
  function StepsOf(s: State, act: Act): seq<Step> {
    match act
    case Do(step) => if MayDo(s, step) then [step] else []
    case Close(who, ok) => if MayClose(s, who, ok) then [LastStep(s.sys, who, s.works[who], ok)] else []
    case _ => []
  }

  function AllSteps(cfg: Config, s: State, acts: seq<Act>): seq<Step> {
    if acts == [] then []
    else AllSteps(cfg, s, acts[..|acts| - 1]) + StepsOf(PerformAll(cfg, s, acts[..|acts| - 1]), acts[|acts| - 1])
  }

  // Whatever the writers do, cursor, markers and memory go through a run of
  // the control machine.
  lemma {:induction false} WritersRunControl(cfg: Config, s: State, acts: seq<Act>)
    ensures PerformAll(cfg, s, acts).sys == Exec(cfg, s.sys, AllSteps(cfg, s, acts))
  {
    if acts != [] {
      var init, last := acts[..|acts| - 1], acts[|acts| - 1];
      var before := PerformAll(cfg, s, init);
      WritersRunControl(cfg, s, init);
      OneActOfControl(cfg, before, last);
      ExecConcat(cfg, s.sys, AllSteps(cfg, s, init), StepsOf(before, last));
    }
  }

  lemma OneActOfControl(cfg: Config, s: State, act: Act)
    ensures Perform(cfg, s, act).sys == Exec(cfg, s.sys, StepsOf(s, act))
  {
    if StepsOf(s, act) != [] {
      ExecOne(cfg, s.sys, StepsOf(s, act)[0]);
    } else {
      assert Exec(cfg, s.sys, []) == s.sys;
    }
  }

  // Hence no gap arises while the control steps are orderly, the missed events
  // being those that memory took for paused at their own checks.
  lemma NoGapInAnyOrderlyActs(cfg: Config, books: Books, acts: seq<Act>)
    requires OrderlyRun(cfg, Boot(cfg, books), AllSteps(cfg, Start(cfg, books), acts))
    ensures var sys := PerformAll(cfg, Start(cfg, books), acts).sys;
            Covered(cfg, sys.db, sys.db.cursor) && Covered(cfg, sys.db, sys.mem.lastLedger)
  {
    WritersRunControl(cfg, Start(cfg, books), acts);
    NoGapInAnyOrderlyRun(cfg, books, AllSteps(cfg, Start(cfg, books), acts));
  }

  // --------------------------------------------------- what a batch works on

  // The work of a writer is the batch its control state calls for.
  predicate Fits(cfg: Config, sys: System, who: Who, w: Work) {
    && Ready(sys, who)
    && w.direct == Direct(sys, who)
    && w.batch == BatchOf(cfg, sys, who, w.horizon)
    && w.next <= |w.batch|
  }

  ghost predicate AllFit(cfg: Config, s: State) {
    forall who :: who in s.works ==> Fits(cfg, s.sys, who, s.works[who])
  }

  // The control state that a writer's batch is taken from.
  predicate SameBase(a: System, b: System, who: Who) {
    match who
    case TheTick => a.mem.tick == b.mem.tick
    case TheJob(id) => id in a.mem.jobs && id in b.mem.jobs && a.mem.jobs[id] == b.mem.jobs[id]
  }

  lemma SameBaseFits(cfg: Config, a: System, b: System, who: Who, w: Work)
    requires Fits(cfg, a, who, w) && SameBase(a, b, who)
    ensures Fits(cfg, b, who, w)
  {}

  // No step but the end of its own batch, or a crash, moves a ready writer.
  lemma OthersKeepBase(cfg: Config, s: State, step: Step, who: Who)
    requires MayDo(s, step) && !step.Crash? && who in s.works && Ready(s.sys, who)
    ensures SameBase(s.sys, Next(cfg, s.sys, step), who)
  {}

  lemma CloseKeepsBase(cfg: Config, sys: System, w: Work, ok: bool, closed: Who, who: Who)
    requires Ready(sys, closed) && Ready(sys, who) && who != closed
    ensures SameBase(sys, Next(cfg, sys, LastStep(sys, closed, w, ok)), who)
  {}

  // But for `next` and `missed` an act on events leaves the task of a work.
  predicate SameTask(a: Work, b: Work) {
    a.direct == b.direct && a.size == b.size && a.horizon == b.horizon && a.batch == b.batch
    && a.next == b.next && a.missed == b.missed
  }

  // What an act on events makes of one work.
  predicate WorkMoves(cfg: Config, s: State, act: Act, who: Who, after: Work) {
    if who !in s.works then
      act.Open? && act.who == who && Ready(s.sys, who)
      && after == Work(Direct(s.sys, who), act.size, act.horizon, BatchOf(cfg, s.sys, who, act.horizon), 0, Between, {}, {}, [])
    else
      SameTask(s.works[who], after)
      || (act == Admit(who) && s.works[who].next < |s.works[who].batch|
          && after == AdmitNext(s.sys.mem.controls, s.works[who]))
  }

  lemma EventAct(cfg: Config, s: State, act: Act, who: Who)
    requires StepsOf(s, act) == [] && who in Perform(cfg, s, act).works
    ensures Perform(cfg, s, act).sys == s.sys && WorkMoves(cfg, s, act, who, Perform(cfg, s, act).works[who])
  {}

  lemma ControlAct(cfg: Config, s: State, act: Act, who: Who)
    requires StepsOf(s, act) != [] && AllFit(cfg, s) && who in Perform(cfg, s, act).works
    ensures var n := Perform(cfg, s, act);
            n.sys == Next(cfg, s.sys, StepsOf(s, act)[0]) && who in s.works && n.works[who] == s.works[who]
            && SameBase(s.sys, n.sys, who)
  {
    assert Fits(cfg, s.sys, who, s.works[who]);
    if act.Do? {
      OthersKeepBase(cfg, s, act.step, who);
    } else {
      CloseKeepsBase(cfg, s.sys, s.works[act.who], act.ok, act.who, who);
    }
  }

  lemma ActKeepsFit(cfg: Config, s: State, act: Act)
    requires AllFit(cfg, s)
    ensures AllFit(cfg, Perform(cfg, s, act))
  {
    var n := Perform(cfg, s, act);
    forall who | who in n.works ensures Fits(cfg, n.sys, who, n.works[who]) {
      if StepsOf(s, act) == [] {
        EventAct(cfg, s, act, who);
      } else {
        ControlAct(cfg, s, act, who);
        SameBaseFits(cfg, s.sys, n.sys, who, s.works[who]);
      }
    }
  }

  // Ending a batch hands over its events but those missed.
  lemma CloseHands(cfg: Config, s: State, who: Who, e: Event)
    requires MayClose(s, who, true) && Fits(cfg, s.sys, who, s.works[who])
    ensures var w := s.works[who];
            e in Next(cfg, s.sys, LastStep(s.sys, who, w, true)).db.handed
            <==> e in s.sys.db.handed || (e in w.batch && e !in w.missed)
  {
    ProcessAllHands(s.works[who].missed, s.sys.db, s.works[who].batch);
  }

  lemma RollbackHandsNothing(cfg: Config, s: State, who: Who)
    requires MayClose(s, who, false) && Fits(cfg, s.sys, who, s.works[who])
    ensures Next(cfg, s.sys, LastStep(s.sys, who, s.works[who], false)).db == s.sys.db
  {}

  lemma DoHandsNothing(cfg: Config, s: State, step: Step)
    requires MayDo(s, step)
    ensures Next(cfg, s.sys, step).db.handed == s.sys.db.handed
  {}

  // ------------------------------------------------------------- slot locks

  // No two open transactions have a row in one slot of the unique constraint.
  ghost predicate SlotsApart(s: State) {
    forall u, v, q, r :: u in s.works && v in s.works && q in s.works[u].rows && r in s.works[v].rows && Slot(q) == Slot(r) ==> u == v
  }

  lemma ActKeepsSlotsApart(cfg: Config, s: State, act: Act)
    requires SlotsApart(s)
    ensures SlotsApart(Perform(cfg, s, act))
  {
    var n := Perform(cfg, s, act);
    forall u, v, q, r | u in n.works && v in n.works && q in n.works[u].rows && r in n.works[v].rows && Slot(q) == Slot(r)
      ensures u == v
    {
      RowsMove(cfg, s, act, u, q);
      RowsMove(cfg, s, act, v, r);
    }
  }

  // A row a writer has after an act it had before, or it has just inserted it
  // into a slot that nobody else had.
  lemma RowsMove(cfg: Config, s: State, act: Act, u: Who, q: Row)
    requires u in Perform(cfg, s, act).works && q in Perform(cfg, s, act).works[u].rows
    ensures u in s.works && (q in s.works[u].rows || (act == Record(u, true) && !SlotLocked(s, u, q)))
  {}

  // However they interleave.
  lemma {:induction false} SlotsStayApart(cfg: Config, books: Books, acts: seq<Act>)
    ensures SlotsApart(PerformAll(cfg, Start(cfg, books), acts))
  {
    if acts != [] {
      SlotsStayApart(cfg, books, acts[..|acts| - 1]);
      ActKeepsSlotsApart(cfg, PerformAll(cfg, Start(cfg, books), acts[..|acts| - 1]), acts[|acts| - 1]);
    }
  }
}
