// The control of the indexer as a step machine (backend/src/services/indexer.ts):
// ticks, backfills, replays of resumed contracts, administrator pauses, RPC
// failures, rollbacks and crashes. What a batch does to cursor and markers
// takes effect at its last step; its events one by one are in IndexerWriters.
module IndexerMachine {
  import opened Common
  import opened Handlers
  import opened EventStore

  datatype Control = Control(paused: bool, marker: Option<nat>)

  // The tables indexer_state, indexer_contract_state and indexed_events.
  // `handed` is the set of events that passed the pause check of processEvent.
  datatype Database = Database(cursor: nat, controls: map<Contract, Control>, handed: set<Event>, store: Store)

  // What a tick iterates over: the markers of the contracts it found resumed,
  // taken from the controls that `version` loads had put in memory.
  datatype Plan = Plan(from: nat, latest: nat, version: nat, todo: map<Contract, nat>)

  // `reach` is the ledger a contract has been caught up to.
  datatype Tick =
    | TickIdle
    | TickGot(from: nat, latest: nat)
    | TickLoading(from: nat, latest: nat, read: Option<map<Contract, Control>>)
    | TickReplay(plan: Plan)
    | TickBatch(plan: Plan, contract: Contract, cursor: nat, to: nat)
    | TickClear(plan: Plan, contract: Contract, reach: nat)
    | TickFetched(from: nat, latest: nat, filter: set<Contract>, horizon: nat)
    | TickCommitted(latest: nat)

  // A committed batch is in the database before memory takes note of it.
  datatype Job =
    | JobStarting(cursor: nat, tip: nat)
    | JobLoading(cursor: nat, tip: nat, read: Option<map<Contract, Control>>)
    | JobReady(cursor: nat, tip: nat, filter: set<Contract>)
    | JobCommitted(cursor: nat, tip: nat, filter: set<Contract>)

  // Any number of backfills may be under way beside the one tick.
  datatype Memory = Memory(running: bool, lastLedger: nat, controls: map<Contract, Control>, version: nat,
                           tick: Tick, jobs: map<nat, Job>)

  datatype System = System(db: Database, mem: Memory)

  // The chain history, the watch set, the configured start block and batch size.
  datatype Config = Config(chain: seq<Event>, watched: set<Contract>, startBlock: nat, batchSize: nat)

  // `answer` is the last ledger an RPC response covers, or None for a failure;
  // `missed` holds the events the pause checks of the batch let fall. Controls
  // are read from the database in one step and put in memory in a later one.
  datatype Step =
    | TickBegin(latest: nat)
    | TickRead(ok: bool)
    | TickLoad
    | ReplayPick(contract: Contract)
    | ReplayBatch(answer: Option<nat>, missed: set<Event>)
    | ReplayClear(ok: bool)
    | TickFetch(answer: Option<nat>)
    | TickCommit(ok: bool, missed: set<Event>)
    | TickFinish(ok: bool)
    | JobBegin(id: nat, from: Option<nat>, tip: nat)
    | JobRead(id: nat, ok: bool)
    | JobLoad(id: nat)
    | JobBatch(id: nat, size: nat, answer: Option<nat>, committed: bool, missed: set<Event>)
    | JobFinish(id: nat)
    | Pause(contract: Contract)
    | Resume(contract: Contract)
    | Crash

  predicate IsPaused(controls: map<Contract, Control>, c: Contract) {
    c in controls && controls[c].paused
  }

  function Marker(controls: map<Contract, Control>, c: Contract): Option<nat> {
    if c in controls then controls[c].marker else None
  }

  function ActiveContracts(watched: set<Contract>, controls: map<Contract, Control>): set<Contract> {
    set c | c in watched && !IsPaused(controls, c)
  }

  // The markers of the contracts that are no longer paused.
  function Resumed(controls: map<Contract, Control>): map<Contract, nat> {
    map c | c in controls && !controls[c].paused && controls[c].marker.Some? :: controls[c].marker.value
  }

  // getEvents has a start ledger and a contract filter, but no end ledger.
  function Answer(chain: seq<Event>, from: nat, horizon: nat, filter: set<Contract>): seq<Event> {
    Filter(chain, (e: Event) => from <= e.ledger <= horizon && e.contract in filter)
  }

  function ProcessEvent(missed: set<Event>, db: Database, e: Event): Database {
    if e in missed then db
    else db.(handed := db.handed + {e}, store := Deliver(db.store, e))
  }

  function ProcessAll(missed: set<Event>, db: Database, es: seq<Event>): Database {
    if es == [] then db
    else ProcessEvent(missed, ProcessAll(missed, db, es[..|es| - 1]), es[|es| - 1])
  }

  function UpTo(es: seq<Event>, ledger: nat): seq<Event> {
    Filter(es, (e: Event) => e.ledger <= ledger)
  }

  // start(): the stored cursor, or the start block while the cursor is still 0.
  function Restart(cfg: Config, db: Database): Memory {
    Memory(true, if db.cursor == 0 && cfg.startBlock > 0 then cfg.startBlock else db.cursor, map[], 0, TickIdle, map[])
  }

  function Min(a: nat, b: nat): nat { if a < b then a else b }

  // A failed read leaves the controls as they are.
  function Load(mem: Memory, read: Option<map<Contract, Control>>): Memory {
    if read.Some? then mem.(controls := read.value, version := mem.version + 1) else mem
  }

  function Read(db: Database, ok: bool): Option<map<Contract, Control>> {
    if ok then Some(db.controls) else None
  }

  // The events one replay batch hands over.
  function ReplayEvents(cfg: Config, t: Tick, answer: nat): seq<Event>
    requires t.TickBatch?
  {
    UpTo(Answer(cfg.chain, t.cursor + 1, answer, {t.contract}), t.to)
  }

  function BatchEnd(cfg: Config, t: Tick): nat
    requires t.TickBatch?
  {
    Min(t.cursor + cfg.batchSize, t.to)
  }

  // The events of one backfill batch, and the ledger it is recorded up to.
  function JobEvents(cfg: Config, j: Job, answer: nat): seq<Event>
    requires j.JobReady?
  {
    Answer(cfg.chain, j.cursor + 1, answer, j.filter)
  }

  function JobEnd(j: Job, size: nat): nat { Min(j.cursor + size, j.tip) }

  // UPDATE ... SET paused_at_ledger = NULL WHERE indexing_paused = FALSE.
  function Unmark(controls: map<Contract, Control>, c: Contract): map<Contract, Control> {
    if c in controls && !controls[c].paused then controls[c := Control(false, None)] else controls
  }

  // pausedAtLedger = null on the control the tick holds: memory sees it only
  // while its controls are those the tick loaded.
  function Forget(mem: Memory, plan: Plan, c: Contract): Memory {
    if plan.version == mem.version && c in mem.controls
    then mem.(controls := mem.controls[c := mem.controls[c].(marker := None)]) else mem
  }

  function Done(plan: Plan, c: Contract): Tick { TickReplay(plan.(todo := plan.todo - {c})) }

  function Next(cfg: Config, s: System, step: Step): System {
    var db, mem, t := s.db, s.mem, s.mem.tick;
    match step
    case TickBegin(latest) =>
      if mem.running && t.TickIdle? && latest > mem.lastLedger
      then s.(mem := mem.(tick := TickGot(mem.lastLedger + 1, latest)))
      else s
    case TickRead(ok) =>
      if !t.TickGot? then s else s.(mem := mem.(tick := TickLoading(t.from, t.latest, Read(db, ok))))
    case TickLoad =>
      if !t.TickLoading? then s
      else
        var loaded := Load(mem, t.read);
        s.(mem := loaded.(tick := TickReplay(Plan(t.from, t.latest, loaded.version, Resumed(loaded.controls)))))
    case ReplayPick(c) =>
      if !t.TickReplay? || c !in t.plan.todo then s
      else
        var marker := t.plan.todo[c];
        s.(mem := mem.(tick := if marker < mem.lastLedger then TickBatch(t.plan, c, marker, mem.lastLedger)
                               else TickClear(t.plan, c, marker)))
    case ReplayBatch(answer, missed) =>
      if !t.TickBatch? then s
      else if answer.None? then s.(mem := mem.(tick := Done(t.plan, t.contract)))
      else
        System(ProcessAll(missed, db, ReplayEvents(cfg, t, answer.value)),
               mem.(tick := if BatchEnd(cfg, t) < t.to then t.(cursor := BatchEnd(cfg, t))
                            else TickClear(t.plan, t.contract, t.to)))
    case ReplayClear(ok) =>
      if !t.TickClear? then s
      else if !ok then s.(mem := mem.(tick := Done(t.plan, t.contract)))
      else
        System(db.(controls := Unmark(db.controls, t.contract)),
               Forget(mem, t.plan, t.contract).(tick := Done(t.plan, t.contract)))
    case TickFetch(answer) =>
      if !t.TickReplay? || t.plan.todo != map[] then s
      else
        var filter := ActiveContracts(cfg.watched, mem.controls);
        if answer.None? && filter != {} then s.(mem := mem.(tick := TickIdle))
        else s.(mem := mem.(tick := TickFetched(t.plan.from, t.plan.latest, filter,
                                                if answer.Some? then answer.value else 0)))
    case TickCommit(ok, missed) =>
      if !t.TickFetched? then s
      else if !ok then s.(mem := mem.(tick := TickIdle))
      else
        System(ProcessAll(missed, db, Answer(cfg.chain, t.from, t.horizon, t.filter)).(cursor := t.latest),
               mem.(tick := TickCommitted(t.latest)))
    case TickFinish(ok) =>
      if !t.TickCommitted? then s
      else s.(mem := if ok then mem.(lastLedger := t.latest, tick := TickIdle)
                     else mem.(running := false, tick := TickIdle))
    case JobBegin(id, from, tip) =>
      if id in mem.jobs then s
      else s.(mem := mem.(jobs := mem.jobs[id := JobStarting(if from.Some? then from.value else mem.lastLedger, tip)]))
    case JobRead(id, ok) =>
      if id !in mem.jobs || !mem.jobs[id].JobStarting? then s
      else s.(mem := mem.(jobs := mem.jobs[id := JobLoading(mem.jobs[id].cursor, mem.jobs[id].tip, Read(db, ok))]))
    case JobLoad(id) =>
      if id !in mem.jobs || !mem.jobs[id].JobLoading? then s
      else
        var m := Load(mem, mem.jobs[id].read);
        var filter := ActiveContracts(cfg.watched, m.controls);
        s.(mem := m.(jobs := if filter == {} && cfg.watched != {} then m.jobs - {id}
                             else m.jobs[id := JobReady(m.jobs[id].cursor, m.jobs[id].tip, filter)]))
    case JobBatch(id, size, answer, committed, missed) =>
      if id !in mem.jobs || !mem.jobs[id].JobReady? then s
      else
        var j := mem.jobs[id];
        if j.cursor >= j.tip || answer.None? || !committed then s.(mem := mem.(jobs := mem.jobs - {id}))
        else
          System(ProcessAll(missed, db, JobEvents(cfg, j, answer.value)).(cursor := JobEnd(j, size)),
                 mem.(jobs := mem.jobs[id := JobCommitted(JobEnd(j, size), j.tip, j.filter)]))
    case JobFinish(id) =>
      if id !in mem.jobs || !mem.jobs[id].JobCommitted? then s
      else
        var j := mem.jobs[id];
        s.(mem := mem.(lastLedger := j.cursor, jobs := mem.jobs[id := JobReady(j.cursor, j.tip, j.filter)]))
    case Pause(c) =>
      var marker := Marker(db.controls, c);
      s.(db := db.(controls := db.controls[c := Control(true, if marker.Some? then marker else Some(db.cursor))]))
    case Resume(c) =>
      s.(db := db.(controls := db.controls[c := Control(false, Marker(db.controls, c))]))
    case Crash => s.(mem := Restart(cfg, db))
  }

  function Exec(cfg: Config, s: System, steps: seq<Step>): System
    decreases |steps|, 1
  {
    if steps == [] then s else ExecNonempty(cfg, s, steps)
  }

  function ExecNonempty(cfg: Config, s: System, steps: seq<Step>): System
    requires steps != []
    decreases |steps|, 0
  {
    Next(cfg, Exec(cfg, s, steps[..|steps| - 1]), steps[|steps| - 1])
  }

  function Boot(cfg: Config, books: Books): System {
    var db := Database(0, map[], {}, Empty(books));
    System(db, Restart(cfg, db))
  }

  lemma ExecSnoc(cfg: Config, s: System, steps: seq<Step>, step: Step)
    ensures Exec(cfg, s, steps + [step]) == Next(cfg, Exec(cfg, s, steps), step)
  {
    assert (steps + [step])[..|steps + [step]| - 1] == steps;
  }

  lemma ExecOne(cfg: Config, s: System, a: Step)
    ensures Exec(cfg, s, [a]) == Next(cfg, s, a)
  {
    ExecSnoc(cfg, s, [], a);
    assert [] + [a] == [a];
  }

  lemma ExecTwo(cfg: Config, s: System, a: Step, b: Step)
    ensures Exec(cfg, s, [a, b]) == Next(cfg, Next(cfg, s, a), b)
  {
    ExecOne(cfg, s, a);
    ExecSnoc(cfg, s, [a], b);
    assert [a] + [b] == [a, b];
  }

  lemma {:induction false} ExecConcat(cfg: Config, s: System, p: seq<Step>, q: seq<Step>)
    ensures Exec(cfg, s, p + q) == Exec(cfg, Exec(cfg, s, p), q)
  {
    if q == [] {
      assert p + q == p;
    } else {
      ExecConcat(cfg, s, p, q[..|q| - 1]);
      assert (p + q)[..|p + q| - 1] == p + q[..|q| - 1];
    }
  }

  // ------------------------------------------------------- delivering events

  // A batch hands over exactly its events but those missed.
  lemma {:induction false} ProcessAllHands(missed: set<Event>, db: Database, es: seq<Event>)
    ensures var after := ProcessAll(missed, db, es);
            && after.cursor == db.cursor && after.controls == db.controls
            && forall e :: e in after.handed <==> e in db.handed || (e in es && e !in missed)
  {
    if es != [] {
      var n := |es| - 1;
      assert es == es[..n] + [es[n]];
      ProcessAllHands(missed, db, es[..n]);
    }
  }
}
