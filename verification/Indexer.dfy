// The Indexer object (backend/src/services/indexer.ts) in its own form. A tick
// and a backfill are exactly their own steps of the machine, in order and with
// the arguments the outside world gives, so what is proved of those steps
// holds of the methods.
module IndexerObject {
  import opened Common
  import opened Handlers
  import opened EventStore
  import opened IndexerMachine
  import opened IndexerCoverage
  import opened IndexerSchedules
  import opened IndexerWriters
  import opened IndexerInterleavings
  import opened IndexerRuns
  import opened IndexerProgress

  class Indexer {
    const cfg: Config
    var db: Database
    var running: bool
    var lastLedger: nat
    var contractControls: map<Contract, Control>
    // How often the controls were replaced.
    ghost var version: nat

    ghost function View(tick: Tick, jobs: map<nat, Job>): System
      reads this
    {
      System(db, Memory(running, lastLedger, contractControls, version, tick, jobs))
    }

    ghost function Idle(): System
      reads this
    {
      View(TickIdle, map[])
    }

    // A fresh process over an existing database.
    constructor (cfg: Config, db: Database)
      ensures this.cfg == cfg && this.db == db
      ensures Idle() == System(db, Restart(cfg, db))
    {
      this.cfg := cfg;
      this.db := db;
      running := true;
      lastLedger := if db.cursor == 0 && cfg.startBlock > 0 then cfg.startBlock else db.cursor;
      contractControls := map[];
      version := 0;
    }

    // An event whose contract is paused is let fall.
    method ProcessEvent(e: Event)
      modifies this`db
      ensures db == IndexerMachine.ProcessEvent(if IsPaused(contractControls, e.contract) then {e} else {}, old(db), e)
    {
      if !IsPaused(contractControls, e.contract) {
        db := db.(handed := db.handed + {e}, store := Deliver(db.store, e));
      }
    }

    method ProcessEvents(events: seq<Event>)
      modifies this`db
      ensures db == ProcessAll(Skipped(contractControls, events), old(db), events)
    {
      for i := 0 to |events|
        invariant db == ProcessAll(Skipped(contractControls, events), old(db), events[..i])
      {
        ProcessEvent(events[i]);
        assert events[..i + 1][..i] == events[..i];
      }
      assert events[..|events|] == events;
    }

    method LoadContractControls(ok: bool)
      modifies this`contractControls, this`version
      ensures contractControls == if ok then db.controls else old(contractControls)
      ensures version == old(version) + if ok then 1 else 0
    {
      if ok {
        contractControls := db.controls;
        version := version + 1;
      }
    }

    // Batches of one resumed contract from its marker up to the cursor.
    method ReplayContract(c: Contract, marker: nat, rpc: nat -> Option<nat>) returns (ok: bool)
      requires cfg.batchSize > 0 && !IsPaused(contractControls, c)
      modifies this`db
      ensures ok <==> Answered(cfg, marker, lastLedger, rpc, 0)
      ensures db == Replayed(cfg, c, marker, lastLedger, rpc, 0, old(db))
    {
      var to := lastLedger;
      var cursor := marker;
      var call := 0;
      ghost var answered := Answered(cfg, cursor, to, rpc, call);
      ghost var replayed := Replayed(cfg, c, cursor, to, rpc, call, db);
      while cursor < to
        invariant answered == Answered(cfg, cursor, to, rpc, call)
        invariant replayed == Replayed(cfg, c, cursor, to, rpc, call, db)
        decreases if cursor < to then to - cursor else 0
      {
        ReplayRound(cfg, c, cursor, to, rpc, call, db);
        var answer := rpc(call);
        if answer.None? {
          return false;
        }
        var events := Answer(cfg.chain, cursor + 1, answer.value, {c});
        // Events past the global cursor are left to the regular tick.
        NoneSkipped(contractControls, UpTo(events, to));
        ProcessEvents(UpTo(events, to));
        cursor := Min(cursor + cfg.batchSize, to);
        call := call + 1;
      }
      ok := true;
    }

    // One entry of the loop of replayResumedContracts.
    method CatchUp(c: Contract, marker: nat, rpc: nat -> Option<nat>, cleared: bool)
      requires cfg.batchSize > 0 && !IsPaused(contractControls, c)
      modifies this`db, this`contractControls
      ensures Caught(db, contractControls)
           == CaughtUpWith(cfg, c, marker, lastLedger, rpc, cleared, old(Caught(db, contractControls)))
      ensures forall d :: IsPaused(contractControls, d) <==> IsPaused(old(contractControls), d)
    {
      var caughtUp := true;
      if marker < lastLedger {
        caughtUp := ReplayContract(c, marker, rpc);
      }
      if caughtUp && cleared {
        ClearMarker(c);
      }
    }

    // UPDATE ... SET paused_at_ledger = NULL WHERE indexing_paused = FALSE.
    method ClearMarker(c: Contract)
      modifies this`db, this`contractControls
      ensures db == old(db).(controls := Unmark(old(db).controls, c))
      ensures contractControls == if c in old(contractControls) then old(contractControls)[c := old(contractControls)[c].(marker := None)]
                                  else old(contractControls)
    {
      if c in db.controls && !db.controls[c].paused {
        db := db.(controls := db.controls[c := Control(false, None)]);
      }
      if c in contractControls {
        contractControls := contractControls[c := contractControls[c].(marker := None)];
      }
    }

    // Catch up every contract resumed since the last cycle, in some order.
    method ReplayResumedContracts(rpc: (Contract, nat) -> Option<nat>, cleared: Contract -> bool)
      returns (ghost order: seq<Contract>)
      requires cfg.batchSize > 0
      modifies this`db, this`contractControls
      ensures IsOrder(order, Resumed(old(contractControls)).Keys)
      ensures Caught(db, contractControls)
           == AllCaughtUp(cfg, order, Resumed(old(contractControls)), lastLedger, rpc, cleared, old(Caught(db, contractControls)))
    {
      var markers := Resumed(contractControls);
      var todo := markers;
      ghost var start := Caught(db, contractControls);
      order := [];
      while todo != map[]
        invariant forall c :: c in todo ==> c in markers && todo[c] == markers[c] && !IsPaused(contractControls, c)
        invariant NoDuplicates(order) && forall c :: c in order <==> c in markers && c !in todo
        invariant Caught(db, contractControls) == AllCaughtUp(cfg, order, markers, lastLedger, rpc, cleared, start)
        decreases |todo|
      {
        var c :| c in todo;
        assert (order + [c])[..|order|] == order;
        CatchUp(c, markers[c], i => rpc(c, i), cleared(c));
        order := order + [c];
        todo := todo - {c};
      }
    }

    // Fetch, and commit the events and the cursor together.
    method FetchAndCommit(from: nat, latest: nat, fetch: Option<nat>, committed: bool, retried: bool)
      modifies this`db, this`lastLedger, this`running
      ensures Exec(cfg, old(View(TickReplay(Plan(from, latest, version, map[])), map[])),
                   FetchSteps(ActiveContracts(cfg.watched, contractControls), fetch, committed, retried))
           == Idle()
      ensures fetch.Some? && committed && retried ==> lastLedger == latest == db.cursor && running == old(running)
    {
      ghost var start := View(TickReplay(Plan(from, latest, version, map[])), map[]);
      FetchRun(cfg, start, fetch, committed, retried);
      var filter := ActiveContracts(cfg.watched, contractControls);
      var events: seq<Event> := [];
      if filter != {} {
        if fetch.None? {
          return;
        }
        events := Answer(cfg.chain, from, fetch.value, filter);
      }
      if !committed {
        return;
      }
      NoneSkipped(contractControls, events);
      ProcessEvents(events);
      db := db.(cursor := latest);
      if retried {
        lastLedger := latest;
      } else {
        running := false;
      }
    }

    // One poll. Each argument is what the outside world does at one await.
    method Tick(latest: Option<nat>, loaded: bool, rpc: (Contract, nat) -> Option<nat>, cleared: Contract -> bool,
                fetch: Option<nat>, committed: bool, retried: bool)
      returns (ghost order: seq<Contract>, ghost steps: seq<Step>)
      requires running && cfg.batchSize > 0
      modifies this
      ensures Idle() == Exec(cfg, old(Idle()), steps)
      ensures var controls := if loaded then old(db.controls) else old(contractControls);
              if latest.None? || latest.value <= old(lastLedger) then steps == [] && Idle() == old(Idle())
              else
                IsOrder(order, Resumed(controls).Keys)
                && steps == TickSteps(cfg, order, latest.value, loaded, Resumed(controls), old(lastLedger), rpc, cleared,
                                      fetch, committed, retried, ActiveContracts(cfg.watched, controls))
      // Event by event it is a run of the writers in which nothing interferes.
      ensures PlainRun(cfg, old(Idle()), steps)
      // Its answers reaching the tip, a tick keeps coverage, whatever fails.
      ensures old(Calm(Idle())) && (latest.Some? ==> AnswersReach(rpc, fetch, latest.value)) ==>
                Calm(Idle()) && (Inv(cfg, old(Idle())) ==> Inv(cfg, Idle()))
      // A tick that meets no failure ends at the tip with nothing left to replay.
      ensures latest.Some? && latest.value > old(lastLedger) && fetch.Some? && committed && retried ==>
                lastLedger == latest.value == db.cursor && running
      ensures latest.Some? && latest.value > old(lastLedger) ==>
                ((forall c, i :: rpc(c, i).Some?) && (forall c :: cleared(c)) ==> Resumed(contractControls) == map[])
      // It hands over what is new and what resumed contracts were skipped over.
      ensures latest.Some? && latest.value > old(lastLedger) && loaded && fetch.Some? && committed && retried
              && (forall c, i :: rpc(c, i).Some? && rpc(c, i).value >= old(lastLedger)) && (forall c :: cleared(c)) ==>
                TickDone(cfg, old(Idle()), latest.value, fetch.value, Idle())
    {
      ghost var start := Idle();
      order, steps := [], [];
      if latest.None? || latest.value <= lastLedger {
        return;
      }
      var tip := latest.value;
      var from := lastLedger + 1;
      LoadContractControls(loaded);
      ghost var controls, to := contractControls, lastLedger;
      ghost var loadedState, plan := Caught(db, controls), Plan(from, tip, version, Resumed(controls));
      ExecThree(cfg, start, TickBegin(tip), TickRead(loaded), TickLoad);
      assert Exec(cfg, start, [TickBegin(tip), TickRead(loaded), TickLoad])
          == InTick(loadedState, running, lastLedger, version, TickReplay(plan));
      order := ReplayResumedContracts(rpc, cleared);
      ghost var replay := ReplaySteps(cfg, order, Resumed(controls), to, rpc, cleared);
      ReplayStepsRun(cfg, order, plan, rpc, cleared, loadedState, running, lastLedger);
      assert Left(plan.todo, order) == map[];
      ExecConcat(cfg, start, [TickBegin(tip), TickRead(loaded), TickLoad], replay);
      AllCaughtUpKeeps(cfg, order, Resumed(controls), to, rpc, cleared, loadedState);
      SameActive(cfg, controls, contractControls);
      ghost var rest := FetchSteps(ActiveContracts(cfg.watched, contractControls), fetch, committed, retried);
      FetchAndCommit(from, tip, fetch, committed, retried);
      ExecConcat(cfg, start, [TickBegin(tip), TickRead(loaded), TickLoad] + replay, rest);
      steps := [TickBegin(tip), TickRead(loaded), TickLoad] + replay + rest;
      TickKeepsBoth(cfg, start, order, tip, loaded, Resumed(controls), to, rpc, cleared, fetch, committed, retried,
                    ActiveContracts(cfg.watched, controls));
      TickIsPlain(cfg, start, order, tip, loaded, Resumed(controls), to, rpc, cleared, fetch, committed, retried,
                  ActiveContracts(cfg.watched, controls));
      if loaded && fetch.Some? && committed && retried && (forall c, i :: rpc(c, i).Some? && rpc(c, i).value >= to)
         && (forall c :: cleared(c)) {
        WholeTick(cfg, start, order, tip, Resumed(controls), rpc, cleared, fetch.value, ActiveContracts(cfg.watched, controls));
      }
    }

    // One iteration of the backfill loop; false means that it broke off.
    method BackfillBatch(cursor: nat, tip: nat, filter: set<Contract>, size: nat, answer: Option<nat>, committed: bool)
      returns (ok: bool, batchTo: nat)
      requires cursor < tip && size > 0 && Unpaused(contractControls, filter)
      modifies this`db, this`lastLedger
      ensures ok <==> answer.Some? && committed
      ensures batchTo == Min(cursor + size, tip)
      ensures Filled(db, lastLedger, if ok then batchTo else cursor, ok)
           == OneBatch(cfg, filter, tip, size, answer, committed, old(Filled(db, lastLedger, cursor, true)))
    {
      batchTo := Min(cursor + size, tip);
      ok := answer.Some? && committed;
      if ok {
        var events := Answer(cfg.chain, cursor + 1, answer.value, filter);
        NoneSkipped(contractControls, events);
        ProcessEvents(events);
        db := db.(cursor := batchTo);
        lastLedger := batchTo;
      }
    }

    // The loop of the backfill; `n` is the number of batches tried.
    method FillBatches(first: nat, tip: nat, filter: set<Contract>, sizes: nat -> nat, rpc: nat -> Option<nat>, committed: nat -> bool)
      returns (ghost n: nat, ghost end: Filled)
      requires (forall i :: sizes(i) > 0) && Unpaused(contractControls, filter)
      modifies this`db, this`lastLedger
      ensures end == FilledAfter(cfg, filter, tip, sizes, rpc, committed, old(Filled(db, lastLedger, first, true)), n)
      ensures end.db == db && end.lastLedger == lastLedger && (end.going ==> end.cursor >= tip)
      ensures GoesOn(cfg, filter, tip, sizes, rpc, committed, old(Filled(db, lastLedger, first, true)), n)
      // Only the last batch tried can have failed; otherwise the range is done.
      ensures forall i :: 0 <= i < n - 1 ==> rpc(i).Some? && committed(i)
      ensures (forall i :: rpc(i).Some? && committed(i)) && first < tip ==> db.cursor == lastLedger == tip
    {
      ghost var start := Filled(db, lastLedger, first, true);
      var cursor: nat, call: nat := first, 0;
      var going := true;
      while going && cursor < tip
        invariant Filled(db, lastLedger, cursor, going)
               == FilledAfter(cfg, filter, tip, sizes, rpc, committed, start, call)
        invariant GoesOn(cfg, filter, tip, sizes, rpc, committed, start, call)
        decreases if going then 1 else 0, tip - cursor
      {
        OneBatchMore(cfg, filter, tip, sizes, rpc, committed, start, call);
        var batchTo;
        going, batchTo := BackfillBatch(cursor, tip, filter, sizes(call), rpc(call), committed(call));
        if going {
          cursor := batchTo;
        }
        call := call + 1;
      }
      n, end := call, Filled(db, lastLedger, cursor, going);
      FilledFacts(cfg, filter, tip, sizes, rpc, committed, start, n);
    }

    // Load the controls, then the batches; nothing when every contract is paused.
    method LoadAndFill(from: Option<nat>, tip: nat, loaded: bool, sizes: nat -> nat, rpc: nat -> Option<nat>,
                       committed: nat -> bool)
      returns (ghost n: nat)
      requires forall i :: sizes(i) > 0
      modifies this
      ensures Idle() == Exec(cfg, old(Idle()), JobSteps(from, tip, loaded, sizes, rpc, committed, n) + [LoopEnds()])
      ensures LoopIsOver(Exec(cfg, old(Idle()), JobSteps(from, tip, loaded, sizes, rpc, committed, n)), 0)
      ensures forall i :: 0 <= i < n - 1 ==> rpc(i).Some? && committed(i)
      ensures (forall i :: rpc(i).Some? && committed(i)) && ActiveContracts(cfg.watched, contractControls) != {} ==>
                ((if from.Some? then from.value else old(lastLedger)) < tip ==> db.cursor == lastLedger == tip)
    {
      ghost var start := Idle();
      var first := if from.Some? then from.value else lastLedger;
      LoadContractControls(loaded);
      var filter := ActiveContracts(cfg.watched, contractControls);
      if filter == {} && cfg.watched != {} {
        n := 0;
        NothingToFill(cfg, start, from, tip, loaded);
      } else {
        ghost var end;
        n, end := FillBatches(first, tip, filter, sizes, rpc, committed);
        WholeFill(cfg, start, from, tip, loaded, sizes, rpc, committed, n);
      }
      FillIsOver(cfg, start, from, tip, loaded, sizes, rpc, committed, n);
    }

    // Catch-up over a range in batches; stops at the first failure. `n` is the
    // number of batches tried.
    method Backfill(from: Option<nat>, tip: nat, loaded: bool, sizes: nat -> nat,
                    rpc: nat -> Option<nat>, committed: nat -> bool)
      returns (ghost n: nat)
      requires forall i :: sizes(i) > 0
      modifies this
      ensures Idle() == Exec(cfg, old(Idle()), JobSteps(from, tip, loaded, sizes, rpc, committed, n) + [LoopEnds()])
      ensures PlainRun(cfg, old(Idle()), JobSteps(from, tip, loaded, sizes, rpc, committed, n) + [LoopEnds()])
      // Only the last batch tried can have failed.
      ensures forall i :: 0 <= i < n - 1 ==> rpc(i).Some? && committed(i)
      // Its answers reaching the tip, a backfill from the cursor or before
      // keeps coverage, whatever fails.
      ensures old(Calm(Idle())) && (from.Some? ==> from.value <= old(db.cursor)) && (forall i :: rpc(i).Some? ==> tip <= rpc(i).value) ==>
                Calm(Idle()) && (Inv(cfg, old(Idle())) ==> Inv(cfg, Idle()))
      // Without a failure and with some contract active the range is done.
      ensures (forall i :: rpc(i).Some? && committed(i)) && ActiveContracts(cfg.watched, contractControls) != {} ==>
                ((if from.Some? then from.value else old(lastLedger)) < tip ==> db.cursor == lastLedger == tip)
      // It hands over the range, of the active contracts alone.
      ensures forall horizon :: loaded && (forall i :: rpc(i).Some? && tip <= rpc(i).value <= horizon && committed(i)) ==>
                Backfilled(cfg, old(Idle()), from, tip, horizon, Idle())
    {
      ghost var start := Idle();
      n := LoadAndFill(from, tip, loaded, sizes, rpc, committed);
      BackfillKeepsBoth(cfg, start, from, tip, loaded, sizes, rpc, committed, n);
      BackfillIsPlain(cfg, start, from, tip, loaded, sizes, rpc, committed, n);
      forall horizon | loaded && forall i :: rpc(i).Some? && tip <= rpc(i).value <= horizon && committed(i)
        ensures Backfilled(cfg, start, from, tip, horizon, Idle())
      {
        WholeBackfill(cfg, start, from, tip, sizes, rpc, committed, n, horizon);
      }
    }
  }
}
