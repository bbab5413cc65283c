// Exactly-once application over the interleaved writers of IndexerWriters.
module IndexerExactlyOnce {
  import opened Common
  import opened Handlers
  import opened EventStore
  import opened IndexerMachine
  import opened IndexerCoverage
  import opened IndexerWriters

  function Events(cfg: Config): set<Event> {
    set e | e in cfg.chain
  }

  // A replay has run the handler of e and not yet inserted its row.
  predicate InFlight(works: map<Who, Work>, e: Event) {
    TheTick in works && works[TheTick].direct && works[TheTick].stage == Handled(e)
  }

  // The rows that each handler changes in a single statement, under the lock
  // of the row: positions, and the shares minted and burned of a vault.
  ghost predicate ShareRowsAreFold(books: Books, store: Store) {
    var fold := Run(books, LogOf(store.applied));
    && store.books.positions == fold.positions
    && store.books.vaults.Keys == fold.vaults.Keys
    && forall v :: v in fold.vaults ==>
         store.books.vaults[v].minted == fold.vaults[v].minted && store.books.vaults[v].burned == fold.vaults[v].burned
  }

  // The committed history has no event twice, the share rows are its fold, it
  // holds every event handed over, and its events have their rows, but for the
  // one a replay is about to insert.
  ghost predicate InSync(cfg: Config, books: Books, s: State) {
    && ShareRowsAreFold(books, s.store)
    && From(s.store.applied, Events(cfg))
    && NoDuplicates(s.store.applied)
    && (forall r :: r in s.store.rows ==> exists e :: e in s.store.applied && RowOf(e) == r)
    && (forall e :: e in s.store.applied ==> (RowOf(e) in s.store.rows <==> !InFlight(s.works, e)))
    && (forall e :: e in s.sys.db.handed ==> e in s.store.applied)
  }

  // ------------------------------------------------------ one work in order

  // What has become of an event that the batch has begun.
  predicate Accounted(store: Store, w: Work, e: Event) {
    e in w.missed || e in store.applied || e in w.applied || (!w.stage.Between? && w.stage.e == e)
  }

  ghost predicate OwnInOrder(cfg: Config, store: Store, w: Work) {
    && (w.direct ==> w.rows == {} && w.applied == [])
    && From(w.applied, Events(cfg)) && NoDuplicates(w.applied)
    && (forall e :: e in w.applied ==> RowOf(e) in w.rows || RowOf(e) in store.rows || w.stage == Handled(e))
    && (forall r :: r in w.rows ==> exists e :: e in w.applied && RowOf(e) == r)
  }

  ghost predicate StageInOrder(cfg: Config, store: Store, w: Work) {
    && (!w.stage.Between? ==> w.stage.e in cfg.chain)
    && (w.stage.Unseen? ==> w.stage.e !in w.applied)
    && (w.stage.Handled? ==> if w.direct then w.stage.e in store.applied else w.stage.e in w.applied)
  }

  ghost predicate InOrder(cfg: Config, store: Store, w: Work) {
    && w.next <= |w.batch|
    && (forall e :: e in w.batch ==> e in cfg.chain)
    && OwnInOrder(cfg, store, w) && StageInOrder(cfg, store, w)
    && forall i :: 0 <= i < w.next ==> Accounted(store, w, w.batch[i])
  }

  ghost predicate Sound(cfg: Config, books: Books, s: State) {
    && InSync(cfg, books, s)
    && BooksAreFold(books, s.store)
    && AllFit(cfg, s)
    && forall who :: who in s.works ==> InOrder(cfg, s.store, s.works[who])
  }

  // ----------------------------------------------- what can go wrong, exactly

  // An event would be published although it has been published since the
  // writer looked: asked again, the guard would find its row, or the row is
  // about to be inserted.
  predicate Stale(s: State, e: Event) {
    Recognises(s.store.rows, e) || InFlight(s.works, e)
  }

  // The act publishes an event that another writer has published meanwhile.
  predicate Clashes(s: State, act: Act) {
    match act
    case Handle(who) =>
      who in s.works && s.works[who].direct && s.works[who].stage.Unseen? && Stale(s, s.works[who].stage.e)
    case Close(who, ok) =>
      MayClose(s, who, ok) && ok && exists e :: e in s.works[who].applied && Stale(s, e)
    case _ => false
  }

  // A replay stops between handler and row: a crash, or an insert that fails.
  predicate LeavesHalf(s: State, act: Act) {
    TheTick in s.works && s.works[TheTick].direct && s.works[TheTick].stage.Handled?
    && (act == Do(Crash) || act == Record(TheTick, false))
  }

  predicate Harmful(s: State, act: Act) { Clashes(s, act) || LeavesHalf(s, act) }

  // ------------------------------------------------------- without such acts

  lemma GrownStoreKeepsOrder(cfg: Config, store: Store, more: Store, w: Work)
    requires InOrder(cfg, store, w)
    requires store.rows <= more.rows && forall e :: e in store.applied ==> e in more.applied
    ensures InOrder(cfg, more, w)
  {
    forall i | 0 <= i < w.next ensures Accounted(more, w, w.batch[i]) {
      assert Accounted(store, w, w.batch[i]);
    }
  }

  // The rows of a store in sync recognise exactly the published events.
  lemma RecognisedIffApplied(cfg: Config, books: Books, s: State, e: Event)
    requires DistinctIds(Events(cfg)) && Recognisable(Events(cfg)) && InSync(cfg, books, s) && e in cfg.chain
    ensures Recognises(s.store.rows, e) ==> e in s.store.applied && RowOf(e) in s.store.rows
    ensures RowOf(e) in s.store.rows ==> Recognises(s.store.rows, e)
  {
    assert e in Events(cfg);
    if Recognises(s.store.rows, e) {
      var r :| r in s.store.rows && r.id == e.id;
      var f :| f in s.store.applied && RowOf(f) == r;
      assert f in Events(cfg) && f == e;
    }
  }

  lemma StaleIffApplied(cfg: Config, books: Books, s: State, e: Event)
    requires DistinctIds(Events(cfg)) && Recognisable(Events(cfg)) && InSync(cfg, books, s) && e in cfg.chain
    requires InFlight(s.works, e) ==> e in s.store.applied
    ensures Stale(s, e) <==> e in s.store.applied
  {
    RecognisedIffApplied(cfg, books, s, e);
  }

  lemma DoKeepsSound(cfg: Config, books: Books, s: State, step: Step)
    requires Sound(cfg, books, s) && MayDo(s, step) && !LeavesHalf(s, Do(step))
    ensures Sound(cfg, books, Perform(cfg, s, Do(step)))
  {
    ActKeepsFit(cfg, s, Do(step));
    DoHandsNothing(cfg, s, step);
  }

  lemma OpenKeepsSound(cfg: Config, books: Books, s: State, who: Who, horizon: nat, size: nat)
    requires Sound(cfg, books, s)
    ensures Sound(cfg, books, Perform(cfg, s, Open(who, horizon, size)))
  {
    ActKeepsFit(cfg, s, Open(who, horizon, size));
    var n := Perform(cfg, s, Open(who, horizon, size));
    if n != s {
      forall e ensures InFlight(n.works, e) <==> InFlight(s.works, e) {}
      OpenInOrder(cfg, s, who, horizon, size);
    }
  }

  lemma OpenInOrder(cfg: Config, s: State, who: Who, horizon: nat, size: nat)
    requires Ready(s.sys, who)
    ensures InOrder(cfg, s.store, Work(Direct(s.sys, who), size, horizon, BatchOf(cfg, s.sys, who, horizon), 0, Between, {}, {}, []))
  {
    assert forall e :: e in BatchOf(cfg, s.sys, who, horizon) ==> e in cfg.chain;
  }

  // An act on events that leaves the committed store as it is.
  lemma QuietKeepsSound(cfg: Config, books: Books, s: State, n: State, who: Who)
    requires Sound(cfg, books, s) && AllFit(cfg, n) && who in s.works
    requires who in n.works && n.sys == s.sys && n.store == s.store && n.works == s.works[who := n.works[who]]
    requires n.works[who].direct == s.works[who].direct && InOrder(cfg, n.store, n.works[who])
    requires s.works[who].direct ==> !s.works[who].stage.Handled? && !n.works[who].stage.Handled?
    ensures Sound(cfg, books, n)
  {
    forall e ensures InFlight(n.works, e) <==> InFlight(s.works, e) {}
  }

  lemma AdmittedInOrder(cfg: Config, store: Store, controls: map<Contract, Control>, w: Work)
    requires InOrder(cfg, store, w) && w.stage.Between? && w.next < |w.batch|
    ensures InOrder(cfg, store, AdmitNext(controls, w))
  {
    var v := AdmitNext(controls, w);
    assert w.batch[w.next] in w.batch;
    forall i | 0 <= i < v.next ensures Accounted(store, v, w.batch[i]) {
      assert i < w.next ==> Accounted(store, w, w.batch[i]);
    }
  }

  lemma AdmitKeepsSound(cfg: Config, books: Books, s: State, who: Who)
    requires Sound(cfg, books, s)
    ensures Sound(cfg, books, Perform(cfg, s, Admit(who)))
  {
    ActKeepsFit(cfg, s, Admit(who));
    var n := Perform(cfg, s, Admit(who));
    if who in s.works && n != s {
      AdmittedInOrder(cfg, s.store, s.sys.mem.controls, s.works[who]);
      QuietKeepsSound(cfg, books, s, n, who);
    }
  }

  // What the guard of a writer sees of an event.
  lemma SeenIffThere(cfg: Config, books: Books, s: State, w: Work, e: Event)
    requires DistinctIds(Events(cfg)) && Recognisable(Events(cfg)) && InSync(cfg, books, s) && InOrder(cfg, s.store, w)
    requires e in cfg.chain && w.stage == Admitted(e)
    ensures Recognises(Visible(s.store, w).rows, e) ==> e in s.store.applied || e in w.applied
    ensures !Recognises(Visible(s.store, w).rows, e) ==> e !in w.applied && RowOf(e) !in s.store.rows
  {
    var rows := Visible(s.store, w).rows;
    assert e in Events(cfg);
    if Recognises(rows, e) {
      var r :| r in rows && r.id == e.id;
      if r in s.store.rows {
        var f :| f in s.store.applied && RowOf(f) == r;
        assert f in Events(cfg) && f == e;
      } else {
        var f :| f in w.applied && RowOf(f) == r;
        assert f in Events(cfg) && f == e;
      }
    } else {
      assert RowOf(e) !in rows;
    }
  }

  lemma LookKeepsSound(cfg: Config, books: Books, s: State, who: Who)
    requires DistinctIds(Events(cfg)) && Recognisable(Events(cfg)) && Sound(cfg, books, s)
    ensures Sound(cfg, books, Perform(cfg, s, Look(who)))
  {
    ActKeepsFit(cfg, s, Look(who));
    var n := Perform(cfg, s, Look(who));
    if who in s.works && n != s {
      var w, v := s.works[who], n.works[who];
      SeenIffThere(cfg, books, s, w, w.stage.e);
      forall i | 0 <= i < w.next ensures Accounted(n.store, v, w.batch[i]) {
        assert Accounted(s.store, w, w.batch[i]);
      }
      QuietKeepsSound(cfg, books, s, n, who);
    }
  }

  lemma TxnHandleKeepsSound(cfg: Config, books: Books, s: State, who: Who)
    requires Sound(cfg, books, s) && who in s.works && s.works[who].stage.Unseen? && !s.works[who].direct
    ensures Sound(cfg, books, Perform(cfg, s, Handle(who)))
  {
    ActKeepsFit(cfg, s, Handle(who));
    var n := Perform(cfg, s, Handle(who));
    var w, v := s.works[who], n.works[who];
    forall i | 0 <= i < w.next ensures Accounted(n.store, v, w.batch[i]) {
      assert Accounted(s.store, w, w.batch[i]);
    }
    forall r | r in v.rows ensures exists e :: e in v.applied && RowOf(e) == r {
      var e :| e in w.applied && RowOf(e) == r;
      assert e in v.applied;
    }
    QuietKeepsSound(cfg, books, s, n, who);
  }

  lemma HalfIsFold(books: Books, s: Store, e: Event)
    requires BooksAreFold(books, s)
    ensures BooksAreFold(books, Half(s, e))
  {
    assert LogOf(Half(s, e).applied)[..|s.applied|] == LogOf(s.applied);
  }

  lemma DirectHandleKeepsSync(cfg: Config, books: Books, s: State, n: State, e: Event)
    requires DistinctIds(Events(cfg)) && Recognisable(Events(cfg)) && InSync(cfg, books, s) && e in cfg.chain
    requires n.store == Half(s.store, e) && n.sys == s.sys && InFlight(n.works, e) && !Stale(s, e)
    requires BooksAreFold(books, s.store) && forall x :: !InFlight(s.works, x)
    ensures InSync(cfg, books, n) && BooksAreFold(books, n.store)
  {
    StaleIffApplied(cfg, books, s, e);
    RecognisedIffApplied(cfg, books, s, e);
    HalfIsFold(books, s.store, e);
    forall r | r in n.store.rows ensures exists f :: f in n.store.applied && RowOf(f) == r {
      var f :| f in s.store.applied && RowOf(f) == r;
      assert f in n.store.applied;
    }
    forall x | x in n.store.applied ensures RowOf(x) in n.store.rows <==> !InFlight(n.works, x) {
      assert x != e ==> x in s.store.applied;
    }
  }

  lemma DirectHandleKeepsSound(cfg: Config, books: Books, s: State, who: Who)
    requires DistinctIds(Events(cfg)) && Recognisable(Events(cfg)) && Sound(cfg, books, s)
    requires who in s.works && s.works[who].stage.Unseen? && s.works[who].direct && !Clashes(s, Handle(who))
    ensures Sound(cfg, books, Perform(cfg, s, Handle(who)))
  {
    ActKeepsFit(cfg, s, Handle(who));
    var n, w := Perform(cfg, s, Handle(who)), s.works[who];
    assert Fits(cfg, s.sys, who, w) && who == TheTick;
    DirectHandleKeepsSync(cfg, books, s, n, w.stage.e);
    forall other | other in n.works ensures InOrder(cfg, n.store, n.works[other]) {
      GrownStoreKeepsOrder(cfg, s.store, n.store, s.works[other]);
      if other == who {
        forall i | 0 <= i < w.next ensures Accounted(n.store, n.works[who], w.batch[i]) {
          assert Accounted(n.store, w, w.batch[i]);
        }
      }
    }
  }

  // The row a replay inserts is new, and its slot is free.
  lemma DirectRowIsNew(cfg: Config, books: Books, s: State)
    requires Recognisable(Events(cfg)) && Sound(cfg, books, s)
    requires TheTick in s.works && s.works[TheTick].direct && s.works[TheTick].stage.Handled?
    ensures var row := RowOf(s.works[TheTick].stage.e);
            Insert(s.store.rows, row) == s.store.rows + {row}
  {
    var e := s.works[TheTick].stage.e;
    assert InFlight(s.works, e) && e in s.store.applied && InOrder(cfg, s.store, s.works[TheTick]);
    assert e in Events(cfg);
    forall q | q in s.store.rows ensures Slot(q) != Slot(RowOf(e)) {
      var f :| f in s.store.applied && RowOf(f) == q;
      assert f != e && f in Events(cfg);
    }
  }

  lemma DirectRecordKeepsSync(cfg: Config, books: Books, s: State)
    requires Recognisable(Events(cfg)) && Sound(cfg, books, s)
    requires TheTick in s.works && s.works[TheTick].direct && s.works[TheTick].stage.Handled?
    ensures var w := s.works[TheTick];
            InSync(cfg, books, State(s.sys, s.store.(rows := Insert(s.store.rows, RowOf(w.stage.e))),
                                     s.works[TheTick := w.(stage := Between)]))
  {
    DirectRowIsNew(cfg, books, s);
    var e := s.works[TheTick].stage.e;
    assert InFlight(s.works, e) && InOrder(cfg, s.store, s.works[TheTick]);
    forall x | x in s.store.applied ensures RowOf(x) in s.store.rows + {RowOf(e)} {
      assert x != e ==> !InFlight(s.works, x);
    }
  }

  lemma DirectRecordKeepsSound(cfg: Config, books: Books, s: State, who: Who)
    requires Recognisable(Events(cfg)) && Sound(cfg, books, s)
    requires who in s.works && s.works[who].stage.Handled? && s.works[who].direct
    ensures Sound(cfg, books, Perform(cfg, s, Record(who, true)))
  {
    ActKeepsFit(cfg, s, Record(who, true));
    var n, w := Perform(cfg, s, Record(who, true)), s.works[who];
    assert Fits(cfg, s.sys, who, w) && who == TheTick;
    if n != s {
      DirectRecordKeepsSync(cfg, books, s);
      DirectRowIsNew(cfg, books, s);
      forall other | other in n.works ensures InOrder(cfg, n.store, n.works[other]) {
        GrownStoreKeepsOrder(cfg, s.store, n.store, s.works[other]);
        if other == who {
          forall i | 0 <= i < w.next ensures Accounted(n.store, n.works[who], w.batch[i]) {
            assert Accounted(n.store, w, w.batch[i]);
          }
        }
      }
    }
  }

  // After the insert of a transaction the row is there, its own or committed.
  lemma TxnRowIsThere(cfg: Config, books: Books, s: State, w: Work)
    requires Recognisable(Events(cfg)) && InSync(cfg, books, s) && InOrder(cfg, s.store, w) && w.stage.Handled? && !w.direct
    ensures var v := RecordRow(s.store, w);
            w.rows <= v.rows <= w.rows + {RowOf(w.stage.e)} && (RowOf(w.stage.e) in v.rows || RowOf(w.stage.e) in s.store.rows)
  {
    var e := w.stage.e;
    assert e in Events(cfg);
    if q :| q in s.store.rows + w.rows && Slot(q) == Slot(RowOf(e)) {
      if q in s.store.rows {
        var f :| f in s.store.applied && RowOf(f) == q;
        assert f in Events(cfg) && f == e;
      } else {
        var f :| f in w.applied && RowOf(f) == q;
        assert f in Events(cfg) && f == e;
      }
    }
  }

  lemma TxnRecordKeepsSound(cfg: Config, books: Books, s: State, who: Who)
    requires Recognisable(Events(cfg)) && Sound(cfg, books, s)
    requires who in s.works && s.works[who].stage.Handled? && !s.works[who].direct
    ensures Sound(cfg, books, Perform(cfg, s, Record(who, true)))
  {
    ActKeepsFit(cfg, s, Record(who, true));
    var n, w := Perform(cfg, s, Record(who, true)), s.works[who];
    if n != s {
      TxnRowIsThere(cfg, books, s, w);
      forall i | 0 <= i < w.next ensures Accounted(n.store, n.works[who], w.batch[i]) {
        assert Accounted(s.store, w, w.batch[i]);
      }
      QuietKeepsSound(cfg, books, s, n, who);
    }
  }

  // ------------------------------------------------------- the end of a batch

  lemma {:induction false} RunConcat(b: Books, p: seq<Entry>, q: seq<Entry>)
    ensures Run(b, p + q) == Run(Run(b, p), q)
  {
    if q == [] {
      assert p + q == p;
    } else {
      RunConcat(b, p, q[..|q| - 1]);
      assert (p + q)[..|p + q| - 1] == p + q[..|q| - 1];
    }
  }

  lemma PublishIsFold(books: Books, store: Store, w: Work)
    requires BooksAreFold(books, store)
    ensures BooksAreFold(books, Publish(store, w))
  {
    RunConcat(books, LogOf(store.applied), LogOf(w.applied));
    assert LogOf(store.applied + w.applied) == LogOf(store.applied) + LogOf(w.applied);
  }

  lemma AppliedIsStale(cfg: Config, books: Books, s: State, e: Event)
    requires Recognisable(Events(cfg)) && InSync(cfg, books, s)
    ensures e in s.store.applied ==> Stale(s, e)
  {
    if e in s.store.applied && !InFlight(s.works, e) {
      assert e in Events(cfg) && RowOf(e) in s.store.rows;
    }
  }

  // Rows and events still match once a finished transaction is committed.
  lemma PublishedRowsMatch(cfg: Config, books: Books, s: State, w: Work)
    requires Recognisable(Events(cfg)) && InSync(cfg, books, s) && InOrder(cfg, s.store, w) && w.stage == Between && !w.direct
    requires forall e :: e in w.applied ==> e !in s.store.applied && !InFlight(s.works, e)
    ensures var after := Publish(s.store, w);
            && (forall r :: r in after.rows ==> exists e :: e in after.applied && RowOf(e) == r)
            && forall e :: e in after.applied ==> (RowOf(e) in after.rows <==> !InFlight(s.works, e))
  {
    var after := Publish(s.store, w);
    forall r | r in after.rows ensures exists e :: e in after.applied && RowOf(e) == r {
      if r in s.store.rows {
        var e :| e in s.store.applied && RowOf(e) == r;
        assert e in after.applied;
      } else {
        var e :| e in w.applied && RowOf(e) == r;
        assert e in after.applied;
      }
    }
    forall e | e in after.applied ensures RowOf(e) in after.rows <==> !InFlight(s.works, e) {
      if e in s.store.applied {
        NotOwnRow(cfg, s, w, e);
      } else {
        assert e in w.applied;
      }
    }
  }

  // What a finished transaction publishes is in order when nothing clashes.
  lemma PublishKeepsSync(cfg: Config, books: Books, s: State, who: Who)
    requires DistinctIds(Events(cfg)) && Recognisable(Events(cfg)) && Sound(cfg, books, s)
    requires MayClose(s, who, true) && !s.works[who].direct && !Clashes(s, Close(who, true))
    ensures InSync(cfg, books, State(s.sys, Publish(s.store, s.works[who]), s.works - {who}))
    ensures BooksAreFold(books, Publish(s.store, s.works[who]))
  {
    var w := s.works[who];
    assert InOrder(cfg, s.store, w);
    forall e | e in w.applied ensures e !in s.store.applied {
      AppliedIsStale(cfg, books, s, e);
    }
    assert forall e :: InFlight(s.works, e) ==> Stale(s, e);
    PublishIsFold(books, s.store, w);
    PublishedRowsMatch(cfg, books, s, w);
    TickStillFlies(s, who);
    ApartHaveNoDuplicates(s.store.applied, w.applied);
  }

  lemma ApartHaveNoDuplicates(p: seq<Event>, q: seq<Event>)
    requires NoDuplicates(p) && NoDuplicates(q) && forall e :: e in q ==> e !in p
    ensures NoDuplicates(p + q)
  {
    forall i, j | 0 <= i < |p| <= j < |p + q| ensures (p + q)[i] != (p + q)[j] {
      assert (p + q)[i] in p && (p + q)[j] in q;
    }
  }

  lemma TickStillFlies(s: State, who: Who)
    requires who in s.works && !s.works[who].direct
    ensures forall e :: InFlight(s.works - {who}, e) <==> InFlight(s.works, e)
  {}

  // The rows of a transaction are not those of published events.
  lemma NotOwnRow(cfg: Config, s: State, w: Work, e: Event)
    requires Recognisable(Events(cfg)) && InOrder(cfg, s.store, w)
    requires e in Events(cfg) && e !in w.applied
    ensures RowOf(e) !in w.rows
  {
    forall r | r in w.rows ensures r != RowOf(e) {
      var f :| f in w.applied && RowOf(f) == r;
      assert f in Events(cfg) && f != e;
    }
  }

  lemma CloseKeepsSound(cfg: Config, books: Books, s: State, who: Who, ok: bool)
    requires DistinctIds(Events(cfg)) && Recognisable(Events(cfg)) && Sound(cfg, books, s)
    requires MayClose(s, who, ok) && !Clashes(s, Close(who, ok))
    ensures Sound(cfg, books, Perform(cfg, s, Close(who, ok)))
  {
    ActKeepsFit(cfg, s, Close(who, ok));
    var n, w := Perform(cfg, s, Close(who, ok)), s.works[who];
    if ok {
      CloseKeepsSync(cfg, books, s, who);
    } else {
      RollbackHandsNothing(cfg, s, who);
      TickStillFlies(s, who);
    }
    forall other | other in n.works ensures InOrder(cfg, n.store, n.works[other]) {
      GrownStoreKeepsOrder(cfg, s.store, n.store, s.works[other]);
    }
  }

  // What is handed over at the end of a batch has been published.
  lemma CloseKeepsSync(cfg: Config, books: Books, s: State, who: Who)
    requires DistinctIds(Events(cfg)) && Recognisable(Events(cfg)) && Sound(cfg, books, s)
    requires MayClose(s, who, true) && !Clashes(s, Close(who, true))
    ensures InSync(cfg, books, Perform(cfg, s, Close(who, true))) && BooksAreFold(books, Perform(cfg, s, Close(who, true)).store)
  {
    var n, w := Perform(cfg, s, Close(who, true)), s.works[who];
    assert InOrder(cfg, s.store, w) && Fits(cfg, s.sys, who, w);
    if w.direct {
      assert forall e :: !InFlight(s.works, e) && !InFlight(n.works, e);
    } else {
      PublishKeepsSync(cfg, books, s, who);
    }
    forall e | e in n.sys.db.handed ensures e in n.store.applied {
      CloseHands(cfg, s, who, e);
      if e !in s.sys.db.handed {
        var i :| 0 <= i < |w.batch| && w.batch[i] == e;
        assert Accounted(s.store, w, w.batch[i]);
      }
    }
  }

  lemma ActKeepsSound(cfg: Config, books: Books, s: State, act: Act)
    requires DistinctIds(Events(cfg)) && Recognisable(Events(cfg)) && Sound(cfg, books, s) && !Harmful(s, act)
    ensures Sound(cfg, books, Perform(cfg, s, act))
  {
    match act
    case Do(step) =>
      if MayDo(s, step) {
        DoKeepsSound(cfg, books, s, step);
      }
    case Open(who, horizon, size) => OpenKeepsSound(cfg, books, s, who, horizon, size);
    case Admit(who) => AdmitKeepsSound(cfg, books, s, who);
    case Look(who) => LookKeepsSound(cfg, books, s, who);
    case Handle(who) =>
      if who in s.works && s.works[who].stage.Unseen? {
        if s.works[who].direct {
          DirectHandleKeepsSound(cfg, books, s, who);
        } else {
          TxnHandleKeepsSound(cfg, books, s, who);
        }
      }
    case Record(who, ok) => RecordKeepsSound(cfg, books, s, who, ok);
    case Close(who, ok) =>
      if MayClose(s, who, ok) {
        CloseKeepsSound(cfg, books, s, who, ok);
      }
  }

  lemma RecordKeepsSound(cfg: Config, books: Books, s: State, who: Who, ok: bool)
    requires DistinctIds(Events(cfg)) && Recognisable(Events(cfg)) && Sound(cfg, books, s) && !Harmful(s, Record(who, ok))
    ensures Sound(cfg, books, Perform(cfg, s, Record(who, ok)))
  {
    if who in s.works && s.works[who].stage.Handled? {
      assert Fits(cfg, s.sys, who, s.works[who]);
      if s.works[who].direct {
        assert ok;
        DirectRecordKeepsSound(cfg, books, s, who);
      } else if ok {
        TxnRecordKeepsSound(cfg, books, s, who);
      }
    }
  }

  // ---------------------------------------------------------- with such acts

  lemma RepeatedIsDuplicate(p: seq<Event>, q: seq<Event>, e: Event)
    requires e in p && e in q
    ensures !NoDuplicates(p + q)
  {
    var i :| 0 <= i < |p| && p[i] == e;
    var j :| 0 <= j < |q| && q[j] == e;
    assert (p + q)[i] == e && (p + q)[|p| + j] == e;
  }

  lemma StaleWasApplied(cfg: Config, books: Books, s: State, e: Event)
    requires DistinctIds(Events(cfg)) && Recognisable(Events(cfg)) && Sound(cfg, books, s) && e in cfg.chain && Stale(s, e)
    ensures e in s.store.applied
  {
    RecognisedIffApplied(cfg, books, s, e);
    if InFlight(s.works, e) {
      assert InOrder(cfg, s.store, s.works[TheTick]);
    }
  }

  lemma ClashBreaksSync(cfg: Config, books: Books, s: State, act: Act)
    requires DistinctIds(Events(cfg)) && Recognisable(Events(cfg)) && Sound(cfg, books, s) && Clashes(s, act)
    ensures !NoDuplicates(Perform(cfg, s, act).store.applied)
  {
    var w := s.works[act.who];
    assert InOrder(cfg, s.store, w);
    if act.Handle? {
      StaleWasApplied(cfg, books, s, w.stage.e);
      RepeatedIsDuplicate(s.store.applied, [w.stage.e], w.stage.e);
    } else {
      var e :| e in w.applied && Stale(s, e);
      assert Fits(cfg, s.sys, act.who, w) && e in Events(cfg);
      StaleWasApplied(cfg, books, s, e);
      RepeatedIsDuplicate(s.store.applied, w.applied, e);
    }
  }

  lemma HalfBreaksSync(cfg: Config, books: Books, s: State, act: Act)
    requires Sound(cfg, books, s) && LeavesHalf(s, act)
    ensures !InSync(cfg, books, Perform(cfg, s, act))
  {
    var n, e := Perform(cfg, s, act), s.works[TheTick].stage.e;
    assert InOrder(cfg, s.store, s.works[TheTick]) && InFlight(s.works, e);
    assert n.store == s.store && e in n.store.applied && RowOf(e) !in n.store.rows && !InFlight(n.works, e);
  }

  // From a sound state exactly the harmful acts put the store out of order.
  lemma ActKeepsSyncIff(cfg: Config, books: Books, s: State, act: Act)
    requires DistinctIds(Events(cfg)) && Recognisable(Events(cfg)) && Sound(cfg, books, s)
    ensures InSync(cfg, books, Perform(cfg, s, act)) <==> !Harmful(s, act)
  {
    if Clashes(s, act) {
      ClashBreaksSync(cfg, books, s, act);
    } else if LeavesHalf(s, act) {
      HalfBreaksSync(cfg, books, s, act);
    } else {
      ActKeepsSound(cfg, books, s, act);
    }
  }

  // ---------------------------------------------------------------- the runs

  ghost predicate SyncedThroughout(cfg: Config, books: Books, acts: seq<Act>) {
    InSync(cfg, books, PerformAll(cfg, Start(cfg, books), acts))
    && (acts != [] ==> SyncedThroughout(cfg, books, acts[..|acts| - 1]))
  }

  predicate Harmless(cfg: Config, s: State, acts: seq<Act>) {
    acts != [] ==>
      Harmless(cfg, s, acts[..|acts| - 1])
      && !Harmful(PerformAll(cfg, s, acts[..|acts| - 1]), acts[|acts| - 1])
  }

  lemma StartSound(cfg: Config, books: Books)
    ensures Sound(cfg, books, Start(cfg, books))
  {
    EmptyIsOk(books, Events(cfg));
  }

  lemma {:induction false} HarmlessIsSound(cfg: Config, books: Books, acts: seq<Act>)
    requires DistinctIds(Events(cfg)) && Recognisable(Events(cfg)) && Harmless(cfg, Start(cfg, books), acts)
    ensures Sound(cfg, books, PerformAll(cfg, Start(cfg, books), acts))
  {
    if acts == [] {
      StartSound(cfg, books);
    } else {
      HarmlessIsSound(cfg, books, acts[..|acts| - 1]);
      ActKeepsSound(cfg, books, PerformAll(cfg, Start(cfg, books), acts[..|acts| - 1]), acts[|acts| - 1]);
    }
  }

  lemma OneActLater(cfg: Config, books: Books, acts: seq<Act>)
    requires acts != []
    ensures var init, last := acts[..|acts| - 1], acts[|acts| - 1];
            var before := PerformAll(cfg, Start(cfg, books), init);
            && (SyncedThroughout(cfg, books, acts) <==>
                  SyncedThroughout(cfg, books, init) && InSync(cfg, books, Perform(cfg, before, last)))
            && (Harmless(cfg, Start(cfg, books), acts) <==> Harmless(cfg, Start(cfg, books), init) && !Harmful(before, last))
  {
    var before := PerformAll(cfg, Start(cfg, books), acts[..|acts| - 1]);
    assert PerformAll(cfg, Start(cfg, books), acts) == Perform(cfg, before, acts[|acts| - 1]);
  }

  // However ticks, backfills and replays interleave, between whatever
  // statements they crash or roll back: the history holds every event once,
  // with its row, and the books are its fold, all along a run, exactly when no
  // writer publishes an event that was published since it looked, and no
  // replay stops between handler and row.
  lemma {:induction false} SyncedIffHarmless(cfg: Config, books: Books, acts: seq<Act>)
    requires DistinctIds(Events(cfg)) && Recognisable(Events(cfg))
    ensures SyncedThroughout(cfg, books, acts) <==> Harmless(cfg, Start(cfg, books), acts)
  {
    if acts == [] {
      StartSound(cfg, books);
    } else {
      var init := acts[..|acts| - 1];
      OneActLater(cfg, books, acts);
      SyncedIffHarmless(cfg, books, init);
      if Harmless(cfg, Start(cfg, books), init) {
        HarmlessIsSound(cfg, books, init);
        ActKeepsSyncIff(cfg, books, PerformAll(cfg, Start(cfg, books), init), acts[|acts| - 1]);
      }
    }
  }

  lemma AppliedOnceInHarmlessRun(cfg: Config, books: Books, acts: seq<Act>)
    requires DistinctIds(Events(cfg)) && Recognisable(Events(cfg))
    requires Harmless(cfg, Start(cfg, books), acts)
    ensures var s := PerformAll(cfg, Start(cfg, books), acts);
            && NoDuplicates(s.store.applied)
            && ShareRowsAreFold(books, s.store)
            && forall e :: e in s.sys.db.handed ==> e in s.store.applied
  {
    HarmlessIsSound(cfg, books, acts);
  }

  // Coverage and uniqueness together: in an orderly and harmless run every
  // watched event up to the cursor has been applied at exactly one point of
  // the history, unless a marker strictly below it excuses it.
  lemma CoveredEventsAppliedExactlyOnce(cfg: Config, books: Books, acts: seq<Act>, e: Event)
    requires DistinctIds(Events(cfg)) && Recognisable(Events(cfg))
    requires OrderlyRun(cfg, Boot(cfg, books), AllSteps(cfg, Start(cfg, books), acts))
    requires Harmless(cfg, Start(cfg, books), acts) && Relevant(cfg, e)
    ensures var s := PerformAll(cfg, Start(cfg, books), acts);
            var db, applied := s.sys.db, s.store.applied;
            e.ledger <= db.cursor ==>
              || (Marker(db.controls, e.contract).Some? && Marker(db.controls, e.contract).value < e.ledger)
              || exists i :: 0 <= i < |applied| && applied[i] == e
                   && forall j :: 0 <= j < |applied| && j != i ==> applied[j] != e
  {
    NoGapInAnyOrderlyActs(cfg, books, acts);
    AppliedOnceInHarmlessRun(cfg, books, acts);
    var s := PerformAll(cfg, Start(cfg, books), acts);
    if e in s.sys.db.handed {
      var i :| 0 <= i < |s.store.applied| && s.store.applied[i] == e;
    }
  }

  // ------------------------------------------------- checks that do not overlap

  // The writer has checked e and not yet published it with its row.
  predicate Holds(w: Work, e: Event) {
    w.stage == Unseen(e) || w.stage == Handled(e) || e in w.applied
  }

  // The check finds no row of an event that another writer is about to publish.
  predicate Overlaps(s: State, act: Act) {
    act.Look? && act.who in s.works && s.works[act.who].stage.Admitted?
    && var e := s.works[act.who].stage.e;
       !Recognises(Visible(s.store, s.works[act.who]).rows, e)
       && exists v :: v in s.works && v != act.who && Holds(s.works[v], e)
  }

  // A held event is held by one writer, and not published but for the moment
  // between the handler and the row of a replay.
  ghost predicate Apart(s: State) {
    && (forall u, v, e :: u in s.works && v in s.works && Holds(s.works[u], e) && Holds(s.works[v], e) ==> u == v)
    && forall u, e :: u in s.works && Holds(s.works[u], e) && !InFlight(s.works, e) ==> e !in s.store.applied
  }

  lemma ApartDoesNotClash(cfg: Config, books: Books, s: State, act: Act)
    requires DistinctIds(Events(cfg)) && Recognisable(Events(cfg)) && Sound(cfg, books, s) && Apart(s)
    ensures !Clashes(s, act)
  {
    if Clashes(s, act) {
      var w := s.works[act.who];
      var e := if act.Handle? then w.stage.e else var e :| e in w.applied && Stale(s, e); e;
      assert InOrder(cfg, s.store, w) && Fits(cfg, s.sys, act.who, w) && e in Events(cfg);
      StaleWasApplied(cfg, books, s, e);
      assert Holds(w, e);
      assert InFlight(s.works, e) ==> Holds(s.works[TheTick], e);
    }
  }

  // What an act lets a writer hold.
  lemma HoldsMoves(cfg: Config, s: State, act: Act, u: Who, e: Event)
    requires u in Perform(cfg, s, act).works && Holds(Perform(cfg, s, act).works[u], e)
    ensures u in s.works
    ensures Holds(s.works[u], e)
         || (act == Look(u) && s.works[u].stage == Admitted(e) && !Recognises(Visible(s.store, s.works[u]).rows, e))
  {}

  // What an act publishes, its writer held.
  lemma PublishedWasHeld(cfg: Config, s: State, act: Act, e: Event)
    requires e in Perform(cfg, s, act).store.applied && e !in s.store.applied
    ensures (act.Handle? || act.Close?) && act.who in s.works && Holds(s.works[act.who], e)
    ensures act.Close? ==> act.who !in Perform(cfg, s, act).works
    ensures act.Handle? ==> s.works[act.who].direct && Perform(cfg, s, act).works[act.who].stage == Handled(e)
  {}

  lemma FlightMoves(cfg: Config, s: State, act: Act, e: Event)
    requires InFlight(s.works, e) && TheTick in Perform(cfg, s, act).works && Holds(Perform(cfg, s, act).works[TheTick], e)
    requires s.works[TheTick].applied == []
    ensures InFlight(Perform(cfg, s, act).works, e)
  {}

  lemma ActKeepsApart(cfg: Config, books: Books, s: State, act: Act)
    requires DistinctIds(Events(cfg)) && Recognisable(Events(cfg)) && Sound(cfg, books, s) && Apart(s) && !Overlaps(s, act)
    ensures Apart(Perform(cfg, s, act))
  {
    var n := Perform(cfg, s, act);
    forall u, v, e | u in n.works && v in n.works && Holds(n.works[u], e) && Holds(n.works[v], e) ensures u == v {
      HoldsMoves(cfg, s, act, u, e);
      HoldsMoves(cfg, s, act, v, e);
    }
    forall u, e | u in n.works && Holds(n.works[u], e) && !InFlight(n.works, e) ensures e !in n.store.applied {
      HoldsMoves(cfg, s, act, u, e);
      if e in s.store.applied {
        HeldIsUnpublished(cfg, books, s, act, u, e);
      } else if e in n.store.applied {
        PublishedWasHeld(cfg, s, act, e);
      }
    }
  }

  lemma HeldIsUnpublished(cfg: Config, books: Books, s: State, act: Act, u: Who, e: Event)
    requires DistinctIds(Events(cfg)) && Recognisable(Events(cfg)) && Sound(cfg, books, s) && Apart(s) && !Overlaps(s, act)
    requires u in Perform(cfg, s, act).works && Holds(Perform(cfg, s, act).works[u], e) && e in s.store.applied
    ensures InFlight(Perform(cfg, s, act).works, e)
  {
    HoldsMoves(cfg, s, act, u, e);
    assert InOrder(cfg, s.store, s.works[u]);
    if Holds(s.works[u], e) {
      assert InFlight(s.works, e) && Holds(s.works[TheTick], e) && InOrder(cfg, s.store, s.works[TheTick]);
      FlightMoves(cfg, s, act, e);
    } else {
      SeenIffThere(cfg, books, s, s.works[u], e);
      assert InFlight(s.works, e) && Holds(s.works[TheTick], e);
      assert false;
    }
  }

  predicate ApartChecks(cfg: Config, s: State, acts: seq<Act>) {
    acts != [] ==>
      ApartChecks(cfg, s, acts[..|acts| - 1])
      && !Overlaps(PerformAll(cfg, s, acts[..|acts| - 1]), acts[|acts| - 1])
      && !LeavesHalf(PerformAll(cfg, s, acts[..|acts| - 1]), acts[|acts| - 1])
  }

  // When no writer checks an event between the check of another and its
  // publication, and no replay stops between handler and row, nothing clashes.
  lemma {:induction false} ApartChecksAreHarmless(cfg: Config, books: Books, acts: seq<Act>)
    requires DistinctIds(Events(cfg)) && Recognisable(Events(cfg)) && ApartChecks(cfg, Start(cfg, books), acts)
    ensures Harmless(cfg, Start(cfg, books), acts) && Apart(PerformAll(cfg, Start(cfg, books), acts))
  {
    if acts != [] {
      var init, last := acts[..|acts| - 1], acts[|acts| - 1];
      var before := PerformAll(cfg, Start(cfg, books), init);
      ApartChecksAreHarmless(cfg, books, init);
      HarmlessIsSound(cfg, books, init);
      ApartDoesNotClash(cfg, books, before, last);
      ActKeepsApart(cfg, books, before, last);
    }
  }

  // Batches come one at a time.
  predicate OneAtATime(cfg: Config, s: State, acts: seq<Act>) {
    acts != [] ==>
      OneAtATime(cfg, s, acts[..|acts| - 1])
      && (acts[|acts| - 1].Open? ==> PerformAll(cfg, s, acts[..|acts| - 1]).works == map[])
  }

  lemma {:induction false} OneWork(cfg: Config, s: State, acts: seq<Act>)
    requires s.works == map[] && OneAtATime(cfg, s, acts)
    ensures forall u, v :: u in PerformAll(cfg, s, acts).works && v in PerformAll(cfg, s, acts).works ==> u == v
  {
    if acts != [] {
      var before := PerformAll(cfg, s, acts[..|acts| - 1]);
      OneWork(cfg, s, acts[..|acts| - 1]);
      OneMoreWork(cfg, before, acts[|acts| - 1]);
    }
  }

  lemma OneMoreWork(cfg: Config, s: State, act: Act)
    requires act.Open? ==> s.works == map[]
    requires forall u, v :: u in s.works && v in s.works ==> u == v
    ensures forall u, v :: u in Perform(cfg, s, act).works && v in Perform(cfg, s, act).works ==> u == v
  {
    assert act.Open? || Perform(cfg, s, act).works.Keys <= s.works.Keys;
  }

  // So batches that never overlap apply every event once, whatever crashes and
  // rolls back, as long as no replay stops between handler and row.
  lemma {:induction false} OneAtATimeIsHarmless(cfg: Config, books: Books, acts: seq<Act>)
    requires DistinctIds(Events(cfg)) && Recognisable(Events(cfg)) && OneAtATime(cfg, Start(cfg, books), acts)
    ensures Harmless(cfg, Start(cfg, books), acts) <==> NoHalf(cfg, Start(cfg, books), acts)
  {
    if acts != [] {
      var init, last := acts[..|acts| - 1], acts[|acts| - 1];
      OneAtATimeIsHarmless(cfg, books, init);
      if NoHalf(cfg, Start(cfg, books), acts) {
        NoHalfIsApart(cfg, books, acts);
        ApartChecksAreHarmless(cfg, books, acts);
      }
    }
  }

  predicate NoHalf(cfg: Config, s: State, acts: seq<Act>) {
    acts != [] ==>
      NoHalf(cfg, s, acts[..|acts| - 1])
      && !LeavesHalf(PerformAll(cfg, s, acts[..|acts| - 1]), acts[|acts| - 1])
  }

  lemma {:induction false} NoHalfIsApart(cfg: Config, books: Books, acts: seq<Act>)
    requires OneAtATime(cfg, Start(cfg, books), acts) && NoHalf(cfg, Start(cfg, books), acts)
    ensures ApartChecks(cfg, Start(cfg, books), acts)
  {
    if acts != [] {
      NoHalfIsApart(cfg, books, acts[..|acts| - 1]);
      OneWork(cfg, Start(cfg, books), acts[..|acts| - 1]);
    }
  }

  // --------------------------------- what holds with clashes and any guard

  lemma ActIsFold(cfg: Config, books: Books, s: State, act: Act)
    requires BooksAreFold(books, s.store)
    ensures BooksAreFold(books, Perform(cfg, s, act).store)
  {
    if act.Handle? && act.who in s.works && s.works[act.who].stage.Unseen? && s.works[act.who].direct {
      HalfIsFold(books, s.store, s.works[act.who].stage.e);
    } else if act.Close? && MayClose(s, act.who, act.ok) {
      PublishIsFold(books, s.store, s.works[act.who]);
    }
  }

  lemma {:induction false} CommittedIsFold(cfg: Config, books: Books, acts: seq<Act>)
    ensures BooksAreFold(books, PerformAll(cfg, Start(cfg, books), acts).store)
  {
    if acts == [] {
      assert LogOf([]) == [];
    } else {
      CommittedIsFold(cfg, books, acts[..|acts| - 1]);
      ActIsFold(cfg, books, PerformAll(cfg, Start(cfg, books), acts[..|acts| - 1]), acts[|acts| - 1]);
    }
  }

  // In any run at all, on any chain, the share rows are the fold of the
  // handlers that ran, in the order they were committed.
  lemma ShareRowsAreFoldInAnyRun(cfg: Config, books: Books, acts: seq<Act>)
    ensures ShareRowsAreFold(books, PerformAll(cfg, Start(cfg, books), acts).store)
  {
    CommittedIsFold(cfg, books, acts);
  }

  lemma {:induction false} ProcessAllIsFold(books: Books, missed: set<Event>, db: Database, es: seq<Event>)
    requires BooksAreFold(books, db.store)
    ensures BooksAreFold(books, ProcessAll(missed, db, es).store)
  {
    if es != [] {
      var n := |es| - 1;
      ProcessAllIsFold(books, missed, db, es[..n]);
      DeliverIsFold(books, ProcessAll(missed, db, es[..n]).store, es[n]);
    }
  }

  // What a step of the control machine does to the event store is to process
  // one batch of chain events but those missed, or none.
  lemma StepDelivers(cfg: Config, s: System, step: Step) returns (es: seq<Event>)
    ensures forall e :: e in es ==> e in cfg.chain
    ensures var n, after := Next(cfg, s, step).db, ProcessAll(Missed(step), s.db, es);
            n.store == after.store && n.handed == after.handed
    ensures !step.ReplayBatch? && !step.TickCommit? && !step.JobBatch? ==> es == []
  {
    var t := s.mem.tick;
    es := [];
    match step
    case ReplayBatch(answer, _) =>
      if t.TickBatch? && answer.Some? {
        es := ReplayEvents(cfg, t, answer.value);
      }
    case TickCommit(ok, _) =>
      if t.TickFetched? && ok {
        es := Answer(cfg.chain, t.from, t.horizon, t.filter);
      }
    case JobBatch(id, _, answer, _, _) =>
      if Commits(s, step) {
        es := JobEvents(cfg, s.mem.jobs[id], answer.value);
      }
    case _ =>
  }

  lemma StepIsFold(cfg: Config, books: Books, s: System, step: Step)
    requires BooksAreFold(books, s.db.store)
    ensures BooksAreFold(books, Next(cfg, s, step).db.store)
  {
    var es := StepDelivers(cfg, s, step);
    ProcessAllIsFold(books, Missed(step), s.db, es);
  }

  // While nothing interrupts a batch, as in the control machine, all the books
  // are the fold of the handlers that ran, in their order.
  lemma {:induction false} BooksAreFoldBatchByBatch(cfg: Config, books: Books, steps: seq<Step>)
    ensures BooksAreFold(books, Exec(cfg, Boot(cfg, books), steps).db.store)
  {
    if steps == [] {
      assert LogOf([]) == [];
    } else {
      BooksAreFoldBatchByBatch(cfg, books, steps[..|steps| - 1]);
      StepIsFold(cfg, books, Exec(cfg, Boot(cfg, books), steps[..|steps| - 1]), steps[|steps| - 1]);
    }
  }
}
