// Duplicate recognition in _processEventInner and the rows of indexed_events
// (backend/src/services/indexer.ts).
module EventStore {
  import opened Common
  import opened Handlers

  // `id` is the RPC event id, `rawType` the `type` field of the RPC response
  // ("contract"), `storedType` the event_type the row is written under.
  datatype Event = Event(id: string, contract: Contract, ledger: nat,
                         rawType: string, storedType: string,
                         position: (nat, nat), body: Body)

  datatype Row = Row(id: string, contract: Contract, eventType: string, ledger: nat, position: (nat, nat))

  // Claims are inserted without tx_index and event_index, which default to 0.
  function StoredPosition(e: Event): (nat, nat) {
    if e.body.Claim? then (0, 0) else e.position
  }

  function RowOf(e: Event): Row {
    Row(e.id, e.contract, e.storedType, e.ledger, StoredPosition(e))
  }

  // The columns of the unique constraint on indexed_events.
  function Slot(r: Row): (Contract, nat, (nat, nat)) {
    (r.contract, r.ledger, r.position)
  }

  // `applied` is the history of the events whose handler ran.
  datatype Store = Store(rows: set<Row>, applied: seq<Event>, books: Books)

  function Empty(books: Books): Store { Store({}, [], books) }

  // The guard looks for a row under the raw event type.
  predicate Recognises(rows: set<Row>, e: Event) {
    exists r :: r in rows && r.id == e.id && r.contract == e.contract && r.eventType == e.rawType && r.ledger == e.ledger
  }

  predicate Taken(rows: set<Row>, r: Row) {
    exists q :: q in rows && Slot(q) == Slot(r)
  }

  // INSERT ... ON CONFLICT DO NOTHING.
  function Insert(rows: set<Row>, r: Row): set<Row> {
    if Taken(rows, r) then rows else rows + {r}
  }

  function Deliver(s: Store, e: Event): Store {
    if Recognises(s.rows, e) then s
    else Store(Insert(s.rows, RowOf(e)), s.applied + [e], Apply(s.books, e.contract, e.body))
  }

  // The handler has run and the process died before the row was written.
  function Half(s: Store, e: Event): Store {
    Store(s.rows, s.applied + [e], Apply(s.books, e.contract, e.body))
  }

  function DeliverAll(s: Store, es: seq<Event>): Store {
    if es == [] then s else Deliver(DeliverAll(s, es[..|es| - 1]), es[|es| - 1])
  }

  function LogOf(es: seq<Event>): (log: seq<Entry>)
    ensures |log| == |es|
    ensures forall i :: 0 <= i < |es| ==> log[i] == Entry(es[i].contract, es[i].body)
  {
    seq(|es|, i requires 0 <= i < |es| => Entry(es[i].contract, es[i].body))
  }

  // RPC event ids are unique.
  ghost predicate DistinctIds(events: set<Event>) {
    forall e, f :: e in events && f in events && e.id == f.id ==> e == f
  }

  // The guard compares the type the row is stored under, and no two events of
  // the log compete for one slot of the unique constraint.
  ghost predicate Recognisable(events: set<Event>) {
    && (forall e :: e in events ==> e.rawType == e.storedType)
    && (forall e, f :: e in events && f in events && Slot(RowOf(e)) == Slot(RowOf(f)) ==> e == f)
  }

  ghost predicate From(es: seq<Event>, events: set<Event>) {
    forall e :: e in es ==> e in events
  }

  // The books are always the fold of what was applied.
  ghost predicate BooksAreFold(init: Books, s: Store) {
    s.books == Run(init, LogOf(s.applied))
  }

  ghost predicate RowsAreApplied(s: Store) {
    && (forall e :: e in s.applied ==> RowOf(e) in s.rows)
    && (forall r :: r in s.rows ==> exists e :: e in s.applied && RowOf(e) == r)
  }

  // The invariant of a store over a recognisable log.
  ghost predicate StoreOk(init: Books, events: set<Event>, s: Store) {
    && BooksAreFold(init, s)
    && From(s.applied, events)
    && NoDuplicates(s.applied)
    && RowsAreApplied(s)
  }

  lemma DeliverIsFold(init: Books, s: Store, e: Event)
    requires BooksAreFold(init, s)
    ensures BooksAreFold(init, Deliver(s, e))
  {
    var t := Deliver(s, e);
    if t != s {
      assert LogOf(t.applied)[..|t.applied| - 1] == LogOf(s.applied);
    }
  }

  lemma RecognisedWasApplied(events: set<Event>, s: Store, e: Event)
    requires DistinctIds(events) && From(s.applied, events) && RowsAreApplied(s) && e in events
    ensures Recognises(s.rows, e) ==> e in s.applied
  {
    if Recognises(s.rows, e) {
      var r :| r in s.rows && r.id == e.id;
      var f :| f in s.applied && RowOf(f) == r;
      assert f == e;
    }
  }

  lemma AppliedIsRecognised(events: set<Event>, s: Store, e: Event)
    requires Recognisable(events) && RowsAreApplied(s) && e in events
    ensures e in s.applied ==> Recognises(s.rows, e)
  {
    if e in s.applied {
      assert RowOf(e) in s.rows;
    }
  }

  lemma DeliverKeepsStoreOk(init: Books, events: set<Event>, s: Store, e: Event)
    requires DistinctIds(events) && Recognisable(events)
    requires StoreOk(init, events, s) && e in events
    ensures StoreOk(init, events, Deliver(s, e))
    ensures forall x :: x in Deliver(s, e).applied <==> x in s.applied || x == e
    ensures e in s.applied <==> Deliver(s, e) == s
  {
    DeliverIsFold(init, s, e);
    if e in s.applied {
      assert RowOf(e) in s.rows;
      assert Recognises(s.rows, e);
    } else {
      RecognisedWasApplied(events, s, e);
      SlotIsFree(events, s, e);
      RowsGrow(s, e);
    }
  }

  lemma SlotIsFree(events: set<Event>, s: Store, e: Event)
    requires Recognisable(events) && From(s.applied, events) && RowsAreApplied(s) && e in events && e !in s.applied
    ensures forall q :: q in s.rows ==> Slot(q) != Slot(RowOf(e))
  {
    forall q | q in s.rows ensures Slot(q) != Slot(RowOf(e)) {
      var f :| f in s.applied && RowOf(f) == q;
    }
  }

  lemma RowsGrow(s: Store, e: Event)
    requires RowsAreApplied(s) && !Recognises(s.rows, e)
    requires forall q :: q in s.rows ==> Slot(q) != Slot(RowOf(e))
    ensures RowsAreApplied(Deliver(s, e))
  {
    var t := Deliver(s, e);
    assert t.rows == s.rows + {RowOf(e)};
    assert t.applied == s.applied + [e];
    forall r | r in t.rows ensures exists x :: x in t.applied && RowOf(x) == r {
      if r in s.rows {
        var x :| x in s.applied && RowOf(x) == r;
        assert x in t.applied;
      } else {
        assert e in t.applied;
      }
    }
  }

  // Exactly once: whatever is re-delivered and in whatever overlapping
  // batches, the applied events are the delivered ones, each once, and the
  // books are their fold.
  lemma {:induction false} DeliveredExactlyOnce(init: Books, events: set<Event>, s: Store, es: seq<Event>)
    requires DistinctIds(events) && Recognisable(events)
    requires StoreOk(init, events, s) && From(es, events)
    ensures StoreOk(init, events, DeliverAll(s, es))
    ensures forall x :: x in DeliverAll(s, es).applied <==> x in s.applied || x in es
  {
    if es != [] {
      var batch := es[..|es| - 1];
      assert es == batch + [es[|es| - 1]];
      DeliveredExactlyOnce(init, events, s, batch);
      DeliverKeepsStoreOk(init, events, DeliverAll(s, batch), es[|es| - 1]);
    }
  }

  // First occurrences, in order.
  function Distinct(es: seq<Event>): seq<Event> {
    if es == [] then []
    else
      var d := Distinct(es[..|es| - 1]);
      if es[|es| - 1] in d then d else d + [es[|es| - 1]]
  }

  lemma {:induction false} AppliedAreFirstOccurrences(init: Books, events: set<Event>, es: seq<Event>)
    requires DistinctIds(events) && Recognisable(events) && From(es, events)
    ensures DeliverAll(Empty(init), es).applied == Distinct(es)
    ensures DeliverAll(Empty(init), es).books == Run(init, LogOf(Distinct(es)))
  {
    EmptyIsOk(init, events);
    DeliveredExactlyOnce(init, events, Empty(init), es);
    if es != [] {
      var batch := es[..|es| - 1];
      assert es == batch + [es[|es| - 1]];
      AppliedAreFirstOccurrences(init, events, batch);
      DeliveredExactlyOnce(init, events, Empty(init), batch);
      DeliverKeepsStoreOk(init, events, DeliverAll(Empty(init), batch), es[|es| - 1]);
    }
  }

  lemma EmptyIsOk(init: Books, events: set<Event>)
    ensures StoreOk(init, events, Empty(init))
  {
    assert LogOf([]) == [];
  }

  // Every sequence of deliveries applies every event at most once.
  ghost predicate NeverAppliedTwice(init: Books, events: set<Event>) {
    forall es: seq<Event> :: From(es, events) ==> NoDuplicates(DeliverAll(Empty(init), es).applied)
  }

  // Exactly when duplicates are harmless: the stored type is the compared one
  // and the slots of the unique constraint are distinct.
  lemma NeverAppliedTwiceIffRecognisable(init: Books, events: set<Event>)
    requires DistinctIds(events)
    ensures NeverAppliedTwice(init, events) <==> Recognisable(events)
  {
    if Recognisable(events) {
      forall es: seq<Event> | From(es, events) ensures NoDuplicates(DeliverAll(Empty(init), es).applied) {
        EmptyIsOk(init, events);
        DeliveredExactlyOnce(init, events, Empty(init), es);
      }
    } else if e :| e in events && e.rawType != e.storedType {
      UnmatchedTypeAppliedTwice(init, e);
      assert From([e, e], events);
    } else {
      var e, f :| e in events && f in events && Slot(RowOf(e)) == Slot(RowOf(f)) && e != f;
      LostSlotAppliedTwice(init, e, f);
      assert From([e, f, f], events);
    }
  }

  lemma DeliverAllSnoc(s: Store, es: seq<Event>, e: Event)
    ensures DeliverAll(s, es + [e]) == Deliver(DeliverAll(s, es), e)
  {
    assert (es + [e])[..|es + [e]| - 1] == es;
  }

  // As written the guard compares "contract" with "deposit": the two
  // overlapping batches of a backfill apply the event twice.
  lemma UnmatchedTypeAppliedTwice(init: Books, e: Event)
    requires e.rawType != e.storedType
    ensures DeliverAll(Empty(init), [e, e]).applied == [e, e]
  {
    var once := Deliver(Empty(init), e);
    DeliverAllSnoc(Empty(init), [], e);
    DeliverAllSnoc(Empty(init), [e], e);
    assert [] + [e] == [e] && [e] + [e] == [e, e];
    assert once.rows == {RowOf(e)};
    assert DeliverAll(Empty(init), [e]) == once;
  }

  // An event whose slot is taken is never stored, so it is applied again: two
  // claims of one contract in one ledger.
  lemma LostSlotAppliedTwice(init: Books, e: Event, f: Event)
    requires Slot(RowOf(e)) == Slot(RowOf(f)) && e.id != f.id
    ensures DeliverAll(Empty(init), [e, f, f]).applied == [e, f, f]
  {
    var s1 := Deliver(Empty(init), e);
    DeliverAllSnoc(Empty(init), [], e);
    assert [] + [e] == [e];
    assert s1.rows == {RowOf(e)};
    DeliverAllSnoc(Empty(init), [e], f);
    assert [e] + [f] == [e, f];
    var s2 := Deliver(s1, f);
    assert !Recognises(s1.rows, f);
    assert RowOf(e) in s1.rows;
    assert s2.rows == s1.rows;
    DeliverAllSnoc(Empty(init), [e, f], f);
    assert [e, f] + [f] == [e, f, f];
  }

  lemma DeliverTwo(s: Store, e: Event, f: Event)
    ensures DeliverAll(s, [e, f]) == Deliver(Deliver(s, e), f)
  {
    DeliverAllSnoc(s, [], e);
    DeliverAllSnoc(s, [e], f);
    assert [] + [e] == [e] && [e] + [f] == [e, f] && DeliverAll(s, []) == s;
  }

  // The second of two deliveries is skipped exactly when it has the id, the
  // contract and the ledger of the first and the first was stored under the
  // type that the second arrives with.
  lemma SecondIsSkippedIff(init: Books, e: Event, f: Event)
    ensures DeliverAll(Empty(init), [e, f]).applied == [e]
      <==> f.id == e.id && f.contract == e.contract && f.ledger == e.ledger && f.rawType == e.storedType
  {
    DeliverTwo(Empty(init), e, f);
    var once := Deliver(Empty(init), e);
    assert once.rows == {RowOf(e)} && once.applied == [e];
    assert Recognises(once.rows, f) <==> f.id == e.id && f.contract == e.contract && f.ledger == e.ledger && f.rawType == e.storedType;
  }

  // One event leaves one row: claims at position (0, 0), others at their own.
  lemma OneRow(init: Books, e: Event)
    ensures DeliverAll(Empty(init), [e]).rows
         == {Row(e.id, e.contract, e.storedType, e.ledger, if e.body.Claim? then (0, 0) else e.position)}
  {
    DeliverAllSnoc(Empty(init), [], e);
    assert [] + [e] == [e] && DeliverAll(Empty(init), []) == Empty(init);
  }

  // Two events compete for one place exactly when they are of one contract and
  // ledger and both are claims, or one is and the other is at (0, 0), or
  // neither is and their positions are equal.
  lemma CompeteIff(init: Books, e: Event, f: Event)
    requires e.id != f.id
    ensures |DeliverAll(Empty(init), [e, f]).rows| == 1
      <==> e.contract == f.contract && e.ledger == f.ledger
           && if e.body.Claim? then f.body.Claim? || f.position == (0, 0)
              else if f.body.Claim? then e.position == (0, 0)
              else e.position == f.position
    ensures |DeliverAll(Empty(init), [e, f]).rows| == 1 ==> DeliverAll(Empty(init), [e, f]).rows == DeliverAll(Empty(init), [e]).rows
  {
    OneRow(init, e);
    DeliverTwo(Empty(init), e, f);
    var once := DeliverAll(Empty(init), [e]);
    assert once == Deliver(Empty(init), e) by {
      DeliverAllSnoc(Empty(init), [], e);
      assert [] + [e] == [e];
    }
    assert !Recognises(once.rows, f);
    if Taken(once.rows, RowOf(f)) {
      assert Deliver(once, f).rows == once.rows;
    } else {
      assert Deliver(once, f).rows == once.rows + {RowOf(f)} && RowOf(f) !in once.rows;
    }
  }

  // Two claims of one contract in one ledger leave one row, whatever their
  // positions, and the second is applied as often as it is delivered.
  lemma TwoClaimsOneRow(init: Books, e: Event, f: Event)
    requires e.body.Claim? && f.body.Claim? && e.contract == f.contract && e.ledger == f.ledger && e.id != f.id
    ensures DeliverAll(Empty(init), [e, f]).rows == {Row(e.id, e.contract, e.storedType, e.ledger, (0, 0))}
    ensures DeliverAll(Empty(init), [e, f, f]).applied == [e, f, f]
  {
    OneRow(init, e);
    CompeteIff(init, e, f);
    LostSlotAppliedTwice(init, e, f);
  }

  // An event left between handler and row is applied again by its next
  // delivery, whatever its types: no row is there to be recognised.
  lemma HalfThenDelivered(s: Store, e: Event)
    requires !Recognises(s.rows, e)
    ensures Deliver(Half(s, e), e).applied == s.applied + [e, e]
    ensures Deliver(Half(s, e), e).books == Apply(Apply(s.books, e.contract, e.body), e.contract, e.body)
  {
    assert s.applied + [e] + [e] == s.applied + [e, e];
  }

  // The core of a race: f was looked for before e is delivered, and is
  // published without looking again. Its row being missed, the history stays
  // free of duplicates exactly when e is another event.
  lemma CheckedBeforeIff(init: Books, events: set<Event>, s: Store, e: Event, f: Event)
    requires DistinctIds(events) && Recognisable(events) && StoreOk(init, events, s)
    requires e in events && f in events && !Recognises(s.rows, f)
    ensures NoDuplicates(Half(Deliver(s, e), f).applied) <==> e != f
  {
    AppliedIsRecognised(events, s, f);
    DeliverKeepsStoreOk(init, events, s, e);
    var applied := Deliver(s, e).applied;
    if e == f {
      var i :| 0 <= i < |applied| && applied[i] == f;
      assert (applied + [f])[i] == (applied + [f])[|applied|];
    }
  }

  // Two-batch backfill of one deposit, guard compared as written.
  lemma OverlappingBatchesDoubleDeposit(init: Books, e: Event)
    requires e.body.Deposit? && e.contract in init.vaults && (e.contract, e.body.receiver) !in init.positions
    requires e.rawType == "contract" && e.storedType == "deposit"
    ensures var twice := DeliverAll(Empty(init), [e, e]).books.positions;
            && (e.contract, e.body.receiver) in twice
            && twice[(e.contract, e.body.receiver)].shares == 2 * e.body.shares
  {
    TwoDeliveries(init, e);
    assert !Recognises({RowOf(e)}, e);
  }

  lemma TwoDeliveries(init: Books, e: Event)
    requires !Recognises({RowOf(e)}, e)
    ensures DeliverAll(Empty(init), [e, e]).books == Apply(Apply(init, e.contract, e.body), e.contract, e.body)
  {
    DeliverAllSnoc(Empty(init), [], e);
    DeliverAllSnoc(Empty(init), [e], e);
    assert [] + [e] == [e] && [e] + [e] == [e, e];
    assert Deliver(Empty(init), e).rows == {RowOf(e)};
  }
}
