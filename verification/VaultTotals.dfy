// vaults.total_assets under overlapping writers: handleDeposit reads the total
// in one statement and writes the sum back in another
// (backend/src/services/indexer.ts), inside a transaction or, in a replay,
// without one.
module VaultTotals {
  import opened Common

  // A deposit of `due` that has seen the total `seen` and not yet written it;
  // `written` is what the transaction has written and not committed, for
  // deposits of `sum` in all.
  datatype Writer = Writer(direct: bool, seen: Option<int>, due: int, written: Option<int>, sum: int)

  // `deposited` sums the deposits whose total has been committed.
  datatype State = State(total: int, deposited: int, writers: map<nat, Writer>)

  datatype Act =
    | Begin(id: nat, direct: bool)
    | Read(id: nat, assets: int)
    | Write(id: nat)
    | Commit(id: nat)
    | Rollback(id: nat)

  // The row is locked by a transaction that has written it.
  predicate Locked(s: State, id: nat) {
    exists v :: v in s.writers && v != id && s.writers[v].written.Some?
  }

  predicate MayWrite(s: State, id: nat) {
    id in s.writers && s.writers[id].seen.Some? && !Locked(s, id)
  }

  function Perform(s: State, act: Act): State {
    match act
    case Begin(id, direct) => if id in s.writers then s else s.(writers := s.writers[id := Writer(direct, None, 0, None, 0)])
    case Read(id, assets) =>
      if id !in s.writers || s.writers[id].seen.Some? then s
      else
        var w := s.writers[id];
        s.(writers := s.writers[id := w.(seen := Some(if w.written.Some? then w.written.value else s.total), due := assets)])
    case Write(id) =>
      if !MayWrite(s, id) then s
      else
        var w := s.writers[id];
        if w.direct then State(w.seen.value + w.due, s.deposited + w.due, s.writers[id := w.(seen := None)])
        else s.(writers := s.writers[id := w.(seen := None, written := Some(w.seen.value + w.due), sum := w.sum + w.due)])
    case Commit(id) =>
      if id !in s.writers then s
      else
        var w := s.writers[id];
        State(if w.written.Some? then w.written.value else s.total, s.deposited + (if w.written.Some? then w.sum else 0),
              s.writers - {id})
    case Rollback(id) => s.(writers := s.writers - {id})
  }

  function Run(s: State, acts: seq<Act>): State {
    if acts == [] then s else Perform(Run(s, acts[..|acts| - 1]), acts[|acts| - 1])
  }

  // At most one transaction has written the row and not ended.
  ghost predicate OneHasWritten(s: State) {
    forall u, v :: u in s.writers && v in s.writers && s.writers[u].written.Some? && s.writers[v].written.Some? ==> u == v
  }

  lemma {:induction false} RowIsLocked(s: State, acts: seq<Act>)
    requires OneHasWritten(s)
    ensures OneHasWritten(Run(s, acts))
  {
    if acts != [] {
      RowIsLocked(s, acts[..|acts| - 1]);
      StepKeepsLock(Run(s, acts[..|acts| - 1]), acts[|acts| - 1]);
    }
  }

  lemma StepKeepsLock(s: State, act: Act)
    requires OneHasWritten(s)
    ensures OneHasWritten(Perform(s, act))
  {}

  predicate Exact(initial: int, s: State) { s.total == initial + s.deposited }

  // The total written, less one's own deposits, is no longer the total there.
  predicate Stale(s: State, act: Act) {
    match act
    case Write(id) => MayWrite(s, id) && s.writers[id].direct && s.writers[id].seen.value != s.total
    case Commit(id) =>
      id in s.writers && s.writers[id].written.Some? && s.writers[id].written.value - s.writers[id].sum != s.total
    case _ => false
  }

  predicate ExactThroughout(initial: int, s: State, acts: seq<Act>) {
    Exact(initial, Run(s, acts)) && (acts != [] ==> ExactThroughout(initial, s, acts[..|acts| - 1]))
  }

  predicate NeverStale(s: State, acts: seq<Act>) {
    acts != [] ==>
      NeverStale(s, acts[..|acts| - 1]) && !Stale(Run(s, acts[..|acts| - 1]), acts[|acts| - 1])
  }

  // The total is the sum of the committed deposits all along a run exactly
  // when nobody writes back a total that has changed since it was read.
  lemma {:induction false} ExactIffNeverStale(initial: int, s: State, acts: seq<Act>)
    requires Exact(initial, s)
    ensures ExactThroughout(initial, s, acts) <==> NeverStale(s, acts)
  {
    if acts != [] {
      ExactIffNeverStale(initial, s, acts[..|acts| - 1]);
      if ExactThroughout(initial, s, acts[..|acts| - 1]) {
        StepIsExactIff(initial, Run(s, acts[..|acts| - 1]), acts[|acts| - 1]);
      }
    }
  }

  lemma StepIsExactIff(initial: int, s: State, act: Act)
    requires Exact(initial, s)
    ensures Exact(initial, Perform(s, act)) <==> !Stale(s, act)
  {}

  // Writers come one at a time.
  predicate OneAtATime(s: State, acts: seq<Act>) {
    acts != [] ==>
      OneAtATime(s, acts[..|acts| - 1])
      && (acts[|acts| - 1].Begin? ==> Run(s, acts[..|acts| - 1]).writers == map[])
  }

  // What a lone writer has read or written builds on the total there.
  predicate Fresh(s: State) {
    && (forall u, v :: u in s.writers && v in s.writers ==> u == v)
    && forall id :: id in s.writers ==>
         var w := s.writers[id];
         && (w.direct ==> w.written.None?)
         && (w.written.Some? ==> w.written.value - w.sum == s.total)
         && (w.written.None? ==> w.sum == 0)
         && (w.seen.Some? ==> w.seen.value == if w.written.Some? then w.written.value else s.total)
  }

  lemma StepStaysFresh(s: State, act: Act)
    requires Fresh(s) && (act.Begin? ==> s.writers == map[])
    ensures !Stale(s, act) && Fresh(Perform(s, act))
  {
    assert act.Begin? || Perform(s, act).writers.Keys <= s.writers.Keys;
  }

  lemma {:induction false} OneAtATimeIsNeverStale(s: State, acts: seq<Act>)
    requires s.writers == map[] && OneAtATime(s, acts)
    ensures NeverStale(s, acts) && Fresh(Run(s, acts))
  {
    if acts != [] {
      OneAtATimeIsNeverStale(s, acts[..|acts| - 1]);
      StepStaysFresh(Run(s, acts[..|acts| - 1]), acts[|acts| - 1]);
    }
  }

  lemma RunSnoc(s: State, acts: seq<Act>, act: Act)
    ensures Run(s, acts + [act]) == Perform(Run(s, acts), act)
  {
    assert (acts + [act])[..|acts + [act]| - 1] == acts;
  }

  lemma RunFour(s: State, a: Act, b: Act, c: Act, d: Act)
    ensures Run(s, [a, b, c, d]) == Perform(Perform(Perform(Perform(s, a), b), c), d)
  {
    RunSnoc(s, [], a);
    RunSnoc(s, [a], b);
    RunSnoc(s, [a, b], c);
    RunSnoc(s, [a, b, c], d);
    assert [] + [a] == [a] && [a] + [b] == [a, b] && [a, b] + [c] == [a, b, c] && [a, b, c] + [d] == [a, b, c, d];
    assert Run(s, []) == s;
  }

  lemma {:induction false} RunConcat(s: State, p: seq<Act>, q: seq<Act>)
    ensures Run(s, p + q) == Run(Run(s, p), q)
  {
    if q == [] {
      assert p + q == p;
    } else {
      RunConcat(s, p, q[..|q| - 1]);
      assert (p + q)[..|p + q| - 1] == p + q[..|q| - 1];
    }
  }

  // A tick and a backfill each take in a deposit of the same vault.
  function BothRead(a: int, b: int): seq<Act> { [Begin(0, false), Begin(1, false), Read(0, a), Read(1, b)] }

  function BothWrite(): seq<Act> { [Write(0), Commit(0), Write(1), Commit(1)] }

  function Seen(total: int, due: int): Writer { Writer(false, Some(total), due, None, 0) }

  // The deposit committed first is missing from the total.
  lemma OverlappingDepositsLoseOne(initial: int, a: int, b: int)
    ensures var s := Run(State(initial, 0, map[]), BothRead(a, b) + BothWrite());
            s.deposited == a + b && s.total == initial + b
  {
    var s, idle := State(initial, 0, map[]), Writer(false, None, 0, None, 0);
    RunFour(s, Begin(0, false), Begin(1, false), Read(0, a), Read(1, b));
    assert Perform(Perform(s, Begin(0, false)), Begin(1, false)).writers == map[0 := idle, 1 := idle];
    var s4 := State(initial, 0, map[0 := Seen(initial, a), 1 := Seen(initial, b)]);
    assert Run(s, BothRead(a, b)).writers == s4.writers;
    RunConcat(s, BothRead(a, b), BothWrite());
    RunFour(s4, Write(0), Commit(0), Write(1), Commit(1));
    WritesInTurn(s4, initial, a, b);
  }

  lemma WritesInTurn(s: State, initial: int, a: int, b: int)
    requires s == State(initial, 0, map[0 := Seen(initial, a), 1 := Seen(initial, b)])
    ensures Perform(Perform(Perform(Perform(s, Write(0)), Commit(0)), Write(1)), Commit(1)) == State(initial + b, a + b, map[])
  {
    var s1 := Perform(s, Write(0));
    assert s1.writers[0].written == Some(initial + a);
    var s2 := Perform(s1, Commit(0));
    assert s2 == State(initial + a, a, map[1 := Seen(initial, b)]);
    var s3 := Perform(s2, Write(1));
    assert s3.writers - {1} == map[];
  }
}
