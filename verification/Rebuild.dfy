// Rebuilding positions from the event log, one stream after the other
// (backend/src/scripts/rebuild-positions.ts), and its relation to the
// indexer's event-by-event bookkeeping.
module Rebuild {
  import opened Common

  type Vault = string
  type Key = (Vault, string)

  datatype Deposit = Deposit(key: Key, amount: int, shares: int, ledger: nat)
  datatype Withdrawal = Withdrawal(key: Key, shares: int, ledger: nat)
  datatype Refund = Refund(key: Key, amount: int, ledger: nat)
  datatype Transfer = Transfer(vault: Vault, from: string, to: string, amount: int, ledger: nat)

  datatype Rebuilt = Rebuilt(shares: int, deposits: int, lastLedger: nat)

  type Table = map<Key, Rebuilt>

  function AddDeposit(m: Table, e: Deposit): Table {
    var p := if e.key in m then m[e.key] else Rebuilt(0, 0, e.ledger);
    m[e.key := Rebuilt(p.shares + e.shares, p.deposits + e.amount, e.ledger)]
  }

  function AddWithdrawal(m: Table, e: Withdrawal): Table {
    if e.key in m then m[e.key := m[e.key].(shares := m[e.key].shares - e.shares, lastLedger := e.ledger)] else m
  }

  function AddRefund(m: Table, e: Refund): Table {
    if e.key in m then m[e.key := m[e.key].(deposits := m[e.key].deposits - e.amount, lastLedger := e.ledger)] else m
  }

  function Debit(m: Table, e: Transfer): Table {
    var from := (e.vault, e.from);
    if from in m then m[from := m[from].(shares := m[from].shares - e.amount, lastLedger := e.ledger)] else m
  }

  function Credit(m: Table, e: Transfer): Table {
    var to := (e.vault, e.to);
    var p := if to in m then m[to] else Rebuilt(0, 0, e.ledger);
    m[to := p.(shares := p.shares + e.amount, lastLedger := e.ledger)]
  }

  function Deposits(m: Table, es: seq<Deposit>): Table {
    if es == [] then m else AddDeposit(Deposits(m, es[..|es| - 1]), es[|es| - 1])
  }

  function Withdrawals(m: Table, es: seq<Withdrawal>): Table {
    if es == [] then m else AddWithdrawal(Withdrawals(m, es[..|es| - 1]), es[|es| - 1])
  }

  function Refunds(m: Table, es: seq<Refund>): Table {
    if es == [] then m else AddRefund(Refunds(m, es[..|es| - 1]), es[|es| - 1])
  }

  function Transfers(m: Table, es: seq<Transfer>): Table {
    if es == [] then m else Credit(Debit(Transfers(m, es[..|es| - 1]), es[|es| - 1]), es[|es| - 1])
  }

  // The four phases, in the order of the script.
  function Phases(ds: seq<Deposit>, ws: seq<Withdrawal>, rs: seq<Refund>, ts: seq<Transfer>): Table {
    Transfers(Refunds(Withdrawals(Deposits(map[], ds), ws), rs), ts)
  }

  method RebuildPositions(ds: seq<Deposit>, ws: seq<Withdrawal>, rs: seq<Refund>, ts: seq<Transfer>)
    returns (positions: Table)
    ensures positions == Phases(ds, ws, rs, ts)
  {
    positions := map[];
    for i := 0 to |ds|
      invariant positions == Deposits(map[], ds[..i])
    {
      var e := ds[i];
      if e.key !in positions {
        positions := positions[e.key := Rebuilt(0, 0, e.ledger)];
      }
      var p := positions[e.key];
      positions := positions[e.key := Rebuilt(p.shares + e.shares, p.deposits + e.amount, e.ledger)];
      assert ds[..i + 1][..i] == ds[..i];
    }
    assert ds[..|ds|] == ds;
    ghost var deposited := positions;
    for i := 0 to |ws|
      invariant positions == Withdrawals(deposited, ws[..i])
    {
      var e := ws[i];
      if e.key in positions {
        positions := positions[e.key := positions[e.key].(shares := positions[e.key].shares - e.shares, lastLedger := e.ledger)];
      }
      assert ws[..i + 1][..i] == ws[..i];
    }
    assert ws[..|ws|] == ws;
    ghost var withdrawn := positions;
    for i := 0 to |rs|
      invariant positions == Refunds(withdrawn, rs[..i])
    {
      var e := rs[i];
      if e.key in positions {
        positions := positions[e.key := positions[e.key].(deposits := positions[e.key].deposits - e.amount, lastLedger := e.ledger)];
      }
      assert rs[..i + 1][..i] == rs[..i];
    }
    assert rs[..|rs|] == rs;
    ghost var refunded := positions;
    for i := 0 to |ts|
      invariant positions == Transfers(refunded, ts[..i])
    {
      var e := ts[i];
      var from, to := (e.vault, e.from), (e.vault, e.to);
      if from in positions {
        positions := positions[from := positions[from].(shares := positions[from].shares - e.amount, lastLedger := e.ledger)];
      }
      if to !in positions {
        positions := positions[to := Rebuilt(0, 0, e.ledger)];
      }
      positions := positions[to := positions[to].(shares := positions[to].shares + e.amount, lastLedger := e.ledger)];
      assert ts[..i + 1][..i] == ts[..i];
    }
    assert ts[..|ts|] == ts;
  }

  // ------------------------------------------------------------ sums by key

  function SumBy<T>(s: seq<T>, f: T -> int): int {
    if s == [] then 0 else SumBy(s[..|s| - 1], f) + f(s[|s| - 1])
  }

  lemma {:induction false} SumByConcat<T>(a: seq<T>, b: seq<T>, f: T -> int)
    ensures SumBy(a + b, f) == SumBy(a, f) + SumBy(b, f)
  {
    if b == [] {
      assert a + b == a;
    } else {
      SumByConcat(a, b[..|b| - 1], f);
      assert (a + b)[..|a + b| - 1] == a + b[..|b| - 1];
    }
  }

  lemma SumWithout<T>(t: seq<T>, i: nat, f: T -> int)
    requires i < |t|
    ensures SumBy(t, f) == SumBy(t[..i] + t[i + 1..], f) + f(t[i])
  {
    SumOfThree(t[..i], t[i], t[i + 1..], f);
    assert t == t[..i] + ([t[i]] + t[i + 1..]);
  }

  lemma SumOfThree<T>(a: seq<T>, x: T, b: seq<T>, f: T -> int)
    ensures SumBy(a + ([x] + b), f) == SumBy(a + b, f) + f(x)
  {
    SumByConcat(a, [x] + b, f);
    SumByConcat([x], b, f);
    SumByConcat(a, b, f);
    assert [x][..0] == [] && SumBy([x][..0], f) == 0;
  }

  lemma MultisetWithout<T>(t: seq<T>, i: nat)
    requires i < |t|
    ensures multiset(t[..i] + t[i + 1..]) == multiset(t) - multiset{t[i]}
  {
    assert t == t[..i] + ([t[i]] + t[i + 1..]);
  }

  lemma LastOut<T>(s: seq<T>)
    requires s != []
    ensures multiset(s[..|s| - 1]) == multiset(s) - multiset{s[|s| - 1]} && s[|s| - 1] in multiset(s)
  {
    assert s == s[..|s| - 1] + [s[|s| - 1]];
  }

  lemma Position<T>(s: seq<T>, t: seq<T>, x: T) returns (i: nat)
    requires multiset(s) == multiset(t) && x in multiset(s)
    ensures i < |t| && t[i] == x
  {
    assert x in multiset(t);
    assert x in t;
    i :| 0 <= i < |t| && t[i] == x;
  }

  lemma {:induction false} SumByPermutation<T>(s: seq<T>, t: seq<T>, f: T -> int)
    requires multiset(s) == multiset(t)
    ensures SumBy(s, f) == SumBy(t, f)
  {
    if s == [] {
      assert |t| == |multiset(t)| == 0;
    } else {
      var init, x := s[..|s| - 1], s[|s| - 1];
      LastOut(s);
      var i := Position(s, t, x);
      SumWithout(t, i, f);
      MultisetWithout(t, i);
      SumByPermutation(init, t[..i] + t[i + 1..], f);
    }
  }

  function DepositOf(k: Key): Deposit -> int { (e: Deposit) => if e.key == k then e.shares else 0 }

  function AmountOf(k: Key): Deposit -> int { (e: Deposit) => if e.key == k then e.amount else 0 }

  function WithdrawalOf(k: Key): Withdrawal -> int { (e: Withdrawal) => if e.key == k then e.shares else 0 }

  function RefundOf(k: Key): Refund -> int { (e: Refund) => if e.key == k then e.amount else 0 }

  function InOf(k: Key): Transfer -> int { (e: Transfer) => if (e.vault, e.to) == k then e.amount else 0 }

  function OutOf(k: Key): Transfer -> int { (e: Transfer) => if (e.vault, e.from) == k then e.amount else 0 }

  function Balance(m: Table, k: Key): int { if k in m then m[k].shares else 0 }

  function DepositTotal(m: Table, k: Key): int { if k in m then m[k].deposits else 0 }

  // Deposits − withdrawals + received − sent.
  function SignedSum(ds: seq<Deposit>, ws: seq<Withdrawal>, ts: seq<Transfer>, k: Key): int {
    SumBy(ds, DepositOf(k)) - SumBy(ws, WithdrawalOf(k)) + SumBy(ts, InOf(k)) - SumBy(ts, OutOf(k))
  }

  predicate Depositor(ds: seq<Deposit>, k: Key) {
    exists i :: 0 <= i < |ds| && ds[i].key == k
  }

  // The keys with a row when a transfer is reached.
  predicate Known(ds: seq<Deposit>, ts: seq<Transfer>, k: Key) {
    Depositor(ds, k) || exists i :: 0 <= i < |ts| && (ts[i].vault, ts[i].to) == k
  }

  // What the transfer loop drops for key k: debits of a key without a row.
  function DroppedTransfers(ds: seq<Deposit>, ts: seq<Transfer>, k: Key): int {
    if ts == [] then 0
    else
      var init, e := ts[..|ts| - 1], ts[|ts| - 1];
      DroppedTransfers(ds, init, k) + if (e.vault, e.from) == k && !Known(ds, init, k) then e.amount else 0
  }

  function DroppedWithdrawals(ds: seq<Deposit>, ws: seq<Withdrawal>, k: Key): int {
    if Depositor(ds, k) then 0 else SumBy(ws, WithdrawalOf(k))
  }

  function Dropped(ds: seq<Deposit>, ws: seq<Withdrawal>, ts: seq<Transfer>, k: Key): int {
    DroppedWithdrawals(ds, ws, k) + DroppedTransfers(ds, ts, k)
  }

  // ---------------------------------------------------- the exact balance

  lemma {:induction false} AfterDeposits(ds: seq<Deposit>, k: Key)
    ensures k in Deposits(map[], ds) <==> Depositor(ds, k)
    ensures Balance(Deposits(map[], ds), k) == SumBy(ds, DepositOf(k))
    ensures DepositTotal(Deposits(map[], ds), k) == SumBy(ds, AmountOf(k))
  {
    if ds != [] {
      var n := |ds| - 1;
      AfterDeposits(ds[..n], k);
      assert Depositor(ds, k) <==> Depositor(ds[..n], k) || ds[n].key == k by {
        if Depositor(ds[..n], k) {
          var i :| 0 <= i < n && ds[..n][i].key == k;
          assert ds[i].key == k;
        }
        if Depositor(ds, k) {
          var i :| 0 <= i < |ds| && ds[i].key == k;
          assert i < n ==> ds[..n][i].key == k;
        }
      }
    }
  }

  lemma {:induction false} AfterWithdrawals(m: Table, ws: seq<Withdrawal>, k: Key)
    ensures Withdrawals(m, ws).Keys == m.Keys
    ensures Balance(Withdrawals(m, ws), k) == Balance(m, k) - if k in m then SumBy(ws, WithdrawalOf(k)) else 0
    ensures DepositTotal(Withdrawals(m, ws), k) == DepositTotal(m, k)
  {
    if ws != [] {
      AfterWithdrawals(m, ws[..|ws| - 1], k);
    }
  }

  lemma {:induction false} AfterRefunds(m: Table, rs: seq<Refund>, k: Key)
    ensures Refunds(m, rs).Keys == m.Keys
    ensures Balance(Refunds(m, rs), k) == Balance(m, k)
    ensures DepositTotal(Refunds(m, rs), k) == DepositTotal(m, k) - if k in m then SumBy(rs, RefundOf(k)) else 0
  {
    if rs != [] {
      AfterRefunds(m, rs[..|rs| - 1], k);
    }
  }

  lemma {:induction false} AfterTransfers(ds: seq<Deposit>, m: Table, ts: seq<Transfer>, k: Key)
    requires forall x :: x in m <==> Depositor(ds, x)
    ensures forall x :: x in Transfers(m, ts) <==> Known(ds, ts, x)
    ensures Balance(Transfers(m, ts), k)
         == Balance(m, k) + SumBy(ts, InOf(k)) - SumBy(ts, OutOf(k)) + DroppedTransfers(ds, ts, k)
    ensures DepositTotal(Transfers(m, ts), k) == DepositTotal(m, k)
  {
    if ts != [] {
      var n := |ts| - 1;
      AfterTransfers(ds, m, ts[..n], k);
      forall x ensures x in Transfers(m, ts) <==> Known(ds, ts, x) {
        KnownSplit(ds, ts, x);
      }
    }
  }

  lemma KnownSplit(ds: seq<Deposit>, ts: seq<Transfer>, k: Key)
    requires ts != []
    ensures Known(ds, ts, k) <==> Known(ds, ts[..|ts| - 1], k) || (ts[|ts| - 1].vault, ts[|ts| - 1].to) == k
  {
    var n := |ts| - 1;
    if i :| 0 <= i < n && (ts[..n][i].vault, ts[..n][i].to) == k {
      assert (ts[i].vault, ts[i].to) == k;
    }
    if i :| 0 <= i < |ts| && (ts[i].vault, ts[i].to) == k {
      assert i < n ==> (ts[..n][i].vault, ts[..n][i].to) == k;
    }
  }

  // Every balance exceeds the signed sum by exactly the dropped debits.
  lemma RebuiltBalance(ds: seq<Deposit>, ws: seq<Withdrawal>, rs: seq<Refund>, ts: seq<Transfer>, k: Key)
    ensures Balance(Phases(ds, ws, rs, ts), k) == SignedSum(ds, ws, ts, k) + Dropped(ds, ws, ts, k)
    ensures DepositTotal(Phases(ds, ws, rs, ts), k)
         == SumBy(ds, AmountOf(k)) - if Depositor(ds, k) then SumBy(rs, RefundOf(k)) else 0
    ensures k in Phases(ds, ws, rs, ts) <==> Known(ds, ts, k)
  {
    var deposited := Deposits(map[], ds);
    forall x ensures x in deposited <==> Depositor(ds, x) {
      AfterDeposits(ds, x);
    }
    AfterDeposits(ds, k);
    AfterWithdrawals(deposited, ws, k);
    AfterRefunds(Withdrawals(deposited, ws), rs, k);
    AfterTransfers(ds, Refunds(Withdrawals(deposited, ws), rs), ts, k);
  }

  // Every withdrawing user deposited, every sender deposited or received before.
  predicate Complete(ds: seq<Deposit>, ws: seq<Withdrawal>, ts: seq<Transfer>) {
    && (forall i :: 0 <= i < |ws| ==> Depositor(ds, ws[i].key))
    && (forall i :: 0 <= i < |ts| ==> Known(ds, ts[..i], (ts[i].vault, ts[i].from)))
  }

  ghost predicate PositiveDebits(ws: seq<Withdrawal>, ts: seq<Transfer>) {
    && (forall e :: e in ws ==> e.shares > 0)
    && (forall e :: e in ts ==> e.amount > 0)
  }

  lemma {:induction false} DroppedTransfersSign(ds: seq<Deposit>, ts: seq<Transfer>, k: Key)
    requires forall e :: e in ts ==> e.amount > 0
    ensures DroppedTransfers(ds, ts, k) >= 0
    ensures DroppedTransfers(ds, ts, k) == 0 <==>
            forall i :: 0 <= i < |ts| && (ts[i].vault, ts[i].from) == k ==> Known(ds, ts[..i], k)
  {
    if ts != [] {
      var n := |ts| - 1;
      var init := ts[..n];
      assert forall e :: e in init ==> e in ts;
      DroppedTransfersSign(ds, init, k);
      assert ts[n] in ts;
      forall i | 0 <= i < n ensures init[..i] == ts[..i] && init[i] == ts[i] {}
      if DroppedTransfers(ds, init, k) != 0 {
        var i :| 0 <= i < n && (init[i].vault, init[i].from) == k && !Known(ds, init[..i], k);
        assert !Known(ds, ts[..i], k) && (ts[i].vault, ts[i].from) == k;
      }
    }
  }

  lemma {:induction false} WithdrawnSign(ws: seq<Withdrawal>, k: Key)
    requires forall e :: e in ws ==> e.shares > 0
    ensures SumBy(ws, WithdrawalOf(k)) >= 0
    ensures SumBy(ws, WithdrawalOf(k)) == 0 <==> forall i :: 0 <= i < |ws| ==> ws[i].key != k
  {
    if ws != [] {
      var n := |ws| - 1;
      assert forall e :: e in ws[..n] ==> e in ws;
      WithdrawnSign(ws[..n], k);
      assert ws[n] in ws;
      forall i | 0 <= i < n ensures ws[..n][i] == ws[i] {}
      if SumBy(ws[..n], WithdrawalOf(k)) != 0 {
        var i :| 0 <= i < n && ws[..n][i].key == k;
        assert ws[i].key == k;
      }
    }
  }

  // The rebuild is right for every key exactly when the log is complete.
  lemma RebuiltIsSignedSumIffComplete(ds: seq<Deposit>, ws: seq<Withdrawal>, rs: seq<Refund>, ts: seq<Transfer>)
    requires PositiveDebits(ws, ts)
    ensures (forall k :: Balance(Phases(ds, ws, rs, ts), k) == SignedSum(ds, ws, ts, k)) <==> Complete(ds, ws, ts)
  {
    forall k
      ensures Balance(Phases(ds, ws, rs, ts), k) == SignedSum(ds, ws, ts, k)
        <==> DroppedWithdrawals(ds, ws, k) == 0 && DroppedTransfers(ds, ts, k) == 0
    {
      RebuiltBalance(ds, ws, rs, ts, k);
      DroppedTransfersSign(ds, ts, k);
      WithdrawnSign(ws, k);
    }
    if Complete(ds, ws, ts) {
      forall k ensures DroppedWithdrawals(ds, ws, k) == 0 && DroppedTransfers(ds, ts, k) == 0 {
        DroppedTransfersSign(ds, ts, k);
        WithdrawnSign(ws, k);
      }
    } else if i :| 0 <= i < |ws| && !Depositor(ds, ws[i].key) {
      WithdrawnSign(ws, ws[i].key);
      assert DroppedWithdrawals(ds, ws, ws[i].key) != 0;
    } else {
      var i :| 0 <= i < |ts| && !Known(ds, ts[..i], (ts[i].vault, ts[i].from));
      var k := (ts[i].vault, ts[i].from);
      DroppedTransfersSign(ds, ts, k);
      assert DroppedTransfers(ds, ts, k) != 0;
    }
  }

  // Reordering events inside the four streams moves a balance by exactly the
  // difference in the transfers dropped, and a deposit total not at all.
  lemma OrderMattersByDroppedTransfers(
      ds: seq<Deposit>, ws: seq<Withdrawal>, rs: seq<Refund>, ts: seq<Transfer>,
      ds': seq<Deposit>, ws': seq<Withdrawal>, rs': seq<Refund>, ts': seq<Transfer>, k: Key)
    requires multiset(ds) == multiset(ds') && multiset(ws) == multiset(ws')
    requires multiset(rs) == multiset(rs') && multiset(ts) == multiset(ts')
    ensures Balance(Phases(ds, ws, rs, ts), k) - Balance(Phases(ds', ws', rs', ts'), k)
         == DroppedTransfers(ds, ts, k) - DroppedTransfers(ds', ts', k)
    ensures DepositTotal(Phases(ds, ws, rs, ts), k) == DepositTotal(Phases(ds', ws', rs', ts'), k)
  {
    RebuiltBalance(ds, ws, rs, ts, k);
    RebuiltBalance(ds', ws', rs', ts', k);
    SumByPermutation(ds, ds', DepositOf(k));
    SumByPermutation(ds, ds', AmountOf(k));
    SumByPermutation(ws, ws', WithdrawalOf(k));
    SumByPermutation(rs, rs', RefundOf(k));
    SumByPermutation(ts, ts', InOf(k));
    SumByPermutation(ts, ts', OutOf(k));
    DepositorPermutation(ds, ds', k);
  }

  lemma {:induction false} SameDroppedTransfers(ds: seq<Deposit>, ds': seq<Deposit>, ts: seq<Transfer>, k: Key)
    requires Depositor(ds, k) <==> Depositor(ds', k)
    ensures DroppedTransfers(ds, ts, k) == DroppedTransfers(ds', ts, k)
  {
    if ts != [] {
      SameDroppedTransfers(ds, ds', ts[..|ts| - 1], k);
    }
  }

  // The order of deposits, withdrawals and refunds inside their streams never
  // matters, on any log.
  lemma OrderInsideStreamsIsIrrelevant(
      ds: seq<Deposit>, ws: seq<Withdrawal>, rs: seq<Refund>, ts: seq<Transfer>,
      ds': seq<Deposit>, ws': seq<Withdrawal>, rs': seq<Refund>, k: Key)
    requires multiset(ds) == multiset(ds') && multiset(ws) == multiset(ws') && multiset(rs) == multiset(rs')
    ensures Balance(Phases(ds, ws, rs, ts), k) == Balance(Phases(ds', ws', rs', ts), k)
    ensures DepositTotal(Phases(ds, ws, rs, ts), k) == DepositTotal(Phases(ds', ws', rs', ts), k)
    ensures k in Phases(ds, ws, rs, ts) <==> k in Phases(ds', ws', rs', ts)
  {
    OrderMattersByDroppedTransfers(ds, ws, rs, ts, ds', ws', rs', ts, k);
    DepositorPermutation(ds, ds', k);
    SameDroppedTransfers(ds, ds', ts, k);
    RebuiltBalance(ds, ws, rs, ts, k);
    RebuiltBalance(ds', ws', rs', ts, k);
  }

  // Nor does that of the transfers, as long as both logs are complete.
  lemma CompleteLogsReorder(
      ds: seq<Deposit>, ws: seq<Withdrawal>, rs: seq<Refund>, ts: seq<Transfer>,
      ds': seq<Deposit>, ws': seq<Withdrawal>, rs': seq<Refund>, ts': seq<Transfer>, k: Key)
    requires multiset(ds) == multiset(ds') && multiset(ws) == multiset(ws')
    requires multiset(rs) == multiset(rs') && multiset(ts) == multiset(ts')
    requires Complete(ds, ws, ts) && Complete(ds', ws', ts')
    ensures Balance(Phases(ds, ws, rs, ts), k) == Balance(Phases(ds', ws', rs', ts'), k)
  {
    OrderMattersByDroppedTransfers(ds, ws, rs, ts, ds', ws', rs', ts', k);
    CompleteDropsNothing(ds, ws, ts, k);
    CompleteDropsNothing(ds', ws', ts', k);
  }

  lemma {:induction false} CompleteDropsNothing(ds: seq<Deposit>, ws: seq<Withdrawal>, ts: seq<Transfer>, k: Key)
    requires Complete(ds, ws, ts)
    ensures DroppedTransfers(ds, ts, k) == 0
  {
    if ts != [] {
      var init := ts[..|ts| - 1];
      assert forall i :: 0 <= i < |init| ==> init[..i] == ts[..i] && init[i] == ts[i];
      CompleteDropsNothing(ds, ws, init, k);
    }
  }

  lemma DepositorPermutation(ds: seq<Deposit>, ds': seq<Deposit>, k: Key)
    requires multiset(ds) == multiset(ds')
    ensures Depositor(ds, k) <==> Depositor(ds', k)
  {
    if i :| 0 <= i < |ds| && ds[i].key == k {
      assert ds[i] in multiset(ds');
    }
    if i :| 0 <= i < |ds'| && ds'[i].key == k {
      assert ds'[i] in multiset(ds);
    }
  }

  // ---------------------------------------------------- totals of a vault

  ghost function HeldBy(m: Table, v: Vault): map<Key, int> {
    map k | k in m && k.0 == v :: m[k].shares
  }

  ghost function Total(m: Table, v: Vault): int { Sum(HeldBy(m, v)) }

  function DroppedInVault(ds: seq<Deposit>, ts: seq<Transfer>, v: Vault): int {
    if ts == [] then 0
    else
      var init, e := ts[..|ts| - 1], ts[|ts| - 1];
      DroppedInVault(ds, init, v) + if e.vault == v && !Known(ds, init, (v, e.from)) then e.amount else 0
  }

  lemma TotalUpdate(m: Table, k: Key, p: Rebuilt, v: Vault)
    ensures Total(m[k := p], v) == Total(m, v) + if k.0 == v then p.shares - Balance(m, k) else 0
  {
    if k.0 == v {
      assert HeldBy(m[k := p], v) == HeldBy(m, v)[k := p.shares];
      SumUpdate(HeldBy(m, v), k, p.shares);
    } else {
      assert HeldBy(m[k := p], v) == HeldBy(m, v);
    }
  }

  // Transfers keep each vault's total, up to the dropped debits.
  lemma {:induction false} TransfersConserve(ds: seq<Deposit>, m: Table, ts: seq<Transfer>, v: Vault)
    requires forall x :: x in m <==> Depositor(ds, x)
    ensures Total(Transfers(m, ts), v) == Total(m, v) + DroppedInVault(ds, ts, v)
  {
    if ts != [] {
      var n := |ts| - 1;
      var e := ts[n];
      TransfersConserve(ds, m, ts[..n], v);
      var before := Transfers(m, ts[..n]);
      AfterTransfers(ds, m, ts[..n], (e.vault, e.from));
      var debited := Debit(before, e);
      if (e.vault, e.from) in before {
        TotalUpdate(before, (e.vault, e.from), debited[(e.vault, e.from)], v);
      }
      TotalUpdate(debited, (e.vault, e.to), Credit(debited, e)[(e.vault, e.to)], v);
    }
  }

  // --------------------------------------------------- last_updated_ledger

  function Last(s: seq<nat>): Option<nat> { if s == [] then None else Some(s[|s| - 1]) }

  // The later of two records; nothing is recorded over nothing.
  function Over(before: Option<nat>, s: seq<nat>): Option<nat> { if s == [] then before else Last(s) }

  // The ledgers of the events of key k, stream by stream.
  function DepositLedgers(ds: seq<Deposit>, k: Key): seq<nat> {
    if ds == [] then []
    else DepositLedgers(ds[..|ds| - 1], k) + if ds[|ds| - 1].key == k then [ds[|ds| - 1].ledger] else []
  }

  function WithdrawalLedgers(ws: seq<Withdrawal>, k: Key): seq<nat> {
    if ws == [] then []
    else WithdrawalLedgers(ws[..|ws| - 1], k) + if ws[|ws| - 1].key == k then [ws[|ws| - 1].ledger] else []
  }

  function RefundLedgers(rs: seq<Refund>, k: Key): seq<nat> {
    if rs == [] then []
    else RefundLedgers(rs[..|rs| - 1], k) + if rs[|rs| - 1].key == k then [rs[|rs| - 1].ledger] else []
  }

  // Of the transfers only those that touch the row: credits, and debits once
  // there is a row. `known` is whether there was one before the first.
  function TransferLedgers(known: bool, ts: seq<Transfer>, k: Key): seq<nat> {
    if ts == [] then []
    else
      var init, e := TransferLedgers(known, ts[..|ts| - 1], k), ts[|ts| - 1];
      init + if (e.vault, e.to) == k || ((e.vault, e.from) == k && (known || init != [])) then [e.ledger] else []
  }

  function LedgerOf(m: Table, k: Key): Option<nat> { if k in m then Some(m[k].lastLedger) else None }

  lemma {:induction false} LedgerAfterDeposits(ds: seq<Deposit>, k: Key)
    ensures LedgerOf(Deposits(map[], ds), k) == Last(DepositLedgers(ds, k))
  {
    if ds != [] {
      LedgerAfterDeposits(ds[..|ds| - 1], k);
    }
  }

  lemma {:induction false} LedgerAfterWithdrawals(m: Table, ws: seq<Withdrawal>, k: Key)
    ensures LedgerOf(Withdrawals(m, ws), k) == if k in m then Over(LedgerOf(m, k), WithdrawalLedgers(ws, k)) else None
  {
    if ws != [] {
      LedgerAfterWithdrawals(m, ws[..|ws| - 1], k);
    }
  }

  lemma {:induction false} LedgerAfterRefunds(m: Table, rs: seq<Refund>, k: Key)
    ensures LedgerOf(Refunds(m, rs), k) == if k in m then Over(LedgerOf(m, k), RefundLedgers(rs, k)) else None
  {
    if rs != [] {
      LedgerAfterRefunds(m, rs[..|rs| - 1], k);
    }
  }

  lemma {:induction false} LedgerAfterTransfers(m: Table, ts: seq<Transfer>, k: Key)
    ensures LedgerOf(Transfers(m, ts), k) == Over(LedgerOf(m, k), TransferLedgers(k in m, ts, k))
  {
    if ts != [] {
      LedgerAfterTransfers(m, ts[..|ts| - 1], k);
    }
  }

  // The events that touch the row of k, in the order of the phases.
  function Touches(ds: seq<Deposit>, ws: seq<Withdrawal>, rs: seq<Refund>, ts: seq<Transfer>, k: Key): seq<seq<nat>> {
    var known := DepositLedgers(ds, k) != [];
    [DepositLedgers(ds, k), if known then WithdrawalLedgers(ws, k) else [], if known then RefundLedgers(rs, k) else [],
     TransferLedgers(known, ts, k)]
  }

  // On every log the ledger recorded is that of the last event, in the last
  // phase with any, that touches the row.
  lemma LastLedgerIsOfLastPhase(ds: seq<Deposit>, ws: seq<Withdrawal>, rs: seq<Refund>, ts: seq<Transfer>, k: Key)
    ensures var p := Touches(ds, ws, rs, ts, k);
            LedgerOf(Phases(ds, ws, rs, ts), k) == Over(Over(Over(Last(p[0]), p[1]), p[2]), p[3])
  {
    var m1 := Deposits(map[], ds);
    var m2 := Withdrawals(m1, ws);
    LedgerAfterDeposits(ds, k);
    LedgerAfterWithdrawals(m1, ws, k);
    LedgerAfterRefunds(m2, rs, k);
    LedgerAfterTransfers(Refunds(m2, rs), ts, k);
  }

  ghost predicate Ascending(s: seq<nat>) { forall i, j :: 0 <= i <= j < |s| ==> s[i] <= s[j] }

  ghost predicate AtMost(s: seq<nat>, l: nat) { forall x :: x in s ==> x <= l }

  lemma AtMostIffLast(s: seq<nat>, l: nat)
    requires Ascending(s)
    ensures AtMost(s, l) <==> (s != [] ==> s[|s| - 1] <= l)
  {
    if s != [] {
      assert s[|s| - 1] in s;
    }
  }

  // With streams in ledger order, as they are queried, and d the last phase
  // that touches the row: the recorded ledger is the last one of phase d, and
  // the newest that touches the row exactly when no earlier phase ends later.
  lemma LastLedgerIsNewestIff(ds: seq<Deposit>, ws: seq<Withdrawal>, rs: seq<Refund>, ts: seq<Transfer>, k: Key, d: nat)
    requires forall i :: 0 <= i < 4 ==> Ascending(Touches(ds, ws, rs, ts, k)[i])
    requires d < 4 && Touches(ds, ws, rs, ts, k)[d] != [] && forall i :: d < i < 4 ==> Touches(ds, ws, rs, ts, k)[i] == []
    ensures var p := Touches(ds, ws, rs, ts, k);
            && LedgerOf(Phases(ds, ws, rs, ts), k) == Last(p[d])
            && ((forall i :: 0 <= i < 4 ==> AtMost(p[i], Last(p[d]).value))
                <==> forall i :: 0 <= i < d && p[i] != [] ==> Last(p[i]).value <= Last(p[d]).value)
  {
    var p := Touches(ds, ws, rs, ts, k);
    var l := Last(p[d]).value;
    LastLedgerIsOfLastPhase(ds, ws, rs, ts, k);
    AtMostIffLast(p[0], l);
    AtMostIffLast(p[1], l);
    AtMostIffLast(p[2], l);
    AtMostIffLast(p[3], l);
  }

  // A transfer at ledger 5 overwrites a deposit at ledger 9.
  lemma LastLedgerIsNotNewest(k: Key, other: string)
    requires other != k.1
    ensures var ds, ts := [Deposit(k, 10, 10, 9)], [Transfer(k.0, k.1, other, 1, 5)];
            LedgerOf(Phases(ds, [], [], ts), k) == Some(5)
  {
    var ds, ts := [Deposit(k, 10, 10, 9)], [Transfer(k.0, k.1, other, 1, 5)];
    assert ds[..0] == [] && ts[..0] == [];
    assert DepositLedgers(ds, k) == [9] && TransferLedgers(true, ts, k) == [5];
    LastLedgerIsOfLastPhase(ds, [], [], ts, k);
  }
}
