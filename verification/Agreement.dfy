// The indexer's event-by-event balances against the rebuilt ones.
module Agreement {
  import H = Handlers
  import A = Accounting
  import R = Rebuild

  // The two streams the rebuild reads off the indexer's log.
  function DepositStream(log: seq<H.Entry>): seq<R.Deposit> {
    if log == [] then []
    else
      var init, e := DepositStream(log[..|log| - 1]), log[|log| - 1];
      if e.body.Deposit? then init + [R.Deposit((e.vault, e.body.receiver), e.body.assets, e.body.shares, |log|)] else init
  }

  function WithdrawalStream(log: seq<H.Entry>): seq<R.Withdrawal> {
    if log == [] then []
    else
      var init, e := WithdrawalStream(log[..|log| - 1]), log[|log| - 1];
      if e.body.Withdraw? then init + [R.Withdrawal((e.vault, e.body.owner), e.body.shares, |log|)] else init
  }

  lemma {:induction false} StreamsSumToLog(log: seq<H.Entry>, k: R.Key)
    ensures R.SumBy(DepositStream(log), R.DepositOf(k)) - R.SumBy(WithdrawalStream(log), R.WithdrawalOf(k))
         == A.SignedSum(log, k)
  {
    if log != [] {
      var init, e := log[..|log| - 1], log[|log| - 1];
      StreamsSumToLog(init, k);
      if e.body.Deposit? {
        LastOf(DepositStream(init), R.Deposit((e.vault, e.body.receiver), e.body.assets, e.body.shares, |log|), R.DepositOf(k));
      } else if e.body.Withdraw? {
        LastOf(WithdrawalStream(init), R.Withdrawal((e.vault, e.body.owner), e.body.shares, |log|), R.WithdrawalOf(k));
      }
    }
  }

  lemma LastOf<T>(init: seq<T>, x: T, f: T -> int)
    ensures R.SumBy(init + [x], f) == R.SumBy(init, f) + f(x)
  {
    R.SumByConcat(init, [x], f);
    assert [x][..0] == [] && R.SumBy([x][..0], f) == 0;
  }

  function RebuiltBalance(log: seq<H.Entry>, k: R.Key): int {
    R.Balance(R.Phases(DepositStream(log), WithdrawalStream(log), [], []), k)
  }

  function IndexedBalance(b: H.Books, log: seq<H.Entry>, k: R.Key): int {
    A.Balance(H.Run(b, log), k)
  }

  // The exact difference on every log: what the rebuild drops against what
  // the indexer's clamp absorbs.
  lemma Difference(b: H.Books, log: seq<H.Entry>, k: R.Key)
    requires k.0 in b.vaults && b.positions == map[]
    ensures RebuiltBalance(log, k) - IndexedBalance(b, log, k)
         == R.DroppedWithdrawals(DepositStream(log), WithdrawalStream(log), k) - A.AbsorbedAt(b, log, k)
  {
    R.RebuiltBalance(DepositStream(log), WithdrawalStream(log), [], [], k);
    StreamsSumToLog(log, k);
    A.BalanceIsSignedSumPlusAbsorbed(b, log, k);
  }

  // No withdrawal of the key takes more than the balance at its point.
  ghost predicate NoOverdraft(b: H.Books, log: seq<H.Entry>, k: R.Key) {
    forall i :: 0 <= i < |log| ==> !Overdraws(b, log, k, i)
  }

  predicate Overdraws(b: H.Books, log: seq<H.Entry>, k: R.Key, i: nat)
    requires i < |log|
  {
    A.Touches(log[i], k) && log[i].body.Withdraw? && log[i].body.shares > A.Balance(H.Run(b, log[..i]), k)
  }

  predicate NoNegativeWithdrawal(log: seq<H.Entry>, k: R.Key) {
    forall e :: e in log && A.Touches(e, k) && e.body.Withdraw? ==> e.body.shares >= 0
  }

  lemma PrefixOverdraws(b: H.Books, log: seq<H.Entry>, k: R.Key, i: nat)
    requires i < |log| - 1
    ensures Overdraws(b, log[..|log| - 1], k, i) <==> Overdraws(b, log, k, i)
  {
    assert log[..|log| - 1][..i] == log[..i];
  }

  lemma OverdraftLast(b: H.Books, log: seq<H.Entry>, k: R.Key)
    requires log != []
    ensures NoOverdraft(b, log, k) <==> NoOverdraft(b, log[..|log| - 1], k) && !Overdraws(b, log, k, |log| - 1)
  {
    var init := log[..|log| - 1];
    if NoOverdraft(b, log, k) {
      forall i | 0 <= i < |init| ensures !Overdraws(b, init, k, i) {
        PrefixOverdraws(b, log, k, i);
        assert !Overdraws(b, log, k, i);
      }
    }
    if NoOverdraft(b, init, k) && !Overdraws(b, log, k, |log| - 1) {
      forall i | 0 <= i < |log| ensures !Overdraws(b, log, k, i) {
        if i < |init| {
          PrefixOverdraws(b, log, k, i);
          assert !Overdraws(b, init, k, i);
        }
      }
    }
  }

  // The clamp absorbs nothing exactly when nothing is overdrawn.
  lemma {:induction false} AbsorbsIffOverdraft(b: H.Books, log: seq<H.Entry>, k: R.Key)
    requires k.0 in b.vaults && NoNegativeWithdrawal(log, k)
    ensures A.AbsorbedAt(b, log, k) >= 0
    ensures A.AbsorbedAt(b, log, k) == 0 <==> NoOverdraft(b, log, k)
  {
    if log != [] {
      var n := |log| - 1;
      var init := log[..n];
      assert log[n] in log && forall e :: e in init ==> e in log;
      AbsorbsIffOverdraft(b, init, k);
      OverdraftLast(b, log, k);
      A.SameVaults(b, init);
      var absorbed := if A.Touches(log[n], k) then A.Absorbed(H.Run(b, init), k.0, log[n].body) else 0;
      assert A.AbsorbedAt(b, log, k) == A.AbsorbedAt(b, init, k) + absorbed;
      assert absorbed >= 0 && (absorbed == 0 <==> !Overdraws(b, log, k, n));
    }
  }

  // A key nobody deposited into holds nothing throughout.
  lemma {:induction false} NoDepositNoBalance(b: H.Books, log: seq<H.Entry>, k: R.Key)
    requires b.positions == map[] && NoNegativeWithdrawal(log, k)
    requires !R.Depositor(DepositStream(log), k)
    ensures A.Balance(H.Run(b, log), k) == 0
  {
    if log != [] {
      var n := |log| - 1;
      var ds, ds' := DepositStream(log), DepositStream(log[..n]);
      assert forall i :: 0 <= i < |ds'| ==> ds[i] == ds'[i];
      assert log[n] in log && forall e :: e in log[..n] ==> e in log;
      NoDepositNoBalance(b, log[..n], k);
      if log[n].body.Deposit? {
        assert ds[|ds| - 1].key == (log[n].vault, log[n].body.receiver);
      }
    }
  }

  // The two implementations agree on a key exactly when nothing is overdrawn
  // there or nobody ever deposited into it; otherwise the indexer shows more,
  // by what its clamp absorbed.
  lemma ImplementationsAgreeIff(b: H.Books, log: seq<H.Entry>, k: R.Key)
    requires k.0 in b.vaults && b.positions == map[] && NoNegativeWithdrawal(log, k)
    ensures RebuiltBalance(log, k) == IndexedBalance(b, log, k)
      <==> NoOverdraft(b, log, k) || !R.Depositor(DepositStream(log), k)
    ensures R.Depositor(DepositStream(log), k) ==>
              IndexedBalance(b, log, k) - RebuiltBalance(log, k) == A.AbsorbedAt(b, log, k) >= 0
  {
    Difference(b, log, k);
    AbsorbsIffOverdraft(b, log, k);
    if !R.Depositor(DepositStream(log), k) {
      NoDepositNoBalance(b, log, k);
      R.RebuiltBalance(DepositStream(log), WithdrawalStream(log), [], [], k);
    }
  }

  // With an overdraft they part: after depositing 5 and withdrawing 8 the
  // rebuild says −3 and the indexer 0.
  lemma OverdraftDisagrees(b: H.Books, v: string, user: string)
    requires v in b.vaults && b.positions == map[]
    ensures var log := [H.Entry(v, H.Deposit(user, 5, 5)), H.Entry(v, H.Withdraw(user, 8, 8))];
            RebuiltBalance(log, (v, user)) == -3 && IndexedBalance(b, log, (v, user)) == 0
  {
    var d, w := H.Entry(v, H.Deposit(user, 5, 5)), H.Entry(v, H.Withdraw(user, 8, 8));
    var log, k := [d, w], (v, user);
    assert log[..1] == [d] && [d][..0] == [];
    OverdraftIndexed(b, v, user);
    Difference(b, log, k);
    var ds := DepositStream(log);
    assert ds == DepositStream([d]) == [R.Deposit(k, 5, 5, 1)];
    assert ds[0].key == k;
    assert R.Depositor(ds, k);
  }

  lemma OverdraftIndexed(b: H.Books, v: string, user: string)
    requires v in b.vaults && b.positions == map[]
    ensures var log := [H.Entry(v, H.Deposit(user, 5, 5)), H.Entry(v, H.Withdraw(user, 8, 8))];
            IndexedBalance(b, log, (v, user)) == 0 && A.AbsorbedAt(b, log, (v, user)) == 3
  {
    var d, w := H.Entry(v, H.Deposit(user, 5, 5)), H.Entry(v, H.Withdraw(user, 8, 8));
    var log, k := [d, w], (v, user);
    assert log[..1] == [d] && [d][..0] == [];
    assert H.Run(b, [d]) == H.DepositInto(b, v, user, 5, 5);
    assert H.Run(b, log) == H.WithdrawFrom(H.Run(b, [d]), v, user, 8, 8);
    assert A.AbsorbedAt(b, [d], k) == 0;
  }
}
