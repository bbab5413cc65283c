// What the handlers of Handlers.dfy keep over every run of events.
module Accounting {
  import opened Common
  import opened Handlers

  // ---------------------------------------------------------------- shares

  function Balance(b: Books, key: (Contract, User)): int {
    if key in b.positions then b.positions[key].shares else 0
  }

  ghost function HeldBy(b: Books, v: Contract): map<(Contract, User), int> {
    map k | k in b.positions && k.0 == v :: b.positions[k].shares
  }

  ghost function TotalHeld(b: Books, v: Contract): int {
    Sum(HeldBy(b, v))
  }

  function Minted(body: Body): int { if body.Deposit? then body.shares else 0 }

  function Burned(body: Body): int { if body.Withdraw? then body.shares else 0 }

  // The part of a withdrawal that the clamp at zero swallows.
  function Absorbed(b: Books, v: Contract, body: Body): int {
    if body.Withdraw? && v in b.vaults then
      if (v, body.owner) in b.positions
      then Max(0, body.shares - b.positions[(v, body.owner)].shares)
      else body.shares
    else 0
  }

  function AbsorbedOver(b: Books, log: seq<Entry>, v: Contract): int {
    if log == [] then 0
    else
      var last := log[|log| - 1];
      AbsorbedOver(b, log[..|log| - 1], v)
      + if last.vault == v then Absorbed(Run(b, log[..|log| - 1]), v, last.body) else 0
  }

  lemma SameVaults(b: Books, log: seq<Entry>)
    ensures Run(b, log).vaults.Keys == b.vaults.Keys
  {
    if log != [] {
      SameVaults(b, log[..|log| - 1]);
    }
  }

  lemma HeldAfterUpsert(b: Books, v: Contract, key: (Contract, User), p: Position)
    ensures HeldBy(b.(positions := b.positions[key := p]), v)
         == if key.0 == v then HeldBy(b, v)[key := p.shares] else HeldBy(b, v)
  {}

  // One event moves Σ shares by what it mints, burns and has absorbed.
  lemma HeldStep(b: Books, w: Contract, body: Body, v: Contract)
    requires v in b.vaults
    ensures TotalHeld(Apply(b, w, body), v) - TotalHeld(b, v)
         == if v == w then Minted(body) - Burned(body) + Absorbed(b, v, body) else 0
  {
    var after := Apply(b, w, body);
    if (body.Deposit? || body.Withdraw?) && w in b.vaults {
      UpsertStep(b, w, body, if body.Deposit? then body.receiver else body.owner, v);
    } else {
      assert HeldBy(after, v) == HeldBy(b, v);
    }
  }

  lemma UpsertStep(b: Books, w: Contract, body: Body, user: User, v: Contract)
    requires v in b.vaults && w in b.vaults
    requires (body.Deposit? && user == body.receiver) || (body.Withdraw? && user == body.owner)
    ensures TotalHeld(Apply(b, w, body), v) - TotalHeld(b, v)
         == if v == w then Minted(body) - Burned(body) + Absorbed(b, v, body) else 0
  {
    var after := Apply(b, w, body);
    assert after.positions == b.positions[(w, user) := after.positions[(w, user)]];
    HeldAfterUpsert(b, v, (w, user), after.positions[(w, user)]);
    assert HeldBy(after, v) == HeldBy(b.(positions := after.positions), v);
    SumUpdate(HeldBy(b, v), (w, user), after.positions[(w, user)].shares);
  }

  lemma MintedAndBurnedStep(b: Books, w: Contract, body: Body, v: Contract)
    requires v in b.vaults
    ensures var after := Apply(b, w, body);
            v in after.vaults
            && after.vaults[v].minted - b.vaults[v].minted == (if v == w then Minted(body) else 0)
            && after.vaults[v].burned - b.vaults[v].burned == (if v == w then Burned(body) else 0)
  {}

  // Share conservation with loss, over every run from any books.
  lemma {:induction false} ShareConservation(b: Books, log: seq<Entry>, v: Contract)
    requires v in b.vaults
    ensures v in Run(b, log).vaults
    ensures var after := Run(b, log);
            TotalHeld(after, v) - after.vaults[v].minted + after.vaults[v].burned
            == TotalHeld(b, v) - b.vaults[v].minted + b.vaults[v].burned + AbsorbedOver(b, log, v)
  {
    if log != [] {
      var init := log[..|log| - 1];
      ShareConservation(b, init, v);
      HeldStep(Run(b, init), log[|log| - 1].vault, log[|log| - 1].body, v);
      MintedAndBurnedStep(Run(b, init), log[|log| - 1].vault, log[|log| - 1].body, v);
    }
  }

  ghost predicate PositiveDeposits(log: seq<Entry>) {
    forall e :: e in log && e.body.Deposit? ==> e.body.shares > 0 && e.body.assets >= 0
  }

  // No balance is negative, and last_exit_at is set exactly at zero shares.
  ghost predicate Sound(b: Books) {
    forall k :: k in b.positions ==>
      && b.positions[k].shares >= 0
      && b.positions[k].deposited >= 0
      && (b.positions[k].exited <==> b.positions[k].shares == 0)
  }

  lemma {:induction false} RunStaysSound(b: Books, log: seq<Entry>)
    requires Sound(b) && PositiveDeposits(log)
    ensures Sound(Run(b, log))
  {
    if log != [] {
      var init := log[..|log| - 1];
      assert forall e :: e in init ==> e in log;
      assert log[|log| - 1] in log;
      RunStaysSound(b, init);
    }
  }

  function Deposited(b: Books, key: (Contract, User)): int {
    if key in b.positions then b.positions[key].deposited else 0
  }

  // A deposit clears the exit time, so it must leave shares behind.
  predicate KeepsSound(b: Books, v: Contract, body: Body) {
    body.Deposit? && v in b.vaults ==>
      Balance(b, (v, body.receiver)) + body.shares > 0 && Deposited(b, (v, body.receiver)) + body.assets >= 0
  }

  // Exactly the deposits that leave shares and no negative deposit total keep
  // the books sound; every other event does.
  lemma SoundAfterIff(b: Books, v: Contract, body: Body)
    requires Sound(b)
    ensures Sound(Apply(b, v, body)) <==> KeepsSound(b, v, body)
  {
    if body.Deposit? && v in b.vaults {
      assert (v, body.receiver) in Apply(b, v, body).positions;
    }
  }

  ghost predicate SoundThroughout(b: Books, log: seq<Entry>) {
    Sound(Run(b, log)) && (log != [] ==> SoundThroughout(b, log[..|log| - 1]))
  }

  // Each event of the log, at its point.
  ghost predicate EachKeepsSound(b: Books, log: seq<Entry>) {
    log != [] ==>
      EachKeepsSound(b, log[..|log| - 1])
      && KeepsSound(Run(b, log[..|log| - 1]), log[|log| - 1].vault, log[|log| - 1].body)
  }

  // Along a whole run from sound books.
  lemma {:induction false} SoundThroughoutIff(b: Books, log: seq<Entry>)
    requires Sound(b)
    ensures SoundThroughout(b, log) <==> EachKeepsSound(b, log)
  {
    if log != [] {
      var init, last := log[..|log| - 1], log[|log| - 1];
      SoundThroughoutIff(b, init);
      if SoundThroughout(b, init) {
        SoundAfterIff(Run(b, init), last.vault, last.body);
        assert Run(b, log) == Apply(Run(b, init), last.vault, last.body);
      }
    }
  }

  // A deposit of no shares by a user without a position is such a deposit,
  // whatever its assets.
  lemma ZeroDepositBreaksExitFlag(b: Books, v: Contract, user: User, assets: int)
    requires Sound(b) && v in b.vaults && (v, user) !in b.positions
    ensures !Sound(Apply(b, v, Deposit(user, assets, 0)))
    ensures var p := Apply(b, v, Deposit(user, assets, 0)).positions; (v, user) in p && p[(v, user)].shares == 0 && !p[(v, user)].exited
  {
    SoundAfterIff(b, v, Deposit(user, assets, 0));
  }

  // ------------------------------------------------------- balance of a key

  function Touches(e: Entry, key: (Contract, User)): bool {
    e.vault == key.0 &&
    ((e.body.Deposit? && e.body.receiver == key.1) || (e.body.Withdraw? && e.body.owner == key.1))
  }

  function Signed(e: Entry, key: (Contract, User)): int {
    if Touches(e, key) then Minted(e.body) - Burned(e.body) else 0
  }

  // Deposits minus withdrawals of one key.
  function SignedSum(log: seq<Entry>, key: (Contract, User)): int {
    if log == [] then 0 else SignedSum(log[..|log| - 1], key) + Signed(log[|log| - 1], key)
  }

  function AbsorbedAt(b: Books, log: seq<Entry>, key: (Contract, User)): int {
    if log == [] then 0
    else
      var last := log[|log| - 1];
      AbsorbedAt(b, log[..|log| - 1], key)
      + if Touches(last, key) then Absorbed(Run(b, log[..|log| - 1]), key.0, last.body) else 0
  }

  lemma {:induction false} BalanceIsSignedSumPlusAbsorbed(b: Books, log: seq<Entry>, key: (Contract, User))
    requires key.0 in b.vaults
    ensures Balance(Run(b, log), key) == Balance(b, key) + SignedSum(log, key) + AbsorbedAt(b, log, key)
  {
    if log != [] {
      BalanceIsSignedSumPlusAbsorbed(b, log[..|log| - 1], key);
      SameVaults(b, log[..|log| - 1]);
      BalanceStep(Run(b, log[..|log| - 1]), log[|log| - 1], key);
    }
  }

  lemma BalanceStep(b: Books, e: Entry, key: (Contract, User))
    requires key.0 in b.vaults
    ensures Balance(Apply(b, e.vault, e.body), key)
         == Balance(b, key) + Signed(e, key) + if Touches(e, key) then Absorbed(b, key.0, e.body) else 0
  {}

  // ------------------------------------------ assets of a key and of a vault

  // The assets an event brings in for one key, or takes out.
  function SignedAssets(e: Entry, key: (Contract, User)): int {
    if !Touches(e, key) then 0 else if e.body.Deposit? then e.body.assets else -e.body.assets
  }

  function SignedAssetSum(log: seq<Entry>, key: (Contract, User)): int {
    if log == [] then 0 else SignedAssetSum(log[..|log| - 1], key) + SignedAssets(log[|log| - 1], key)
  }

  // The part of a withdrawal's assets that the clamp at zero swallows.
  function AssetsAbsorbed(b: Books, e: Entry, key: (Contract, User)): int {
    if Touches(e, key) && e.body.Withdraw?
    then if key in b.positions then Max(0, e.body.assets - b.positions[key].deposited) else e.body.assets
    else 0
  }

  function AssetsAbsorbedAt(b: Books, log: seq<Entry>, key: (Contract, User)): int {
    if log == [] then 0
    else AssetsAbsorbedAt(b, log[..|log| - 1], key) + AssetsAbsorbed(Run(b, log[..|log| - 1]), log[|log| - 1], key)
  }

  // The deposit total of a key over every run, from any books: what it was,
  // plus the assets deposited, minus the assets withdrawn, plus what the clamp
  // absorbed at each point.
  lemma {:induction false} DepositedIsAssetSumPlusAbsorbed(b: Books, log: seq<Entry>, key: (Contract, User))
    requires key.0 in b.vaults
    ensures Deposited(Run(b, log), key) == Deposited(b, key) + SignedAssetSum(log, key) + AssetsAbsorbedAt(b, log, key)
  {
    if log != [] {
      DepositedIsAssetSumPlusAbsorbed(b, log[..|log| - 1], key);
      SameVaults(b, log[..|log| - 1]);
      DepositedStep(Run(b, log[..|log| - 1]), log[|log| - 1], key);
    }
  }

  lemma DepositedStep(b: Books, e: Entry, key: (Contract, User))
    requires key.0 in b.vaults
    ensures Deposited(Apply(b, e.vault, e.body), key) == Deposited(b, key) + SignedAssets(e, key) + AssetsAbsorbed(b, e, key)
  {}

  function AssetsIn(e: Entry, v: Contract): int {
    if e.vault == v && e.body.Deposit? then e.body.assets else 0
  }

  function SharesIn(e: Entry, v: Contract): int { if e.vault == v then Minted(e.body) else 0 }

  function SharesOut(e: Entry, v: Contract): int { if e.vault == v then Burned(e.body) else 0 }

  function SumOver(log: seq<Entry>, v: Contract, f: (Entry, Contract) -> int): int {
    if log == [] then 0 else SumOver(log[..|log| - 1], v, f) + f(log[|log| - 1], v)
  }

  // The totals of a vault over every run: withdrawals leave total_assets alone.
  lemma {:induction false} VaultTotalsAreSums(b: Books, log: seq<Entry>, v: Contract)
    requires v in b.vaults
    ensures var t := b.vaults[v];
            v in Run(b, log).vaults
            && Run(b, log).vaults[v] == Totals(t.assets + SumOver(log, v, AssetsIn), t.minted + SumOver(log, v, SharesIn),
                                               t.burned + SumOver(log, v, SharesOut))
  {
    if log != [] {
      VaultTotalsAreSums(b, log[..|log| - 1], v);
    }
  }

  // -------------------------------------------------------- epoch snapshots

  predicate IsDistribution(e: Entry, v: Contract, epoch: nat) {
    e.vault == v && e.body.Distribute? && e.body.epoch == epoch
  }

  predicate IsClaim(e: Entry, v: Contract, user: User, epoch: nat) {
    e.vault == v && e.body.Claim? && e.body.user == user && e.body.epoch == epoch
  }

  function SnapshotShares(b: Books, key: (Contract, User, nat)): int {
    if key in b.snapshots then b.snapshots[key].shares else 0
  }

  function SnapshotClaimed(b: Books, key: (Contract, User, nat)): int {
    if key in b.snapshots then b.snapshots[key].claimed else 0
  }

  lemma AddTwice<K, V>(added: map<K, V>, m: map<K, V>)
    ensures added + (added + m) == added + m
  {}

  // The second call of the distribution handler changes nothing.
  lemma SecondCallIsIdle(b: Books, v: Contract, epoch: nat, amount: int)
    ensures Apply(b, v, Distribute(epoch, amount)) == RecordDistribution(b, v, epoch, amount)
  {
    if v in b.vaults {
      AddTwice(map[(v, epoch) := amount], b.epochs);
      AddTwice(HolderSnapshots(b.positions, v, Holders(b.positions, v), epoch), b.snapshots);
    }
  }

  lemma DistributionSnapshots(b: Books, v: Contract, user: User, epoch: nat, amount: int)
    requires v in b.vaults
    ensures var after := Apply(b, v, Distribute(epoch, amount));
            var key := (v, user, epoch);
            && (key in b.snapshots ==> key in after.snapshots && after.snapshots[key] == b.snapshots[key])
            && (key !in b.snapshots && Balance(b, (v, user)) > 0 ==>
                  key in after.snapshots && after.snapshots[key] == Snapshot(Balance(b, (v, user)), 0))
            && (key !in b.snapshots && Balance(b, (v, user)) <= 0 ==> key !in after.snapshots)
  {
    SecondCallIsIdle(b, v, epoch, amount);
    if Balance(b, (v, user)) > 0 {
      assert (v, user) in b.positions;
      assert user in Holders(b.positions, v);
    }
  }

  // An event that is neither a distribution of the epoch nor a claim of the
  // user leaves the snapshot alone.
  lemma OtherEventsKeepSnapshot(b: Books, e: Entry, key: (Contract, User, nat))
    requires !IsDistribution(e, key.0, key.2) && !IsClaim(e, key.0, key.1, key.2)
    ensures var after := Apply(b, e.vault, e.body);
            (key in after.snapshots <==> key in b.snapshots)
            && (key in b.snapshots ==> after.snapshots[key] == b.snapshots[key])
  {
    if e.body.Distribute? {
      SecondCallIsIdle(b, e.vault, e.body.epoch, e.body.amount);
    }
  }

  // Does the event create the snapshot row? A claim does, with zero shares; a
  // distribution does for a user who holds shares at that point.
  predicate Creates(b: Books, log: seq<Entry>, i: nat, key: (Contract, User, nat))
    requires i < |log|
  {
    IsClaim(log[i], key.0, key.1, key.2)
    || (IsDistribution(log[i], key.0, key.2) && Balance(Run(b, log[..i]), (key.0, key.1)) > 0)
  }

  lemma {:induction false} NoRowUntilCreated(b: Books, log: seq<Entry>, key: (Contract, User, nat))
    requires key.0 in b.vaults && key !in b.snapshots
    requires forall i :: 0 <= i < |log| ==> !Creates(b, log, i, key)
    ensures key !in Run(b, log).snapshots
  {
    if log != [] {
      var n := |log| - 1;
      var init, last := log[..n], log[n];
      forall i | 0 <= i < n ensures !Creates(b, init, i, key) {
        assert init[..i] == log[..i];
        assert !Creates(b, log, i, key);
      }
      NoRowUntilCreated(b, init, key);
      SameVaults(b, init);
      assert !Creates(b, log, n, key);
      if IsDistribution(last, key.0, key.2) {
        DistributionSnapshots(Run(b, init), key.0, key.1, key.2, last.body.amount);
      } else {
        OtherEventsKeepSnapshot(Run(b, init), last, key);
      }
    }
  }

  // One event after the row exists: its shares stay, only claims add to it.
  lemma RowKeepsShares(b: Books, e: Entry, key: (Contract, User, nat))
    requires key.0 in b.vaults && key in b.snapshots
    ensures key in Apply(b, e.vault, e.body).snapshots
    ensures Apply(b, e.vault, e.body).snapshots[key].shares == b.snapshots[key].shares
  {
    if IsDistribution(e, key.0, key.2) {
      DistributionSnapshots(b, key.0, key.1, key.2, e.body.amount);
    } else if !IsClaim(e, key.0, key.1, key.2) {
      OtherEventsKeepSnapshot(b, e, key);
    }
  }

  // The snapshot is frozen by the event that creates it, whatever follows.
  lemma {:induction false} SnapshotIsFrozen(b: Books, log: seq<Entry>, i: nat, key: (Contract, User, nat))
    requires key.0 in b.vaults && key !in b.snapshots
    requires i < |log| && Creates(b, log, i, key)
    requires forall j :: 0 <= j < i ==> !Creates(b, log, j, key)
    ensures key in Run(b, log).snapshots
    ensures Run(b, log).snapshots[key].shares
         == if IsClaim(log[i], key.0, key.1, key.2) then 0
            else Balance(Run(b, log[..i]), (key.0, key.1))
    decreases |log|
  {
    var n := |log| - 1;
    var init, last := log[..n], log[n];
    SameVaults(b, init);
    if i == n {
      forall j | 0 <= j < n ensures !Creates(b, init, j, key) {
        assert init[..j] == log[..j];
        assert !Creates(b, log, j, key);
      }
      NoRowUntilCreated(b, init, key);
      if !IsClaim(last, key.0, key.1, key.2) {
        DistributionSnapshots(Run(b, init), key.0, key.1, key.2, last.body.amount);
      }
    } else {
      forall j | 0 <= j <= i ensures Creates(b, init, j, key) == Creates(b, log, j, key) {
        assert init[..j] == log[..j];
      }
      assert init[..i] == log[..i];
      SnapshotIsFrozen(b, init, i, key);
      RowKeepsShares(Run(b, init), last, key);
    }
  }

  predicate ClaimedBefore(log: seq<Entry>, i: nat, key: (Contract, User, nat))
    requires i <= |log|
  {
    exists j :: 0 <= j < i && IsClaim(log[j], key.0, key.1, key.2)
  }

  // Some later distribution finds shares before any claim.
  predicate RecordedLate(b: Books, log: seq<Entry>, i: nat, key: (Contract, User, nat)) {
    exists j :: i < j < |log| && IsDistribution(log[j], key.0, key.2)
                && Balance(Run(b, log[..j]), (key.0, key.1)) > 0 && !ClaimedBefore(log, j, key)
  }

  // Let log[i] be the first distribution of the epoch. The snapshot is the
  // balance just before it exactly when no claim came first, for a holder, and
  // when no later distribution records him, for a user without shares.
  lemma SnapshotIsBalanceAtDistribution(b: Books, log: seq<Entry>, i: nat, key: (Contract, User, nat))
    requires key.0 in b.vaults && key !in b.snapshots
    requires i < |log| && IsDistribution(log[i], key.0, key.2)
    requires forall j :: 0 <= j < i ==> !IsDistribution(log[j], key.0, key.2)
    ensures var held := Balance(Run(b, log[..i]), (key.0, key.1));
            SnapshotShares(Run(b, log), key) == held
            <==> if held > 0 then !ClaimedBefore(log, i, key) else held == 0 && !RecordedLate(b, log, i, key)
  {
    if Balance(Run(b, log[..i]), (key.0, key.1)) > 0 {
      HolderSnapshot(b, log, i, key);
    } else {
      LateSnapshot(b, log, i, key);
    }
  }

  // What the row holds, by its first creator.
  lemma CreatedRow(b: Books, log: seq<Entry>, j: nat, key: (Contract, User, nat)) returns (first: nat)
    requires key.0 in b.vaults && key !in b.snapshots && j < |log| && Creates(b, log, j, key)
    ensures first <= j && Creates(b, log, first, key) && !ClaimedBefore(log, first, key)
    ensures forall k :: 0 <= k < first ==> !Creates(b, log, k, key)
    ensures if IsClaim(log[first], key.0, key.1, key.2) then SnapshotShares(Run(b, log), key) == 0
            else SnapshotShares(Run(b, log), key) == Balance(Run(b, log[..first]), (key.0, key.1)) > 0
    ensures forall k :: first < k <= |log| && IsClaim(log[first], key.0, key.1, key.2) ==> ClaimedBefore(log, k, key)
  {
    first := FirstCreator(b, log, j, key);
    SnapshotIsFrozen(b, log, first, key);
    FirstIsClaimIff(b, log, first, key);
  }

  lemma HolderSnapshot(b: Books, log: seq<Entry>, i: nat, key: (Contract, User, nat))
    requires key.0 in b.vaults && key !in b.snapshots && i < |log| && IsDistribution(log[i], key.0, key.2)
    requires forall j :: 0 <= j < i ==> !IsDistribution(log[j], key.0, key.2)
    requires Balance(Run(b, log[..i]), (key.0, key.1)) > 0
    ensures SnapshotShares(Run(b, log), key) == Balance(Run(b, log[..i]), (key.0, key.1)) <==> !ClaimedBefore(log, i, key)
  {
    assert Creates(b, log, i, key);
    var first := CreatedRow(b, log, i, key);
    if ClaimedBefore(log, i, key) {
      var c :| 0 <= c < i && IsClaim(log[c], key.0, key.1, key.2);
      assert Creates(b, log, c, key);
    }
  }

  lemma LateSnapshot(b: Books, log: seq<Entry>, i: nat, key: (Contract, User, nat))
    requires key.0 in b.vaults && key !in b.snapshots && i < |log| && IsDistribution(log[i], key.0, key.2)
    requires forall j :: 0 <= j < i ==> !IsDistribution(log[j], key.0, key.2)
    requires Balance(Run(b, log[..i]), (key.0, key.1)) <= 0
    ensures SnapshotShares(Run(b, log), key) >= 0
    ensures SnapshotShares(Run(b, log), key) == 0 <==> !RecordedLate(b, log, i, key)
  {
    if RecordedLate(b, log, i, key) {
      var k :| i < k < |log| && IsDistribution(log[k], key.0, key.2)
        && Balance(Run(b, log[..k]), (key.0, key.1)) > 0 && !ClaimedBefore(log, k, key);
      LateHolderRecorded(b, log, k, key);
    } else if j :| 0 <= j < |log| && Creates(b, log, j, key) {
      var first := CreatedRow(b, log, j, key);
      assert first != i;
    } else {
      NoRowUntilCreated(b, log, key);
    }
  }

  lemma LateHolderRecorded(b: Books, log: seq<Entry>, k: nat, key: (Contract, User, nat))
    requires key.0 in b.vaults && key !in b.snapshots && k < |log| && IsDistribution(log[k], key.0, key.2)
    requires Balance(Run(b, log[..k]), (key.0, key.1)) > 0 && !ClaimedBefore(log, k, key)
    ensures SnapshotShares(Run(b, log), key) > 0
  {
    assert Creates(b, log, k, key);
    var first := CreatedRow(b, log, k, key);
    assert !IsClaim(log[first], key.0, key.1, key.2);
  }

  // The first event to create the row is a claim, or a distribution that no
  // claim precedes.
  lemma FirstIsClaimIff(b: Books, log: seq<Entry>, first: nat, key: (Contract, User, nat))
    requires first < |log| && Creates(b, log, first, key)
    requires forall j :: 0 <= j < first ==> !Creates(b, log, j, key)
    ensures !ClaimedBefore(log, first, key)
    ensures forall j :: first < j <= |log| && IsClaim(log[first], key.0, key.1, key.2) ==> ClaimedBefore(log, j, key)
  {
    if c :| 0 <= c < first && IsClaim(log[c], key.0, key.1, key.2) {
      assert Creates(b, log, c, key);
    }
  }

  lemma {:induction false} FirstCreator(b: Books, log: seq<Entry>, j: nat, key: (Contract, User, nat)) returns (i: nat)
    requires j < |log| && Creates(b, log, j, key)
    ensures i <= j && Creates(b, log, i, key)
    ensures forall k :: 0 <= k < i ==> !Creates(b, log, k, key)
  {
    if k :| 0 <= k < j && Creates(b, log, k, key) {
      i := FirstCreator(b, log, k, key);
    } else {
      i := j;
    }
  }

  // A second distribution of the epoch records a user who bought in after the
  // first one: the snapshot is then not the (zero) balance before the first.
  lemma SecondDistributionRecordsLateHolder(b: Books, v: Contract, user: User, epoch: nat, shares: int)
    requires v in b.vaults && (v, user) !in b.positions && (v, user, epoch) !in b.snapshots
    requires shares > 0
    ensures var first := Apply(b, v, Distribute(epoch, 10));
            var bought := Apply(first, v, Deposit(user, 7, shares));
            var second := Apply(bought, v, Distribute(epoch, 10));
            SnapshotShares(second, (v, user, epoch)) == shares != Balance(b, (v, user))
  {
    DistributionSnapshots(b, v, user, epoch, 10);
    SecondCallIsIdle(b, v, epoch, 10);
    var first := Apply(b, v, Distribute(epoch, 10));
    var bought := Apply(first, v, Deposit(user, 7, shares));
    assert bought == DepositInto(first, v, user, 7, shares);
    DistributionSnapshots(bought, v, user, epoch, 10);
  }

  function ClaimAmount(e: Entry, key: (Contract, User, nat)): int {
    if IsClaim(e, key.0, key.1, key.2) then e.body.amount else 0
  }

  function ClaimSum(log: seq<Entry>, key: (Contract, User, nat)): int {
    if log == [] then 0 else ClaimSum(log[..|log| - 1], key) + ClaimAmount(log[|log| - 1], key)
  }

  // cumulative_yield_claimed is the sum of the claims, whatever the order.
  lemma {:induction false} ClaimedIsSumOfClaims(b: Books, log: seq<Entry>, key: (Contract, User, nat))
    requires key.0 in b.vaults
    ensures SnapshotClaimed(Run(b, log), key) == SnapshotClaimed(b, key) + ClaimSum(log, key)
  {
    if log != [] {
      var init, last := log[..|log| - 1], log[|log| - 1];
      ClaimedIsSumOfClaims(b, init, key);
      SameVaults(b, init);
      if IsDistribution(last, key.0, key.2) {
        DistributionSnapshots(Run(b, init), key.0, key.1, key.2, last.body.amount);
      } else if !IsClaim(last, key.0, key.1, key.2) {
        OtherEventsKeepSnapshot(Run(b, init), last, key);
      }
    }
  }

  // The epochs row keeps the amount of the first distribution.
  lemma {:induction false} EpochRowIsFirst(b: Books, log: seq<Entry>, i: nat, v: Contract, epoch: nat)
    requires v in b.vaults && (v, epoch) !in b.epochs
    requires i < |log| && IsDistribution(log[i], v, epoch)
    requires forall j :: 0 <= j < i ==> !IsDistribution(log[j], v, epoch)
    ensures (v, epoch) in Run(b, log).epochs && Run(b, log).epochs[(v, epoch)] == log[i].body.amount
    decreases |log|
  {
    var n := |log| - 1;
    SameVaults(b, log[..n]);
    if i == n {
      NoEpochRowYet(b, log[..n], v, epoch);
    } else {
      EpochRowIsFirst(b, log[..n], i, v, epoch);
    }
  }

  lemma {:induction false} NoEpochRowYet(b: Books, log: seq<Entry>, v: Contract, epoch: nat)
    requires (v, epoch) !in b.epochs
    requires forall j :: 0 <= j < |log| ==> !IsDistribution(log[j], v, epoch)
    ensures (v, epoch) !in Run(b, log).epochs
  {
    if log != [] {
      NoEpochRowYet(b, log[..|log| - 1], v, epoch);
    }
  }

  // ------------------------------------------------------- other vaults' rows

  // Every row of vault v is the same in both books.
  ghost predicate SameRows(a: Books, b: Books, v: Contract) {
    && (v in a.vaults <==> v in b.vaults) && (v in a.vaults ==> a.vaults[v] == b.vaults[v])
    && (forall user :: (v, user) in a.positions <==> (v, user) in b.positions)
    && (forall user :: (v, user) in a.positions ==> a.positions[(v, user)] == b.positions[(v, user)])
    && (forall epoch :: (v, epoch) in a.epochs <==> (v, epoch) in b.epochs)
    && (forall epoch :: (v, epoch) in a.epochs ==> a.epochs[(v, epoch)] == b.epochs[(v, epoch)])
    && (forall user, epoch :: (v, user, epoch) in a.snapshots <==> (v, user, epoch) in b.snapshots)
    && (forall user, epoch :: (v, user, epoch) in a.snapshots ==> a.snapshots[(v, user, epoch)] == b.snapshots[(v, user, epoch)])
  }

  // A run changes no row of a vault without events in it, and none of a
  // contract that has no vault.
  lemma {:induction false} OthersUntouched(b: Books, log: seq<Entry>, v: Contract)
    requires v !in b.vaults || forall i :: 0 <= i < |log| ==> log[i].vault != v
    ensures SameRows(b, Run(b, log), v)
  {
    if log != [] {
      var init, last := log[..|log| - 1], log[|log| - 1];
      OthersUntouched(b, init, v);
      EventLeaves(Run(b, init), last, v);
    }
  }

  lemma EventLeaves(b: Books, e: Entry, v: Contract)
    requires v !in b.vaults || e.vault != v
    ensures SameRows(b, Apply(b, e.vault, e.body), v)
  {
    if e.body.Distribute? {
      SecondCallIsIdle(b, e.vault, e.body.epoch, e.body.amount);
    }
  }
}
