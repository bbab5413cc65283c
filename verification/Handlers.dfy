// The database effects of the four event handlers that carry amounts
// (backend/src/services/indexer.ts): deposits, withdrawals, yield distributions
// and yield claims.
module Handlers {
  import opened Common

  type Contract = string
  type User = string

  datatype Body =
    | Deposit(receiver: User, assets: int, shares: int)
    | Withdraw(owner: User, assets: int, shares: int)
    | Distribute(epoch: nat, amount: int)
    | Claim(user: User, epoch: nat, amount: int)
    | Other

  // `exited` stands for a non-null last_exit_at.
  datatype Position = Position(shares: int, deposited: int, exited: bool)

  datatype Totals = Totals(assets: int, minted: int, burned: int)

  datatype Snapshot = Snapshot(shares: int, claimed: int)

  // The rows of the tables vaults, user_vault_positions, epochs and
  // share_balance_snapshots. A contract outside `vaults` has no vaults row.
  datatype Books = Books(
    vaults: map<Contract, Totals>,
    positions: map<(Contract, User), Position>,
    epochs: map<(Contract, nat), int>,
    snapshots: map<(Contract, User, nat), Snapshot>)

  // Upsert of handleDeposit; nothing is selected for an unknown vault.
  function DepositInto(b: Books, v: Contract, user: User, assets: int, shares: int): Books {
    if v !in b.vaults then b
    else
      var key := (v, user);
      var t := b.vaults[v];
      var p := if key in b.positions
               then Position(b.positions[key].shares + shares, b.positions[key].deposited + assets, false)
               else Position(shares, assets, false);
      b.(positions := b.positions[key := p],
         vaults := b.vaults[v := t.(assets := t.assets + assets, minted := t.minted + shares)])
  }

  // Upsert of handleWithdraw with its clamp at zero.
  function WithdrawFrom(b: Books, v: Contract, user: User, assets: int, shares: int): Books {
    if v !in b.vaults then b
    else
      var key := (v, user);
      var t := b.vaults[v];
      var p := if key in b.positions
               then var left := Max(0, b.positions[key].shares - shares);
                    Position(left, Max(0, b.positions[key].deposited - assets), left == 0)
               else Position(0, 0, true);
      b.(positions := b.positions[key := p],
         vaults := b.vaults[v := t.(burned := t.burned + shares)])
  }

  // The users with a positive share balance in a vault.
  function Holders(positions: map<(Contract, User), Position>, v: Contract): set<User> {
    set k | k in positions && k.0 == v && positions[k].shares > 0 :: k.1
  }

  function HolderSnapshots(positions: map<(Contract, User), Position>, v: Contract,
                           users: set<User>, epoch: nat): map<(Contract, User, nat), Snapshot>
    requires forall u :: u in users ==> (v, u) in positions
  {
    map u | u in users :: (v, u, epoch) := Snapshot(positions[(v, u)].shares, 0)
  }

  // Insert-unless-there of one more holder.
  lemma HolderSnapshotsAdd(positions: map<(Contract, User), Position>, v: Contract,
                           users: set<User>, user: User, epoch: nat,
                           before: map<(Contract, User, nat), Snapshot>)
    requires forall u :: u in users + {user} ==> (v, u) in positions
    ensures HolderSnapshots(positions, v, users + {user}, epoch) + before
         == map[(v, user, epoch) := Snapshot(positions[(v, user)].shares, 0)]
            + (HolderSnapshots(positions, v, users, epoch) + before)
  {
    var more := HolderSnapshots(positions, v, users + {user}, epoch);
    var some := HolderSnapshots(positions, v, users, epoch);
    assert more.Keys == {(v, user, epoch)} + some.Keys;
  }

  // One call of handleYieldDistributed: insert the epoch and a snapshot for
  // every holder, each unless already there.
  function RecordDistribution(b: Books, v: Contract, epoch: nat, amount: int): Books {
    if v !in b.vaults then b
    else
      b.(epochs := map[(v, epoch) := amount] + b.epochs,
         snapshots := HolderSnapshots(b.positions, v, Holders(b.positions, v), epoch) + b.snapshots)
  }

  // handleYieldClaimed: insert an empty snapshot unless there, then add.
  function RecordClaim(b: Books, v: Contract, user: User, epoch: nat, amount: int): Books {
    if v !in b.vaults then b
    else
      var key := (v, user, epoch);
      var s := if key in b.snapshots then b.snapshots[key] else Snapshot(0, 0);
      b.(snapshots := b.snapshots[key := s.(claimed := s.claimed + amount)])
  }

  // Dispatch of _processEventInner. The distribution handler is called twice
  // for every distribution event.
  function Apply(b: Books, v: Contract, body: Body): Books {
    match body
    case Deposit(user, assets, shares) => DepositInto(b, v, user, assets, shares)
    case Withdraw(user, assets, shares) => WithdrawFrom(b, v, user, assets, shares)
    case Distribute(epoch, amount) =>
      RecordDistribution(RecordDistribution(b, v, epoch, amount), v, epoch, amount)
    case Claim(user, epoch, amount) => RecordClaim(b, v, user, epoch, amount)
    case Other => b
  }

  // An entry of the log: the emitting contract and the typed event.
  datatype Entry = Entry(vault: Contract, body: Body)

  function Run(b: Books, log: seq<Entry>): Books {
    if log == [] then b
    else Apply(Run(b, log[..|log| - 1]), log[|log| - 1].vault, log[|log| - 1].body)
  }

  // The handlers as methods over the rows they update.
  class BookKeeper {
    var vaults: map<Contract, Totals>
    var positions: map<(Contract, User), Position>
    var epochs: map<(Contract, nat), int>
    var snapshots: map<(Contract, User, nat), Snapshot>

    ghost function View(): Books
      reads this
    {
      Books(vaults, positions, epochs, snapshots)
    }

    constructor (b: Books)
      ensures View() == b
    {
      vaults, positions, epochs, snapshots := b.vaults, b.positions, b.epochs, b.snapshots;
    }

    method HandleDeposit(v: Contract, user: User, assets: int, shares: int)
      modifies this
      ensures View() == DepositInto(old(View()), v, user, assets, shares)
    {
      if v in vaults {
        var key := (v, user);
        if key in positions {
          var p := positions[key];
          positions := positions[key := Position(p.shares + shares, p.deposited + assets, false)];
        } else {
          positions := positions[key := Position(shares, assets, false)];
        }
        var t := vaults[v];
        vaults := vaults[v := Totals(t.assets + assets, t.minted + shares, t.burned)];
      }
    }

    method HandleWithdraw(v: Contract, user: User, assets: int, shares: int)
      modifies this
      ensures View() == WithdrawFrom(old(View()), v, user, assets, shares)
    {
      if v in vaults {
        var key := (v, user);
        if key in positions {
          var p := positions[key];
          var left := Max(0, p.shares - shares);
          positions := positions[key := Position(left, Max(0, p.deposited - assets), left == 0)];
        } else {
          positions := positions[key := Position(0, 0, true)];
        }
        var t := vaults[v];
        vaults := vaults[v := Totals(t.assets, t.minted, t.burned + shares)];
      }
    }

    // INSERT ... ON CONFLICT DO NOTHING of one snapshot row.
    method InsertSnapshot(key: (Contract, User, nat), shares: int)
      modifies this`snapshots
      ensures snapshots == map[key := Snapshot(shares, 0)] + old(snapshots)
    {
      if key !in snapshots {
        snapshots := snapshots[key := Snapshot(shares, 0)];
      }
    }

    // The holders are inserted one by one, in no particular order.
    method InsertHolders(v: Contract, epoch: nat)
      modifies this`snapshots
      ensures snapshots == HolderSnapshots(positions, v, Holders(positions, v), epoch) + old(snapshots)
    {
      ghost var done: set<User> := {};
      var todo := Holders(positions, v);
      while todo != {}
        invariant done + todo == Holders(positions, v)
        invariant snapshots == HolderSnapshots(positions, v, done, epoch) + old(snapshots)
        decreases |todo|
      {
        var u :| u in todo;
        HolderSnapshotsAdd(positions, v, done, u, epoch, old(snapshots));
        InsertSnapshot((v, u, epoch), positions[(v, u)].shares);
        todo, done := todo - {u}, done + {u};
      }
      assert done == Holders(positions, v);
    }

    method HandleYieldDistributed(v: Contract, epoch: nat, amount: int)
      modifies this
      ensures View() == RecordDistribution(old(View()), v, epoch, amount)
    {
      if v in vaults {
        if (v, epoch) !in epochs {
          epochs := epochs[(v, epoch) := amount];
        }
        assert epochs == map[(v, epoch) := amount] + old(epochs);
        InsertHolders(v, epoch);
      }
    }

    method HandleYieldClaimed(v: Contract, user: User, epoch: nat, amount: int)
      modifies this
      ensures View() == RecordClaim(old(View()), v, user, epoch, amount)
    {
      if v in vaults {
        var key := (v, user, epoch);
        if key !in snapshots {
          snapshots := snapshots[key := Snapshot(0, 0)];
        }
        var s := snapshots[key];
        snapshots := snapshots[key := Snapshot(s.shares, s.claimed + amount)];
      }
    }

    method ProcessBody(v: Contract, body: Body)
      modifies this
      ensures View() == Apply(old(View()), v, body)
    {
      match body {
        case Deposit(user, assets, shares) => HandleDeposit(v, user, assets, shares);
        case Withdraw(user, assets, shares) => HandleWithdraw(v, user, assets, shares);
        case Distribute(epoch, amount) =>
          HandleYieldDistributed(v, epoch, amount);
          HandleYieldDistributed(v, epoch, amount);
        case Claim(user, epoch, amount) => HandleYieldClaimed(v, user, epoch, amount);
        case Other =>
      }
    }
  }
}
