// The order in which an event is dispatched (backend/src/services/
// notifications.ts): webhooks are grouped by priority and each tier is
// enqueued before the next starts.
module Tiers {
  datatype Webhook = Webhook(id: int, priority: int)

  // The webhooks of one priority, in their order.
  function WithPriority(ws: seq<Webhook>, p: int): seq<Webhook> {
    if ws == [] then []
    else
      var last := ws[|ws| - 1];
      WithPriority(ws[..|ws| - 1], p) + if last.priority == p then [last] else []
  }

  predicate ByPriority(ws: seq<Webhook>) {
    forall i, j :: 0 <= i < j < |ws| ==> ws[i].priority <= ws[j].priority
  }

  // Same webhooks, each tier in the same order.
  ghost predicate SameTiers(r: seq<Webhook>, s: seq<Webhook>) {
    forall p :: WithPriority(r, p) == WithPriority(s, p)
  }

  ghost predicate AreTiers(tiers: map<int, seq<Webhook>>, ws: seq<Webhook>) {
    forall p :: (p in tiers <==> WithPriority(ws, p) != []) && (p in tiers ==> tiers[p] == WithPriority(ws, p))
  }

  // ----------------------------------------------------------------- notify

  // The tiers, and their keys in the order they were first met.
  method Group(ws: seq<Webhook>) returns (tiers: map<int, seq<Webhook>>, keys: seq<int>)
    ensures AreTiers(tiers, ws)
    ensures forall p :: p in keys <==> p in tiers
  {
    tiers, keys := map[], [];
    for i := 0 to |ws|
      invariant AreTiers(tiers, ws[..i])
      invariant forall p :: p in keys <==> p in tiers
    {
      assert ws[..i + 1][..i] == ws[..i];
      var p := ws[i].priority;
      var tier := if p in tiers then tiers[p] else [];
      if p !in tiers {
        keys := keys + [p];
      }
      tiers := tiers[p := tier + [ws[i]]];
    }
    assert ws[..|ws|] == ws;
  }

  ghost predicate Ascending(ks: seq<int>) {
    forall i, j :: 0 <= i < j < |ks| ==> ks[i] < ks[j]
  }

  function Placed(k: int, ks: seq<int>): (r: seq<int>)
    requires Ascending(ks)
    ensures Ascending(r) && forall x :: x in r <==> x == k || x in ks
  {
    if ks == [] || k < ks[0] then [k] + ks
    else if k == ks[0] then ks
    else
      var rest := Placed(k, ks[1..]);
      assert forall x :: x in ks[1..] ==> ks[0] < x;
      assert forall i :: 0 <= i < |rest| ==> rest[i] in rest;
      [ks[0]] + rest
  }

  // [...keys].sort((a, b) => a - b)
  function SortKeys(keys: seq<int>): (r: seq<int>)
    ensures Ascending(r) && forall x :: x in r <==> x in keys
  {
    if keys == [] then [] else Placed(keys[0], SortKeys(keys[1..]))
  }

  // The webhooks in the order they are dispatched.
  method Dispatch(ws: seq<Webhook>) returns (order: seq<Webhook>)
    ensures ByPriority(order) && SameTiers(order, ws)
    ensures ByPriority(ws) ==> order == ws
  {
    var tiers, keys := Group(ws);
    var ks := SortKeys(keys);
    order := [];
    NothingDispatched(ws, ks);
    for i := 0 to |ks|
      invariant Dispatched(order, ws, ks, i)
    {
      assert ks[i] in ks;
      var tier := tiers[ks[i]];
      assert tier == WithPriority(ws, ks[i]);
      NextTier(order, ws, ks, i);
      order := order + tier;
    }
    AllDispatched(order, ws, ks, tiers);
    if ByPriority(ws) {
      StableSortIsUnique(order, ws);
    }
  }

  // Exactly the first n tiers, in order.
  ghost predicate Dispatched(order: seq<Webhook>, ws: seq<Webhook>, ks: seq<int>, n: nat)
    requires n <= |ks|
  {
    ByPriority(order)
    && (forall w :: w in order ==> exists j :: 0 <= j < n && ks[j] == w.priority)
    && forall p :: WithPriority(order, p) == if p in ks[..n] then WithPriority(ws, p) else []
  }

  lemma NothingDispatched(ws: seq<Webhook>, ks: seq<int>)
    ensures Dispatched([], ws, ks, 0)
  {}

  lemma NextTier(order: seq<Webhook>, ws: seq<Webhook>, ks: seq<int>, n: nat)
    requires n < |ks| && Ascending(ks) && Dispatched(order, ws, ks, n)
    ensures Dispatched(order + WithPriority(ws, ks[n]), ws, ks, n + 1)
  {
    var k := ks[n];
    var tier := WithPriority(ws, k);
    TierOnly(ws, k);
    KeepsOrder(order, tier, k, ks, n);
    forall p ensures WithPriority(order + tier, p) == if p in ks[..n + 1] then WithPriority(ws, p) else [] {
      PriorityConcat(order, tier, p);
      TierOf(ws, k, p);
      OneKeyMore(ks, n, p);
    }
  }

  lemma OneKeyMore(ks: seq<int>, n: nat, p: int)
    requires n < |ks| && Ascending(ks)
    ensures p in ks[..n + 1] <==> p == ks[n] || p in ks[..n]
    ensures p in ks[..n] ==> p != ks[n]
  {
    assert ks[..n + 1] == ks[..n] + [ks[n]];
  }

  lemma KeepsOrder(order: seq<Webhook>, tier: seq<Webhook>, k: int, ks: seq<int>, n: nat)
    requires n < |ks| && Ascending(ks) && k == ks[n] && ByPriority(order)
    requires forall w :: w in order ==> exists j :: 0 <= j < n && ks[j] == w.priority
    requires forall w :: w in tier ==> w.priority == k
    ensures ByPriority(order + tier)
    ensures forall w :: w in order + tier ==> exists j :: 0 <= j < n + 1 && ks[j] == w.priority
  {
    assert forall i :: 0 <= i < |tier| ==> tier[i] in tier;
    forall i | 0 <= i < |order| ensures order[i].priority < k {
      assert order[i] in order;
    }
    forall w | w in order + tier ensures exists j :: 0 <= j < n + 1 && ks[j] == w.priority {
      if w in tier {
        assert ks[n] == w.priority;
      }
    }
  }

  lemma AllDispatched(order: seq<Webhook>, ws: seq<Webhook>, ks: seq<int>, tiers: map<int, seq<Webhook>>)
    requires Dispatched(order, ws, ks, |ks|) && AreTiers(tiers, ws) && forall p :: p in ks <==> p in tiers
    ensures SameTiers(order, ws)
  {
    assert ks[..|ks|] == ks;
  }

  // --------------------------------------------------- the order is determined

  lemma {:induction false} PriorityConcat(a: seq<Webhook>, b: seq<Webhook>, p: int)
    ensures WithPriority(a + b, p) == WithPriority(a, p) + WithPriority(b, p)
  {
    if b == [] {
      assert a + b == a;
    } else {
      PriorityConcat(a, b[..|b| - 1], p);
      assert (a + b)[..|a + b| - 1] == a + b[..|b| - 1];
    }
  }

  lemma {:induction false} TierOnly(ws: seq<Webhook>, p: int)
    ensures forall w :: w in WithPriority(ws, p) ==> w.priority == p
  {
    if ws != [] {
      TierOnly(ws[..|ws| - 1], p);
    }
  }

  lemma OneTier(w: Webhook, q: int)
    ensures WithPriority([w], q) == if w.priority == q then [w] else []
  {
    assert [w][..0] == [] && WithPriority([w][..0], q) == [];
  }

  lemma {:induction false} TierOf(ws: seq<Webhook>, p: int, q: int)
    ensures WithPriority(WithPriority(ws, p), q) == if p == q then WithPriority(ws, p) else []
  {
    if ws != [] {
      var init, last := ws[..|ws| - 1], ws[|ws| - 1];
      TierOf(init, p, q);
      if last.priority == p {
        PriorityConcat(WithPriority(init, p), [last], q);
        OneTier(last, q);
        assert WithPriority(ws, p) == WithPriority(init, p) + [last];
      } else {
        assert WithPriority(ws, p) == WithPriority(init, p);
      }
    }
  }

  lemma {:induction false} TierNotEmpty(ws: seq<Webhook>, p: int)
    ensures WithPriority(ws, p) != [] <==> exists i :: 0 <= i < |ws| && ws[i].priority == p
  {
    if ws != [] {
      var init := ws[..|ws| - 1];
      TierNotEmpty(init, p);
      if WithPriority(init, p) != [] {
        var i :| 0 <= i < |init| && init[i].priority == p;
        assert ws[i].priority == p;
      }
      if i :| 0 <= i < |ws| && ws[i].priority == p && i < |init| {
        assert init[i].priority == p;
      }
    }
  }

  lemma LastPriority(r: seq<Webhook>, s: seq<Webhook>)
    requires r != [] && SameTiers(r, s) && ByPriority(s)
    ensures s != [] && r[|r| - 1].priority <= s[|s| - 1].priority
  {
    var p := r[|r| - 1].priority;
    TierNotEmpty(r, p);
    TierNotEmpty(s, p);
    var i :| 0 <= i < |s| && s[i].priority == p;
  }

  // Sorted by priority with the tiers of `s` in their order: there is one such
  // sequence, so the dispatch is the stable sort, and the query's own order
  // when that is by priority already.
  lemma {:induction false} StableSortIsUnique(r: seq<Webhook>, s: seq<Webhook>)
    requires ByPriority(r) && ByPriority(s) && SameTiers(r, s)
    ensures r == s
    decreases |r|
  {
    if r == [] {
      if s != [] {
        LastPriority(s, r);
      }
    } else {
      LastPriority(r, s);
      LastPriority(s, r);
      var r', s', p := r[..|r| - 1], s[..|s| - 1], r[|r| - 1].priority;
      assert WithPriority(r, p) == WithPriority(r', p) + [r[|r| - 1]];
      assert WithPriority(s, p) == WithPriority(s', p) + [s[|s| - 1]];
      assert WithPriority(r, p)[|WithPriority(r, p)| - 1] == r[|r| - 1];
      forall q ensures WithPriority(r', q) == WithPriority(s', q) {
        assert WithPriority(r, q) == WithPriority(s, q);
        if q == p {
          assert WithPriority(r', p) == WithPriority(r, p)[..|WithPriority(r, p)| - 1];
          assert WithPriority(s', p) == WithPriority(s, p)[..|WithPriority(s, p)| - 1];
        } else {
          assert r[|r| - 1].priority != q && s[|s| - 1].priority != q;
          assert WithPriority(r, q) == WithPriority(r', q) && WithPriority(s, q) == WithPriority(s', q);
        }
      }
      StableSortIsUnique(r', s');
      assert r == r' + [r[|r| - 1]] && s == s' + [s[|s| - 1]];
    }
  }
}
