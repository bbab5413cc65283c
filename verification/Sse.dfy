// The vault event streams with replay on reconnect (backend/src/services/sseManager.ts).
module Sse {
  import opened Common

  datatype Event = Event(id: nat, vault: string, payload: string)

  // `only` is the client's vault filter, `received` what was written to it.
  datatype Client = Client(only: Option<seq<string>>, received: seq<Event>)

  // `order` lists the vaults with a buffer in insertion order; `history` is
  // everything ever broadcast.
  datatype Hub = Hub(counters: map<string, nat>, buffers: map<string, seq<Event>>, order: seq<string>,
                     clients: map<nat, Client>, active: nat, nextClient: nat, history: seq<Event>)

  const FRESH := Hub(map[], map[], [], map[], 0, 1, [])

  datatype Op =
    | Broadcast(vault: string, payload: string)
    | Warm(vault: string, persisted: Option<nat>)
    | Connect(since: Option<int>, only: Option<seq<string>>)
    | Disconnect(client: nat)

  function Counter(h: Hub, v: string): nat { if v in h.counters then h.counters[v] else 0 }

  function Buffer(h: Hub, v: string): seq<Event> { if v in h.buffers then h.buffers[v] else [] }

  // Drop from the front until at most `size` are left.
  function Latest(s: seq<Event>, size: nat): seq<Event> {
    if |s| > size then s[|s| - size..] else s
  }

  predicate Wants(c: Client, v: string) { c.only.None? || v in c.only.value }

  // The events with an id above k.
  function After(s: seq<Event>, k: int): seq<Event> {
    if s == [] then []
    else
      var init, e := After(s[..|s| - 1], k), s[|s| - 1];
      if e.id > k then init + [e] else init
  }

  // Replay of the buffers of the listed vaults, one after the other.
  function Missed(buffers: map<string, seq<Event>>, vaults: seq<string>, k: int): seq<Event> {
    if vaults == [] then []
    else
      var v := vaults[|vaults| - 1];
      Missed(buffers, vaults[..|vaults| - 1], k) + After(if v in buffers then buffers[v] else [], k)
  }

  // An empty filter counts as no filter.
  function Normalised(only: Option<seq<string>>): Option<seq<string>> {
    if only.Some? && only.value == [] then None else only
  }

  function Send(clients: map<nat, Client>, e: Event): map<nat, Client> {
    map c | c in clients ::
      if Wants(clients[c], e.vault) then clients[c].(received := clients[c].received + [e]) else clients[c]
  }

  function Step(h: Hub, op: Op, size: nat): Hub {
    match op
    case Broadcast(v, payload) =>
      var e := Event(Counter(h, v) + 1, v, payload);
      h.(counters := h.counters[v := e.id],
         buffers := h.buffers[v := Latest(Buffer(h, v) + [e], size)],
         order := if v in h.buffers then h.order else h.order + [v],
         clients := Send(h.clients, e),
         history := h.history + [e])
    case Warm(v, persisted) =>
      if persisted.Some? && persisted.value > Counter(h, v)
      then h.(counters := h.counters[v := persisted.value]) else h
    case Connect(since, only) =>
      var filter := Normalised(only);
      var replay := if since.None? then []
                    else Missed(h.buffers, if filter.Some? then filter.value else h.order, since.value);
      h.(clients := h.clients[h.nextClient := Client(filter, replay)],
         active := h.active + 1, nextClient := h.nextClient + 1)
    case Disconnect(c) =>
      if c in h.clients
      then h.(clients := h.clients - {c}, active := if h.active > 0 then h.active - 1 else 0) else h
  }

  function Exec(h: Hub, ops: seq<Op>, size: nat): Hub
    decreases |ops|, 1
  {
    if ops == [] then h else ExecNonempty(h, ops, size)
  }

  function ExecNonempty(h: Hub, ops: seq<Op>, size: nat): Hub
    requires ops != []
    decreases |ops|, 0
  {
    Step(Exec(h, ops[..|ops| - 1], size), ops[|ops| - 1], size)
  }

  class SseManager {
    const bufferSize: nat
    var counters: map<string, nat>
    var buffers: map<string, seq<Event>>
    var order: seq<string>
    var clients: map<nat, Client>
    var activeConnections: nat
    var nextClientId: nat
    ghost var history: seq<Event>

    ghost function View(): Hub
      reads this
    {
      Hub(counters, buffers, order, clients, activeConnections, nextClientId, history)
    }

    constructor (size: nat)
      ensures View() == FRESH && bufferSize == size
    {
      bufferSize := size;
      counters, buffers, order, clients := map[], map[], [], map[];
      activeConnections, nextClientId, history := 0, 1, [];
    }

    method ReplayMissedVaultEvents(since: int, vaults: seq<string>) returns (written: seq<Event>)
      ensures written == Missed(buffers, vaults, since)
    {
      written := [];
      for i := 0 to |vaults|
        invariant written == Missed(buffers, vaults[..i], since)
      {
        assert vaults[..i + 1][..i] == vaults[..i];
        if vaults[i] in buffers {
          var buffer := buffers[vaults[i]];
          ghost var before := written;
          for j := 0 to |buffer|
            invariant written == before + After(buffer[..j], since)
          {
            assert buffer[..j + 1][..j] == buffer[..j];
            if buffer[j].id > since {
              written := written + [buffer[j]];
            }
          }
          assert buffer[..|buffer|] == buffer;
        }
      }
      assert vaults[..|vaults|] == vaults;
    }

    method AddVaultClient(since: Option<int>, only: Option<seq<string>>)
      modifies this
      ensures View() == Step(old(View()), Connect(since, only), bufferSize)
    {
      var id := nextClientId;
      nextClientId := nextClientId + 1;
      activeConnections := activeConnections + 1;
      var filter := Normalised(only);
      var written: seq<Event> := [];
      if since.Some? {
        written := ReplayMissedVaultEvents(since.value, if filter.Some? then filter.value else order);
      }
      clients := clients[id := Client(filter, written)];
    }

    method Cleanup(client: nat)
      modifies this
      ensures View() == Step(old(View()), Disconnect(client), bufferSize)
    {
      if client in clients {
        clients := clients - {client};
        activeConnections := if activeConnections > 0 then activeConnections - 1 else 0;
      }
    }

    // Writes to every matching client, in no particular order.
    method WriteAll(e: Event)
      modifies this`clients
      ensures clients == Send(old(clients), e)
    {
      var todo := clients.Keys;
      while todo != {}
        invariant todo <= clients.Keys == old(clients).Keys
        invariant forall c :: c in todo ==> clients[c] == old(clients)[c]
        invariant forall c :: c in clients.Keys - todo ==> clients[c] == Send(old(clients), e)[c]
        decreases |todo|
      {
        var c :| c in todo;
        if Wants(clients[c], e.vault) {
          clients := clients[c := clients[c].(received := clients[c].received + [e])];
        }
        todo := todo - {c};
      }
    }

    // push, then shift while the buffer is too long.
    method Push(buffered: seq<Event>, e: Event) returns (buffer: seq<Event>)
      ensures buffer == Latest(buffered + [e], bufferSize)
    {
      buffer := buffered + [e];
      while |buffer| > bufferSize
        invariant Latest(buffer, bufferSize) == Latest(buffered + [e], bufferSize)
      {
        LatestOfTail(buffer, bufferSize);
        buffer := buffer[1..];
      }
    }

    method BroadcastVaultEvent(v: string, payload: string)
      modifies this
      ensures View() == Step(old(View()), Broadcast(v, payload), bufferSize)
    {
      var nextId := (if v in counters then counters[v] else 0) + 1;
      counters := counters[v := nextId];
      var e := Event(nextId, v, payload);
      var buffer := Push(if v in buffers then buffers[v] else [], e);
      if v !in buffers {
        order := order + [v];
      }
      buffers := buffers[v := buffer];
      history := history + [e];
      WriteAll(e);
    }

    method WarmVaultCounter(v: string, persisted: Option<nat>)
      modifies this
      ensures View() == Step(old(View()), Warm(v, persisted), bufferSize)
    {
      if persisted.None? {
        return;
      }
      var current := if v in counters then counters[v] else 0;
      if persisted.value > current {
        counters := counters[v := persisted.value];
      }
    }
  }

  lemma LatestOfTail(s: seq<Event>, size: nat)
    requires |s| > size
    ensures Latest(s[1..], size) == Latest(s, size)
  {}

  // ------------------------------------------------------------- invariants

  // The events of vault v.
  function Of(history: seq<Event>, v: string): seq<Event> {
    if history == [] then []
    else
      var init, e := Of(history[..|history| - 1], v), history[|history| - 1];
      if e.vault == v then init + [e] else init
  }

  lemma OfSnoc(history: seq<Event>, e: Event, v: string)
    ensures Of(history + [e], v) == if e.vault == v then Of(history, v) + [e] else Of(history, v)
  {
    assert (history + [e])[..|history + [e]| - 1] == history;
  }

  ghost predicate Increasing(s: seq<Event>) {
    forall i, j :: 0 <= i < j < |s| ==> s[i].id < s[j].id
  }

  // Ids of a vault increase and never exceed its counter; its buffer is the
  // newest part of its history, at most `size` long; the connection count is
  // the number of clients.
  ghost predicate VaultOk(h: Hub, v: string, size: nat) {
    && Increasing(Of(h.history, v))
    && (forall e :: e in Of(h.history, v) ==> e.id <= Counter(h, v))
    && Buffer(h, v) == Latest(Of(h.history, v), size)
  }

  ghost predicate HubOk(h: Hub, size: nat) {
    && (forall v :: VaultOk(h, v, size))
    && h.active == |h.clients|
    && (forall c :: c in h.clients ==> c < h.nextClient)
  }

  lemma LatestOfLatest(s: seq<Event>, e: Event, size: nat)
    ensures Latest(Latest(s, size) + [e], size) == Latest(s + [e], size)
  {}

  lemma IncreasingSnoc(s: seq<Event>, e: Event)
    requires Increasing(s) && forall x :: x in s ==> x.id < e.id
    ensures Increasing(s + [e])
  {
    assert forall i :: 0 <= i < |s| ==> s[i] in s;
  }

  // What one step does to the history, buffer and counter of a vault.
  lemma StepOnVault(h: Hub, op: Op, size: nat, v: string)
    ensures var n := Step(h, op, size);
            if op.Broadcast? && op.vault == v then
              var e := Event(Counter(h, v) + 1, v, op.payload);
              && Of(n.history, v) == Of(h.history, v) + [e]
              && Buffer(n, v) == Latest(Buffer(h, v) + [e], size)
              && Counter(n, v) == Counter(h, v) + 1
            else
              && Of(n.history, v) == Of(h.history, v)
              && Buffer(n, v) == Buffer(h, v)
              && Counter(n, v) >= Counter(h, v)
  {
    if op.Broadcast? {
      OfSnoc(h.history, Event(Counter(h, op.vault) + 1, op.vault, op.payload), v);
    }
  }

  lemma StepKeepsVaultOk(h: Hub, op: Op, size: nat, v: string)
    requires VaultOk(h, v, size)
    ensures VaultOk(Step(h, op, size), v, size)
  {
    StepOnVault(h, op, size, v);
    if op.Broadcast? && op.vault == v {
      var s, e := Of(h.history, v), Event(Counter(h, v) + 1, v, op.payload);
      IncreasingSnoc(s, e);
      LatestOfLatest(s, e, size);
      assert forall x :: x in s + [e] ==> x in s || x == e;
    }
  }

  lemma StepKeepsHubOk(h: Hub, op: Op, size: nat)
    requires HubOk(h, size)
    ensures HubOk(Step(h, op, size), size)
  {
    forall v ensures VaultOk(Step(h, op, size), v, size) {
      StepKeepsVaultOk(h, op, size, v);
    }
    StepCountsClients(h, op, size);
  }

  lemma StepCountsClients(h: Hub, op: Op, size: nat)
    requires h.active == |h.clients| && forall c :: c in h.clients ==> c < h.nextClient
    ensures var n := Step(h, op, size);
            n.active == |n.clients| && forall c :: c in n.clients ==> c < n.nextClient
  {
    var n := Step(h, op, size);
    match op
    case Broadcast(v, payload) => SendKeepsKeys(h.clients, Event(Counter(h, v) + 1, v, payload));
    case Warm(_, _) =>
    case Connect(_, _) => OneKeyMore(h.clients, h.nextClient, n.clients[h.nextClient]);
    case Disconnect(c) => OneKeyLess(h.clients, c);
  }

  lemma SendKeepsKeys(clients: map<nat, Client>, e: Event)
    ensures Send(clients, e).Keys == clients.Keys && |Send(clients, e)| == |clients|
  {
    KeysCount(clients);
    KeysCount(Send(clients, e));
  }

  lemma OneKeyMore(clients: map<nat, Client>, c: nat, client: Client)
    requires c !in clients
    ensures |clients[c := client]| == |clients| + 1
  {
    assert clients[c := client].Keys == clients.Keys + {c};
    KeysCount(clients);
    KeysCount(clients[c := client]);
  }

  lemma OneKeyLess(clients: map<nat, Client>, c: nat)
    ensures |clients - {c}| == |clients| - if c in clients then 1 else 0
  {
    assert (clients - {c}).Keys == clients.Keys - {c};
    KeysCount(clients);
    KeysCount(clients - {c});
  }

  lemma KeysCount(m: map<nat, Client>)
    ensures |m| == |m.Keys|
  {}

  lemma {:induction false} RunKeepsHubOk(h: Hub, ops: seq<Op>, size: nat)
    requires HubOk(h, size)
    ensures HubOk(Exec(h, ops, size), size)
  {
    if ops != [] {
      RunKeepsHubOk(h, ops[..|ops| - 1], size);
      StepKeepsHubOk(Exec(h, ops[..|ops| - 1], size), ops[|ops| - 1], size);
    }
  }

  lemma FreshIsOk(size: nat)
    ensures HubOk(FRESH, size)
  {
    forall v ensures VaultOk(FRESH, v, size) {
      assert Of([], v) == [];
    }
  }

  // In every reachable state.
  lemma ReachableHubOk(ops: seq<Op>, size: nat)
    ensures HubOk(Exec(FRESH, ops, size), size)
  {
    FreshIsOk(size);
    RunKeepsHubOk(FRESH, ops, size);
  }

  // ---------------------------------------------------------- reconnection

  function Evicted(h: Hub, v: string, size: nat): seq<Event> {
    var s := Of(h.history, v);
    if |s| > size then s[..|s| - size] else []
  }

  // What a step sends to a client of vault v that stays connected.
  lemma OneStepSends(h: Hub, op: Op, size: nat, c: nat, v: string)
    requires c in h.clients && c < h.nextClient && h.clients[c].only == Some([v]) && op != Disconnect(c)
    ensures var n := Step(h, op, size);
            && c in n.clients && c < n.nextClient && n.clients[c].only == Some([v])
            && Of(h.history, v) <= Of(n.history, v)
            && n.clients[c].received == h.clients[c].received + Of(n.history, v)[|Of(h.history, v)|..]
  {
    StepOnVault(h, op, size, v);
    var n := Step(h, op, size);
    if op.Broadcast? {
      SentTo(h, op.vault, op.payload, size, c);
    }
    if !(op.Broadcast? && op.vault == v) {
      assert Of(n.history, v)[|Of(h.history, v)|..] == [];
      assert n.clients[c].received == h.clients[c].received;
    }
  }

  lemma SentTo(h: Hub, u: string, payload: string, size: nat, c: nat)
    requires c in h.clients
    ensures var n, e := Step(h, Broadcast(u, payload), size), Event(Counter(h, u) + 1, u, payload);
            c in n.clients && n.clients[c] == if Wants(h.clients[c], u) then h.clients[c].(received := h.clients[c].received + [e])
                                              else h.clients[c]
  {}

  lemma ReplayOfOne(h: Hub, k: int, v: string, size: nat)
    ensures var n := Step(h, Connect(Some(k), Some([v])), size);
            && h.nextClient in n.clients && n.nextClient == h.nextClient + 1 && n.history == h.history
            && n.clients[h.nextClient] == Client(Some([v]), After(Buffer(h, v), k))
  {
    assert [v][..0] == [];
    assert Missed(h.buffers, [v], k) == Missed(h.buffers, [], k) + After(Buffer(h, v), k);
  }

  // Client c of vault v has received the replay from `h` for id k, then every
  // live event.
  ghost predicate Streaming(h: Hub, n: Hub, c: nat, k: int, v: string) {
    && c in n.clients && c < n.nextClient && n.clients[c].only == Some([v])
    && Of(h.history, v) <= Of(n.history, v)
    && n.clients[c].received == After(Buffer(h, v), k) + Of(n.history, v)[|Of(h.history, v)|..]
  }

  lemma StepKeepsStreaming(h: Hub, mid: Hub, op: Op, size: nat, c: nat, k: int, v: string)
    requires Streaming(h, mid, c, k, v) && op != Disconnect(c)
    ensures Streaming(h, Step(mid, op, size), c, k, v)
  {
    OneStepSends(mid, op, size, c, v);
    TailsJoin(Of(h.history, v), Of(mid.history, v), Of(Step(mid, op, size).history, v));
  }

  lemma {:induction false} ReceivedIsReplayThenLive(h: Hub, k: int, v: string, ops: seq<Op>, size: nat)
    requires Disconnect(h.nextClient) !in ops
    ensures Streaming(h, Exec(Step(h, Connect(Some(k), Some([v])), size), ops, size), h.nextClient, k, v)
  {
    var start := Step(h, Connect(Some(k), Some([v])), size);
    if ops == [] {
      ReplayOfOne(h, k, v, size);
    } else {
      var init, op := ops[..|ops| - 1], ops[|ops| - 1];
      assert forall x :: x in init ==> x in ops;
      ReceivedIsReplayThenLive(h, k, v, init, size);
      StepKeepsStreaming(h, Exec(start, init, size), op, size, h.nextClient, k, v);
    }
  }

  lemma TailsJoin(a: seq<Event>, b: seq<Event>, c: seq<Event>)
    requires a <= b <= c
    ensures a <= c && b[|a|..] + c[|b|..] == c[|a|..]
  {}

  lemma {:induction false} AfterConcat(a: seq<Event>, b: seq<Event>, k: int)
    ensures After(a + b, k) == After(a, k) + After(b, k)
  {
    if b == [] {
      assert a + b == a;
    } else {
      AfterConcat(a, b[..|b| - 1], k);
      assert (a + b)[..|a + b| - 1] == a + b[..|b| - 1];
    }
  }

  lemma {:induction false} AfterShorter(s: seq<Event>, k: int)
    ensures |After(s, k)| <= |s| && (After(s, k) != s ==> |After(s, k)| < |s|)
  {
    if s != [] {
      var init, last := s[..|s| - 1], s[|s| - 1];
      AfterShorter(init, k);
      assert s == init + [last];
    }
  }

  lemma {:induction false} AfterNone(s: seq<Event>, k: int)
    ensures After(s, k) == [] <==> forall e :: e in s ==> e.id <= k
  {
    if s != [] {
      var init, last := s[..|s| - 1], s[|s| - 1];
      AfterNone(init, k);
      OneElementMore(init, last);
      assert s == init + [last];
    }
  }

  // After keeps everything exactly when nothing is at or below k.
  lemma {:induction false} AfterAll(s: seq<Event>, k: int)
    ensures After(s, k) == s <==> forall e :: e in s ==> e.id > k
    ensures After(s, k) == [] <==> forall e :: e in s ==> e.id <= k
  {
    AfterNone(s, k);
    if s != [] {
      var init, last := s[..|s| - 1], s[|s| - 1];
      AfterAll(init, k);
      AfterShorter(init, k);
      OneElementMore(init, last);
      assert s == init + [last];
    }
  }

  lemma OneElementMore(init: seq<Event>, last: Event)
    ensures forall e :: e in init + [last] <==> e in init || e == last
  {}

  lemma ReplayThenLiveIsAllIff(evicted: seq<Event>, buffer: seq<Event>, live: seq<Event>, k: int)
    requires Increasing(evicted + buffer + live)
    ensures After(buffer, k) + live == After(evicted + buffer + live, k) <==>
            (forall e :: e in evicted ==> e.id <= k) && (forall e :: e in live ==> e.id > k)
  {
    ReplayForSeenIff(evicted, buffer, live, k, k);
  }

  lemma GaplessIff(h: Hub, n: Hub, received: seq<Event>, k: int, v: string, size: nat)
    requires VaultOk(h, v, size) && VaultOk(n, v, size) && Of(h.history, v) <= Of(n.history, v)
    requires received == After(Buffer(h, v), k) + Of(n.history, v)[|Of(h.history, v)|..]
    ensures received == After(Of(n.history, v), k) <==>
            && (forall e :: e in Evicted(h, v, size) ==> e.id <= k)
            && (forall e :: e in Of(n.history, v)[|Of(h.history, v)|..] ==> e.id > k)
  {
    var past, now := Of(h.history, v), Of(n.history, v);
    assert past == Evicted(h, v, size) + Buffer(h, v);
    assert now == Evicted(h, v, size) + Buffer(h, v) + now[|past|..];
    ReplayThenLiveIsAllIff(Evicted(h, v, size), Buffer(h, v), now[|past|..], k);
  }

  // For a client of one vault that last saw id k: replay and live events
  // together are the vault's events above k, in order and each once, exactly
  // when no evicted event is above k and no live one is at or below it.
  lemma ReconnectIsGaplessIff(h: Hub, k: int, v: string, ops: seq<Op>, size: nat)
    requires HubOk(h, size)
    requires Disconnect(h.nextClient) !in ops
    ensures var n := Exec(Step(h, Connect(Some(k), Some([v])), size), ops, size);
            h.nextClient in n.clients && Of(h.history, v) <= Of(n.history, v)
            && (n.clients[h.nextClient].received == After(Of(n.history, v), k) <==>
                && (forall e :: e in Evicted(h, v, size) ==> e.id <= k)
                && (forall e :: e in Of(n.history, v)[|Of(h.history, v)|..] ==> e.id > k))
  {
    ReceivedIsReplayThenLive(h, k, v, ops, size);
    var start := Step(h, Connect(Some(k), Some([v])), size);
    StepKeepsHubOk(h, Connect(Some(k), Some([v])), size);
    RunKeepsHubOk(start, ops, size);
    var n := Exec(start, ops, size);
    GaplessIff(h, n, n.clients[h.nextClient].received, k, v, size);
  }

  // It is enough that k lies between the last evicted id and the counter,
  // also when warm-up raises the counter between broadcasts.
  lemma ReconnectInWindowIsGapless(h: Hub, k: int, v: string, ops: seq<Op>, size: nat)
    requires HubOk(h, size)
    requires Disconnect(h.nextClient) !in ops
    requires k <= Counter(h, v) && forall e :: e in Evicted(h, v, size) ==> e.id <= k
    ensures var n := Exec(Step(h, Connect(Some(k), Some([v])), size), ops, size);
            h.nextClient in n.clients && n.clients[h.nextClient].received == After(Of(n.history, v), k)
  {
    ReconnectIsGaplessIff(h, k, v, ops, size);
    LiveAboveCounter(h, Step(h, Connect(Some(k), Some([v])), size), v, ops, size);
  }

  lemma {:induction false} LiveAboveCounter(h: Hub, start: Hub, v: string, ops: seq<Op>, size: nat)
    requires start.history == h.history && start.counters == h.counters
    ensures var n := Exec(start, ops, size);
            && Counter(n, v) >= Counter(h, v)
            && Of(h.history, v) <= Of(n.history, v)
            && forall e :: e in Of(n.history, v)[|Of(h.history, v)|..] ==> e.id > Counter(h, v)
  {
    if ops != [] {
      var op := ops[|ops| - 1];
      LiveAboveCounter(h, start, v, ops[..|ops| - 1], size);
      if op.Broadcast? {
        var mid := Exec(start, ops[..|ops| - 1], size);
        var e := Event(Counter(mid, op.vault) + 1, op.vault, op.payload);
        OfSnoc(mid.history, e, v);
        if op.vault == v {
          assert (Of(mid.history, v) + [e])[|Of(h.history, v)|..] == Of(mid.history, v)[|Of(h.history, v)|..] + [e];
        }
      }
    }
  }

  // -------------------------------------------------------- several vaults

  lemma {:induction false} OfConcat(a: seq<Event>, b: seq<Event>, v: string)
    ensures Of(a + b, v) == Of(a, v) + Of(b, v)
  {
    if b == [] {
      assert a + b == a;
    } else {
      OfConcat(a, b[..|b| - 1], v);
      assert (a + b)[..|a + b| - 1] == a + b[..|b| - 1];
    }
  }

  ghost predicate AllOf(s: seq<Event>, v: string) {
    forall e :: e in s ==> e.vault == v
  }

  lemma {:induction false} OfAllOf(s: seq<Event>, u: string, v: string)
    requires AllOf(s, u)
    ensures Of(s, v) == if u == v then s else []
  {
    if s != [] {
      var init, last := s[..|s| - 1], s[|s| - 1];
      assert s == init + [last] && last in s && forall e :: e in init ==> e in s;
      OfAllOf(init, u, v);
    }
  }

  lemma {:induction false} OfIsAllOf(history: seq<Event>, v: string)
    ensures AllOf(Of(history, v), v)
  {
    if history != [] {
      OfIsAllOf(history[..|history| - 1], v);
    }
  }

  lemma {:induction false} AfterMembers(s: seq<Event>, k: int)
    ensures forall e :: e in After(s, k) <==> e in s && e.id > k
  {
    if s != [] {
      AfterMembers(s[..|s| - 1], k);
      assert s == s[..|s| - 1] + [s[|s| - 1]];
    }
  }

  lemma BufferIsOfVault(h: Hub, v: string, size: nat)
    requires VaultOk(h, v, size)
    ensures AllOf(Buffer(h, v), v)
  {
    OfIsAllOf(h.history, v);
  }

  // A replay over several vaults holds, of each, what its own buffer has.
  lemma {:induction false} MissedOf(h: Hub, vs: seq<string>, k: int, v: string, size: nat)
    requires forall u :: VaultOk(h, u, size)
    requires NoDuplicates(vs)
    ensures Of(Missed(h.buffers, vs, k), v) == if v in vs then After(Buffer(h, v), k) else []
  {
    if vs == [] {
      assert Of([], v) == [];
    } else {
      var init, u := vs[..|vs| - 1], vs[|vs| - 1];
      assert vs == init + [u] && u !in init;
      assert forall i, j :: 0 <= i < j < |init| ==> vs[i] == init[i] && vs[j] == init[j];
      MissedOf(h, init, k, v, size);
      OfConcat(Missed(h.buffers, init, k), After(Buffer(h, u), k), v);
      MissedOfOne(h, u, k, v, size);
    }
  }

  lemma MissedOfOne(h: Hub, u: string, k: int, v: string, size: nat)
    requires VaultOk(h, u, size)
    ensures Of(After(Buffer(h, u), k), v) == if u == v then After(Buffer(h, u), k) else []
  {
    BufferIsOfVault(h, u, size);
    AfterMembers(Buffer(h, u), k);
    OfAllOf(After(Buffer(h, u), k), u, v);
  }

  // ------------------------------------------------- any filter, or none

  // The vaults a client gets: those of its filter, and all without one.
  predicate Chosen(only: Option<seq<string>>, v: string) {
    only.Some? && only.value != [] ==> v in only.value
  }

  // `order` lists exactly the vaults that have a buffer, each once.
  ghost predicate OrderOk(h: Hub) {
    NoDuplicates(h.order) && forall v :: v in h.order <==> v in h.buffers
  }

  lemma StepKeepsOrderOk(h: Hub, op: Op, size: nat)
    requires OrderOk(h)
    ensures OrderOk(Step(h, op, size))
  {}

  lemma {:induction false} RunKeepsOrderOk(h: Hub, ops: seq<Op>, size: nat)
    requires OrderOk(h)
    ensures OrderOk(Exec(h, ops, size))
  {
    if ops != [] {
      RunKeepsOrderOk(h, ops[..|ops| - 1], size);
      StepKeepsOrderOk(Exec(h, ops[..|ops| - 1], size), ops[|ops| - 1], size);
    }
  }

  // In every reachable state.
  lemma ReachableOrderOk(ops: seq<Op>, size: nat)
    ensures OrderOk(Exec(FRESH, ops, size))
  {
    RunKeepsOrderOk(FRESH, ops, size);
  }

  // What is replayed of vault v; a client without an id is new.
  function Replay(h: Hub, since: Option<int>, v: string): seq<Event> {
    if since.None? then [] else After(Buffer(h, v), since.value)
  }

  // Client c has received, of each vault it gets, the replay from `h` and then
  // every live event, and nothing of the others.
  ghost predicate Following(h: Hub, n: Hub, c: nat, since: Option<int>, only: Option<seq<string>>) {
    && c in n.clients && c < n.nextClient && n.clients[c].only == Normalised(only)
    && forall v :: Of(h.history, v) <= Of(n.history, v)
         && Of(n.clients[c].received, v)
            == if Chosen(only, v) then Replay(h, since, v) + Of(n.history, v)[|Of(h.history, v)|..] else []
  }

  lemma StepKeepsFollowing(h: Hub, mid: Hub, op: Op, size: nat, c: nat, since: Option<int>, only: Option<seq<string>>)
    requires Following(h, mid, c, since, only) && op != Disconnect(c)
    ensures Following(h, Step(mid, op, size), c, since, only)
  {
    var n := Step(mid, op, size);
    forall v
      ensures Of(h.history, v) <= Of(n.history, v)
      ensures Of(n.clients[c].received, v)
           == if Chosen(only, v) then Replay(h, since, v) + Of(n.history, v)[|Of(h.history, v)|..] else []
    {
      StepOnVault(mid, op, size, v);
      ReceivesStep(mid, op, size, c, v, only);
      TailsJoin(Of(h.history, v), Of(mid.history, v), Of(n.history, v));
    }
    ReceivesStep(mid, op, size, c, "", only);
  }

  lemma ReceivesStep(h: Hub, op: Op, size: nat, c: nat, v: string, only: Option<seq<string>>)
    requires c in h.clients && c < h.nextClient && h.clients[c].only == Normalised(only) && op != Disconnect(c)
    ensures var n := Step(h, op, size);
            && c in n.clients && n.clients[c].only == Normalised(only) && c < n.nextClient
            && Of(h.history, v) <= Of(n.history, v)
            && Of(n.clients[c].received, v)
               == Of(h.clients[c].received, v) + if Chosen(only, v) then Of(n.history, v)[|Of(h.history, v)|..] else []
  {
    if op.Broadcast? {
      var e := Event(Counter(h, op.vault) + 1, op.vault, op.payload);
      OfSnoc(h.history, e, v);
      OfSnoc(h.clients[c].received, e, v);
    }
  }

  ghost predicate NoVaultTwice(only: Option<seq<string>>) { only.Some? ==> NoDuplicates(only.value) }

  // What is written at once to a client that connects.
  lemma ReplayedAtOnce(h: Hub, since: Option<int>, only: Option<seq<string>>, size: nat, v: string)
    requires HubOk(h, size) && OrderOk(h) && NoVaultTwice(only)
    ensures var n := Step(h, Connect(since, only), size);
            h.nextClient in n.clients
            && Of(n.clients[h.nextClient].received, v) == if Chosen(only, v) then Replay(h, since, v) else []
  {
    if since.Some? {
      var vs := if Normalised(only).Some? then only.value else h.order;
      MissedOf(h, vs, since.value, v, size);
      if v !in h.buffers {
        assert After(Buffer(h, v), since.value) == [];
      }
    } else {
      assert Of([], v) == [];
    }
  }

  // Whatever its filter, or without one: a client that stays has received of
  // each vault it gets its replay followed by the live events.
  lemma {:induction false} ReplayThenLive(h: Hub, since: Option<int>, only: Option<seq<string>>, ops: seq<Op>, size: nat)
    requires HubOk(h, size) && OrderOk(h) && NoVaultTwice(only) && Disconnect(h.nextClient) !in ops
    ensures Following(h, Exec(Step(h, Connect(since, only), size), ops, size), h.nextClient, since, only)
  {
    var start := Step(h, Connect(since, only), size);
    if ops == [] {
      forall v ensures Of(start.clients[h.nextClient].received, v) == if Chosen(only, v) then Replay(h, since, v) else [] {
        ReplayedAtOnce(h, since, only, size, v);
      }
    } else {
      var init, op := ops[..|ops| - 1], ops[|ops| - 1];
      assert forall x :: x in init ==> x in ops;
      ReplayThenLive(h, since, only, init, size);
      StepKeepsFollowing(h, Exec(start, init, size), op, size, h.nextClient, since, only);
    }
  }

  // Once the counter of a vault has been warmed up to a persisted id, every
  // later event of the vault has a larger one.
  lemma {:induction false} WarmedIdsAreNew(h: Hub, v: string, persisted: nat, ops: seq<Op>, size: nat)
    ensures var start := Step(h, Warm(v, Some(persisted)), size);
            var n := Exec(start, ops, size);
            && Counter(n, v) >= persisted && Of(h.history, v) <= Of(n.history, v)
            && forall e :: e in Of(n.history, v)[|Of(h.history, v)|..] ==> e.id > persisted
  {
    var start := Step(h, Warm(v, Some(persisted)), size);
    if ops != [] {
      var init, op := ops[..|ops| - 1], ops[|ops| - 1];
      var mid := Exec(start, init, size);
      WarmedIdsAreNew(h, v, persisted, init, size);
      StepOnVault(mid, op, size, v);
      var past := |Of(h.history, v)|;
      if op.Broadcast? && op.vault == v {
        var e := Event(Counter(mid, v) + 1, v, op.payload);
        assert (Of(mid.history, v) + [e])[past..] == Of(mid.history, v)[past..] + [e];
      }
    }
  }

  // A client that disconnects is gone for good: its number is not given again.
  lemma {:induction false} GoneStaysGone(h: Hub, c: nat, ops: seq<Op>, size: nat)
    requires HubOk(h, size) && c in h.clients
    ensures c !in Exec(Step(h, Disconnect(c), size), ops, size).clients
    ensures c < Exec(Step(h, Disconnect(c), size), ops, size).nextClient
  {
    if ops != [] {
      GoneStaysGone(h, c, ops[..|ops| - 1], size);
    }
  }

  // Reconnecting with id k serves a client that had seen v up to id `seen`:
  // nothing above `seen` was evicted, no buffered event lies between the two
  // ids on either side, and the live ones are above `seen`.
  ghost predicate Serves(h: Hub, n: Hub, v: string, k: int, seen: int, size: nat) {
    && (forall e :: e in Evicted(h, v, size) ==> e.id <= seen)
    && (forall e :: e in Buffer(h, v) ==> (e.id > k <==> e.id > seen))
    && (Of(h.history, v) <= Of(n.history, v) && forall e :: e in Of(n.history, v)[|Of(h.history, v)|..] ==> e.id > seen)
  }

  lemma {:induction false} AfterAgrees(s: seq<Event>, j: int, k: int)
    requires forall e :: e in s ==> (e.id > j <==> e.id > k)
    ensures After(s, j) == After(s, k)
  {
    if s != [] {
      assert s[|s| - 1] in s && forall e :: e in s[..|s| - 1] ==> e in s;
      AfterAgrees(s[..|s| - 1], j, k);
    }
  }

  lemma ReplayForSeenIff(evicted: seq<Event>, buffer: seq<Event>, live: seq<Event>, k: int, seen: int)
    requires Increasing(evicted + buffer + live)
    ensures After(buffer, k) + live == After(evicted + buffer + live, seen) <==>
            && (forall e :: e in evicted ==> e.id <= seen)
            && (forall e :: e in buffer ==> (e.id > k <==> e.id > seen))
            && (forall e :: e in live ==> e.id > seen)
  {
    var all := evicted + buffer + live;
    AfterConcat(evicted + buffer, live, seen);
    AfterConcat(evicted, buffer, seen);
    AfterAll(evicted, seen);
    AfterAll(live, seen);
    if After(buffer, k) + live == After(all, seen) {
      SameMembers(evicted, buffer, live, k, seen);
    } else if forall e :: e in buffer ==> (e.id > k <==> e.id > seen) {
      AfterAgrees(buffer, k, seen);
    }
  }

  // Ids are distinct, so what is sent decides for each event where it lies.
  lemma SameMembers(evicted: seq<Event>, buffer: seq<Event>, live: seq<Event>, k: int, seen: int)
    requires Increasing(evicted + buffer + live)
    requires After(buffer, k) + live == After(evicted + buffer + live, seen)
    ensures forall e :: e in evicted ==> e.id <= seen
    ensures forall e :: e in buffer ==> (e.id > k <==> e.id > seen)
    ensures forall e :: e in live ==> e.id > seen
  {
    var all, sent := evicted + buffer + live, After(buffer, k) + live;
    AfterMembers(all, seen);
    AfterMembers(buffer, k);
    Apart(evicted, buffer, live);
    forall e | e in all ensures e.id > seen <==> (e in buffer && e.id > k) || e in live {
      assert e in sent <==> e in After(buffer, k) || e in live;
    }
  }

  lemma Apart(evicted: seq<Event>, buffer: seq<Event>, live: seq<Event>)
    requires Increasing(evicted + buffer + live)
    ensures forall e :: e in evicted ==> e !in buffer && e !in live
    ensures forall e :: e in buffer ==> e !in live
  {
    var all := evicted + buffer + live;
    forall i, j | 0 <= i < |evicted| && 0 <= j < |buffer| ensures evicted[i] != buffer[j] {
      assert all[i] == evicted[i] && all[|evicted| + j] == buffer[j];
    }
    forall i, j | 0 <= i < |evicted| && 0 <= j < |live| ensures evicted[i] != live[j] {
      assert all[i] == evicted[i] && all[|evicted| + |buffer| + j] == live[j];
    }
    forall i, j | 0 <= i < |buffer| && 0 <= j < |live| ensures buffer[i] != live[j] {
      assert all[|evicted| + i] == buffer[i] && all[|evicted| + |buffer| + j] == live[j];
    }
  }

  lemma ServesIff(h: Hub, n: Hub, received: seq<Event>, k: int, v: string, seen: int, size: nat)
    requires VaultOk(h, v, size) && VaultOk(n, v, size) && Of(h.history, v) <= Of(n.history, v)
    requires received == After(Buffer(h, v), k) + Of(n.history, v)[|Of(h.history, v)|..]
    ensures received == After(Of(n.history, v), seen) <==> Serves(h, n, v, k, seen, size)
  {
    var past, now := Of(h.history, v), Of(n.history, v);
    assert past == Evicted(h, v, size) + Buffer(h, v);
    assert now == Evicted(h, v, size) + Buffer(h, v) + now[|past|..];
    ReplayForSeenIff(Evicted(h, v, size), Buffer(h, v), now[|past|..], k, seen);
  }

  // A client of any set of vaults, or of all, that had seen each vault v up to
  // seen(v) and reconnects with one id k gets of every vault exactly the events
  // above seen(v), in order and each once, exactly when k serves each of them.
  lemma ReconnectServesIff(h: Hub, k: int, only: Option<seq<string>>, seen: string -> int, ops: seq<Op>, size: nat)
    requires HubOk(h, size) && OrderOk(h) && NoVaultTwice(only) && Disconnect(h.nextClient) !in ops
    ensures var n := Exec(Step(h, Connect(Some(k), only), size), ops, size);
            h.nextClient in n.clients
            && ((forall v :: Chosen(only, v) ==> Of(n.clients[h.nextClient].received, v) == After(Of(n.history, v), seen(v)))
                <==> forall v :: Chosen(only, v) ==> Serves(h, n, v, k, seen(v), size))
            && forall v :: !Chosen(only, v) ==> Of(n.clients[h.nextClient].received, v) == []
  {
    var start := Step(h, Connect(Some(k), only), size);
    ReplayThenLive(h, Some(k), only, ops, size);
    StepKeepsHubOk(h, Connect(Some(k), only), size);
    RunKeepsHubOk(start, ops, size);
    var n := Exec(start, ops, size);
    forall v | Chosen(only, v)
      ensures Of(n.clients[h.nextClient].received, v) == After(Of(n.history, v), seen(v)) <==> Serves(h, n, v, k, seen(v), size)
    {
      ServesIff(h, n, Of(n.clients[h.nextClient].received, v), k, v, seen(v), size);
    }
  }

  // In particular without a filter, or with an empty one, in every hub that a
  // fresh process reaches.
  lemma UnfilteredReconnectServesIff(before: seq<Op>, k: int, only: Option<seq<string>>, seen: string -> int, ops: seq<Op>, size: nat)
    requires only.None? || only.value == []
    requires Disconnect(Exec(FRESH, before, size).nextClient) !in ops
    ensures var h := Exec(FRESH, before, size);
            var n := Exec(Step(h, Connect(Some(k), only), size), ops, size);
            h.nextClient in n.clients
            && ((forall v :: Of(n.clients[h.nextClient].received, v) == After(Of(n.history, v), seen(v)))
                <==> forall v :: Serves(h, n, v, k, seen(v), size))
  {
    ReachableHubOk(before, size);
    ReachableOrderOk(before, size);
    ReconnectServesIff(Exec(FRESH, before, size), k, only, seen, ops, size);
    assert forall v :: Chosen(only, v);
  }

  // A client of a and b sees a's first event, disconnects, b has an event, and
  // the client reconnects with the id it saw.
  function ReconnectRun(a: string, b: string, p: string, q: string): seq<Op> {
    [Connect(None, Some([a, b])), Broadcast(a, p), Disconnect(1), Broadcast(b, q), Connect(Some(1), Some([a, b]))]
  }

  lemma ExecSnoc(h: Hub, ops: seq<Op>, op: Op, size: nat)
    ensures Exec(h, ops + [op], size) == Step(Exec(h, ops, size), op, size)
  {
    assert (ops + [op])[..|ops + [op]| - 1] == ops;
  }

  lemma ExecTwo(h: Hub, x: Op, y: Op, size: nat)
    ensures Exec(h, [x, y], size) == Step(Step(h, x, size), y, size)
  {
    ExecSnoc(h, [], x, size);
    ExecSnoc(h, [x], y, size);
    assert [] + [x] == [x] && [x] + [y] == [x, y];
  }

  // Its first connection has received a's event alone.
  lemma FirstConnection(a: string, b: string, p: string, q: string, size: nat)
    requires a != b && size > 0
    ensures var h := Exec(FRESH, ReconnectRun(a, b, p, q)[..2], size);
            1 in h.clients && h.clients[1].received == [Event(1, a, p)]
    ensures var h := Exec(FRESH, ReconnectRun(a, b, p, q)[..4], size);
            h.buffers == map[a := [Event(1, a, p)], b := [Event(1, b, q)]] && h.nextClient == 2
            && h.history == [Event(1, a, p), Event(1, b, q)]
  {
    var ops := ReconnectRun(a, b, p, q);
    assert ops[..2] == [Connect(None, Some([a, b])), Broadcast(a, p)];
    ExecTwo(FRESH, Connect(None, Some([a, b])), Broadcast(a, p), size);
    var h1 := Step(FRESH, Connect(None, Some([a, b])), size);
    var h2 := Exec(FRESH, ops[..2], size);
    FirstBroadcast(h1, a, p, size);
    assert h1.clients[1] == Client(Some([a, b]), []) && [] + [Event(1, a, p)] == [Event(1, a, p)];
    assert ops[..3] == ops[..2] + [Disconnect(1)] && ops[..4] == ops[..3] + [Broadcast(b, q)];
    ExecSnoc(FRESH, ops[..2], Disconnect(1), size);
    ExecSnoc(FRESH, ops[..3], Broadcast(b, q), size);
    FirstBroadcast(Exec(FRESH, ops[..3], size), b, q, size);
  }

  lemma FirstBroadcast(h: Hub, v: string, p: string, size: nat)
    requires v !in h.buffers && v !in h.counters && size > 0
    ensures var n := Step(h, Broadcast(v, p), size);
            n.buffers == h.buffers[v := [Event(1, v, p)]] && n.counters == h.counters[v := 1]
            && n.history == h.history + [Event(1, v, p)]
  {
    assert Buffer(h, v) + [Event(1, v, p)] == [Event(1, v, p)];
  }

  // Ids are per vault: b's event is in the history, neither connection ever
  // received it, and the client is connected.
  lemma TwoVaultsReconnectLosesEvent(a: string, b: string, p: string, q: string, size: nat)
    requires a != b && size > 0
    ensures var first := Exec(FRESH, ReconnectRun(a, b, p, q)[..2], size);
            var h := Exec(FRESH, ReconnectRun(a, b, p, q), size);
            Event(1, b, q) in h.history
            && 1 in first.clients && first.clients[1].received == [Event(1, a, p)]
            && 2 in h.clients && h.clients[2].received == []
  {
    var ops := ReconnectRun(a, b, p, q);
    FirstConnection(a, b, p, q, size);
    var h := Exec(FRESH, ops[..4], size);
    assert ops == ops[..4] + [Connect(Some(1), Some([a, b]))];
    ExecSnoc(FRESH, ops[..4], Connect(Some(1), Some([a, b])), size);
    MissedOfTwo(h.buffers, a, b, 1);
    AfterAll([Event(1, a, p)], 1);
    AfterAll([Event(1, b, q)], 1);
    assert Event(1, b, q) in h.history;
  }

  lemma MissedOfTwo(buffers: map<string, seq<Event>>, a: string, b: string, k: int)
    ensures Missed(buffers, [a, b], k)
         == After(if a in buffers then buffers[a] else [], k) + After(if b in buffers then buffers[b] else [], k)
  {
    assert [a, b][..1] == [a] && [a][..0] == [];
    assert Missed(buffers, [a], k) == Missed(buffers, [], k) + After(if a in buffers then buffers[a] else [], k);
  }
}
