/** What the rate limiter keeps over whole runs: the connection limits, the bracket of
    WebSocketMiddleware, and the auto-block. */
module RateLimiterRuns {
  import opened RateLimiting

  datatype Op =
    | Request(id: string, ip: string, now: int, globalTokens: bool, clientTokens: bool)
    | Message(id: string, now: int, messageTokens: bool)
    | Connect(id: string, ip: string, now: int)
    | Disconnect(id: string, now: int)
    | Block(id: string, now: int, duration: int)
    | Unblock(id: string, now: int)
    | Clean(now: int)

  ghost function Apply(c: Config, m: Clients, op: Op): Result {
    match op
    case Request(id, ip, now, globalTokens, clientTokens) =>
      RequestResult(c, m, id, ip, now, globalTokens, clientTokens)
    case Message(id, now, messageTokens) => MessageResult(m, id, now, messageTokens)
    case Connect(id, ip, now) => ConnectResult(c, m, id, ip, now)
    case Disconnect(id, now) => Result(true, Removed(m, id, now))
    case Block(id, now, duration) => Result(true, Blocked(m, id, now, duration))
    case Unblock(id, now) => Result(true, Unblocked(m, id))
    case Clean(now) => Result(true, Cleaned(c, m, now))
  }

  ghost function After(c: Config, m: Clients, ops: seq<Op>): Clients
    decreases |ops|
  {
    if ops == [] then m else After(c, Apply(c, m, ops[0]).clients, ops[1..])
  }

  function AtLeastZero(n: int): int {
    if n < 0 then 0 else n
  }

  // ---------------------------------------------------------------------------------------
  // Connection limits.

  ghost predicate CountsNonNegative(m: Clients) {
    forall id :: id in m ==> m[id].connections >= 0
  }

  lemma OpTotals(c: Config, m: Clients, op: Op)
    requires CountsNonNegative(m)
    ensures CountsNonNegative(Apply(c, m, op).clients)
    ensures !op.Connect? ==> Total(Apply(c, m, op).clients) <= Total(m)
    ensures op.Connect? ==>
      Total(Apply(c, m, op).clients) == Total(m) + if Apply(c, m, op).allowed then 1 else 0
    ensures !op.Connect? && !op.Disconnect? ==>
      && Total(Apply(c, m, op).clients) == Total(m)
      && forall id :: ConnectionsOf(Apply(c, m, op).clients, id) == ConnectionsOf(m, id)
  {
    var m' := Apply(c, m, op).clients;
    if op.Clean? {
      CleanupKeepsTotals(c, m, op.now);
    } else if op.id in m' {
      TotalsUpdate(m, op.id, m'[op.id]);
      assert m' == m || m' == m[op.id := m'[op.id]];
    }
  }

  /** No run ever holds more connections than the global limit. */
  lemma {:induction false} TotalWithinLimit(c: Config, m: Clients, ops: seq<Op>)
    requires CountsNonNegative(m) && Total(m) <= AtLeastZero(c.maxConnections)
    ensures Total(After(c, m, ops)) <= AtLeastZero(c.maxConnections)
    decreases |ops|
  {
    if ops != [] {
      OpTotals(c, m, ops[0]);
      TotalWithinLimit(c, Apply(c, m, ops[0]).clients, ops[1..]);
    }
  }

  ghost predicate IPsWithinLimit(c: Config, m: Clients) {
    forall ip :: TotalForIP(m, ip) <= AtLeastZero(c.maxConnectionsPerIP)
  }

  /** One connection keeps every address within its limit exactly when it is refused, or is
      counted against the address that was checked, or the address it is counted against has
      room of its own: an existing client is counted against the address it first came from. */
  lemma PerIPKeptIff(c: Config, m: Clients, id: string, ip: string, now: int)
    requires CountsNonNegative(m) && IPsWithinLimit(c, m)
    ensures IPsWithinLimit(c, ConnectResult(c, m, id, ip, now).clients) <==>
      || !HasRoom(c, m, ip)
      || id !in m
      || m[id].ip == ip
      || TotalForIP(m, m[id].ip) < AtLeastZero(c.maxConnectionsPerIP)
  {
    var r := ConnectResult(c, m, id, ip, now);
    if r.allowed {
      var client := r.clients[id];
      assert r.clients == m[id := client];
      TotalsUpdate(m, id, client);
      assert TotalForIP(r.clients, client.ip) == TotalForIP(m, client.ip) + 1;
      forall ip' | ip' != client.ip ensures TotalForIP(r.clients, ip') <= AtLeastZero(c.maxConnectionsPerIP) {
        assert TotalForIP(r.clients, ip') == TotalForIP(m, ip');
      }
    }
  }

  /** With two addresses and a limit of one, a client seen at the first address takes it over
      the limit by connecting again from the second. */
  lemma PerIPLimitCanBeExceeded()
    ensures var c := Config(10, 1, 0, 0, 0);
            var m := After(c, map[], [Connect("a", "1", 0), Connect("a", "2", 0)]);
            TotalForIP(m, "1") == 2
  {
    var c := Config(10, 1, 0, 0, 0);
    var ops := [Connect("a", "1", 0), Connect("a", "2", 0)];
    assert ops[1..] == [ops[1]] && ops[1..][1..] == [];
    assert AllConnections(map[]) == map[];
    forall ip ensures TotalForIP(map[], ip) == 0 {
      assert ConnectionsFrom(map[], ip) == map[];
    }
    var m1 := Apply(c, map[], ops[0]).clients;
    TotalsUpdate(map[], "a", m1["a"]);
    var m2 := Apply(c, m1, ops[1]).clients;
    TotalsUpdate(m1, "a", m2["a"]);
    assert After(c, m1, ops[1..]) == After(c, m2, []);
  }

  predicate Presents(op: Op) {
    op.Request? || op.Connect?
  }

  /** Every client that presents an address presents the one it is known by. */
  ghost predicate OneAddressEach(m: Clients, ops: seq<Op>) {
    && (forall i, j ::
          0 <= i < |ops| && 0 <= j < |ops| && Presents(ops[i]) && Presents(ops[j]) && ops[i].id == ops[j].id ==>
          ops[i].ip == ops[j].ip)
    && (forall i :: 0 <= i < |ops| && Presents(ops[i]) && ops[i].id in m ==> m[ops[i].id].ip == ops[i].ip)
  }

  lemma OpKeepsAddresses(c: Config, m: Clients, op: Op)
    ensures var m' := Apply(c, m, op).clients;
            forall id :: id in m' ==>
              m'[id].ip == if id in m then m[id].ip else if Presents(op) && op.id == id then op.ip else m'[id].ip
    ensures var m' := Apply(c, m, op).clients;
            forall id :: id in m' && id !in m ==> Presents(op) && op.id == id
  {
  }

  lemma OpKeepsPerIP(c: Config, m: Clients, op: Op)
    requires CountsNonNegative(m) && IPsWithinLimit(c, m)
    requires Presents(op) && op.id in m ==> m[op.id].ip == op.ip
    ensures IPsWithinLimit(c, Apply(c, m, op).clients)
  {
    var m' := Apply(c, m, op).clients;
    match op
    case Connect(id, ip, now) =>
      PerIPKeptIff(c, m, id, ip, now);
    case Clean(now) =>
      CleanupKeepsTotals(c, m, now);
      assert forall ip :: TotalForIP(m', ip) == TotalForIP(m, ip);
    case _ =>
      if m' != m {
        assert m' == m[op.id := m'[op.id]];
        TotalsUpdate(m, op.id, m'[op.id]);
        assert m'[op.id].connections <= AtLeastZero(ConnectionsOf(m, op.id));
        assert forall ip :: TotalForIP(m', ip) <= TotalForIP(m, ip);
      }
  }

  /** When every client always presents the same address, no address passes its limit. */
  lemma {:induction false} PerIPWithinLimit(c: Config, m: Clients, ops: seq<Op>)
    requires CountsNonNegative(m) && IPsWithinLimit(c, m) && OneAddressEach(m, ops)
    ensures IPsWithinLimit(c, After(c, m, ops))
    decreases |ops|
  {
    if ops != [] {
      var m' := Apply(c, m, ops[0]).clients;
      OpTotals(c, m, ops[0]);
      OpKeepsPerIP(c, m, ops[0]);
      OpKeepsAddresses(c, m, ops[0]);
      assert forall i :: 0 <= i < |ops| - 1 ==> ops[1..][i] == ops[i + 1];
      PerIPWithinLimit(c, m', ops[1..]);
    }
  }

  /** The limits, from the empty limiter on. */
  lemma ConnectionLimits(c: Config, ops: seq<Op>)
    ensures Total(After(c, map[], ops)) <= AtLeastZero(c.maxConnections)
    ensures OneAddressEach(map[], ops) ==> IPsWithinLimit(c, After(c, map[], ops))
  {
    assert AllConnections(map[]) == map[];
    forall ip ensures TotalForIP(map[], ip) == 0 {
      assert ConnectionsFrom(map[], ip) == map[];
    }
    TotalWithinLimit(c, map[], ops);
    if OneAddressEach(map[], ops) {
      PerIPWithinLimit(c, map[], ops);
    }
  }

  // ---------------------------------------------------------------------------------------
  // WebSocketMiddleware: a handler lives between a successful AddConnection and the
  // RemoveConnection it defers.

  datatype HandlerEvent =
    | Enter(id: string, ip: string, now: int)
    | Exit(id: string, now: int)
    | Other(op: Op)

  datatype Bracket = Bracket(clients: Clients, live: multiset<string>)

  predicate CanHappen(b: Bracket, e: HandlerEvent) {
    match e
    case Enter(_, _, _) => true
    case Exit(id, _) => id in b.live
    case Other(op) => !op.Connect? && !op.Disconnect?
  }

  ghost function Happen(c: Config, b: Bracket, e: HandlerEvent): Bracket {
    match e
    case Enter(id, ip, now) =>
      var r := ConnectResult(c, b.clients, id, ip, now);
      Bracket(r.clients, if r.allowed then b.live + multiset{id} else b.live)
    case Exit(id, now) => Bracket(Removed(b.clients, id, now), b.live - multiset{id})
    case Other(op) => Bracket(Apply(c, b.clients, op).clients, b.live)
  }

  ghost predicate AllHappen(c: Config, b: Bracket, events: seq<HandlerEvent>)
    decreases |events|
  {
    events == [] || (CanHappen(b, events[0]) && AllHappen(c, Happen(c, b, events[0]), events[1..]))
  }

  ghost function AfterEvents(c: Config, b: Bracket, events: seq<HandlerEvent>): Bracket
    decreases |events|
  {
    if events == [] then b else AfterEvents(c, Happen(c, b, events[0]), events[1..])
  }

  /** Each client's count is the number of its live handlers, and so is the total. */
  ghost predicate Bracketed(b: Bracket) {
    && (forall id :: ConnectionsOf(b.clients, id) == b.live[id])
    && Total(b.clients) == |b.live|
  }

  lemma BracketedCounts(b: Bracket)
    requires Bracketed(b)
    ensures CountsNonNegative(b.clients)
  {
    assert forall id :: id in b.clients ==> ConnectionsOf(b.clients, id) == b.clients[id].connections;
  }

  lemma ConnectCounts(c: Config, m: Clients, id: string, ip: string, now: int)
    ensures var r := ConnectResult(c, m, id, ip, now);
            forall k :: ConnectionsOf(r.clients, k) == ConnectionsOf(m, k) + if r.allowed && k == id then 1 else 0
  {
  }

  lemma ExitKeepsBracket(c: Config, b: Bracket, e: HandlerEvent)
    requires Bracketed(b) && CanHappen(b, e) && e.Exit?
    ensures Bracketed(Happen(c, b, e))
  {
    assert ConnectionsOf(b.clients, e.id) == b.live[e.id] > 0;
    TotalsUpdate(b.clients, e.id, Removed(b.clients, e.id, e.now)[e.id]);
  }

  lemma EventKeepsBracket(c: Config, b: Bracket, e: HandlerEvent)
    requires Bracketed(b) && CanHappen(b, e)
    ensures Bracketed(Happen(c, b, e))
  {
    BracketedCounts(b);
    match e
    case Enter(id, ip, now) =>
      OpTotals(c, b.clients, Connect(id, ip, now));
      ConnectCounts(c, b.clients, id, ip, now);
    case Exit(_, _) =>
      ExitKeepsBracket(c, b, e);
    case Other(op) =>
      OpTotals(c, b.clients, op);
  }

  lemma {:induction false} RunKeepsBracket(c: Config, b: Bracket, events: seq<HandlerEvent>)
    requires Bracketed(b) && AllHappen(c, b, events)
    ensures Bracketed(AfterEvents(c, b, events))
    decreases |events|
  {
    if events != [] {
      EventKeepsBracket(c, b, events[0]);
      RunKeepsBracket(c, Happen(c, b, events[0]), events[1..]);
    }
  }

  /** Over every run of handlers, requests, messages, blocks and cleanups: counts are live
      handlers, there are at most maxConnections of them, and a handler that leaves always finds
      a count above zero, so the clamp in RemoveConnection never fires. */
  lemma BracketConservation(c: Config, events: seq<HandlerEvent>)
    requires AllHappen(c, Bracket(map[], multiset{}), events)
    ensures var b := AfterEvents(c, Bracket(map[], multiset{}), events);
            && (forall id :: ConnectionsOf(b.clients, id) == b.live[id])
            && Total(b.clients) == |b.live| <= AtLeastZero(c.maxConnections)
            && forall id, now :: CanHappen(b, Exit(id, now)) ==>
                 ConnectionsOf(Removed(b.clients, id, now), id) == ConnectionsOf(b.clients, id) - 1
  {
    var start := Bracket(map[], multiset{});
    assert AllConnections(map[]) == map[];
    RunKeepsBracket(c, start, events);
    HandlersWithinLimit(c, start, events);
  }

  /** Over every run of handlers: one more enters exactly when fewer than maxConnections are live and
      fewer than maxConnectionsPerIP of them are counted against its address; each live handler is
      counted against the address of its client's entry. */
  lemma EntersIffRoom(c: Config, events: seq<HandlerEvent>, id: string, ip: string, now: int)
    requires AllHappen(c, Bracket(map[], multiset{}), events)
    ensures var b := AfterEvents(c, Bracket(map[], multiset{}), events);
            var b' := Happen(c, b, Enter(id, ip, now));
            && b'.live == (if |b.live| < c.maxConnections && TotalForIP(b.clients, ip) < c.maxConnectionsPerIP
                           then b.live + multiset{id} else b.live)
            && (forall k :: k in ConnectionsFrom(b.clients, ip) ==> ConnectionsFrom(b.clients, ip)[k] == b.live[k])
            && forall k :: b.live[k] > 0 ==> k in b.clients
  {
    assert AllConnections(map[]) == map[];
    RunKeepsBracket(c, Bracket(map[], multiset{}), events);
    var b := AfterEvents(c, Bracket(map[], multiset{}), events);
    assert forall k :: ConnectionsOf(b.clients, k) == b.live[k];
  }

  /** Handlers keep within the limiter's total, too. */
  lemma {:induction false} HandlersWithinLimit(c: Config, b: Bracket, events: seq<HandlerEvent>)
    requires Bracketed(b) && Total(b.clients) <= AtLeastZero(c.maxConnections) && AllHappen(c, b, events)
    ensures Total(AfterEvents(c, b, events).clients) <= AtLeastZero(c.maxConnections)
    decreases |events|
  {
    if events != [] {
      EventKeepsBracket(c, b, events[0]);
      BracketedCounts(b);
      OpTotals(c, b.clients,
               match events[0]
               case Enter(id, ip, now) => Connect(id, ip, now)
               case Exit(id, now) => Disconnect(id, now)
               case Other(op) => op);
      assert Total(Happen(c, b, events[0]).clients) <= AtLeastZero(c.maxConnections);
      HandlersWithinLimit(c, Happen(c, b, events[0]), events[1..]);
    }
  }

  // ---------------------------------------------------------------------------------------
  // Auto-block persistence.

  /** A run whose clock starts at `since`, without manual blocks and unblocks. */
  ghost predicate UnattendedFrom(ops: seq<Op>, since: int) {
    && (forall i :: 0 <= i < |ops| ==> since <= ops[i].now && !ops[i].Block? && !ops[i].Unblock?)
    && (forall i, j :: 0 <= i < j < |ops| ==> ops[i].now <= ops[j].now)
  }

  /** Some request or message of the client gets through before `deadline`. */
  ghost predicate LetThrough(c: Config, m: Clients, ops: seq<Op>, id: string, deadline: int)
    decreases |ops|
  {
    ops != [] &&
    (|| ((ops[0].Request? || ops[0].Message?) && ops[0].id == id && ops[0].now < deadline
         && Apply(c, m, ops[0]).allowed)
     || LetThrough(c, Apply(c, m, ops[0]).clients, ops[1..], id, deadline))
  }

  ghost predicate AutoBlockedAt(c: Config, m: Clients, id: string, at: int) {
    id in m && m[id].blocked && m[id].blockedUntil == at + c.autoBlockDuration && m[id].lastSeen >= at
  }

  lemma {:induction false} StaysBlocked(c: Config, m: Clients, ops: seq<Op>, id: string, at: int)
    requires AutoBlockedAt(c, m, id, at)
    requires c.autoBlockDuration <= AtLeastZero(c.clientExpiry + 1)
    requires UnattendedFrom(ops, at)
    ensures !LetThrough(c, m, ops, id, at + c.autoBlockDuration)
    decreases |ops|
  {
    if ops != [] {
      var deadline := at + c.autoBlockDuration;
      if ops[0].now < deadline {
        assert AutoBlockedAt(c, Apply(c, m, ops[0]).clients, id, at);
        StaysBlocked(c, Apply(c, m, ops[0]).clients, ops[1..], id, at);
      } else {
        LateOps(c, Apply(c, m, ops[0]).clients, ops[1..], id, deadline);
      }
    }
  }

  lemma {:induction false} LateOps(c: Config, m: Clients, ops: seq<Op>, id: string, deadline: int)
    requires forall i :: 0 <= i < |ops| ==> deadline <= ops[i].now
    ensures !LetThrough(c, m, ops, id, deadline)
    decreases |ops|
  {
    if ops != [] {
      LateOps(c, Apply(c, m, ops[0]).clients, ops[1..], id, deadline);
    }
  }

  ghost predicate BlockPersists(c: Config, m: Clients, id: string, at: int) {
    forall ops :: UnattendedFrom(ops, at) ==> !LetThrough(c, m, ops, id, at + c.autoBlockDuration)
  }

  /** A run that forgets the client and then serves it: give up its connections, clean up as soon
      as it has expired, and let it come back as a new client. */
  function Forget(id: string, connections: nat, at: int, later: int): seq<Op> {
    if connections == 0 then [Clean(later), Request(id, "", later, true, true), Message(id, later, true)]
    else [Disconnect(id, at)] + Forget(id, connections - 1, at, later)
  }

  lemma {:induction false} Forgotten(c: Config, m: Clients, id: string, connections: nat,
                                     at: int, later: int, deadline: int)
    requires id in m && m[id].connections == connections && m[id].lastSeen == at
    requires at <= later < deadline && c.clientExpiry < later - at
    ensures UnattendedFrom(Forget(id, connections, at, later), at)
    ensures LetThrough(c, m, Forget(id, connections, at, later), id, deadline)
    decreases connections
  {
    var ops := Forget(id, connections, at, later);
    if connections == 0 {
      var m1 := Cleaned(c, m, later);
      var m2 := RequestResult(c, m1, id, "", later, true, true).clients;
      assert id !in m1;
      assert ops[1..][0] == ops[1] && ops[1..][1..] == [ops[2]];
      assert MessageResult(m2, id, later, true).allowed;
      assert LetThrough(c, m2, [ops[2]], id, deadline);
      assert LetThrough(c, m1, ops[1..], id, deadline);
    } else {
      assert ops[1..] == Forget(id, connections - 1, at, later);
      Forgotten(c, Removed(m, id, at), id, connections - 1, at, later, deadline);
    }
  }

  /** AllowRequest for this client comes to its auto-block: the client is not serving a block
      already, and one more violation reaches the threshold. */
  predicate DueForBlock(c: Config, m: Clients, id: string, at: int) {
    && !(id in m && m[id].blocked && at < m[id].blockedUntil)
    && (if id in m then m[id].violations else 0) + 1 >= c.autoBlockThreshold
  }

  /** A client auto-blocked at `at` stays refused until its block ends, whatever else happens,
      exactly when the block is no longer than the expiry (plus the tick in which an entry is not
      yet expired). The default block of 10 minutes is, against an expiry of 30. */
  lemma AutoBlockPersistsIff(c: Config, m: Clients, id: string, ip: string, at: int)
    requires CountsNonNegative(m) && DueForBlock(c, m, id, at)
    ensures var m' := RequestResult(c, m, id, ip, at, true, false).clients;
            && AutoBlockedAt(c, m', id, at)
            && (BlockPersists(c, m', id, at) <==> c.autoBlockDuration <= AtLeastZero(c.clientExpiry + 1))
  {
    var m' := RequestResult(c, m, id, ip, at, true, false).clients;
    if c.autoBlockDuration <= AtLeastZero(c.clientExpiry + 1) {
      forall ops | UnattendedFrom(ops, at) ensures !LetThrough(c, m', ops, id, at + c.autoBlockDuration) {
        StaysBlocked(c, m', ops, id, at);
      }
    } else {
      var later := at + AtLeastZero(c.clientExpiry + 1);
      Forgotten(c, m', id, m'[id].connections, at, later, at + c.autoBlockDuration);
      assert UnattendedFrom(Forget(id, m'[id].connections, at, later), at);
    }
  }
}
