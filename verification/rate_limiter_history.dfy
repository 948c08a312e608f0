/** The rate limiter against what happened in its runs: who is known, who is serving a block, how
    violations add up to one, and what is let through. A run starts from the empty limiter and its
    clock does not go back. */
module RateLimiterHistory {
  import opened Options
  import opened RateLimiting
  import opened RateLimiterRuns

  ghost predicate Ordered(ops: seq<Op>) {
    forall i, j :: 0 <= i < j < |ops| ==> ops[i].now <= ops[j].now
  }

  /** The clients after a run, by its last operation. */
  ghost function Table(c: Config, ops: seq<Op>): Clients
    decreases |ops|
  {
    if ops == [] then map[] else Apply(c, Table(c, ops[..|ops| - 1]), ops[|ops| - 1]).clients
  }

  lemma {:induction false} TableIsAfter(c: Config, ops: seq<Op>)
    ensures Table(c, ops) == After(c, map[], ops)
    decreases |ops|
  {
    if ops != [] {
      TableIsAfter(c, ops[..|ops| - 1]);
      AfterLast(c, map[], ops);
    }
  }

  lemma {:induction false} AfterLast(c: Config, m: Clients, ops: seq<Op>)
    requires ops != []
    ensures After(c, m, ops) == Apply(c, After(c, m, ops[..|ops| - 1]), ops[|ops| - 1]).clients
    decreases |ops|
  {
    if |ops| > 1 {
      AfterLast(c, Apply(c, m, ops[0]).clients, ops[1..]);
      assert ops[1..][..|ops| - 2] == ops[..|ops| - 1][1..];
    }
  }

  // ---------------------------------------------------------------------------------------
  // What an operation is to a client, given the operations before it.

  datatype Kind = Violation | ServedRequest | ServedMessage

  predicate By(op: Op, id: string) {
    !op.Clean? && op.id == id
  }

  /** A request or message that the client's own bucket refuses, or one that is let through; a
      client that is serving a block has neither. `room` is whether the address has room. */
  predicate OfKind(op: Op, id: string, kind: Kind, known: bool, serving: bool, room: bool) {
    && By(op, id) && !serving
    && match kind
       case Violation =>
         (op.Request? && op.globalTokens && !op.clientTokens) || (op.Message? && known && !op.messageTokens)
       case ServedRequest => op.Request? && op.globalTokens && op.clientTokens && room
       case ServedMessage => op.Message? && known && op.messageTokens
  }

  ghost predicate RoomAt(c: Config, m: Clients, op: Op) {
    op.Request? && TotalForIP(m, op.ip) < c.maxConnectionsPerIP
  }

  ghost predicate Is(c: Config, before: seq<Op>, op: Op, id: string, kind: Kind)
    decreases |before|, 3
  {
    OfKind(op, id, kind, id in Table(c, before), Serving(c, before, id, op.now), RoomAt(c, Table(c, before), op))
  }

  /** How many of a kind there were since the client's entry was created. */
  ghost function Tally(c: Config, ops: seq<Op>, id: string, kind: Kind): nat
    decreases |ops|, 4
  {
    if ops == [] || id !in Table(c, ops) then 0
    else
      var before, op := ops[..|ops| - 1], ops[|ops| - 1];
      Tally(c, before, id, kind) + if Is(c, before, op, id, kind) then 1 else 0
  }

  /** The operation blocks the client: a manual block, or the violation in a request that reaches
      the threshold. */
  predicate Blocks(c: Config, op: Op, id: string, violation: bool, tally: nat) {
    By(op, id) && (op.Block? || (op.Request? && violation && tally + 1 >= c.autoBlockThreshold))
  }

  function BlockEnd(c: Config, op: Op): int
    requires !op.Clean?
  {
    op.now + if op.Block? then op.duration else c.autoBlockDuration
  }

  /** When the client's last block ends, unless it was lifted or the client forgotten since. */
  ghost function LastBlock(c: Config, ops: seq<Op>, id: string): Option<int>
    decreases |ops|, 1
  {
    if ops == [] || id !in Table(c, ops) then None
    else
      var before, op := ops[..|ops| - 1], ops[|ops| - 1];
      if Blocks(c, op, id, Is(c, before, op, id, Violation), Tally(c, before, id, Violation))
      then Some(BlockEnd(c, op))
      else if op.Unblock? && op.id == id then None
      else LastBlock(c, before, id)
  }

  ghost predicate Serving(c: Config, ops: seq<Op>, id: string, now: int)
    decreases |ops|, 2
  {
    var end := LastBlock(c, ops, id);
    end.Some? && now < end.value
  }

  /** The operation counts as activity: it is a request the global bucket lets in, a connection
      added, or one removed. */
  ghost predicate Touches(c: Config, before: seq<Op>, op: Op, id: string) {
    && By(op, id)
    && (|| (op.Request? && op.globalTokens)
        || (op.Connect? && HasRoom(c, Table(c, before), op.ip))
        || op.Disconnect?)
  }

  ghost function LastTouch(c: Config, ops: seq<Op>, id: string): int
    decreases |ops|
  {
    if ops == [] then ZERO_TIME
    else
      var before, op := ops[..|ops| - 1], ops[|ops| - 1];
      if Touches(c, before, op, id) then op.now else LastTouch(c, before, id)
  }

  /** The address by which the client's entry was created. */
  ghost function FirstAddress(c: Config, ops: seq<Op>, id: string): string
    decreases |ops|
  {
    if ops == [] then ""
    else
      var before, op := ops[..|ops| - 1], ops[|ops| - 1];
      if Presents(op) && op.id == id && id !in Table(c, before) then op.ip else FirstAddress(c, before, id)
  }

  // ---------------------------------------------------------------------------------------
  // The entry is what the history says.

  /** A block that is over by `latest` may be lifted already. */
  predicate Agrees(client: Client, end: Option<int>, latest: int) {
    if client.blocked then end == Some(client.blockedUntil) else end.None? || end.value < latest
  }

  function Latest(ops: seq<Op>): int {
    if ops == [] then ZERO_TIME else ops[|ops| - 1].now
  }

  ghost predicate BlockFits(c: Config, ops: seq<Op>, id: string, client: Client) {
    Agrees(client, LastBlock(c, ops, id), Latest(ops))
  }

  ghost predicate CountsFit(c: Config, ops: seq<Op>, id: string, client: Client) {
    && client.violations == Tally(c, ops, id, Violation)
    && client.totalRequests == Tally(c, ops, id, ServedRequest)
    && client.totalMessages == Tally(c, ops, id, ServedMessage)
    && client.lastSeen == LastTouch(c, ops, id)
    && client.ip == FirstAddress(c, ops, id)
  }

  ghost predicate EntryFits(c: Config, ops: seq<Op>, id: string) {
    id in Table(c, ops) ==>
      BlockFits(c, ops, id, Table(c, ops)[id]) && CountsFit(c, ops, id, Table(c, ops)[id])
  }

  /** Whether the entry is serving a block is what the history says it is. */
  lemma ServingFits(c: Config, ops: seq<Op>, id: string, now: int)
    requires id in Table(c, ops) ==> BlockFits(c, ops, id, Table(c, ops)[id])
    requires ops != [] ==> ops[|ops| - 1].now <= now
    ensures Serving(c, ops, id, now) <==>
      id in Table(c, ops) && Table(c, ops)[id].blocked && now < Table(c, ops)[id].blockedUntil
  {
  }

  lemma UnknownIsBlank(c: Config, ops: seq<Op>, id: string)
    requires id !in Table(c, ops)
    ensures LastBlock(c, ops, id) == None && forall kind :: Tally(c, ops, id, kind) == 0
  {
  }

  lemma PrefixOrdered(ops: seq<Op>, op: Op)
    requires Ordered(ops + [op])
    ensures Ordered(ops) && (ops != [] ==> ops[|ops| - 1].now <= op.now)
  {
    var all := ops + [op];
    assert forall i :: 0 <= i < |ops| ==> all[i] == ops[i];
    assert all[|ops|] == op;
  }

  /** The last operation of a run, and what it adds to the history. */
  lemma Unfolded(c: Config, before: seq<Op>, op: Op, id: string)
    ensures var ops := before + [op];
            && Table(c, ops) == Apply(c, Table(c, before), op).clients
            && FirstAddress(c, ops, id) ==
               (if Presents(op) && op.id == id && id !in Table(c, before) then op.ip else FirstAddress(c, before, id))
            && LastTouch(c, ops, id) == (if Touches(c, before, op, id) then op.now else LastTouch(c, before, id))
            && (id in Table(c, ops) ==>
                  && LastBlock(c, ops, id) ==
                     (if Blocks(c, op, id, Is(c, before, op, id, Violation), Tally(c, before, id, Violation))
                      then Some(BlockEnd(c, op))
                      else if op.Unblock? && op.id == id then None
                      else LastBlock(c, before, id))
                  && forall kind :: Tally(c, ops, id, kind)
                                 == Tally(c, before, id, kind) + if Is(c, before, op, id, kind) then 1 else 0)
  {
    var ops := before + [op];
    assert ops[..|ops| - 1] == before && ops[|ops| - 1] == op;
  }

  lemma OthersStep(c: Config, before: seq<Op>, op: Op, id: string)
    requires Ordered(before + [op]) && EntryFits(c, before, id) && !By(op, id)
    ensures EntryFits(c, before + [op], id)
  {
    PrefixOrdered(before, op);
    Unfolded(c, before, op, id);
    OtherEntriesStay(c, Table(c, before), op, id);
  }

  lemma OtherEntriesStay(c: Config, m: Clients, op: Op, id: string)
    requires !By(op, id)
    ensures var m' := Apply(c, m, op).clients; id in m' ==> id in m && m'[id] == m[id]
  {
  }

  /** The client's entry, or the blank one that the operation would create. */
  function EntryFor(m: Clients, op: Op): Client
    requires !op.Clean?
  {
    if op.id in m then m[op.id] else NewClient(if Presents(op) then op.ip else "", op.now)
  }

  predicate InBlock(e: Client, now: int) {
    e.blocked && now < e.blockedUntil
  }

  /** What an operation does to the counts of its client's entry. */
  lemma CountsStep(c: Config, m: Clients, op: Op)
    requires !op.Clean? && op.id in Apply(c, m, op).clients
    ensures var e, e' := EntryFor(m, op), Apply(c, m, op).clients[op.id];
            var known, serving, room := op.id in m, InBlock(EntryFor(m, op), op.now), RoomAt(c, m, op);
            && (known || Presents(op))
            && e'.violations == e.violations + (if OfKind(op, op.id, Violation, known, serving, room) then 1 else 0)
            && e'.totalRequests == e.totalRequests + (if OfKind(op, op.id, ServedRequest, known, serving, room) then 1 else 0)
            && e'.totalMessages == e.totalMessages + (if OfKind(op, op.id, ServedMessage, known, serving, room) then 1 else 0)
            && e'.ip == e.ip
  {
  }

  lemma ActivityStep(c: Config, m: Clients, op: Op)
    requires !op.Clean? && op.id in Apply(c, m, op).clients
    ensures var touched := (op.Request? && op.globalTokens) || (op.Connect? && HasRoom(c, m, op.ip)) || op.Disconnect?;
            && (touched ==> Apply(c, m, op).clients[op.id].lastSeen == op.now)
            && (!touched ==> op.id in m && Apply(c, m, op).clients[op.id].lastSeen == m[op.id].lastSeen)
  {
  }

  lemma OwnKinds(c: Config, before: seq<Op>, op: Op, kind: Kind)
    requires Ordered(before + [op]) && !op.Clean? && EntryFits(c, before, op.id)
    ensures var m := Table(c, before);
            Is(c, before, op, op.id, kind) <==>
              OfKind(op, op.id, kind, op.id in m, InBlock(EntryFor(m, op), op.now), RoomAt(c, m, op))
  {
    PrefixOrdered(before, op);
    ServingFits(c, before, op.id, op.now);
  }

  lemma OwnTally(c: Config, before: seq<Op>, op: Op, kind: Kind)
    requires !op.Clean? && op.id in Table(c, before + [op])
    ensures Tally(c, before + [op], op.id, kind)
         == (if op.id in Table(c, before) then Tally(c, before, op.id, kind) else 0)
            + if Is(c, before, op, op.id, kind) then 1 else 0
  {
    Unfolded(c, before, op, op.id);
    if op.id !in Table(c, before) {
      UnknownIsBlank(c, before, op.id);
    }
  }

  lemma OwnCounts(c: Config, before: seq<Op>, op: Op)
    requires Ordered(before + [op]) && !op.Clean? && EntryFits(c, before, op.id)
    requires op.id in Table(c, before + [op])
    ensures CountsFit(c, before + [op], op.id, Table(c, before + [op])[op.id])
  {
    Unfolded(c, before, op, op.id);
    CountsStep(c, Table(c, before), op);
    ActivityStep(c, Table(c, before), op);
    forall kind ensures Tally(c, before + [op], op.id, kind)
                     == (if op.id in Table(c, before) then Tally(c, before, op.id, kind) else 0)
                        + if Is(c, before, op, op.id, kind) then 1 else 0 {
      OwnTally(c, before, op, kind);
    }
    OwnKinds(c, before, op, Violation);
    OwnKinds(c, before, op, ServedRequest);
    OwnKinds(c, before, op, ServedMessage);
  }

  /** What an operation does to the block of its client's entry. */
  lemma BlockStep(c: Config, m: Clients, op: Op)
    requires !op.Clean? && op.id in Apply(c, m, op).clients
    ensures var e, e' := EntryFor(m, op), Apply(c, m, op).clients[op.id];
            match op
            case Request(_, _, now, globalTokens, clientTokens) =>
              var strikes := globalTokens && !clientTokens && !InBlock(e, now)
                             && e.violations + 1 >= c.autoBlockThreshold;
              && e'.blocked == (strikes || (e.blocked && (now <= e.blockedUntil || !globalTokens)))
              && (e'.blocked ==> e'.blockedUntil == if strikes then now + c.autoBlockDuration else e.blockedUntil)
            case Block(_, now, duration) => e'.blocked && e'.blockedUntil == now + duration
            case Unblock(_, _) => !e'.blocked
            case _ => e'.blocked == e.blocked && (e.blocked ==> e'.blockedUntil == e.blockedUntil)
  {
  }

  /** When the block of the client's entry ends after an operation, if it ended at `end` before. */
  ghost function NewEnd(c: Config, m: Clients, op: Op, end: Option<int>): Option<int>
    requires !op.Clean?
  {
    var serving := end.Some? && op.now < end.value;
    var violation := OfKind(op, op.id, Violation, op.id in m, serving, RoomAt(c, m, op));
    var tally := EntryFor(m, op).violations;
    if tally >= 0 && Blocks(c, op, op.id, violation, tally) then Some(BlockEnd(c, op))
    else if op.Unblock? then None
    else end
  }

  lemma BlockAgrees(c: Config, m: Clients, op: Op, end: Option<int>, latest: int)
    requires !op.Clean? && op.id in Apply(c, m, op).clients && latest <= op.now
    requires EntryFor(m, op).violations >= 0 && Agrees(EntryFor(m, op), end, latest)
    ensures Agrees(Apply(c, m, op).clients[op.id], NewEnd(c, m, op, end), op.now)
  {
    BlockStep(c, m, op);
  }

  lemma OwnBlock(c: Config, before: seq<Op>, op: Op)
    requires Ordered(before + [op]) && !op.Clean? && EntryFits(c, before, op.id)
    requires op.id in Table(c, before + [op])
    ensures BlockFits(c, before + [op], op.id, Table(c, before + [op])[op.id])
  {
    var m, end := Table(c, before), LastBlock(c, before, op.id);
    PrefixOrdered(before, op);
    Unfolded(c, before, op, op.id);
    if op.id !in m {
      UnknownIsBlank(c, before, op.id);
    }
    BlockAgrees(c, m, op, end, if op.id in m then Latest(before) else op.now);
    assert LastBlock(c, before + [op], op.id) == NewEnd(c, m, op, end);
  }

  lemma {:induction false} EntryFitsAt(c: Config, ops: seq<Op>, id: string)
    requires Ordered(ops)
    ensures EntryFits(c, ops, id)
    decreases |ops|
  {
    if ops != [] {
      var before, op := ops[..|ops| - 1], ops[|ops| - 1];
      assert ops == before + [op];
      EntryFitsAt(c, before, id);
      if !By(op, id) {
        OthersStep(c, before, op, id);
      } else if id in Table(c, ops) {
        OwnCounts(c, before, op);
        OwnBlock(c, before, op);
      }
    }
  }

  /** Over every run, with manual blocks and unblocks and connections in between: a client's
      counters are the violations, requests and messages since its entry was created, its address
      is the one that created it, its last activity that of its last operation, and it is serving a
      block exactly until the end of the last block not lifted. */
  lemma EntryIsHistory(c: Config, ops: seq<Op>, id: string, now: int)
    requires Ordered(ops) && (ops != [] ==> ops[|ops| - 1].now <= now)
    requires id in After(c, map[], ops)
    ensures var client := After(c, map[], ops)[id];
            && client.violations == Tally(c, ops, id, Violation)
            && client.totalRequests == Tally(c, ops, id, ServedRequest)
            && client.totalMessages == Tally(c, ops, id, ServedMessage)
            && client.lastSeen == LastTouch(c, ops, id)
            && client.ip == FirstAddress(c, ops, id)
            && (client.blocked && now < client.blockedUntil <==> Serving(c, ops, id, now))
  {
    TableIsAfter(c, ops);
    EntryFitsAt(c, ops, id);
    ServingFits(c, ops, id, now);
  }

  /** Over every run: a request is let through exactly when both buckets grant it, its client is not
      serving a block, and its address has room; a message exactly when its client is known, its
      bucket grants it, and no block is being served. */
  lemma LetThroughIff(c: Config, ops: seq<Op>, op: Op)
    requires Ordered(ops + [op]) && (op.Request? || op.Message?)
    ensures Apply(c, Table(c, ops), op).allowed <==>
      && !Serving(c, ops, op.id, op.now)
      && if op.Request? then
           op.globalTokens && op.clientTokens && TotalForIP(Table(c, ops), op.ip) < c.maxConnectionsPerIP
         else op.id in Table(c, ops) && op.messageTokens
  {
    PrefixOrdered(ops, op);
    EntryFitsAt(c, ops, op.id);
    ServingFits(c, ops, op.id, op.now);
  }

  /** Over every run: a request that its own bucket refuses is one violation more, and it blocks the
      client, for the configured time, exactly when that is the violation that reaches the
      threshold. */
  lemma AutoBlockedAtThreshold(c: Config, ops: seq<Op>, id: string, ip: string, now: int, later: int)
    requires Ordered(ops + [Request(id, ip, now, true, false)]) && !Serving(c, ops, id, now) && now <= later
    ensures var op := Request(id, ip, now, true, false);
            var violations := Tally(c, ops, id, Violation) + 1;
            && !Apply(c, Table(c, ops), op).allowed
            && Tally(c, ops + [op], id, Violation) == violations
            && (DueForBlock(c, Table(c, ops), id, now) <==> violations >= c.autoBlockThreshold)
            && (Serving(c, ops + [op], id, later) <==>
                  violations >= c.autoBlockThreshold && later < now + c.autoBlockDuration)
  {
    var op := Request(id, ip, now, true, false);
    PrefixOrdered(ops, op);
    EntryFitsAt(c, ops, id);
    ServingFits(c, ops, id, now);
    Unfolded(c, ops, op, id);
    if id !in Table(c, ops) {
      UnknownIsBlank(c, ops, id);
    }
  }

  lemma KnownStep(c: Config, m: Clients, op: Op, id: string)
    ensures id in Apply(c, m, op).clients <==>
      || (By(op, id) && op.Request? && op.globalTokens)
      || (By(op, id) && op.Connect? && HasRoom(c, m, op.ip))
      || (id in m && !(op.Clean? && Expired(c, m[id], op.now)))
  {
  }

  /** Over every run: a client becomes known by a request that the global bucket lets in or by a
      connection added, and is forgotten exactly by a cleanup more than the expiry after its last
      activity, with none of its connections left. */
  lemma KnownAtEachStep(c: Config, ops: seq<Op>, op: Op, id: string)
    requires Ordered(ops + [op])
    ensures var m := Table(c, ops);
            id in Table(c, ops + [op]) <==>
              || (By(op, id) && op.Request? && op.globalTokens)
              || (By(op, id) && op.Connect?
                  && Total(m) < c.maxConnections && TotalForIP(m, op.ip) < c.maxConnectionsPerIP)
              || (id in m && !(op.Clean? && ConnectionsOf(m, id) == 0
                               && op.now - LastTouch(c, ops, id) > c.clientExpiry))
  {
    PrefixOrdered(ops, op);
    EntryFitsAt(c, ops, id);
    assert (ops + [op])[..|ops|] == ops;
    KnownStep(c, Table(c, ops), op, id);
  }
}
