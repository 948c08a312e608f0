/** The per-IP fixed-window limiter of internal/middleware/middleware.go.
    Times are clock ticks read from a clock that never goes back. */
module FixedWindow {
  import opened Options

  datatype Entry = Entry(requests: int, window: int)

  datatype Request = Request(ip: string, now: int)

  datatype Limits = Limits(maxRequests: int, window: int)
  {
    /** The first request of a window is never checked, so a limit below one acts as one. */
    function Cap(): int {
      if maxRequests < 1 then 1 else maxRequests
    }
  }

  type Table = map<string, Entry>

  // ---------------------------------------------------------------------------------------
  // One client on its own: an automaton with a single entry and no cleanup.

  predicate Admits(limits: Limits, entry: Option<Entry>, now: int) {
    entry.None? || limits.window <= now - entry.value.window || entry.value.requests < limits.maxRequests
  }

  function Advance(limits: Limits, entry: Option<Entry>, now: int): Option<Entry> {
    if entry.None? || limits.window <= now - entry.value.window then
      Some(Entry(1, now))
    else if entry.value.requests < limits.maxRequests then
      Some(Entry(entry.value.requests + 1, entry.value.window))
    else
      entry
  }

  function DecisionsAlone(limits: Limits, entry: Option<Entry>, times: seq<int>): seq<bool>
    decreases |times|
  {
    if times == [] then []
    else [Admits(limits, entry, times[0])] + DecisionsAlone(limits, Advance(limits, entry, times[0]), times[1..])
  }

  function EntryAfter(limits: Limits, entry: Option<Entry>, times: seq<int>): Option<Entry>
    decreases |times|
  {
    if times == [] then entry
    else EntryAfter(limits, Advance(limits, entry, times[0]), times[1..])
  }

  // ---------------------------------------------------------------------------------------
  // All clients in one table, with the cleanup sweep that precedes every decision.

  function Swept(limits: Limits, table: Table, now: int): Table {
    map ip | ip in table && now - table[ip].window <= limits.window :: table[ip]
  }

  function Lookup(table: Table, ip: string): Option<Entry> {
    if ip in table then Some(table[ip]) else None
  }

  function Served(limits: Limits, table: Table, r: Request): Table {
    var swept := Swept(limits, table, r.now);
    swept[r.ip := Advance(limits, Lookup(swept, r.ip), r.now).value]
  }

  predicate Decision(limits: Limits, table: Table, r: Request) {
    Admits(limits, Lookup(Swept(limits, table, r.now), r.ip), r.now)
  }

  function Decisions(limits: Limits, table: Table, reqs: seq<Request>): seq<bool>
    decreases |reqs|
  {
    if reqs == [] then []
    else [Decision(limits, table, reqs[0])] + Decisions(limits, Served(limits, table, reqs[0]), reqs[1..])
  }

  class RateLimitMiddleware {
    const limits: Limits
    var clients: Table

    constructor (maxRequests: int, window: int)
      ensures limits == Limits(maxRequests, window) && clients == map[]
    {
      limits := Limits(maxRequests, window);
      clients := map[];
    }

    /** One request: sweep the stale entries, whatever order the map yields them in, then decide. */
    method Handle(ip: string, now: int) returns (admitted: bool)
      modifies this
      ensures clients == Served(limits, old(clients), Request(ip, now))
      ensures admitted == Decision(limits, old(clients), Request(ip, now))
    {
      var unvisited := clients.Keys;
      while unvisited != {}
        invariant unvisited <= clients.Keys <= old(clients).Keys
        invariant forall k :: k in clients ==> clients[k] == old(clients)[k]
        invariant forall k :: k in old(clients) && k !in unvisited ==>
          (k in clients <==> now - old(clients)[k].window <= limits.window)
        invariant forall k :: k in unvisited ==> k in clients
        decreases unvisited
      {
        var k :| k in unvisited;
        unvisited := unvisited - {k};
        if now - clients[k].window > limits.window {
          clients := clients - {k};
        }
      }
      assert clients == Swept(limits, old(clients), now);

      if ip in clients {
        var c := clients[ip];
        if now - c.window < limits.window {
          if c.requests >= limits.maxRequests {
            assert clients == clients[ip := c];
            return false;
          }
          clients := clients[ip := c.(requests := c.requests + 1)];
        } else {
          clients := clients[ip := Entry(1, now)];
        }
      } else {
        clients := clients[ip := Entry(1, now)];
      }
      return true;
    }
  }

  // ---------------------------------------------------------------------------------------
  // Refinement: the shared table decides for each IP as that IP's own automaton does.

  ghost predicate Ordered(reqs: seq<Request>) {
    forall i, j :: 0 <= i < j < |reqs| ==> reqs[i].now <= reqs[j].now
  }

  /** The request times of one IP. */
  function TimesOf(reqs: seq<Request>, ip: string): seq<int> {
    if reqs == [] then []
    else (if reqs[0].ip == ip then [reqs[0].now] else []) + TimesOf(reqs[1..], ip)
  }

  /** The decisions made for one IP. */
  function DecisionsOf(reqs: seq<Request>, decisions: seq<bool>, ip: string): seq<bool>
    requires |reqs| == |decisions|
  {
    if reqs == [] then []
    else (if reqs[0].ip == ip then [decisions[0]] else []) + DecisionsOf(reqs[1..], decisions[1..], ip)
  }

  lemma DecisionsLength(limits: Limits, table: Table, reqs: seq<Request>)
    ensures |Decisions(limits, table, reqs)| == |reqs|
    decreases |reqs|
  {
    if reqs != [] {
      DecisionsLength(limits, Served(limits, table, reqs[0]), reqs[1..]);
    }
  }

  /** What the table knows of a client agrees with its automaton, except that an entry may be
      swept away once its window is over for good. */
  ghost predicate Simulates(limits: Limits, table: Table, entry: Option<Entry>, ip: string, since: int) {
    if ip in table then entry == Some(table[ip])
    else entry.None? || limits.window < since - entry.value.window
  }

  lemma StepSimulates(limits: Limits, table: Table, entry: Option<Entry>, ip: string, since: int, r: Request)
    requires Simulates(limits, table, entry, ip, since) && since <= r.now
    ensures r.ip == ip ==> Decision(limits, table, r) == Admits(limits, entry, r.now)
    ensures Simulates(limits, Served(limits, table, r),
                      if r.ip == ip then Advance(limits, entry, r.now) else entry, ip, r.now)
  {
  }

  /** Whatever the other clients do, and in whatever order the sweep visits the table. */
  lemma {:induction false} Refinement(limits: Limits, table: Table, entry: Option<Entry>, reqs: seq<Request>,
                                      ip: string, since: int)
    requires Simulates(limits, table, entry, ip, since)
    requires Ordered(reqs) && (reqs != [] ==> since <= reqs[0].now)
    ensures |Decisions(limits, table, reqs)| == |reqs|
    ensures DecisionsOf(reqs, Decisions(limits, table, reqs), ip)
         == DecisionsAlone(limits, entry, TimesOf(reqs, ip))
    decreases |reqs|
  {
    DecisionsLength(limits, table, reqs);
    if reqs != [] {
      var r := reqs[0];
      StepSimulates(limits, table, entry, ip, since, r);
      var entry' := if r.ip == ip then Advance(limits, entry, r.now) else entry;
      Refinement(limits, Served(limits, table, r), entry', reqs[1..], ip, r.now);
      if r.ip == ip {
        assert ([r.now] + TimesOf(reqs[1..], ip))[1..] == TimesOf(reqs[1..], ip);
      } else {
        assert [] + TimesOf(reqs[1..], ip) == TimesOf(reqs[1..], ip);
      }
    }
  }

  lemma SharedTableRefinesAutomaton(limits: Limits, reqs: seq<Request>, ip: string)
    requires Ordered(reqs)
    ensures |Decisions(limits, map[], reqs)| == |reqs|
    ensures DecisionsOf(reqs, Decisions(limits, map[], reqs), ip) == DecisionsAlone(limits, None, TimesOf(reqs, ip))
  {
    Refinement(limits, map[], None, reqs, ip, if reqs == [] then 0 else reqs[0].now);
  }

  // ---------------------------------------------------------------------------------------
  // How many requests one IP gets through any interval [from, from + window).

  ghost predicate Nondecreasing(times: seq<int>) {
    forall i, j :: 0 <= i < j < |times| ==> times[i] <= times[j]
  }

  predicate Within(t: int, from: int, length: int) {
    from <= t < from + length
  }

  function CountAlone(limits: Limits, entry: Option<Entry>, times: seq<int>, from: int, length: int): nat
    decreases |times|
  {
    if times == [] then 0
    else (if Admits(limits, entry, times[0]) && Within(times[0], from, length) then 1 else 0)
         + CountAlone(limits, Advance(limits, entry, times[0]), times[1..], from, length)
  }

  /** Admitted requests of `ip` in the interval, counted over the shared run. */
  function CountShared(reqs: seq<Request>, decisions: seq<bool>, ip: string, from: int, length: int): nat
    requires |reqs| == |decisions|
  {
    if reqs == [] then 0
    else (if reqs[0].ip == ip && decisions[0] && Within(reqs[0].now, from, length) then 1 else 0)
         + CountShared(reqs[1..], decisions[1..], ip, from, length)
  }

  /** `count` requests of the interval admitted so far, the last one no later than `since`. */
  ghost predicate Budget(limits: Limits, entry: Option<Entry>, count: nat, from: int, since: int) {
    var cap := limits.Cap();
    && count <= 2 * cap - 1
    && (limits.window <= 0 ==> count == 0)
    && match entry
       case None => count == 0
       case Some(e) =>
         && 1 <= e.requests <= cap
         && e.window <= since
         && (e.window + limits.window <= from ==> count == 0)
         && (e.window < from ==> count <= e.requests - 1)
         && (from <= e.window < from + limits.window ==> count <= cap - 1 + e.requests)
  }

  lemma {:induction false} SlidingAlone(limits: Limits, entry: Option<Entry>, times: seq<int>,
                                        from: int, count: nat, since: int)
    requires Budget(limits, entry, count, from, since)
    requires Nondecreasing(times) && (times != [] ==> since <= times[0])
    ensures count + CountAlone(limits, entry, times, from, limits.window) <= 2 * limits.Cap() - 1
    decreases |times|
  {
    if times != [] {
      var now := times[0];
      var hit := if Admits(limits, entry, now) && Within(now, from, limits.window) then 1 else 0;
      SlidingAlone(limits, Advance(limits, entry, now), times[1..], from, count + hit, now);
    }
  }

  lemma {:induction false} CountProjects(limits: Limits, table: Table, entry: Option<Entry>, reqs: seq<Request>,
                                         ip: string, since: int, from: int, length: int)
    requires Simulates(limits, table, entry, ip, since)
    requires Ordered(reqs) && (reqs != [] ==> since <= reqs[0].now)
    ensures |Decisions(limits, table, reqs)| == |reqs|
    ensures CountShared(reqs, Decisions(limits, table, reqs), ip, from, length)
         == CountAlone(limits, entry, TimesOf(reqs, ip), from, length)
    decreases |reqs|
  {
    DecisionsLength(limits, table, reqs);
    if reqs != [] {
      var r := reqs[0];
      StepSimulates(limits, table, entry, ip, since, r);
      var entry' := if r.ip == ip then Advance(limits, entry, r.now) else entry;
      CountProjects(limits, Served(limits, table, r), entry', reqs[1..], ip, r.now, from, length);
      assert Decisions(limits, table, reqs)[1..] == Decisions(limits, Served(limits, table, r), reqs[1..]);
      if r.ip == ip {
        assert ([r.now] + TimesOf(reqs[1..], ip))[1..] == TimesOf(reqs[1..], ip);
      } else {
        assert [] + TimesOf(reqs[1..], ip) == TimesOf(reqs[1..], ip);
      }
    }
  }

  lemma {:induction false} TimesOrdered(reqs: seq<Request>, ip: string)
    requires Ordered(reqs)
    ensures Nondecreasing(TimesOf(reqs, ip))
    ensures forall k :: 0 <= k < |TimesOf(reqs, ip)| ==>
      reqs != [] && reqs[0].now <= TimesOf(reqs, ip)[k] <= reqs[|reqs| - 1].now
  {
    if reqs != [] {
      TimesOrdered(reqs[1..], ip);
    }
  }

  /** Over every run, in every interval as long as the window, one IP gets at most
      2 * maxRequests - 1 requests through: a window that started inside the interval gives at
      most maxRequests, and the one before it has spent its first request too early to count. */
  lemma SlidingIntervalBound(limits: Limits, reqs: seq<Request>, ip: string, from: int)
    requires Ordered(reqs)
    ensures |Decisions(limits, map[], reqs)| == |reqs|
    ensures CountShared(reqs, Decisions(limits, map[], reqs), ip, from, limits.window) <= 2 * limits.Cap() - 1
  {
    var since := if reqs == [] then 0 else reqs[0].now;
    CountProjects(limits, map[], None, reqs, ip, since, from, limits.window);
    TimesOrdered(reqs, ip);
    SlidingAlone(limits, None, TimesOf(reqs, ip), from, 0, since);
  }

  /** As Budget, for the interval with both its ends. */
  ghost predicate ClosedBudget(limits: Limits, entry: Option<Entry>, count: nat, from: int, since: int) {
    var cap := limits.Cap();
    && count <= 2 * cap
    && match entry
       case None => count == 0
       case Some(e) =>
         && 1 <= e.requests <= cap
         && e.window <= since
         && (e.window + limits.window <= from ==> count == 0)
         && (e.window < from ==> count <= e.requests - 1)
         && (e.window == from ==> count <= e.requests)
         && (from < e.window < from + limits.window ==> count <= cap - 1 + e.requests)
         && (e.window == from + limits.window ==> count <= cap + e.requests)
  }

  lemma {:induction false} ClosedAlone(limits: Limits, entry: Option<Entry>, times: seq<int>,
                                       from: int, count: nat, since: int)
    requires limits.window > 0
    requires ClosedBudget(limits, entry, count, from, since)
    requires Nondecreasing(times) && (times != [] ==> since <= times[0])
    ensures count + CountAlone(limits, entry, times, from, limits.window + 1) <= 2 * limits.Cap()
    decreases |times|
  {
    if times != [] {
      var now := times[0];
      var hit := if Admits(limits, entry, now) && Within(now, from, limits.window + 1) then 1 else 0;
      ClosedAlone(limits, Advance(limits, entry, now), times[1..], from, count + hit, now);
    }
  }

  /** With both ends of the interval counted, one more request gets through. */
  lemma ClosedIntervalBound(limits: Limits, reqs: seq<Request>, ip: string, from: int)
    requires limits.window > 0 && Ordered(reqs)
    ensures |Decisions(limits, map[], reqs)| == |reqs|
    ensures CountShared(reqs, Decisions(limits, map[], reqs), ip, from, limits.window + 1) <= 2 * limits.Cap()
  {
    var since := if reqs == [] then 0 else reqs[0].now;
    CountProjects(limits, map[], None, reqs, ip, since, from, limits.window + 1);
    TimesOrdered(reqs, ip);
    ClosedAlone(limits, None, TimesOf(reqs, ip), from, 0, since);
  }

  // ---------------------------------------------------------------------------------------
  // The bounds are reached.

  function Repeat(t: int, n: nat): (r: seq<int>)
    ensures |r| == n && forall i :: 0 <= i < n ==> r[i] == t
  {
    if n == 0 then [] else [t] + Repeat(t, n - 1)
  }

  lemma {:induction false} RepeatAdmitted(limits: Limits, e: Entry, t: int, n: nat, tail: seq<int>,
                                          from: int, length: int)
    requires 0 <= t - e.window < limits.window && e.requests + n <= limits.maxRequests
    ensures CountAlone(limits, Some(e), Repeat(t, n) + tail, from, length)
         == (if Within(t, from, length) then n else 0)
            + CountAlone(limits, Some(Entry(e.requests + n, e.window)), tail, from, length)
    decreases n
  {
    if n == 0 {
      assert [] + tail == tail;
    } else {
      assert ([t] + Repeat(t, n - 1) + tail)[1..] == Repeat(t, n - 1) + tail;
      RepeatAdmitted(limits, Entry(e.requests + 1, e.window), t, n - 1, tail, from, length);
    }
  }

  /** The busiest pattern: one request opens a window, the rest of it is spent on the window's
      last tick, and the next window is spent at once. */
  function Burst(limits: Limits): seq<int>
    requires limits.maxRequests >= 1
  {
    [0] + Repeat(limits.window - 1, limits.maxRequests - 1) + Repeat(limits.window, limits.maxRequests)
  }

  lemma BurstOrdered(limits: Limits)
    requires limits.maxRequests >= 1 && limits.window >= 2
    ensures Nondecreasing(Burst(limits))
  {
    var m, w := limits.maxRequests, limits.window;
    assert forall i :: 0 <= i < |Burst(limits)| ==> Burst(limits)[i] == if i == 0 then 0 else if i < m then w - 1 else w;
  }

  lemma SlidingBoundIsTight(limits: Limits)
    requires limits.maxRequests >= 1 && limits.window >= 2
    ensures Nondecreasing(Burst(limits))
    ensures CountAlone(limits, None, Burst(limits), limits.window - 1, limits.window) == 2 * limits.maxRequests - 1
  {
    var m, w := limits.maxRequests, limits.window;
    var first, second := Repeat(w - 1, m - 1), Repeat(w, m);
    BurstOrdered(limits);
    assert Burst(limits)[0] == 0 && Burst(limits)[1..] == first + second;
    RepeatAdmitted(limits, Entry(1, 0), w - 1, m - 1, second, w - 1, w);
    assert CountAlone(limits, Some(Entry(m, 0)), second, w - 1, w) == m by {
      assert second[1..] == Repeat(w, m - 1) + [];
      RepeatAdmitted(limits, Entry(1, w), w, m - 1, [], w - 1, w);
    }
  }

  /** With both ends counted, the first tick's requests and those one window later. */
  function TwoBursts(limits: Limits): seq<int>
    requires limits.maxRequests >= 1
  {
    Repeat(0, limits.maxRequests) + Repeat(limits.window, limits.maxRequests)
  }

  lemma ClosedBoundIsTight(limits: Limits)
    requires limits.maxRequests >= 1 && limits.window >= 1
    ensures Nondecreasing(TwoBursts(limits))
    ensures CountAlone(limits, None, TwoBursts(limits), 0, limits.window + 1) == 2 * limits.maxRequests
  {
    var m, w := limits.maxRequests, limits.window;
    var second := Repeat(w, m);
    assert TwoBursts(limits)[1..] == Repeat(0, m - 1) + second;
    RepeatAdmitted(limits, Entry(1, 0), 0, m - 1, second, 0, w + 1);
    assert second[1..] == Repeat(w, m - 1) + [];
    RepeatAdmitted(limits, Entry(1, w), w, m - 1, [], 0, w + 1);
  }

  // ---------------------------------------------------------------------------------------
  // Within one recorded window.

  ghost predicate Tally(limits: Limits, entry: Option<Entry>, from: int, count: nat) {
    match entry
    case None => count == 0
    case Some(e) =>
      && 1 <= e.requests <= limits.Cap()
      && (from == e.window ==> count == e.requests)
      && (e.window + limits.window <= from ==> count == 0)
  }

  lemma {:induction false} TallyKept(limits: Limits, entry: Option<Entry>, times: seq<int>,
                                     from: int, length: int, count: nat)
    requires limits.window > 0
    requires Tally(limits, entry, from, count)
    requires forall i :: 0 <= i < |times| ==> times[i] < from + length
    requires Nondecreasing(times) && (entry.Some? && times != [] ==> entry.value.window <= times[0])
    ensures Tally(limits, EntryAfter(limits, entry, times), from,
                  count + CountAlone(limits, entry, times, from, length))
    decreases |times|
  {
    if times != [] {
      var now := times[0];
      var hit := if Admits(limits, entry, now) && Within(now, from, length) then 1 else 0;
      TallyKept(limits, Advance(limits, entry, now), times[1..], from, length, count + hit);
    }
  }

  function TableAfter(limits: Limits, table: Table, reqs: seq<Request>): Table
    decreases |reqs|
  {
    if reqs == [] then table else TableAfter(limits, Served(limits, table, reqs[0]), reqs[1..])
  }

  lemma {:induction false} RunSimulates(limits: Limits, table: Table, entry: Option<Entry>, reqs: seq<Request>,
                                        ip: string, since: int)
    requires Simulates(limits, table, entry, ip, since)
    requires Ordered(reqs) && (reqs != [] ==> since <= reqs[0].now)
    ensures Simulates(limits, TableAfter(limits, table, reqs), EntryAfter(limits, entry, TimesOf(reqs, ip)), ip,
                      if reqs == [] then since else reqs[|reqs| - 1].now)
    decreases |reqs|
  {
    if reqs != [] {
      var r := reqs[0];
      StepSimulates(limits, table, entry, ip, since, r);
      var entry' := if r.ip == ip then Advance(limits, entry, r.now) else entry;
      RunSimulates(limits, Served(limits, table, r), entry', reqs[1..], ip, r.now);
      if r.ip == ip {
        assert ([r.now] + TimesOf(reqs[1..], ip))[1..] == TimesOf(reqs[1..], ip);
      } else {
        assert [] + TimesOf(reqs[1..], ip) == TimesOf(reqs[1..], ip);
      }
    }
  }

  lemma OneWindowAlone(limits: Limits, times: seq<int>, now: int)
    requires limits.window > 0 && Nondecreasing(times)
    requires forall i :: 0 <= i < |times| ==> times[i] <= now
    requires EntryAfter(limits, None, times).Some?
    ensures var e := EntryAfter(limits, None, times).value;
            && CountAlone(limits, None, times, e.window, now + 1 - e.window) == e.requests
            && 1 <= e.requests <= limits.Cap()
  {
    var e := EntryAfter(limits, None, times).value;
    TallyKept(limits, None, times, e.window, now + 1 - e.window, 0);
  }

  /** At every point of every run, an entry's counter is exactly the number of its client's
      requests admitted since its window opened, and it never passes the limit. */
  lemma OneWindowBound(limits: Limits, reqs: seq<Request>, ip: string)
    requires limits.window > 0 && Ordered(reqs)
    ensures |Decisions(limits, map[], reqs)| == |reqs|
    ensures ip in TableAfter(limits, map[], reqs) ==>
      var e := TableAfter(limits, map[], reqs)[ip];
      && reqs != []
      && CountShared(reqs, Decisions(limits, map[], reqs), ip, e.window, reqs[|reqs| - 1].now + 1 - e.window)
         == e.requests
      && 1 <= e.requests <= limits.Cap()
  {
    DecisionsLength(limits, map[], reqs);
    if ip in TableAfter(limits, map[], reqs) {
      var e := TableAfter(limits, map[], reqs)[ip];
      var times, now := TimesOf(reqs, ip), reqs[|reqs| - 1].now;
      assert EntryAfter(limits, None, times) == Some(e) by {
        RunSimulates(limits, map[], None, reqs, ip, reqs[0].now);
      }
      assert CountAlone(limits, None, times, e.window, now + 1 - e.window) == e.requests <= limits.Cap()
             && 1 <= e.requests by {
        TimesOrdered(reqs, ip);
        OneWindowAlone(limits, times, now);
      }
      CountProjects(limits, map[], None, reqs, ip, reqs[0].now, e.window, now + 1 - e.window);
    }
  }

  // ---------------------------------------------------------------------------------------
  // Exactly which requests get through, from the request times alone.

  /** When the window of the last of these requests opened: a request opens one when there is none,
      or when the one before is over. */
  function WindowStart(limits: Limits, times: seq<int>): Option<int> {
    if times == [] then None
    else
      var before, now := WindowStart(limits, times[..|times| - 1]), times[|times| - 1];
      if before.None? || limits.window <= now - before.value then Some(now) else before
  }

  /** How many of these requests, admitted or not, came in the window that `now` falls in. */
  function Earlier(limits: Limits, times: seq<int>, now: int): nat {
    var start := WindowStart(limits, times);
    if start.None? || limits.window <= now - start.value then 0 else InLastWindow(limits, times)
  }

  /** How many of these requests came since the last window opened. */
  function InLastWindow(limits: Limits, times: seq<int>): nat {
    if times == [] then 0
    else
      var before, now := times[..|times| - 1], times[|times| - 1];
      var start := WindowStart(limits, before);
      if start.None? || limits.window <= now - start.value then 1 else InLastWindow(limits, before) + 1
  }

  lemma {:induction false} EntryAfterLast(limits: Limits, entry: Option<Entry>, times: seq<int>)
    requires times != []
    ensures EntryAfter(limits, entry, times)
         == Advance(limits, EntryAfter(limits, entry, times[..|times| - 1]), times[|times| - 1])
    decreases |times|
  {
    if |times| > 1 {
      EntryAfterLast(limits, Advance(limits, entry, times[0]), times[1..]);
      assert times[1..][..|times| - 2] == times[..|times| - 1][1..];
    }
  }

  function Min(a: int, b: int): int {
    if a < b then a else b
  }

  lemma {:induction false} EntryIsWindow(limits: Limits, times: seq<int>)
    ensures var e, start := EntryAfter(limits, None, times), WindowStart(limits, times);
            if times == [] then e.None? && start.None?
            else e.Some? && Some(e.value.window) == start
                 && e.value.requests == Min(InLastWindow(limits, times), limits.Cap())
                 && InLastWindow(limits, times) >= 1
    decreases |times|
  {
    if times != [] {
      EntryIsWindow(limits, times[..|times| - 1]);
      EntryAfterLast(limits, None, times);
    }
  }

  /** Over every run, in the shared table, whatever the other clients do: a request is admitted
      exactly when it is among its client's first Cap requests of their window, refused ones
      included. */
  lemma FirstOfEachWindow(limits: Limits, reqs: seq<Request>, r: Request)
    requires Ordered(reqs) && (reqs != [] ==> reqs[|reqs| - 1].now <= r.now)
    ensures Decision(limits, TableAfter(limits, map[], reqs), r) <==>
      Earlier(limits, TimesOf(reqs, r.ip), r.now) < limits.Cap()
  {
    var since := if reqs == [] then r.now else reqs[|reqs| - 1].now;
    var entry := EntryAfter(limits, None, TimesOf(reqs, r.ip));
    RunSimulates(limits, map[], None, reqs, r.ip, if reqs == [] then r.now else reqs[0].now);
    StepSimulates(limits, TableAfter(limits, map[], reqs), entry, r.ip, since, r);
    EntryIsWindow(limits, TimesOf(reqs, r.ip));
  }

  lemma {:induction false} TableIsRecent(limits: Limits, table: Table, reqs: seq<Request>)
    requires limits.window >= 0 && reqs != []
    ensures forall ip :: ip in TableAfter(limits, table, reqs) ==>
      reqs[|reqs| - 1].now - TableAfter(limits, table, reqs)[ip].window <= limits.window
    decreases |reqs|
  {
    if |reqs| > 1 {
      TableIsRecent(limits, Served(limits, table, reqs[0]), reqs[1..]);
    } else {
      assert TableAfter(limits, table, reqs) == Served(limits, table, reqs[0]);
    }
  }

  /** After every run the table holds exactly the clients whose last window opened at most one
      window ago. */
  lemma HeldIffRecent(limits: Limits, reqs: seq<Request>, ip: string)
    requires limits.window >= 0 && Ordered(reqs) && reqs != []
    ensures var start := WindowStart(limits, TimesOf(reqs, ip));
            ip in TableAfter(limits, map[], reqs) <==>
              start.Some? && reqs[|reqs| - 1].now - start.value <= limits.window
  {
    TableIsRecent(limits, map[], reqs);
    RunSimulates(limits, map[], None, reqs, ip, reqs[0].now);
    EntryIsWindow(limits, TimesOf(reqs, ip));
  }
}
