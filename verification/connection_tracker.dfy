/** Connection tracking of internal/validation/websocket_middleware.go over its own rate limiter.
    Connection IDs are fresh: no two connections ever share one. */
module ConnectionTracking {
  import opened RateLimiting
  import opened RateLimiterRuns

  /** The tracker's connections, each with its last activity, and the limiter's clients. */
  datatype Tracker = Tracker(connections: map<string, int>, limiter: Clients)

  datatype Validation = Validation(accepted: bool, tracker: Tracker)

  function RemovedConnection(t: Tracker, id: string, now: int): Tracker {
    if id in t.connections then Tracker(t.connections - {id}, Removed(t.limiter, id, now)) else t
  }

  /** Track first, then ask the limiter, and on a refusal untrack again. */
  ghost function Validated(c: Config, t: Tracker, id: string, ip: string, now: int): Validation {
    var tracked := t.connections[id := now];
    var r := ConnectResult(c, t.limiter, id, ip, now);
    if r.allowed then Validation(true, Tracker(tracked, r.clients))
    else Validation(false, RemovedConnection(Tracker(tracked, r.clients), id, now))
  }

  function Touched(t: Tracker, id: string, now: int): Tracker {
    if id in t.connections then t.(connections := t.connections[id := now]) else t
  }

  predicate Inactive(timeout: int, lastActivity: int, now: int) {
    now - lastActivity > timeout
  }

  function Evicted(timeout: int, t: Tracker, now: int): set<string> {
    set id | id in t.connections && Inactive(timeout, t.connections[id], now)
  }

  /** The tracker's cleanup forgets inactive connections; it does not tell the limiter. */
  function CleanedTracker(timeout: int, t: Tracker, now: int): Tracker {
    t.(connections := t.connections - Evicted(timeout, t, now))
  }

  class WebSocketValidator {
    const connectionTimeout: int
    const rateLimiter: RateLimiter
    var connections: map<string, int>

    function View(): Tracker
      reads this, rateLimiter
    {
      Tracker(connections, rateLimiter.clients)
    }

    constructor (connectionTimeout: int, config: Config)
      ensures this.connectionTimeout == connectionTimeout && rateLimiter.config == config
      ensures fresh(rateLimiter) && View() == Tracker(map[], map[])
    {
      this.connectionTimeout := connectionTimeout;
      rateLimiter := new RateLimiter(config);
      connections := map[];
    }

    method ValidateConnection(id: string, ip: string, now: int) returns (accepted: bool)
      modifies this, rateLimiter
      ensures Validation(accepted, View()) == Validated(rateLimiter.config, old(View()), id, ip, now)
    {
      connections := connections[id := now];
      accepted := rateLimiter.AddConnection(id, ip, now);
      if !accepted {
        RemoveConnection(id, now);
      }
    }

    method RemoveConnection(id: string, now: int)
      modifies this, rateLimiter
      ensures View() == RemovedConnection(old(View()), id, now)
    {
      if id in connections {
        rateLimiter.RemoveConnection(id, now);
        connections := connections - {id};
      }
    }

    method Cleanup(now: int)
      modifies this
      ensures View() == CleanedTracker(connectionTimeout, old(View()), now)
    {
      var unvisited := connections.Keys;
      while unvisited != {}
        invariant unvisited <= connections.Keys <= old(connections).Keys
        invariant forall k :: k in connections ==> connections[k] == old(connections)[k]
        invariant forall k :: k in old(connections) && k !in unvisited ==>
          (k in connections <==> !Inactive(connectionTimeout, old(connections)[k], now))
        invariant rateLimiter.clients == old(rateLimiter.clients)
        decreases unvisited
      {
        var id :| id in unvisited;
        unvisited := unvisited - {id};
        if now - connections[id] > connectionTimeout {
          connections := connections - {id};
        }
      }
      assert connections == CleanedTracker(connectionTimeout, old(View()), now).connections;
    }
  }

  // ---------------------------------------------------------------------------------------
  // Runs. `used` are the connection IDs handed out so far, `leaked` the connections the tracker
  // dropped in its cleanup.

  datatype Step =
    | Validate(id: string, ip: string, now: int)
    | Touch(id: string, now: int)
    | Receive(id: string, now: int, messageTokens: bool)
    | Remove(id: string, now: int)
    | CleanTracker(now: int)
    | CleanLimiter(now: int)

  datatype System = System(tracker: Tracker, used: set<string>, leaked: set<string>)

  const START := System(Tracker(map[], map[]), {}, {})

  predicate Enabled(s: System, e: Step) {
    e.Validate? ==> e.id !in s.used
  }

  ghost function Next(c: Config, timeout: int, s: System, e: Step): System {
    var t := s.tracker;
    match e
    case Validate(id, ip, now) => System(Validated(c, t, id, ip, now).tracker, s.used + {id}, s.leaked)
    case Touch(id, now) => s.(tracker := Touched(t, id, now))
    case Receive(id, now, tokens) => s.(tracker := t.(limiter := MessageResult(t.limiter, id, now, tokens).clients))
    case Remove(id, now) => s.(tracker := RemovedConnection(t, id, now))
    case CleanTracker(now) =>
      s.(tracker := CleanedTracker(timeout, t, now), leaked := s.leaked + Evicted(timeout, t, now))
    case CleanLimiter(now) => s.(tracker := t.(limiter := Cleaned(c, t.limiter, now)))
  }

  ghost predicate Run(c: Config, timeout: int, s: System, steps: seq<Step>)
    decreases |steps|
  {
    steps == [] || (Enabled(s, steps[0]) && Run(c, timeout, Next(c, timeout, s, steps[0]), steps[1..]))
  }

  ghost function After(c: Config, timeout: int, s: System, steps: seq<Step>): System
    decreases |steps|
  {
    if steps == [] then s else After(c, timeout, Next(c, timeout, s, steps[0]), steps[1..])
  }

  ghost predicate Invariant(c: Config, s: System) {
    var t := s.tracker;
    && t.connections.Keys !! s.leaked
    && t.connections.Keys + s.leaked <= s.used
    && t.limiter.Keys <= s.used
    && (forall id :: ConnectionsOf(t.limiter, id) == if id in t.connections || id in s.leaked then 1 else 0)
    && Total(t.limiter) == |t.connections| + |s.leaked|
    && Total(t.limiter) <= AtLeastZero(c.maxConnections)
  }

  lemma InvariantCounts(c: Config, s: System)
    requires Invariant(c, s)
    ensures CountsNonNegative(s.tracker.limiter)
  {
    forall id | id in s.tracker.limiter ensures s.tracker.limiter[id].connections >= 0 {
      assert ConnectionsOf(s.tracker.limiter, id) == s.tracker.limiter[id].connections;
    }
  }

  /** A refused connection leaves the tracker and the limiter as they were. */
  lemma RefusalChangesNothing(c: Config, s: System, id: string, ip: string, now: int)
    requires Invariant(c, s) && id !in s.used
    requires !Validated(c, s.tracker, id, ip, now).accepted
    ensures Validated(c, s.tracker, id, ip, now).tracker == s.tracker
  {
    assert s.tracker.connections[id := now] - {id} == s.tracker.connections;
  }

  lemma ValidateKeeps(c: Config, timeout: int, s: System, e: Step)
    requires Invariant(c, s) && Enabled(s, e) && e.Validate?
    ensures Invariant(c, Next(c, timeout, s, e))
  {
    var t := s.tracker;
    if Validated(c, t, e.id, e.ip, e.now).accepted {
      InvariantCounts(c, s);
      OpTotals(c, t.limiter, Connect(e.id, e.ip, e.now));
      assert t.connections[e.id := e.now].Keys == t.connections.Keys + {e.id};
    } else {
      RefusalChangesNothing(c, s, e.id, e.ip, e.now);
    }
  }

  lemma RemovedCounts(m: Clients, id: string, now: int)
    requires ConnectionsOf(m, id) == 1
    ensures Removed(m, id, now).Keys == m.Keys
    ensures Total(Removed(m, id, now)) == Total(m) - 1
    ensures forall k :: ConnectionsOf(Removed(m, id, now), k) == if k == id then 0 else ConnectionsOf(m, k)
  {
    TotalsUpdate(m, id, Removed(m, id, now)[id]);
  }

  lemma RemoveKeeps(c: Config, timeout: int, s: System, e: Step)
    requires Invariant(c, s) && e.Remove?
    ensures Invariant(c, Next(c, timeout, s, e))
  {
    var t := s.tracker;
    if e.id in t.connections {
      RemovedCounts(t.limiter, e.id, e.now);
      assert (t.connections - {e.id}).Keys == t.connections.Keys - {e.id};
    }
  }

  lemma CleanKeeps(c: Config, timeout: int, s: System, e: Step)
    requires Invariant(c, s) && e.CleanTracker?
    ensures Invariant(c, Next(c, timeout, s, e))
  {
    var t := s.tracker;
    var gone := Evicted(timeout, t, e.now);
    assert (t.connections - gone).Keys == t.connections.Keys - gone;
    assert |t.connections.Keys| == |t.connections.Keys - gone| + |gone|;
  }

  lemma StepKeeps(c: Config, timeout: int, s: System, e: Step)
    requires Invariant(c, s) && Enabled(s, e)
    ensures Invariant(c, Next(c, timeout, s, e))
  {
    var t := s.tracker;
    match e
    case Validate(_, _, _) => ValidateKeeps(c, timeout, s, e);
    case Touch(id, now) =>
      if id in t.connections {
        assert t.connections[id := now].Keys == t.connections.Keys;
      }
    case Receive(id, now, tokens) =>
      InvariantCounts(c, s);
      OpTotals(c, t.limiter, Message(id, now, tokens));
    case Remove(_, _) => RemoveKeeps(c, timeout, s, e);
    case CleanTracker(_) => CleanKeeps(c, timeout, s, e);
    case CleanLimiter(now) =>
      CleanupKeepsTotals(c, t.limiter, now);
  }

  lemma {:induction false} RunKeeps(c: Config, timeout: int, s: System, steps: seq<Step>)
    requires Invariant(c, s) && Run(c, timeout, s, steps)
    ensures Invariant(c, After(c, timeout, s, steps))
    decreases |steps|
  {
    if steps != [] {
      StepKeeps(c, timeout, s, steps[0]);
      RunKeeps(c, timeout, Next(c, timeout, s, steps[0]), steps[1..]);
    }
  }

  lemma StartHolds(c: Config)
    ensures Invariant(c, START)
  {
    assert AllConnections(map[]) == map[];
  }

  /** Over every run: each tracked connection counts one in the limiter, the limiter's total is
      the tracked connections plus those the tracker's cleanup dropped, and so never more are
      tracked than the limiter allows. */
  lemma TrackedWithinLimit(c: Config, timeout: int, steps: seq<Step>)
    requires Run(c, timeout, START, steps)
    ensures var s := After(c, timeout, START, steps);
            && (forall id :: id in s.tracker.connections ==> ConnectionsOf(s.tracker.limiter, id) == 1)
            && Total(s.tracker.limiter) == |s.tracker.connections| + |s.leaked|
            && |s.tracker.connections| <= AtLeastZero(c.maxConnections)
  {
    StartHolds(c);
    RunKeeps(c, timeout, START, steps);
  }

  /** Connections accepted in a run. */
  ghost function Accepted(c: Config, timeout: int, s: System, steps: seq<Step>): nat
    decreases |steps|
  {
    if steps == [] then 0
    else
      var e := steps[0];
      (if e.Validate? && Validated(c, s.tracker, e.id, e.ip, e.now).accepted then 1 else 0)
      + Accepted(c, timeout, Next(c, timeout, s, e), steps[1..])
  }

  /** Connections given back to the limiter in a run, besides those just refused. */
  ghost function GivenBack(c: Config, timeout: int, s: System, steps: seq<Step>): nat
    decreases |steps|
  {
    if steps == [] then 0
    else
      (if steps[0].Remove? && steps[0].id in s.tracker.connections then 1 else 0)
      + GivenBack(c, timeout, Next(c, timeout, s, steps[0]), steps[1..])
  }

  lemma StepTotal(c: Config, timeout: int, s: System, e: Step)
    requires Invariant(c, s) && Enabled(s, e)
    ensures Total(Next(c, timeout, s, e).tracker.limiter) + GivenBack(c, timeout, s, [e])
         == Total(s.tracker.limiter) + Accepted(c, timeout, s, [e])
  {
    var t := s.tracker;
    InvariantCounts(c, s);
    match e
    case Validate(id, ip, now) =>
      if Validated(c, t, id, ip, now).accepted {
        OpTotals(c, t.limiter, Connect(id, ip, now));
      } else {
        RefusalChangesNothing(c, s, id, ip, now);
      }
    case Receive(id, now, tokens) => OpTotals(c, t.limiter, Message(id, now, tokens));
    case Remove(id, now) =>
      if id in t.connections {
        RemovedCounts(t.limiter, id, now);
      }
    case CleanLimiter(now) => CleanupKeepsTotals(c, t.limiter, now);
    case _ =>
  }

  lemma {:induction false} RunTotal(c: Config, timeout: int, s: System, steps: seq<Step>)
    requires Invariant(c, s) && Run(c, timeout, s, steps)
    ensures Total(After(c, timeout, s, steps).tracker.limiter) + GivenBack(c, timeout, s, steps)
         == Total(s.tracker.limiter) + Accepted(c, timeout, s, steps)
    decreases |steps|
  {
    if steps != [] {
      var s' := Next(c, timeout, s, steps[0]);
      StepTotal(c, timeout, s, steps[0]);
      StepKeeps(c, timeout, s, steps[0]);
      RunTotal(c, timeout, s', steps[1..]);
      assert [steps[0]][1..] == [];
    }
  }

  lemma {:induction false} NothingGivenBack(c: Config, timeout: int, s: System, steps: seq<Step>)
    requires forall i :: 0 <= i < |steps| ==> !steps[i].Remove?
    ensures GivenBack(c, timeout, s, steps) == 0
    decreases |steps|
  {
    if steps != [] {
      NothingGivenBack(c, timeout, Next(c, timeout, s, steps[0]), steps[1..]);
    }
  }

  /** The limiter's total is what was accepted less what was given back. The code gives back only
      what it has just refused, and then the total is all that was ever accepted: a validator
      accepts at most maxConnections connections in its whole lifetime, and refuses every one
      after them, however many of them have ended. */
  lemma LifetimeLimit(c: Config, timeout: int, steps: seq<Step>)
    requires Run(c, timeout, START, steps)
    ensures var s := After(c, timeout, START, steps);
            var accepted := Accepted(c, timeout, START, steps);
            && Total(s.tracker.limiter) == accepted - GivenBack(c, timeout, START, steps)
            && ((forall i :: 0 <= i < |steps| ==> !steps[i].Remove?) ==>
                  && Total(s.tracker.limiter) == accepted <= AtLeastZero(c.maxConnections)
                  && (accepted >= c.maxConnections ==>
                        forall id, ip, now :: !Validated(c, s.tracker, id, ip, now).accepted))
  {
    StartHolds(c);
    RunKeeps(c, timeout, START, steps);
    RunTotal(c, timeout, START, steps);
    if forall i :: 0 <= i < |steps| ==> !steps[i].Remove? {
      NothingGivenBack(c, timeout, START, steps);
    }
  }

  /** The cleanup keeps the two in step exactly when it drops nothing. */
  lemma CleanupKeepsCountIff(c: Config, timeout: int, s: System, now: int)
    requires Invariant(c, s) && Total(s.tracker.limiter) == |s.tracker.connections|
    ensures var s' := Next(c, timeout, s, CleanTracker(now));
            Total(s'.tracker.limiter) == |s'.tracker.connections| <==> Evicted(timeout, s.tracker, now) == {}
  {
    CleanKeeps(c, timeout, s, CleanTracker(now));
    assert s.leaked == {};
  }

  lemma {:induction false} LeaksGrow(c: Config, timeout: int, s: System, steps: seq<Step>)
    ensures s.leaked <= After(c, timeout, s, steps).leaked
    decreases |steps|
  {
    if steps != [] {
      LeaksGrow(c, timeout, Next(c, timeout, s, steps[0]), steps[1..]);
    }
  }

  /** What cleanup dropped is never given back: once it has dropped as many connections as the
      limiter allows, every later connection is refused. */
  lemma LeaksAreForever(c: Config, timeout: int, s: System, steps: seq<Step>)
    requires Invariant(c, s) && Run(c, timeout, s, steps)
    ensures var s' := After(c, timeout, s, steps);
            && (forall id :: id in s.leaked ==> ConnectionsOf(s'.tracker.limiter, id) == 1)
            && (|s.leaked| >= c.maxConnections ==>
                  forall id, ip, now :: !Validated(c, s'.tracker, id, ip, now).accepted)
  {
    var s' := After(c, timeout, s, steps);
    LeaksGrow(c, timeout, s, steps);
    RunKeeps(c, timeout, s, steps);
    assert |s'.leaked| == |s'.leaked - s.leaked| + |s.leaked|;
  }

  // ---------------------------------------------------------------------------------------
  // Who is tracked.

  predicate IsActivity(e: Step, id: string) {
    (e.Validate? || e.Touch?) && e.id == id
  }

  /** The time of the connection's last activity in a run, `before` if it has none. */
  function LastActive(steps: seq<Step>, id: string, before: int): int
    decreases |steps|
  {
    if steps == [] then before
    else LastActive(steps[1..], id, if IsActivity(steps[0], id) then steps[0].now else before)
  }

  lemma {:induction false} ActivityKept(c: Config, timeout: int, s: System, steps: seq<Step>, id: string, before: int)
    requires id in s.tracker.connections ==> s.tracker.connections[id] == before
    ensures var connections := After(c, timeout, s, steps).tracker.connections;
            id in connections ==> connections[id] == LastActive(steps, id, before)
    decreases |steps|
  {
    if steps != [] {
      ActivityKept(c, timeout, Next(c, timeout, s, steps[0]), steps[1..], id,
                   if IsActivity(steps[0], id) then steps[0].now else before);
    }
  }

  lemma TrackedStep(c: Config, timeout: int, s: System, e: Step, id: string)
    requires Enabled(s, e) && s.tracker.connections.Keys <= s.used
    ensures var t := s.tracker;
            id in Next(c, timeout, s, e).tracker.connections <==>
              || (e.Validate? && e.id == id && HasRoom(c, t.limiter, e.ip))
              || (id in t.connections
                  && !(e.Remove? && e.id == id)
                  && !(e.CleanTracker? && e.now - t.connections[id] > timeout))
  {
  }

  /** Over every run: a connection becomes tracked exactly when it is validated with room in both of
      the limiter's limits, and stays so until it is removed, or a cleanup comes more than the
      timeout after its last activity. */
  lemma TrackedAtEachStep(c: Config, timeout: int, steps: seq<Step>, e: Step, id: string)
    requires Run(c, timeout, START, steps) && Enabled(After(c, timeout, START, steps), e)
    ensures var s := After(c, timeout, START, steps);
            var limiter := s.tracker.limiter;
            id in Next(c, timeout, s, e).tracker.connections <==>
              || (e.Validate? && e.id == id
                  && Total(limiter) < c.maxConnections && TotalForIP(limiter, e.ip) < c.maxConnectionsPerIP)
              || (id in s.tracker.connections
                  && !(e.Remove? && e.id == id)
                  && !(e.CleanTracker? && e.now - LastActive(steps, id, 0) > timeout))
  {
    StartHolds(c);
    RunKeeps(c, timeout, START, steps);
    ActivityKept(c, timeout, START, steps, id, 0);
    TrackedStep(c, timeout, After(c, timeout, START, steps), e, id);
  }
}
