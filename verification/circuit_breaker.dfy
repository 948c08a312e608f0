/** The circuit breaker of internal/resilience/circuit_breaker.go. Execute is split into the
    admission of a call and the recording of its result, so that any number of calls can be in
    flight and results can arrive late and in any order. */
module CircuitBreakers {
  import opened Options

  datatype State = Closed | Open | HalfOpen

  datatype Config = Config(maxFailures: int, resetTimeout: int, halfOpenMaxCalls: int)

  datatype Breaker = Breaker(state: State, failureCount: int, lastFailureTime: int, halfOpenCalls: int)

  datatype Admission = Admission(allowed: bool, breaker: Breaker)

  const INITIAL := Breaker(Closed, 0, 0, 0)

  function Admit(c: Config, b: Breaker, now: int): Admission {
    match b.state
    case Closed => Admission(true, b)
    case Open =>
      if now - b.lastFailureTime > c.resetTimeout
      then Admission(true, b.(state := HalfOpen, halfOpenCalls := 0))
      else Admission(false, b)
    case HalfOpen =>
      if b.halfOpenCalls < c.halfOpenMaxCalls
      then Admission(true, b.(halfOpenCalls := b.halfOpenCalls + 1))
      else Admission(false, b)
  }

  function Record(c: Config, b: Breaker, now: int, success: bool): Breaker {
    if success then
      match b.state
      case Closed => b.(failureCount := 0)
      case Open => b
      case HalfOpen =>
        if b.halfOpenCalls >= c.halfOpenMaxCalls then b.(state := Closed, failureCount := 0) else b
    else
      var failed := b.(failureCount := b.failureCount + 1, lastFailureTime := now);
      match b.state
      case Closed => if failed.failureCount >= c.maxFailures then failed.(state := Open) else failed
      case Open => failed
      case HalfOpen => failed.(state := Open)
  }

  /** When a call is made and when its result is recorded. */
  datatype Attempt = Attempt(start: int, finish: int)

  /** Execute: the call is refused, or it is made and its result recorded. */
  function Executed(c: Config, b: Breaker, a: Attempt, success: bool): Breaker {
    var admission := Admit(c, b, a.start);
    if admission.allowed then Record(c, admission.breaker, a.finish, success) else b
  }

  function AfterReset(b: Breaker): Breaker {
    b.(state := Closed, failureCount := 0, halfOpenCalls := 0)
  }

  class CircuitBreaker {
    const config: Config
    var state: State
    var failureCount: int
    var lastFailureTime: int
    var halfOpenCalls: int

    function View(): Breaker
      reads this
    {
      Breaker(state, failureCount, lastFailureTime, halfOpenCalls)
    }

    constructor (config: Config)
      ensures this.config == config && View() == INITIAL
    {
      this.config := config;
      state, failureCount, lastFailureTime, halfOpenCalls := Closed, 0, 0, 0;
    }

    /** `success` is what the protected function comes to, if it is called. */
    method Execute(a: Attempt, success: bool) returns (called: bool)
      modifies this
      ensures called == Admit(config, old(View()), a.start).allowed
      ensures View() == Executed(config, old(View()), a, success)
    {
      called := AllowCall(a.start);
      if called {
        RecordResult(a.finish, success);
      }
    }

    method AllowCall(now: int) returns (allowed: bool)
      modifies this
      ensures Admission(allowed, View()) == Admit(config, old(View()), now)
    {
      match state
      case Closed =>
        return true;
      case Open =>
        if now - lastFailureTime > config.resetTimeout {
          state := HalfOpen;
          halfOpenCalls := 0;
          return true;
        }
        return false;
      case HalfOpen =>
        if halfOpenCalls < config.halfOpenMaxCalls {
          halfOpenCalls := halfOpenCalls + 1;
          return true;
        }
        return false;
    }

    method RecordResult(now: int, success: bool)
      modifies this
      ensures View() == Record(config, old(View()), now, success)
    {
      if success {
        RecordSuccess();
      } else {
        RecordFailure(now);
      }
    }

    method RecordFailure(now: int)
      modifies this
      ensures View() == Record(config, old(View()), now, false)
    {
      failureCount := failureCount + 1;
      lastFailureTime := now;
      match state
      case Closed =>
        if failureCount >= config.maxFailures {
          state := Open;
        }
      case Open =>
      case HalfOpen =>
        state := Open;
    }

    method RecordSuccess()
      modifies this
      ensures forall now :: View() == Record(config, old(View()), now, true)
    {
      match state
      case Closed =>
        failureCount := 0;
      case Open =>
      case HalfOpen =>
        if halfOpenCalls >= config.halfOpenMaxCalls {
          state := Closed;
          failureCount := 0;
        }
    }

    method Reset()
      modifies this
      ensures View() == AfterReset(old(View()))
    {
      state := Closed;
      failureCount := 0;
      halfOpenCalls := 0;
    }
  }

  // ---------------------------------------------------------------------------------------
  // Concurrent callers.

  type CallId = nat

  datatype Event =
    | Call(now: int)
    | Return(id: CallId, now: int, success: bool)
    | Reset

  /** `episode` holds the calls admitted since the breaker last went from open to half-open. */
  datatype System = System(breaker: Breaker, inFlight: set<CallId>, issued: nat, episode: set<CallId>)

  const START := System(INITIAL, {}, 0, {})

  predicate Enabled(s: System, e: Event) {
    e.Return? ==> e.id in s.inFlight
  }

  function Next(c: Config, s: System, e: Event): System {
    match e
    case Call(now) =>
      var a := Admit(c, s.breaker, now);
      if !a.allowed then s
      else System(a.breaker, s.inFlight + {s.issued}, s.issued + 1,
                  match s.breaker.state
                  case Closed => s.episode
                  case Open => {s.issued}
                  case HalfOpen => s.episode + {s.issued})
    case Return(id, now, success) =>
      s.(breaker := Record(c, s.breaker, now, success), inFlight := s.inFlight - {id})
    case Reset => s.(breaker := AfterReset(s.breaker))
  }

  /** The state after a run, or None when a call returns that is not in flight. */
  function After(c: Config, s: System, run: seq<Event>): Option<System>
    decreases |run|
  {
    if run == [] then Some(s)
    else if Enabled(s, run[0]) then After(c, Next(c, s, run[0]), run[1..])
    else None
  }

  function HalfOpenBound(c: Config): int {
    if c.halfOpenMaxCalls < 0 then 1 else c.halfOpenMaxCalls + 1
  }

  predicate QuotaUsed(c: Config, b: Breaker) {
    b.state == HalfOpen && c.halfOpenMaxCalls <= b.halfOpenCalls
  }

  ghost predicate Invariant(c: Config, s: System) {
    && (s.breaker.state == Closed <==> s.breaker.failureCount < c.maxFailures)
    && (forall id :: id in s.inFlight ==> id < s.issued)
    && (forall id :: id in s.episode ==> id < s.issued)
    && (s.breaker.state == HalfOpen ==>
          && |s.episode| == s.breaker.halfOpenCalls + 1
          && 0 <= s.breaker.halfOpenCalls
          && |s.episode| <= HalfOpenBound(c))
    && (QuotaUsed(c, s.breaker) ==>
          s.issued > 0 && s.issued - 1 in s.inFlight && s.issued - 1 in s.episode)
  }

  lemma CallKeepsInvariant(c: Config, s: System, e: Event)
    requires c.maxFailures >= 1
    requires Invariant(c, s) && e.Call?
    ensures Invariant(c, Next(c, s, e))
  {
    assert s.issued !in s.episode;
    assert |s.episode + {s.issued}| == |s.episode| + 1;
  }

  lemma ReturnKeepsInvariant(c: Config, s: System, e: Event)
    requires c.maxFailures >= 1
    requires Invariant(c, s) && Enabled(s, e) && e.Return?
    ensures Invariant(c, Next(c, s, e))
  {
  }

  lemma StepKeepsInvariant(c: Config, s: System, e: Event)
    requires c.maxFailures >= 1
    requires Invariant(c, s) && Enabled(s, e)
    ensures Invariant(c, Next(c, s, e))
  {
    match e
    case Call(_) => CallKeepsInvariant(c, s, e);
    case Return(_, _, _) => ReturnKeepsInvariant(c, s, e);
    case Reset =>
  }

  lemma {:induction false} RunKeepsInvariant(c: Config, s: System, run: seq<Event>)
    requires c.maxFailures >= 1
    requires Invariant(c, s) && After(c, s, run).Some?
    ensures Invariant(c, After(c, s, run).value)
    decreases |run|
  {
    if run != [] {
      StepKeepsInvariant(c, s, run[0]);
      RunKeepsInvariant(c, Next(c, s, run[0]), run[1..]);
    }
  }

  /** Over every run: closed exactly while the failures are below the limit, and a half-open
      episode admits its trigger plus at most halfOpenMaxCalls probes. */
  lemma BreakerSafety(c: Config, run: seq<Event>)
    requires c.maxFailures >= 1 && After(c, START, run).Some?
    ensures var s := After(c, START, run).value;
            && (s.breaker.state == Closed <==> s.breaker.failureCount < c.maxFailures)
            && (s.breaker.state == HalfOpen ==> |s.episode| == s.breaker.halfOpenCalls + 1 <= HalfOpenBound(c))
  {
    RunKeepsInvariant(c, START, run);
  }

  /** A half-open breaker never sticks: either it admits the next call at once, or a call of this
      very episode is still in flight, and whichever call returns next, whatever its result,
      ends the episode. */
  lemma HalfOpenNeverSticks(c: Config, run: seq<Event>, now: int)
    requires c.maxFailures >= 1 && After(c, START, run).Some?
    requires After(c, START, run).value.breaker.state == HalfOpen
    ensures var s := After(c, START, run).value;
            if Admit(c, s.breaker, now).allowed then !QuotaUsed(c, s.breaker)
            else (exists id :: id in s.inFlight && id in s.episode)
                 && forall id, at, success :: id in s.inFlight ==>
                      Next(c, s, Return(id, at, success)).breaker.state == if success then Closed else Open
  {
    RunKeepsInvariant(c, START, run);
    var s := After(c, START, run).value;
    if QuotaUsed(c, s.breaker) {
      assert s.issued - 1 in s.inFlight && s.issued - 1 in s.episode;
    }
  }

  // ---------------------------------------------------------------------------------------
  // The state, from what happened alone.

  /** The failures returned since the last success or reset, however many calls were made. */
  function FailuresInARow(run: seq<Event>): nat {
    if run == [] then 0
    else
      match run[|run| - 1]
      case Call(_) => FailuresInARow(run[..|run| - 1])
      case Return(_, _, success) => if success then 0 else FailuresInARow(run[..|run| - 1]) + 1
      case Reset => 0
  }

  predicate IsFailure(e: Event) {
    e.Return? && !e.success
  }

  /** The time of the last failure returned. */
  function LastFailure(run: seq<Event>): Option<int> {
    if run == [] then None
    else if IsFailure(run[|run| - 1]) then Some(run[|run| - 1].now)
    else LastFailure(run[..|run| - 1])
  }

  lemma {:induction false} AfterLast(c: Config, s: System, run: seq<Event>)
    requires run != [] && After(c, s, run).Some?
    ensures var front, last := run[..|run| - 1], run[|run| - 1];
            && After(c, s, front).Some? && Enabled(After(c, s, front).value, last)
            && After(c, s, run).value == Next(c, After(c, s, front).value, last)
    decreases |run|
  {
    if |run| > 1 {
      AfterLast(c, Next(c, s, run[0]), run[1..]);
      assert run[1..][..|run| - 2] == run[..|run| - 1][1..];
    }
  }

  ghost predicate FitsHistory(s: System, run: seq<Event>) {
    && (s.breaker.state == Closed ==> s.breaker.failureCount == FailuresInARow(run))
    && (s.breaker.state != Closed ==> LastFailure(run).Some?)
    && (LastFailure(run).Some? ==> s.breaker.lastFailureTime == LastFailure(run).value)
  }

  lemma StepFitsHistory(c: Config, s: System, before: seq<Event>, e: Event)
    requires c.maxFailures >= 1
    requires Invariant(c, s) && Enabled(s, e) && FitsHistory(s, before)
    ensures FitsHistory(Next(c, s, e), before + [e])
  {
    var run := before + [e];
    assert run[..|run| - 1] == before && run[|run| - 1] == e;
  }

  lemma {:induction false} RunFitsHistory(c: Config, run: seq<Event>)
    requires c.maxFailures >= 1 && After(c, START, run).Some?
    ensures FitsHistory(After(c, START, run).value, run)
    decreases |run|
  {
    if run != [] {
      var before, e := run[..|run| - 1], run[|run| - 1];
      AfterLast(c, START, run);
      RunFitsHistory(c, before);
      RunKeepsInvariant(c, START, before);
      StepFitsHistory(c, After(c, START, before).value, before, e);
      assert before + [e] == run;
    }
  }

  /** Over every run, a closed breaker opens exactly at the maxFailures-th failure in a row; an open
      one becomes half-open exactly at a call more than resetTimeout past the last failure; a
      half-open one opens at any failure, and closes at a success once its episode is full; and a
      reset closes it from any state. Nothing else changes the state. */
  lemma StateAtEachStep(c: Config, run: seq<Event>, e: Event)
    requires c.maxFailures >= 1
    requires After(c, START, run).Some? && Enabled(After(c, START, run).value, e)
    ensures var s := After(c, START, run).value;
            Next(c, s, e).breaker.state ==
              match s.breaker.state
              case Closed =>
                if IsFailure(e) && FailuresInARow(run) + 1 >= c.maxFailures then Open else Closed
              case Open =>
                if e.Reset? then Closed
                else if e.Call? && AdmittedAt(c, s, run, e.now) then HalfOpen
                else Open
              case HalfOpen =>
                if e.Reset? then Closed
                else if IsFailure(e) then Open
                else if e.Return? && |s.episode| == HalfOpenBound(c) then Closed
                else HalfOpen
  {
    RunKeepsInvariant(c, START, run);
    RunFitsHistory(c, run);
  }

  predicate AdmittedAt(c: Config, s: System, run: seq<Event>, now: int) {
    match s.breaker.state
    case Closed => true
    case Open => LastFailure(run).Some? && now > LastFailure(run).value + c.resetTimeout
    case HalfOpen => |s.episode| < HalfOpenBound(c)
  }

  /** Over every run, a call is admitted exactly when the breaker is closed, or is open and the last
      failure is more than resetTimeout ago, or is half-open with room in its episode. A call that
      an open breaker admits starts a new episode, and one that a half-open breaker admits joins it. */
  lemma AdmittedIff(c: Config, run: seq<Event>, now: int)
    requires c.maxFailures >= 1 && After(c, START, run).Some?
    ensures var s := After(c, START, run).value;
            var s' := Next(c, s, Call(now));
            if AdmittedAt(c, s, run, now) then
              && Admit(c, s.breaker, now).allowed
              && s'.inFlight == s.inFlight + {s.issued}
              && s'.episode == match s.breaker.state
                               case Closed => s.episode
                               case Open => {s.issued}
                               case HalfOpen => s.episode + {s.issued}
            else
              !Admit(c, s.breaker, now).allowed && s' == s
  {
    RunKeepsInvariant(c, START, run);
    RunFitsHistory(c, run);
  }

  // ---------------------------------------------------------------------------------------
  // When a half-open breaker closes. The comment in the code says: once all half-open calls have
  // succeeded.

  /** The calls that a run returns with success. */
  function Succeeded(run: seq<Event>): set<CallId> {
    if run == [] then {}
    else Successes(run[0]) + Succeeded(run[1..])
  }

  /** Every call of a half-open episode is in flight or among `done`, the successes so far. */
  ghost predicate Accounted(s: System, done: set<CallId>) {
    && (forall id :: id in s.inFlight + done ==> id < s.issued)
    && s.inFlight !! done
    && (s.breaker.state == HalfOpen ==> s.episode <= s.inFlight + done)
  }

  function Successes(e: Event): set<CallId> {
    if e.Return? && e.success then {e.id} else {}
  }

  lemma StepAccounted(c: Config, s: System, e: Event, done: set<CallId>)
    requires Accounted(s, done) && Enabled(s, e)
    ensures Accounted(Next(c, s, e), done + Successes(e))
  {
    var s' := Next(c, s, e);
    assert s'.inFlight <= s.inFlight + {s.issued} && s.issued !in s.inFlight + done;
    if s'.breaker.state == HalfOpen && !(e.Return? && e.success) {
      assert s.inFlight <= s'.inFlight;
    }
  }

  lemma {:induction false} RunAccounted(c: Config, s: System, run: seq<Event>, done: set<CallId>)
    requires Accounted(s, done) && After(c, s, run).Some?
    ensures Accounted(After(c, s, run).value, done + Succeeded(run))
    decreases |run|
  {
    if run == [] {
      assert done + {} == done;
    } else {
      StepAccounted(c, s, run[0], done);
      RunAccounted(c, Next(c, s, run[0]), run[1..], done + Successes(run[0]));
      assert done + Succeeded(run) == done + Successes(run[0]) + Succeeded(run[1..]);
    }
  }

  /** A success closes a half-open breaker exactly when its quota of probes is used, even the
      success of a call admitted before this episode. That all calls of the episode have then succeeded
      holds exactly when no other call of the episode is still in flight. */
  lemma ClosesOnceQuotaUsed(c: Config, run: seq<Event>, id: CallId, now: int)
    requires After(c, START, run).Some?
    requires After(c, START, run).value.breaker.state == HalfOpen && id in After(c, START, run).value.inFlight
    ensures var s := After(c, START, run).value;
            && (Next(c, s, Return(id, now, true)).breaker.state == Closed <==> QuotaUsed(c, s.breaker))
            && ((forall k :: k in s.episode ==> k in Succeeded(run) + {id}) <==> s.episode * s.inFlight <= {id})
  {
    var s := After(c, START, run).value;
    RunAccounted(c, START, run, {});
    assert {} + Succeeded(run) == Succeeded(run);
    if s.episode * s.inFlight <= {id} {
      forall k | k in s.episode ensures k in Succeeded(run) + {id} {
        assert k in s.inFlight ==> k in s.episode * s.inFlight;
      }
    }
  }

  /** A breaker used by one caller at a time. */
  datatype Use = Single(at: Attempt, success: bool) | Cleared

  function AfterUse(c: Config, b: Breaker, u: Use): Breaker {
    match u
    case Single(at, success) => Executed(c, b, at, success)
    case Cleared => AfterReset(b)
  }

  function AfterUses(c: Config, b: Breaker, uses: seq<Use>): Breaker
    decreases |uses|
  {
    if uses == [] then b else AfterUses(c, AfterUse(c, b, uses[0]), uses[1..])
  }

  /** The number of successes in a row, over the calls that were made, with `n` before them. */
  function Streak(c: Config, b: Breaker, uses: seq<Use>, n: nat): nat
    decreases |uses|
  {
    if uses == [] then n
    else
      var u := uses[0];
      var made := u.Single? && Admit(c, b, u.at.start).allowed;
      Streak(c, AfterUse(c, b, u), uses[1..], if !made then n else if u.success then n + 1 else 0)
  }

  ghost predicate StreakInvariant(c: Config, b: Breaker, n: nat) {
    && (b.state == Open ==> n == 0)
    && (b.state == HalfOpen ==> n == b.halfOpenCalls + 1 < HalfOpenBound(c))
  }

  lemma {:induction false} StreakKept(c: Config, b: Breaker, uses: seq<Use>, n: nat)
    requires StreakInvariant(c, b, n)
    ensures StreakInvariant(c, AfterUses(c, b, uses), Streak(c, b, uses, n))
    decreases |uses|
  {
    if uses != [] {
      var u := uses[0];
      var made := u.Single? && Admit(c, b, u.at.start).allowed;
      StreakKept(c, AfterUse(c, b, u), uses[1..], if !made then n else if u.success then n + 1 else 0);
    }
  }

  /** With one call at a time, a breaker that is not closed closes by itself exactly at the
      (halfOpenMaxCalls + 1)-th success in a row. */
  lemma OneAtATimeClosesAtStreak(c: Config, uses: seq<Use>, at: Attempt, success: bool)
    requires AfterUses(c, INITIAL, uses).state != Closed
    ensures var b := AfterUses(c, INITIAL, uses);
            Executed(c, b, at, success).state == Closed <==>
              && Admit(c, b, at.start).allowed && success
              && Streak(c, INITIAL, uses, 0) + 1 == HalfOpenBound(c)
  {
    StreakKept(c, INITIAL, uses, 0);
  }

  /** It does not wait for the others: here it closes on its first probe with another in flight. */
  lemma ClosesWithProbesInFlight()
    ensures var run := [Call(0), Return(0, 0, false), Call(11), Call(11), Return(1, 12, true)];
            After(Config(1, 10, 1), START, run) == Some(System(Breaker(Closed, 0, 0, 1), {2}, 3, {1, 2}))
  {
    var c := Config(1, 10, 1);
    var run := [Call(0), Return(0, 0, false), Call(11), Call(11), Return(1, 12, true)];
    var s1 := System(Breaker(Closed, 0, 0, 0), {0}, 1, {});
    var s2 := System(Breaker(Open, 1, 0, 0), {}, 1, {});
    var s3 := System(Breaker(HalfOpen, 1, 0, 0), {1}, 2, {1});
    var s4 := System(Breaker(HalfOpen, 1, 0, 1), {1, 2}, 3, {1, 2});
    var s5 := System(Breaker(Closed, 0, 0, 1), {2}, 3, {1, 2});
    StepOfRun(c, START, run, s1);
    StepOfRun(c, s1, run[1..], s2);
    StepOfRun(c, s2, run[2..], s3);
    StepOfRun(c, s3, run[3..], s4);
    StepOfRun(c, s4, run[4..], s5);
    assert After(c, s5, []) == Some(s5);
  }

  lemma StepOfRun(c: Config, s: System, run: seq<Event>, s': System)
    requires run != [] && Enabled(s, run[0]) && Next(c, s, run[0]) == s'
    ensures After(c, s, run) == After(c, s', run[1..])
  {
  }

  // ---------------------------------------------------------------------------------------
  // A dependency that always fails, called one call at a time.

  ghost predicate Sequential(attempts: seq<Attempt>) {
    && (forall i :: 0 <= i < |attempts| ==> attempts[i].start <= attempts[i].finish)
    && (forall i, j :: 0 <= i < j < |attempts| ==> attempts[i].finish <= attempts[j].start)
  }

  /** Execute with a function that fails. */
  function Fail(c: Config, b: Breaker, a: Attempt): Breaker {
    Executed(c, b, a, false)
  }

  /** Calls made no later than `until`. */
  function Admitted(c: Config, b: Breaker, attempts: seq<Attempt>, until: int): nat
    decreases |attempts|
  {
    if attempts == [] then 0
    else (if Admit(c, b, attempts[0].start).allowed && attempts[0].start <= until then 1 else 0)
         + Admitted(c, Fail(c, b, attempts[0]), attempts[1..], until)
  }

  /** When the breaker first opens. */
  function FirstOpened(c: Config, b: Breaker, attempts: seq<Attempt>): Option<int>
    decreases |attempts|
  {
    if attempts == [] then None
    else
      var b' := Fail(c, b, attempts[0]);
      if b.state == Closed && b'.state == Open then Some(attempts[0].finish)
      else FirstOpened(c, b', attempts[1..])
  }

  /** This many probes fit, each more than a reset timeout after the one before. */
  predicate FitIn(probes: int, c: Config, elapsed: int) {
    probes * (c.resetTimeout + 1) <= elapsed
  }

  lemma FitOneMore(probes: int, c: Config, elapsed: int)
    requires FitIn(probes, c, elapsed)
    ensures FitIn(probes + 1, c, elapsed + c.resetTimeout + 1)
  {
    assert (probes + 1) * (c.resetTimeout + 1) == probes * (c.resetTimeout + 1) + (c.resetTimeout + 1);
  }

  lemma FitLonger(probes: int, c: Config, elapsed: int, longer: int)
    requires FitIn(probes, c, elapsed) && elapsed <= longer
    ensures FitIn(probes, c, longer)
  {
  }

  lemma {:induction false} ProbesAreSpaced(c: Config, b: Breaker, attempts: seq<Attempt>,
                                           openedAt: int, until: int, probes: nat)
    requires c.resetTimeout >= 0 && b.state == Open && Sequential(attempts)
    requires attempts != [] ==> b.lastFailureTime <= attempts[0].start
    requires FitIn(probes, c, b.lastFailureTime - openedAt) && FitIn(probes, c, until - openedAt)
    ensures FitIn(probes + Admitted(c, b, attempts, until), c, until - openedAt)
    decreases |attempts|
  {
    if attempts != [] {
      var a := attempts[0];
      var b' := Fail(c, b, a);
      if !Admit(c, b, a.start).allowed {
        ProbesAreSpaced(c, b', attempts[1..], openedAt, until, probes);
      } else if a.start <= until {
        FitOneMore(probes, c, b.lastFailureTime - openedAt);
        FitLonger(probes + 1, c, b.lastFailureTime - openedAt + c.resetTimeout + 1, a.finish - openedAt);
        FitLonger(probes + 1, c, b.lastFailureTime - openedAt + c.resetTimeout + 1, until - openedAt);
        ProbesAreSpaced(c, b', attempts[1..], openedAt, until, probes + 1);
      } else {
        FitLonger(probes, c, b.lastFailureTime - openedAt, a.finish - openedAt);
        ProbesAreSpaced(c, b', attempts[1..], openedAt, until, probes);
      }
    }
  }

  lemma FailClosed(c: Config, b: Breaker, a: Attempt)
    requires b.state == Closed
    ensures Admit(c, b, a.start).allowed
    ensures var n := b.failureCount + 1;
            Fail(c, b, a) == Breaker(if n >= c.maxFailures then Open else Closed, n, a.finish, b.halfOpenCalls)
  {
  }

  lemma {:induction false} FailuresBeforeOpening(c: Config, b: Breaker, attempts: seq<Attempt>, until: int)
    requires c.maxFailures >= 1 && c.resetTimeout >= 0 && Sequential(attempts)
    requires b.state == Closed && 0 <= b.failureCount < c.maxFailures
    ensures match FirstOpened(c, b, attempts)
            case None => b.failureCount + Admitted(c, b, attempts, until) < c.maxFailures
            case Some(openedAt) => openedAt <= until ==>
              FitIn(b.failureCount + Admitted(c, b, attempts, until) - c.maxFailures, c, until - openedAt)
    decreases |attempts|
  {
    if attempts != [] {
      var a := attempts[0];
      var b' := Fail(c, b, a);
      FailClosed(c, b, a);
      if b'.state == Open {
        if a.finish <= until {
          ProbesAreSpaced(c, b', attempts[1..], a.finish, until, 0);
        }
      } else {
        FailuresBeforeOpening(c, b', attempts[1..], until);
      }
    }
  }

  lemma {:induction false} Multiples(a: int, b: int, period: int)
    requires a <= b && period > 0
    ensures a * period <= b * period
    decreases b - a
  {
    if a < b {
      Multiples(a, b - 1, period);
      assert b * period == (b - 1) * period + period;
    }
  }

  lemma AtMostQuotient(n: int, period: int, elapsed: nat)
    requires period > 0 && n * period <= elapsed
    ensures n <= elapsed / period
  {
    var q := elapsed / period;
    assert elapsed == q * period + elapsed % period;
    assert (q + 1) * period == q * period + period;
    if n > q {
      Multiples(q + 1, n, period);
    }
  }

  /** A dependency that always fails is called at most maxFailures + T / resetTimeout times by
      time T after the breaker first opens; in clock ticks the probes are even one tick further
      apart. If the breaker never opens, fewer than maxFailures calls were made. */
  lemma DeadDependencyBound(c: Config, attempts: seq<Attempt>, elapsed: nat)
    requires c.maxFailures >= 1 && c.resetTimeout > 0 && Sequential(attempts)
    ensures match FirstOpened(c, INITIAL, attempts)
            case None => forall until :: Admitted(c, INITIAL, attempts, until) < c.maxFailures
            case Some(openedAt) =>
              var made := Admitted(c, INITIAL, attempts, openedAt + elapsed);
              && made <= c.maxFailures + elapsed / (c.resetTimeout + 1)
              && made <= c.maxFailures + elapsed / c.resetTimeout
  {
    match FirstOpened(c, INITIAL, attempts)
    case None =>
      forall until ensures Admitted(c, INITIAL, attempts, until) < c.maxFailures {
        FailuresBeforeOpening(c, INITIAL, attempts, until);
      }
    case Some(openedAt) =>
      FailuresBeforeOpening(c, INITIAL, attempts, openedAt + elapsed);
      var probes := Admitted(c, INITIAL, attempts, openedAt + elapsed) - c.maxFailures;
      AtMostQuotient(probes, c.resetTimeout + 1, elapsed);
      ShorterPeriod(elapsed, c.resetTimeout);
  }

  lemma ShorterPeriod(elapsed: nat, period: int)
    requires period > 0
    ensures elapsed / (period + 1) <= elapsed / period
  {
    var q := elapsed / (period + 1);
    assert q * (period + 1) == q * period + q;
    assert q * (period + 1) <= elapsed;
    assert q >= 0;
    AtMostQuotient(q, period, elapsed);
  }
}
