/** The ask_user protocol against what happened in its runs: how each Execute call goes on, which
    responses are dropped, the order of the two queues, and that no reachable state is stuck. */
module AskProtocolHistory {
  import opened Options
  import opened AskUser
  import opened QuestionBridge
  import opened AskProtocol
  import opened AskProtocolRuns

  // ---------------------------------------------------------------------------------------
  // Dropped responses.

  /** A response finds its request's channel exactly when the request's cleanup has not yet removed
      it from the pending ones; otherwise it is dropped, and that request had left by timeout or
      cancellation. */
  lemma LookupFindsIff(b: Behaviour, m: nat)
    requires b.Valid() && m < |b.events| && b.events[m] == Lookup
    ensures b.states[m].handler.Popped?
    ensures var s, s', r := b.states[m], b.states[m + 1], b.states[m].handler.response;
            && r.id in s.execs
            && s' == (if Times(b, m, RemovePending(r.id)) == 0 then s.(handler := Holding(r))
                      else s.(handler := Idle, fates := s.fates[r.id := NotFound]))
            && (Times(b, m, RemovePending(r.id)) > 0 ==>
                  s.execs[r.id].phase.Left() && s.execs[r.id].phase.outcome in {TimedOut, Cancelled})
  {
    assert b.StepAt(m);
    InvariantAt(b, m);
    HandlerHoldsKnown(b.states[m]);
    ChannelLifecycle(b, m, b.states[m].handler.response.id);
    assert ChannelFits(b.states[m], b.states[m].handler.response.id);
  }

  /** No response is dropped while its Execute call still waits, or is leaving. */
  lemma DroppedOnlyAfterRemoval(b: Behaviour, n: nat, id: string)
    requires b.Valid() && n <= |b.events|
    requires id in b.states[n].fates && b.states[n].fates[id] == NotFound
    ensures PastRemoval(b.states[n], id)
    ensures b.states[n].execs[id].phase.outcome in {TimedOut, Cancelled}
  {
    InvariantAt(b, n);
    assert Places(b.states[n], id) == One(id in b.states[n].execs);
    assert ChannelFits(b.states[n], id);
  }

  // ---------------------------------------------------------------------------------------
  // Execute calls.

  predicate TookAnswer(s: System, id: string) {
    id in s.execs && s.execs[id].phase.Left() && s.execs[id].phase.outcome.Answered?
  }

  predicate LeftBy(s: System, id: string, o: Outcome) {
    id in s.execs && s.execs[id].phase.Out(o)
  }

  lemma ExitStep(s: System, e: Event, id: string)
    requires Enabled(s, e)
    ensures One(id in Next(s, e).execs) == One(id in s.execs) + One(e.Register? && e.id == id)
    ensures id in s.execs ==> Next(s, e).execs[id].question == s.execs[id].question
    ensures e.Register? ==> Next(s, e).execs[e.id].question == e.question
    ensures One(id in Next(s, e).execs && !InPhase(Next(s, e), id, Registering))
         == One(id in s.execs && !InPhase(s, id, Registering)) + One(e == Enqueue(id))
    ensures One(TookAnswer(Next(s, e), id)) == One(TookAnswer(s, id)) + One(e == Take(id))
    ensures One(LeftBy(Next(s, e), id, TimedOut)) == One(LeftBy(s, id, TimedOut)) + One(e == Timeout(id))
    ensures One(LeftBy(Next(s, e), id, Cancelled)) == One(LeftBy(s, id, Cancelled)) + One(e == Cancel(id))
  {
  }

  /** How often a request was registered with this ID in the first `n` steps. */
  ghost function Registrations(b: Behaviour, n: nat, id: string): nat
    requires b.Valid() && n <= |b.events|
  {
    if n == 0 then 0
    else Registrations(b, n - 1, id) + One(b.events[n - 1].Register? && b.events[n - 1].id == id)
  }

  /** Each Execute call registers once, queues its question at most once, and leaves by at most one
      of the answer, the timeout and the cancellation; what it returns in the end is decided by
      that exit and by nothing that happens after it. */
  lemma {:induction false} OneExitEach(b: Behaviour, n: nat, id: string)
    requires b.Valid() && n <= |b.events|
    ensures Registrations(b, n, id) == One(id in b.states[n].execs)
    ensures Times(b, n, Enqueue(id)) == One(id in b.states[n].execs && !InPhase(b.states[n], id, Registering))
    ensures Times(b, n, Take(id)) == One(TookAnswer(b.states[n], id))
    ensures Times(b, n, Timeout(id)) == One(LeftBy(b.states[n], id, TimedOut))
    ensures Times(b, n, Cancel(id)) == One(LeftBy(b.states[n], id, Cancelled))
    ensures Times(b, n, Take(id)) + Times(b, n, Timeout(id)) + Times(b, n, Cancel(id)) <= 1
  {
    if n > 0 {
      OneExitEach(b, n - 1, id);
      assert b.StepAt(n - 1);
      ExitStep(b.states[n - 1], b.events[n - 1], id);
    }
  }

  // ---------------------------------------------------------------------------------------
  // The question queue.

  /** The call that asks was given this question. */
  ghost predicate Asks(b: Behaviour, n: nat, q: Post) {
    exists k :: 0 <= k < n && k < |b.events| && b.events[k] == Register(q.id, q.text)
  }

  lemma {:induction false} QuestionGiven(b: Behaviour, n: nat, id: string)
    requires b.Valid() && n <= |b.events| && id in b.states[n].execs
    ensures Asks(b, n, Post(id, b.states[n].execs[id].question))
  {
    if n > 0 {
      assert b.StepAt(n - 1);
      ExitStep(b.states[n - 1], b.events[n - 1], id);
      if id in b.states[n - 1].execs {
        QuestionGiven(b, n - 1, id);
      } else {
        assert b.events[n - 1] == Register(id, b.states[n].execs[id].question);
      }
    }
  }

  /** The questions queued so far, in order. */
  ghost function Enqueued(b: Behaviour, n: nat): seq<Post>
    requires b.Valid() && n <= |b.events|
  {
    if n == 0 then []
    else
      var s, e := b.states[n - 1], b.events[n - 1];
      Enqueued(b, n - 1) + if e.Enqueue? && e.id in s.execs then [Post(e.id, s.execs[e.id].question)] else []
  }

  /** The questions the bridge has taken so far, in order. */
  ghost function Dispatched(b: Behaviour, n: nat): seq<Post>
    requires b.Valid() && n <= |b.events|
  {
    if n == 0 then []
    else
      var s, e := b.states[n - 1], b.events[n - 1];
      Dispatched(b, n - 1) + if e.Dispatch? && s.questions != [] then [s.questions[0]] else []
  }

  /** The question of the request, as its own Execute call was given it. */
  ghost predicate Genuine(b: Behaviour, n: nat, q: Post)
    requires b.Valid() && n <= |b.events|
  {
    Asks(b, n, q) && q.id in b.states[n].execs && q.text == b.states[n].execs[q.id].question
  }

  lemma StaysGenuine(b: Behaviour, n: nat, q: Post)
    requires b.Valid() && n < |b.events| && Genuine(b, n, q)
    ensures Genuine(b, n + 1, q)
  {
    assert b.StepAt(n);
    ExitStep(b.states[n], b.events[n], q.id);
  }

  lemma {:induction false} EnqueuedGenuine(b: Behaviour, n: nat)
    requires b.Valid() && n <= |b.events|
    ensures forall q :: q in Enqueued(b, n) ==> Genuine(b, n, q)
  {
    if n > 0 {
      EnqueuedGenuine(b, n - 1);
      var s, e := b.states[n - 1], b.events[n - 1];
      forall q | q in Enqueued(b, n) ensures Genuine(b, n, q) {
        if q !in Enqueued(b, n - 1) {
          QuestionGiven(b, n - 1, q.id);
        }
        StaysGenuine(b, n - 1, q);
      }
    }
  }

  lemma QueueStep(s: System, e: Event)
    requires Enabled(s, e)
    ensures s.questions + (if e.Enqueue? then [Post(e.id, s.execs[e.id].question)] else [])
         == (if e.Dispatch? then [s.questions[0]] else []) + Next(s, e).questions
  {
    if e.Dispatch? {
      assert s.questions == [s.questions[0]] + s.questions[1..];
    }
  }

  lemma QueueMoves(out: seq<Post>, queue: seq<Post>, added: seq<Post>, taken: seq<Post>, left: seq<Post>)
    requires queue + added == taken + left
    ensures out + queue + added == out + taken + left
  {
    assert out + queue + added == out + (queue + added);
  }

  lemma QuestionsStep(b: Behaviour, n: nat)
    requires b.Valid() && n < |b.events|
    requires Enqueued(b, n) == Dispatched(b, n) + b.states[n].questions
    ensures Enqueued(b, n + 1) == Dispatched(b, n + 1) + b.states[n + 1].questions
  {
    assert b.StepAt(n);
    var s, e := b.states[n], b.events[n];
    QueueStep(s, e);
    var added := if e.Enqueue? then [Post(e.id, s.execs[e.id].question)] else [];
    var taken := if e.Dispatch? then [s.questions[0]] else [];
    QueueMoves(Dispatched(b, n), s.questions, added, taken, b.states[n + 1].questions);
  }

  lemma {:induction false} QueuedInOrder(b: Behaviour, n: nat)
    requires b.Valid() && n <= |b.events|
    ensures Enqueued(b, n) == Dispatched(b, n) + b.states[n].questions
  {
    if n > 0 {
      QueuedInOrder(b, n - 1);
      QuestionsStep(b, n - 1);
    }
  }

  /** Questions are put to the clients in the order in which they were queued, each with the text
      that its own Execute call was given. */
  lemma QuestionsInOrder(b: Behaviour, n: nat)
    requires b.Valid() && n <= |b.events|
    ensures Enqueued(b, n) == Dispatched(b, n) + b.states[n].questions
    ensures forall q :: q in Enqueued(b, n) ==> Genuine(b, n, q)
  {
    EnqueuedGenuine(b, n);
    QueuedInOrder(b, n);
  }

  // ---------------------------------------------------------------------------------------
  // The response queue.

  function Opt(p: Option<Post>): seq<Post> {
    if p.Some? then [p.value] else []
  }

  /** The responses the bridge has forwarded so far, in order. */
  ghost function ForwardedBy(b: Behaviour, n: nat): seq<Post>
    requires b.Valid() && n <= |b.events|
  {
    if n == 0 then [] else ForwardedBy(b, n - 1) + Opt(Forwarded(b.states[n - 1], b.events[n - 1]))
  }

  /** The responses the handler has received so far, in order. */
  ghost function ReceivedBy(b: Behaviour, n: nat): seq<Post>
    requires b.Valid() && n <= |b.events|
  {
    if n == 0 then []
    else ReceivedBy(b, n - 1)
         + if b.events[n - 1].Pop? && b.states[n].handler.Popped? then [b.states[n].handler.response] else []
  }

  lemma ResponseStep(s: System, e: Event)
    requires Enabled(s, e)
    ensures s.responses + Opt(Forwarded(s, e))
         == (if e.Pop? then [Next(s, e).handler.response] else []) + Next(s, e).responses
    ensures e.Pop? ==> Next(s, e).handler.Popped?
  {
    if e.Pop? {
      assert s.responses == [s.responses[0]] + s.responses[1..];
    }
  }

  lemma ResponsesStep(b: Behaviour, n: nat)
    requires b.Valid() && n < |b.events|
    requires ForwardedBy(b, n) == ReceivedBy(b, n) + b.states[n].responses
    ensures ForwardedBy(b, n + 1) == ReceivedBy(b, n + 1) + b.states[n + 1].responses
  {
    assert b.StepAt(n);
    var s, e, s' := b.states[n], b.events[n], b.states[n + 1];
    ResponseStep(s, e);
    var received := if e.Pop? then [s'.handler.response] else [];
    QueueMoves(ReceivedBy(b, n), s.responses, Opt(Forwarded(s, e)), received, s'.responses);
  }

  /** The handler receives the responses in the order in which the bridge forwarded them. */
  lemma {:induction false} ResponsesInOrder(b: Behaviour, n: nat)
    requires b.Valid() && n <= |b.events|
    ensures ForwardedBy(b, n) == ReceivedBy(b, n) + b.states[n].responses
  {
    if n > 0 {
      ResponsesInOrder(b, n - 1);
      ResponsesStep(b, n - 1);
    }
  }

  // ---------------------------------------------------------------------------------------
  // No deadlock.

  /** A step of the handler, the bridge's question arm or this Execute call, not of a client. */
  predicate Internal(e: Event, id: string) {
    match e
    case Pop => true
    case Lookup => true
    case Send => true
    case Dispatch(_) => true
    case Enqueue(i) => i == id
    case Timeout(i) => i == id
    case RemovePending(i) => i == id
    case CloseChannel(i) => i == id
    case _ => false
  }

  /** Full queues never lock the participants against each other: until the process has crashed or
      the Execute call is done, some step towards it can be taken without any client. */
  lemma NoDeadlock(b: Behaviour, n: nat, id: string)
    requires b.Valid() && n <= |b.events|
    requires !b.states[n].handler.Crashed? && id in b.states[n].execs
    ensures b.states[n].execs[id].phase.Done? || exists e :: Internal(e, id) && Enabled(b.states[n], e)
  {
    var s := b.states[n];
    InvariantAt(b, n);
    match s.execs[id].phase
    case Registering =>
      var e := QuestionCanGoOn(s, id);
    case Waiting => assert Enabled(s, Timeout(id));
    case Leaving(_) => assert Enabled(s, RemovePending(id));
    case Removed(_) => assert Enabled(s, CloseChannel(id));
    case Done(_) =>
  }

  lemma QuestionCanGoOn(s: System, id: string) returns (e: Event)
    requires Invariant(s) && !s.handler.Crashed? && InPhase(s, id, Registering)
    ensures Internal(e, id) && Enabled(s, e)
  {
    if |s.questions| < QUEUE_CAPACITY {
      e := Enqueue(id);
    } else if s.bridge.clients != {} {
      var tracked :| tracked in s.bridge.clients;
      e := Dispatch(tracked);
    } else if |s.responses| < QUEUE_CAPACITY {
      e := Dispatch("");
    } else {
      HandlerCanGoOn(s);
      e := if s.handler.Idle? then Pop else if s.handler.Popped? then Lookup else Send;
    }
  }

  lemma HandlerCanGoOn(s: System)
    requires Invariant(s) && !s.handler.Crashed?
    requires !s.handler.Idle? || s.responses != []
    ensures Enabled(s, if s.handler.Idle? then Pop else if s.handler.Popped? then Lookup else Send)
  {
    if s.handler.Holding? {
      HandlerHoldsKnown(s);
    }
  }
}
