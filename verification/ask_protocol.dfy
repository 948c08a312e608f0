/** The ask_user protocol as a transition system: agents' Execute calls, the question queue, the
    bridge, the response queue and the handler goroutine that delivers responses. Execute and the
    handler are split at their lock and channel operations; one pass of the bridge's loop, which
    takes a message and may queue a response and update the active questions, is one step. */
module AskProtocol {
  import opened Options
  import opened AskUser
  import opened QuestionBridge

  const QUEUE_CAPACITY: nat := 10

  datatype Outcome = Answered(answer: string) | TimedOut | Cancelled

  /** Where an Execute call is: registered and about to queue its question, waiting in its select,
      or past it with an outcome, before and after the two halves of its cleanup. */
  datatype Phase =
    | Registering
    | Waiting
    | Leaving(outcome: Outcome)
    | Removed(outcome: Outcome)
    | Done(outcome: Outcome)
  {
    predicate Left() {
      Leaving? || Removed? || Done?
    }

    predicate Out(o: Outcome) {
      Left() && outcome == o
    }
  }

  datatype Exec = Exec(question: string, phase: Phase)

  /** The goroutine that forwards responses. A send on a closed channel panics, and with no
      recover around it that ends the process. */
  datatype Handler = Idle | Popped(response: Post) | Holding(response: Post) | Crashed

  /** How a forwarded response ended. */
  datatype Fate = Sent(result: Sent) | NotFound

  datatype System = System(
    execs: map<string, Exec>,
    tool: Tool,
    questions: seq<Post>,
    bridge: Bridge,
    responses: seq<Post>,
    handler: Handler,
    fates: map<string, Fate>)

  const START := System(map[], Tool({}, map[]), [], NEW_BRIDGE, [], Idle, map[])

  datatype Event =
    | Register(id: string, question: string)
    | Enqueue(id: string)
    | Dispatch(tracked: string)
    | Message(msg: Inbound)
    | Pop
    | Lookup
    | Send
    | Take(id: string)
    | Timeout(id: string)
    | Cancel(id: string)
    | RemovePending(id: string)
    | CloseChannel(id: string)

  predicate InPhase(s: System, id: string, p: Phase) {
    id in s.execs && s.execs[id].phase == p
  }

  predicate Room(s: System, forward: Option<Post>) {
    forward.Some? ==> |s.responses| < QUEUE_CAPACITY
  }

  /** Request IDs are fresh, queues block when full, and a select may take any ready case. */
  predicate Enabled(s: System, e: Event) {
    && s.handler != Crashed
    && match e
       case Register(id, _) => id !in s.execs
       case Enqueue(id) => InPhase(s, id, Registering) && |s.questions| < QUEUE_CAPACITY
       case Dispatch(tracked) =>
         && s.questions != []
         && if s.bridge.clients == {} then |s.responses| < QUEUE_CAPACITY else tracked in s.bridge.clients
       case Message(msg) => Room(s, Handled(s.bridge, msg).forward)
       case Pop => s.handler.Idle? && s.responses != []
       case Lookup => s.handler.Popped?
       case Send => s.handler.Holding? && s.handler.response.id in s.tool.channels
       case Take(id) => InPhase(s, id, Waiting) && id in s.tool.channels && s.tool.channels[id].slot.Some?
       case Timeout(id) => InPhase(s, id, Waiting)
       case Cancel(id) => InPhase(s, id, Waiting)
       case RemovePending(id) => id in s.execs && s.execs[id].phase.Leaving?
       case CloseChannel(id) => id in s.execs && s.execs[id].phase.Removed? && id in s.tool.channels
  }

  function WithPhase(s: System, id: string, p: Phase): System
    requires id in s.execs
  {
    s.(execs := s.execs[id := s.execs[id].(phase := p)])
  }

  function Queued(responses: seq<Post>, forward: Option<Post>): seq<Post> {
    if forward.Some? then responses + [forward.value] else responses
  }

  /** What a step of the bridge puts into the response queue. */
  function Forwarded(s: System, e: Event): Option<Post> {
    match e
    case Dispatch(_) =>
      if s.questions != [] && s.bridge.clients == {} then Some(Post(s.questions[0].id, NO_CLIENTS)) else None
    case Message(msg) => Handled(s.bridge, msg).forward
    case _ => None
  }

  function Next(s: System, e: Event): System
    requires Enabled(s, e)
  {
    match e
    case Register(id, question) =>
      s.(execs := s.execs[id := Exec(question, Registering)], tool := AskUser.Registered(s.tool, id))
    case Enqueue(id) =>
      WithPhase(s, id, Waiting).(questions := s.questions + [Post(id, s.execs[id].question)])
    case Dispatch(tracked) =>
      s.(questions := s.questions[1..],
         responses := Queued(s.responses, Forwarded(s, e)),
         bridge := if s.bridge.clients == {} then s.bridge else Asked(s.bridge, s.questions[0], tracked))
    case Message(msg) =>
      s.(responses := Queued(s.responses, Forwarded(s, e)), bridge := Handled(s.bridge, msg).bridge)
    case Pop =>
      s.(handler := Popped(s.responses[0]), responses := s.responses[1..])
    case Lookup =>
      var r := s.handler.response;
      if r.id in s.tool.pending then s.(handler := Holding(r))
      else s.(handler := Idle, fates := s.fates[r.id := NotFound])
    case Send =>
      var r := s.handler.response;
      var result := SendResult(s.tool.channels[r.id]);
      s.(tool := WithChannel(s.tool, r.id, AfterSend(s.tool.channels[r.id], r.text)),
         handler := if result == SendPanics then Crashed else Idle,
         fates := s.fates[r.id := Sent(result)])
    case Take(id) =>
      WithPhase(s, id, Leaving(Answered(s.tool.channels[id].slot.value)))
        .(tool := WithChannel(s.tool, id, s.tool.channels[id].(slot := None)))
    case Timeout(id) => WithPhase(s, id, Leaving(TimedOut))
    case Cancel(id) => WithPhase(s, id, Leaving(Cancelled))
    case RemovePending(id) =>
      WithPhase(s, id, Removed(s.execs[id].phase.outcome)).(tool := Forgotten(s.tool, id))
    case CloseChannel(id) =>
      WithPhase(s, id, Done(s.execs[id].phase.outcome))
        .(tool := WithChannel(s.tool, id, s.tool.channels[id].(closed := true)))
  }

  /** A run: the states passed through, from the start, and the events between them. */
  datatype Behaviour = Behaviour(states: seq<System>, events: seq<Event>)
  {
    predicate StepAt(i: nat)
      requires |states| == |events| + 1 && i < |events|
    {
      Enabled(states[i], events[i]) && states[i + 1] == Next(states[i], events[i])
    }

    predicate Valid() {
      && |states| == |events| + 1
      && states[0] == START
      && forall i {:trigger StepAt(i)} :: 0 <= i < |events| ==> StepAt(i)
    }
  }

  // ---------------------------------------------------------------------------------------
  // Token conservation.

  function Count(posts: seq<Post>, id: string): nat {
    if posts == [] then 0 else (if posts[0].id == id then 1 else 0) + Count(posts[1..], id)
  }

  lemma {:induction false} CountAppend(posts: seq<Post>, p: Post, id: string)
    ensures Count(posts + [p], id) == Count(posts, id) + if p.id == id then 1 else 0
    decreases |posts|
  {
    if posts == [] {
      assert [p][1..] == [];
    } else {
      assert (posts + [p])[1..] == posts[1..] + [p];
      CountAppend(posts[1..], p, id);
    }
  }

  lemma {:induction false} CountMember(posts: seq<Post>, p: Post)
    requires p in posts
    ensures Count(posts, p.id) >= 1
    decreases |posts|
  {
    if posts[0] != p {
      CountMember(posts[1..], p);
    }
  }

  function One(b: bool): nat {
    if b then 1 else 0
  }

  predicate InHandler(h: Handler, id: string) {
    (h.Popped? || h.Holding?) && h.response.id == id
  }

  /** How often the request's token is in each of the places it can be: not yet queued, in the
      question queue, active, in the response queue, with the handler, or at its end. */
  function Places(s: System, id: string): nat {
    One(InPhase(s, id, Registering))
    + Count(s.questions, id)
    + One(id in s.bridge.active)
    + Count(s.responses, id)
    + One(InHandler(s.handler, id))
    + One(id in s.fates)
  }

  lemma QueuedCount(responses: seq<Post>, forward: Option<Post>, id: string)
    ensures Count(Queued(responses, forward), id) == Count(responses, id) + One(forward.Some? && forward.value.id == id)
  {
    if forward.Some? {
      CountAppend(responses, forward.value, id);
    }
  }

  ghost predicate OnePlaceEach(s: System) {
    forall id :: Places(s, id) == One(id in s.execs)
  }

  lemma DispatchMovesToken(s: System, e: Event, id: string)
    requires OnePlaceEach(s) && Enabled(s, e) && e.Dispatch?
    ensures Places(Next(s, e), id) == Places(s, id)
  {
    var head := s.questions[0];
    CountMember(s.questions, head);
    assert Places(s, head.id) == One(head.id in s.execs);
    QueuedCount(s.responses, Forwarded(s, e), id);
  }

  lemma MessageMovesToken(s: System, e: Event, id: string)
    requires Enabled(s, e) && e.Message?
    ensures Places(Next(s, e), id) == Places(s, id)
  {
    var forward := Forwarded(s, e);
    QueuedCount(s.responses, forward, id);
    var b, b' := s.bridge, Handled(s.bridge, e.msg).bridge;
    assert id in b'.active <==> id in b.active && !(forward.Some? && forward.value.id == id);
    assert forward.Some? ==> forward.value.id in b.active;
  }

  lemma HandlerMovesToken(s: System, e: Event, id: string)
    requires OnePlaceEach(s) && Enabled(s, e) && (e.Pop? || e.Lookup? || e.Send?)
    ensures Places(Next(s, e), id) == Places(s, id)
  {
    if !e.Pop? {
      assert Places(s, s.handler.response.id) == One(s.handler.response.id in s.execs);
    }
  }

  lemma ExecMovesToken(s: System, e: Event, id: string)
    requires OnePlaceEach(s) && Enabled(s, e)
    requires !e.Dispatch? && !e.Message? && !e.Pop? && !e.Lookup? && !e.Send?
    ensures Places(Next(s, e), id) == Places(s, id) + One(e.Register? && e.id == id)
  {
    if e.Register? {
      assert Places(s, e.id) == 0;
    } else if e.Enqueue? {
      CountAppend(s.questions, Post(e.id, s.execs[e.id].question), id);
    }
  }

  /** No step copies a token or loses one. */
  lemma StepMovesToken(s: System, e: Event, id: string)
    requires OnePlaceEach(s) && Enabled(s, e)
    ensures Places(Next(s, e), id) == One(id in Next(s, e).execs)
  {
    assert Places(s, id) == One(id in s.execs);
    match e
    case Dispatch(_) => DispatchMovesToken(s, e, id);
    case Message(_) => MessageMovesToken(s, e, id);
    case Pop => HandlerMovesToken(s, e, id);
    case Lookup => HandlerMovesToken(s, e, id);
    case Send => HandlerMovesToken(s, e, id);
    case _ => ExecMovesToken(s, e, id);
  }

  // ---------------------------------------------------------------------------------------
  // Channel lifecycle.

  /** The channel of a registered request against the progress of its Execute call. */
  ghost predicate ChannelFits(s: System, id: string) {
    && id in s.execs && id in s.tool.channels
    && var p, c := s.execs[id].phase, s.tool.channels[id];
       && (id in s.tool.pending <==> p.Registering? || p.Waiting? || p.Leaving?)
       && (c.closed <==> p.Done?)
       && (id in s.fates && s.fates[id] == Sent(Delivered) ==>
             !p.Registering? && (c.slot.Some? <==> !(p.Left() && p.outcome.Answered?)))
       && (!(id in s.fates && s.fates[id] == Sent(Delivered)) ==>
             c.slot.None? && (p.Left() ==> !p.outcome.Answered?))
       && (id in s.fates && s.fates[id] == NotFound ==> p.Removed? || p.Done?)
       && (id in s.fates && s.fates[id] == Sent(SendPanics) ==>
             s.handler.Crashed? && (p == Done(TimedOut) || p == Done(Cancelled)))
       && !(id in s.fates && s.fates[id] == Sent(ChannelFull))
  }

  ghost predicate Invariant(s: System) {
    && OnePlaceEach(s)
    && s.execs.Keys == s.tool.channels.Keys
    && s.tool.pending <= s.execs.Keys
    && (forall id :: id in s.execs ==> ChannelFits(s, id))
  }

  lemma HandlerHoldsKnown(s: System)
    requires Invariant(s) && (s.handler.Popped? || s.handler.Holding?)
    ensures s.handler.response.id in s.execs && s.handler.response.id !in s.fates
  {
    assert Places(s, s.handler.response.id) == One(s.handler.response.id in s.execs);
  }

  lemma BridgeKeepsChannel(s: System, e: Event, id: string)
    requires Enabled(s, e) && (e.Dispatch? || e.Message? || e.Pop?)
    requires ChannelFits(s, id)
    ensures ChannelFits(Next(s, e), id)
  {
  }

  lemma HandlerKeepsChannel(s: System, e: Event, id: string)
    requires Invariant(s) && Enabled(s, e) && (e.Lookup? || e.Send?) && id in s.execs
    ensures ChannelFits(Next(s, e), id)
  {
    HandlerHoldsKnown(s);
    assert ChannelFits(s, id);
    if e.Send? && s.handler.response.id == id {
      assert Places(s, id) == 1;
    }
  }

  predicate ExecStep(e: Event) {
    !e.Dispatch? && !e.Message? && !e.Pop? && !e.Lookup? && !e.Send?
  }

  /** A step of one Execute call does not touch another request. */
  lemma OtherExecKeepsChannel(s: System, e: Event, id: string)
    requires Enabled(s, e) && ExecStep(e) && e.id != id
    requires ChannelFits(s, id)
    ensures ChannelFits(Next(s, e), id)
  {
  }

  lemma OwnExecKeepsChannel(s: System, e: Event)
    requires Invariant(s) && Enabled(s, e) && ExecStep(e)
    ensures ChannelFits(Next(s, e), e.id)
  {
    assert Places(s, e.id) == One(e.id in s.execs);
    if e.id in s.execs {
      assert ChannelFits(s, e.id);
    }
  }

  lemma StepKeepsChannel(s: System, e: Event, id: string)
    requires Invariant(s) && Enabled(s, e) && id in Next(s, e).execs
    ensures ChannelFits(Next(s, e), id)
  {
    if e.Dispatch? || e.Message? || e.Pop? {
      BridgeKeepsChannel(s, e, id);
    } else if e.Lookup? || e.Send? {
      HandlerKeepsChannel(s, e, id);
    } else if e.id == id {
      OwnExecKeepsChannel(s, e);
    } else {
      OtherExecKeepsChannel(s, e, id);
    }
  }

  lemma StepKeepsInvariant(s: System, e: Event)
    requires Invariant(s) && Enabled(s, e)
    ensures Invariant(Next(s, e))
  {
    var s' := Next(s, e);
    forall id ensures Places(s', id) == One(id in s'.execs) {
      StepMovesToken(s, e, id);
    }
    forall id | id in s'.execs ensures ChannelFits(s', id) {
      StepKeepsChannel(s, e, id);
    }
    StepKeepsKeys(s, e);
  }

  lemma StepKeepsKeys(s: System, e: Event)
    requires Enabled(s, e)
    requires s.execs.Keys == s.tool.channels.Keys && s.tool.pending <= s.execs.Keys
    requires e.Send? ==> s.handler.response.id in s.execs
    ensures Next(s, e).execs.Keys == Next(s, e).tool.channels.Keys
    ensures Next(s, e).tool.pending <= Next(s, e).execs.Keys
  {
  }

  lemma {:induction false} InvariantAt(b: Behaviour, n: nat)
    requires b.Valid() && n <= |b.events|
    ensures Invariant(b.states[n])
  {
    if n > 0 {
      InvariantAt(b, n - 1);
      assert b.StepAt(n - 1);
      StepKeepsInvariant(b.states[n - 1], b.events[n - 1]);
    }
  }
}
