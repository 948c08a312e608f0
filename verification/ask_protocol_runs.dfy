/** Theorems about whole runs of the ask_user protocol. In each, `n` is any point of the run. */
module AskProtocolRuns {
  import opened Options
  import opened AskUser
  import opened QuestionBridge
  import opened AskProtocol

  // ---------------------------------------------------------------------------------------
  // Tokens.

  predicate Names(p: Option<Post>, id: string) {
    p.Some? && p.value.id == id
  }

  /** How many responses the bridge forwarded for a request in the first `n` steps. */
  ghost function Forwards(b: Behaviour, n: nat, id: string): nat
    requires b.Valid() && n <= |b.events|
  {
    if n == 0 then 0
    else Forwards(b, n - 1, id) + One(Names(Forwarded(b.states[n - 1], b.events[n - 1]), id))
  }

  /** The places a forwarded response can be in. */
  function Underway(s: System, id: string): nat {
    Count(s.responses, id) + One(InHandler(s.handler, id)) + One(id in s.fates)
  }

  lemma StepForwards(s: System, e: Event, id: string)
    requires Invariant(s) && Enabled(s, e)
    ensures Underway(Next(s, e), id) == Underway(s, id) + One(Names(Forwarded(s, e), id))
  {
    QueuedCount(s.responses, Forwarded(s, e), id);
    if e.Lookup? || e.Send? {
      HandlerHoldsKnown(s);
    }
  }

  lemma {:induction false} ForwardsAreUnderway(b: Behaviour, n: nat, id: string)
    requires b.Valid() && n <= |b.events|
    ensures Forwards(b, n, id) == Underway(b.states[n], id)
  {
    if n > 0 {
      ForwardsAreUnderway(b, n - 1, id);
      InvariantAt(b, n - 1);
      assert b.StepAt(n - 1);
      StepForwards(b.states[n - 1], b.events[n - 1], id);
    }
  }

  /** Over every run, each issued request is in exactly one place and nothing else is in any;
      so at most one response is ever forwarded for a request, and HandleUserResponse never finds
      its channel full. */
  lemma TokenConservation(b: Behaviour, n: nat, id: string)
    requires b.Valid() && n <= |b.events|
    ensures Places(b.states[n], id) == One(id in b.states[n].execs)
    ensures Forwards(b, n, id) <= 1
    ensures id in b.states[n].fates ==> b.states[n].fates[id] != Sent(ChannelFull)
  {
    InvariantAt(b, n);
    ForwardsAreUnderway(b, n, id);
    var s := b.states[n];
    assert Places(s, id) == One(id in s.execs);
    if id in s.fates {
      assert ChannelFits(s, id);
    }
  }

  /** An answer that was delivered while its Execute call still waits is there for the taking. */
  lemma DeliveredIsAvailable(b: Behaviour, n: nat, id: string)
    requires b.Valid() && n <= |b.events|
    requires InPhase(b.states[n], id, Waiting) && b.states[n].handler != Crashed
    requires id in b.states[n].fates && b.states[n].fates[id] == Sent(Delivered)
    ensures Enabled(b.states[n], Take(id))
  {
    InvariantAt(b, n);
    assert ChannelFits(b.states[n], id);
  }

  // ---------------------------------------------------------------------------------------
  // Channels.

  /** How often an event happened in the first `n` steps. */
  ghost function Times(b: Behaviour, n: nat, e: Event): nat
    requires b.Valid() && n <= |b.events|
  {
    if n == 0 then 0 else Times(b, n - 1, e) + One(b.events[n - 1] == e)
  }

  predicate PastRemoval(s: System, id: string) {
    id in s.execs && (s.execs[id].phase.Removed? || s.execs[id].phase.Done?)
  }

  predicate PastClose(s: System, id: string) {
    id in s.execs && s.execs[id].phase.Done?
  }

  lemma CleanupStep(s: System, e: Event, id: string)
    requires Enabled(s, e)
    ensures One(PastRemoval(Next(s, e), id)) == One(PastRemoval(s, id)) + One(e == RemovePending(id))
    ensures One(PastClose(Next(s, e), id)) == One(PastClose(s, id)) + One(e == CloseChannel(id))
  {
  }

  lemma {:induction false} CleanupTimes(b: Behaviour, n: nat, id: string)
    requires b.Valid() && n <= |b.events|
    ensures Times(b, n, RemovePending(id)) == One(PastRemoval(b.states[n], id))
    ensures Times(b, n, CloseChannel(id)) == One(PastClose(b.states[n], id))
  {
    if n > 0 {
      CleanupTimes(b, n - 1, id);
      assert b.StepAt(n - 1);
      CleanupStep(b.states[n - 1], b.events[n - 1], id);
    }
  }

  /** A request is pending until the first half of its cleanup, its channel is open until the
      second, and either half runs at most once, by whichever exit Execute leaves. */
  lemma ChannelLifecycle(b: Behaviour, n: nat, id: string)
    requires b.Valid() && n <= |b.events| && id in b.states[n].execs
    ensures id in b.states[n].tool.channels
    ensures id in b.states[n].tool.pending <==> Times(b, n, RemovePending(id)) == 0
    ensures !b.states[n].tool.channels[id].closed <==> Times(b, n, CloseChannel(id)) == 0
    ensures Times(b, n, CloseChannel(id)) <= Times(b, n, RemovePending(id)) <= 1
  {
    InvariantAt(b, n);
    CleanupTimes(b, n, id);
    assert ChannelFits(b.states[n], id);
  }

  /** `e` happened at a step after `lo` and before `hi`. */
  ghost predicate Between(b: Behaviour, lo: nat, hi: nat, e: Event) {
    exists j :: lo < j < hi && j < |b.events| && b.events[j] == e
  }

  lemma {:induction false} BetweenCounts(b: Behaviour, lo: nat, hi: nat, e: Event)
    requires b.Valid() && lo < hi <= |b.events|
    ensures Times(b, lo + 1, e) <= Times(b, hi, e)
    ensures Between(b, lo, hi, e) <==> Times(b, lo + 1, e) < Times(b, hi, e)
    decreases hi
  {
    if lo + 1 < hi {
      BetweenCounts(b, lo, hi - 1, e);
      if b.events[hi - 1] == e {
        assert Between(b, lo, hi, e);
      } else if Between(b, lo, hi, e) {
        var j :| lo < j < hi && b.events[j] == e;
        assert Between(b, lo, hi - 1, e);
      } else {
        assert forall j :: lo < j < hi - 1 ==> b.events[j] != e;
      }
    }
  }

  lemma HoldingStep(s: System, e: Event)
    requires Enabled(s, e) && Next(s, e).handler.Holding?
    ensures if e == Lookup
            then s.handler == Popped(Next(s, e).handler.response) && s.handler.response.id in s.tool.pending
            else s.handler == Next(s, e).handler
  {
  }

  /** While the handler holds a channel, there is a step `m` at which it looked it up. */
  lemma {:induction false} LookedUpAt(b: Behaviour, n: nat) returns (m: nat)
    requires b.Valid() && n <= |b.events| && b.states[n].handler.Holding?
    ensures m < n && b.events[m] == Lookup
    ensures b.states[m].handler == Popped(b.states[n].handler.response)
    ensures b.states[n].handler.response.id in b.states[m].tool.pending
  {
    assert b.StepAt(n - 1);
    HoldingStep(b.states[n - 1], b.events[n - 1]);
    if b.events[n - 1] == Lookup {
      m := n - 1;
    } else {
      m := LookedUpAt(b, n - 1);
    }
  }

  /** From a step `m` that is not part of its cleanup and finds a request pending, the request's
      channel is closed by `n` exactly if the close came in between, and then so did the removal. */
  lemma CleanedBetween(b: Behaviour, m: nat, n: nat, id: string)
    requires b.Valid() && m < n <= |b.events|
    requires !PastRemoval(b.states[m], id) && b.events[m] == Lookup
    ensures Between(b, m, n, CloseChannel(id)) <==> PastClose(b.states[n], id)
    ensures Between(b, m, n, RemovePending(id)) <==> PastRemoval(b.states[n], id)
  {
    CleanupTimes(b, m + 1, id);
    CleanupTimes(b, n, id);
    assert b.StepAt(m);
    CleanupStep(b.states[m], Lookup, id);
    BetweenCounts(b, m, n, CloseChannel(id));
    BetweenCounts(b, m, n, RemovePending(id));
  }

  lemma HeldChannel(s: System)
    requires Invariant(s) && s.handler.Holding?
    ensures var id := s.handler.response.id;
            && id in s.execs && id in s.tool.channels
            && SendResult(s.tool.channels[id]) == (if PastClose(s, id) then SendPanics else Delivered)
            && (PastClose(s, id) ==> s.execs[id].phase in {Done(TimedOut), Done(Cancelled)})
  {
    HandlerHoldsKnown(s);
    assert ChannelFits(s, s.handler.response.id);
  }

  /** A send meets a closed channel exactly when its request went through both halves of its
      cleanup since the lookup at `m`; such a request left by timeout or cancellation, never by
      taking an answer. In every other case the send delivers. */
  lemma SendMeetsClosedIff(b: Behaviour, n: nat) returns (m: nat)
    requires b.Valid() && n <= |b.events| && b.states[n].handler.Holding?
    ensures m < n && b.events[m] == Lookup
    ensures var s, id := b.states[n], b.states[n].handler.response.id;
            && b.states[m].handler == Popped(s.handler.response)
            && id in s.execs && id in s.tool.channels
            && SendResult(s.tool.channels[id]) == (if Between(b, m, n, CloseChannel(id)) then SendPanics else Delivered)
            && (Between(b, m, n, CloseChannel(id)) ==>
                  Between(b, m, n, RemovePending(id)) && s.execs[id].phase in {Done(TimedOut), Done(Cancelled)})
  {
    m := LookedUpAt(b, n);
    var id := b.states[n].handler.response.id;
    InvariantAt(b, m);
    InvariantAt(b, n);
    HeldChannel(b.states[n]);
    assert ChannelFits(b.states[m], id);
    CleanedBetween(b, m, n, id);
  }

  /** One more step at the end of a run. */
  lemma Extend(b: Behaviour, s: System, e: Event, s': System) returns (more: Behaviour)
    requires b.Valid() && b.states[|b.events|] == s && Enabled(s, e) && Next(s, e) == s'
    ensures more.Valid() && more.states[|more.events|] == s' && more.events == b.events + [e]
  {
    more := Behaviour(b.states + [s'], b.events + [e]);
    forall i | 0 <= i < |more.events| ensures more.StepAt(i) {
      if i < |b.events| {
        assert b.StepAt(i);
      }
    }
  }

  // One request "r", asked of one client "c".

  const QUESTION := Post("r", "ok?")
  const CONNECTED := Bridge({"c"}, map[], map["c" := [ConnectAck]])
  const ASKED := Bridge({"c"}, map["r" := "c"], map["c" := [ConnectAck, Ask(QUESTION)]])

  lemma ConnectStep(s: System)
    requires s.bridge == NEW_BRIDGE && s.handler == Idle
    ensures var hello := Message(Inbound("c", true, QuestionBridge.Connect));
            Enabled(s, hello) && Next(s, hello) == s.(bridge := CONNECTED)
  {
    assert [] + [ConnectAck] == [ConnectAck];
    assert Deliver(map[], {"c"}, ConnectAck) == CONNECTED.outbox;
  }

  lemma DispatchStep(s: System)
    requires s.bridge == CONNECTED && s.questions == [QUESTION] && s.handler == Idle
    ensures Enabled(s, Dispatch("c")) && Next(s, Dispatch("c")) == s.(questions := [], bridge := ASKED)
  {
    assert [ConnectAck] + [Ask(QUESTION)] == [ConnectAck, Ask(QUESTION)];
    assert Deliver(CONNECTED.outbox, {"c"}, Ask(QUESTION)) == ASKED.outbox;
  }

  /** The state in which its answer, "yes", has been looked up. */
  function AnswerInHand(phase: Phase, tool: Tool): System {
    System(map["r" := Exec("ok?", phase)], tool, [], ASKED.(active := map[]), [], Holding(Post("r", "yes")), map[])
  }

  lemma ReachAsked() returns (b: Behaviour)
    ensures b.Valid()
    ensures b.states[|b.events|] ==
      AnswerInHand(Waiting, Tool({"r"}, map["r" := NEW_CHANNEL])).(handler := Idle, bridge := ASKED)
  {
    var registered := Tool({"r"}, map["r" := NEW_CHANNEL]);
    var early, late := map["r" := Exec("ok?", Registering)], map["r" := Exec("ok?", Waiting)];
    var s1 := System(early, registered, [], NEW_BRIDGE, [], Idle, map[]);
    var s2 := System(early, registered, [], CONNECTED, [], Idle, map[]);
    var s3 := System(late, registered, [QUESTION], CONNECTED, [], Idle, map[]);
    var s4 := System(late, registered, [], ASKED, [], Idle, map[]);
    b := Behaviour([START], []);
    b := Extend(b, START, Register("r", "ok?"), s1);
    ConnectStep(s1);
    b := Extend(b, s1, Message(Inbound("c", true, QuestionBridge.Connect)), s2);
    b := Extend(b, s2, Enqueue("r"), s3);
    DispatchStep(s3);
    b := Extend(b, s3, Dispatch("c"), s4);
  }

  lemma ReachAnswerInHand() returns (b: Behaviour)
    ensures b.Valid()
    ensures b.states[|b.events|] == AnswerInHand(Waiting, Tool({"r"}, map["r" := NEW_CHANNEL]))
  {
    var a := Post("r", "yes");
    var found := AnswerInHand(Waiting, Tool({"r"}, map["r" := NEW_CHANNEL]));
    b := ReachAsked();
    var s4 := b.states[|b.events|];
    var s5 := found.(handler := Idle, responses := [a]);
    var s6 := found.(handler := Popped(a));
    b := Extend(b, s4, Message(Inbound("c", true, UserResponse(Reply("r", "yes")))), s5);
    b := Extend(b, s5, Pop, s6);
    b := Extend(b, s6, Lookup, found);
  }

  /** It does happen: a reply is looked up just before the timeout, and sent after the close. */
  lemma SendCanMeetClosed() returns (b: Behaviour)
    ensures b.Valid() && b.states[|b.events|].handler.Crashed?
  {
    b := ReachAnswerInHand();
    var open, shut := map["r" := NEW_CHANNEL], map["r" := Channel(None, true)];
    var s0 := AnswerInHand(Waiting, Tool({"r"}, open));
    var s1 := AnswerInHand(Leaving(TimedOut), Tool({"r"}, open));
    var s2 := AnswerInHand(Removed(TimedOut), Tool({}, open));
    var s3 := AnswerInHand(Done(TimedOut), Tool({}, shut));
    b := Extend(b, s0, Timeout("r"), s1);
    b := Extend(b, s1, RemovePending("r"), s2);
    b := Extend(b, s2, CloseChannel("r"), s3);
    b := Extend(b, s3, Send, Next(s3, Send));
  }

  // ---------------------------------------------------------------------------------------
  // Answers.

  /** At step `d` the bridge took the request's question from the queue. */
  ghost predicate DispatchedAt(b: Behaviour, d: nat, id: string)
    requires b.Valid()
  {
    d < |b.events| && b.events[d].Dispatch? && b.states[d].questions != [] && b.states[d].questions[0].id == id
  }

  predicate IsReply(e: Event, id: string) {
    e.Message? && e.msg.kind.UserResponse? && e.msg.kind.payload.Reply? && e.msg.kind.payload.id == id
  }

  predicate Answers(e: Event, id: string, answer: string) {
    IsReply(e, id) && e.msg.kind.payload.answer == answer
  }

  ghost predicate NoReplyBetween(b: Behaviour, d: nat, k: nat, id: string) {
    forall j :: d < j < k && j < |b.events| ==> !IsReply(b.events[j], id)
  }

  /** `k` is where the bridge found the answer: at the dispatch itself, when there was no client
      to ask, or at the first reply that names the request after its dispatch at `d`. */
  ghost predicate AnswerFrom(b: Behaviour, d: nat, k: nat, id: string, answer: string)
    requires b.Valid()
  {
    && DispatchedAt(b, d, id)
    && if b.states[d].bridge.clients == {} then k == d && answer == NO_CLIENTS
       else d < k < |b.events| && Answers(b.events[k], id, answer) && NoReplyBetween(b, d, k, id)
  }

  ghost predicate Justified(b: Behaviour, n: nat, id: string, answer: string)
    requires b.Valid()
  {
    exists d: nat, k: nat :: k < n && AnswerFrom(b, d, k, id, answer)
  }

  /** The question was put to clients at `d` and no reply has named it since. */
  ghost predicate OpenSince(b: Behaviour, d: nat, n: nat, id: string)
    requires b.Valid()
  {
    d < n && DispatchedAt(b, d, id) && b.states[d].bridge.clients != {} && NoReplyBetween(b, d, n, id)
  }

  ghost predicate ActiveOpen(b: Behaviour, n: nat)
    requires b.Valid() && n <= |b.events|
  {
    forall id :: id in b.states[n].bridge.active ==> exists d: nat :: OpenSince(b, d, n, id)
  }

  // Every response text anywhere in the system is the one its request should get.

  ghost predicate ResponsesJustified(b: Behaviour, n: nat)
    requires b.Valid() && n <= |b.events|
  {
    forall p :: p in b.states[n].responses ==> Justified(b, n, p.id, p.text)
  }

  ghost predicate HandlerJustified(b: Behaviour, n: nat)
    requires b.Valid() && n <= |b.events|
  {
    var h := b.states[n].handler;
    h.Popped? || h.Holding? ==> Justified(b, n, h.response.id, h.response.text)
  }

  ghost predicate SlotsJustified(b: Behaviour, n: nat)
    requires b.Valid() && n <= |b.events|
  {
    var channels := b.states[n].tool.channels;
    forall id :: id in channels && channels[id].slot.Some? ==> Justified(b, n, id, channels[id].slot.value)
  }

  ghost predicate OutcomesJustified(b: Behaviour, n: nat)
    requires b.Valid() && n <= |b.events|
  {
    var execs := b.states[n].execs;
    forall id, a :: id in execs && execs[id].phase.Out(Answered(a)) ==> Justified(b, n, id, a)
  }

  /** Which requests a step makes or keeps active. */
  lemma ActiveStep(s: System, e: Event, id: string)
    requires Enabled(s, e) && id in Next(s, e).bridge.active
    ensures
      || (e.Dispatch? && s.questions[0].id == id && s.bridge.clients != {})
      || (id in s.bridge.active && !IsReply(e, id))
  {
  }

  lemma {:induction false} ActiveOpenAt(b: Behaviour, n: nat)
    requires b.Valid() && n <= |b.events|
    ensures ActiveOpen(b, n)
  {
    if n > 0 {
      ActiveOpenAt(b, n - 1);
      assert b.StepAt(n - 1);
      var s, e := b.states[n - 1], b.events[n - 1];
      forall id | id in b.states[n].bridge.active ensures exists d: nat :: OpenSince(b, d, n, id) {
        ActiveStep(s, e, id);
        if e.Dispatch? && s.questions[0].id == id && s.bridge.clients != {} {
          assert OpenSince(b, n - 1, n, id);
        } else {
          var d: nat :| OpenSince(b, d, n - 1, id);
          assert OpenSince(b, d, n, id);
        }
      }
    }
  }

  /** What a step forwards. */
  lemma ForwardStep(s: System, e: Event)
    requires Enabled(s, e) && Forwarded(s, e).Some?
    ensures var p := Forwarded(s, e).value;
      || (e.Dispatch? && s.questions[0].id == p.id && s.bridge.clients == {} && p.text == NO_CLIENTS)
      || (p.id in s.bridge.active && Answers(e, p.id, p.text))
  {
  }

  lemma ForwardJustified(b: Behaviour, n: nat)
    requires b.Valid() && 0 < n <= |b.events|
    requires Forwarded(b.states[n - 1], b.events[n - 1]).Some?
    ensures var p := Forwarded(b.states[n - 1], b.events[n - 1]).value; Justified(b, n, p.id, p.text)
  {
    var s, e := b.states[n - 1], b.events[n - 1];
    var p := Forwarded(s, e).value;
    assert b.StepAt(n - 1);
    ForwardStep(s, e);
    if e.Dispatch? {
      assert AnswerFrom(b, n - 1, n - 1, p.id, p.text);
    } else {
      ActiveOpenAt(b, n - 1);
      var d: nat :| OpenSince(b, d, n - 1, p.id);
      assert AnswerFrom(b, d, n - 1, p.id, p.text);
    }
  }

  lemma JustifiedLater(b: Behaviour, n: nat, id: string, answer: string)
    requires b.Valid() && Justified(b, n, id, answer)
    ensures Justified(b, n + 1, id, answer)
  {
    var d: nat, k: nat :| k < n && AnswerFrom(b, d, k, id, answer);
  }

  /** Where the texts of the next state come from. */
  lemma TextsStep(s: System, e: Event)
    requires Enabled(s, e)
    ensures var s' := Next(s, e);
      && (forall p :: p in s'.responses ==> p in s.responses || Forwarded(s, e) == Some(p))
      && (s'.handler.Popped? ==> s'.handler.response in s.responses || s'.handler == s.handler)
      && (s'.handler.Holding? ==>
            (s.handler.Popped? || s.handler.Holding?) && s'.handler.response == s.handler.response)
      && (forall id :: id in s'.tool.channels && s'.tool.channels[id].slot.Some? ==>
            || (id in s.tool.channels && s'.tool.channels[id].slot == s.tool.channels[id].slot)
            || (s.handler.Holding? && s.handler.response == Post(id, s'.tool.channels[id].slot.value)))
      && (forall id, a :: id in s'.execs && s'.execs[id].phase.Out(Answered(a)) ==>
            || (id in s.execs && s.execs[id].phase.Out(Answered(a)))
            || (id in s.tool.channels && s.tool.channels[id].slot == Some(a)))
  {
  }

  lemma {:induction false} ResponsesJustifiedAt(b: Behaviour, n: nat)
    requires b.Valid() && n <= |b.events|
    ensures ResponsesJustified(b, n)
  {
    if n > 0 {
      ResponsesJustifiedAt(b, n - 1);
      assert b.StepAt(n - 1);
      var s, e := b.states[n - 1], b.events[n - 1];
      TextsStep(s, e);
      forall p | p in b.states[n].responses ensures Justified(b, n, p.id, p.text) {
        if p in s.responses {
          JustifiedLater(b, n - 1, p.id, p.text);
        } else {
          ForwardJustified(b, n);
        }
      }
    }
  }

  lemma {:induction false} HandlerJustifiedAt(b: Behaviour, n: nat)
    requires b.Valid() && n <= |b.events|
    ensures HandlerJustified(b, n)
  {
    var h := b.states[n].handler;
    if n > 0 && (h.Popped? || h.Holding?) {
      HandlerJustifiedAt(b, n - 1);
      ResponsesJustifiedAt(b, n - 1);
      assert b.StepAt(n - 1);
      TextsStep(b.states[n - 1], b.events[n - 1]);
      JustifiedLater(b, n - 1, h.response.id, h.response.text);
    }
  }

  lemma {:induction false} SlotsJustifiedAt(b: Behaviour, n: nat)
    requires b.Valid() && n <= |b.events|
    ensures SlotsJustified(b, n)
  {
    if n > 0 {
      SlotsJustifiedAt(b, n - 1);
      HandlerJustifiedAt(b, n - 1);
      assert b.StepAt(n - 1);
      TextsStep(b.states[n - 1], b.events[n - 1]);
      var channels := b.states[n].tool.channels;
      forall id | id in channels && channels[id].slot.Some? ensures Justified(b, n, id, channels[id].slot.value) {
        JustifiedLater(b, n - 1, id, channels[id].slot.value);
      }
    }
  }

  lemma {:induction false} OutcomesJustifiedAt(b: Behaviour, n: nat)
    requires b.Valid() && n <= |b.events|
    ensures OutcomesJustified(b, n)
  {
    if n > 0 {
      OutcomesJustifiedAt(b, n - 1);
      SlotsJustifiedAt(b, n - 1);
      assert b.StepAt(n - 1);
      TextsStep(b.states[n - 1], b.events[n - 1]);
      var execs := b.states[n].execs;
      forall id, a | id in execs && execs[id].phase.Out(Answered(a)) ensures Justified(b, n, id, a) {
        JustifiedLater(b, n - 1, id, a);
      }
    }
  }

  // A question is dispatched once.

  /** The request has been taken from the question queue. */
  predicate Gone(s: System, id: string) {
    id in s.execs && !s.execs[id].phase.Registering? && Count(s.questions, id) == 0
  }

  lemma StepKeepsGone(s: System, e: Event, id: string)
    requires Enabled(s, e) && Gone(s, id)
    ensures Gone(Next(s, e), id)
  {
    if e.Enqueue? {
      CountAppend(s.questions, Post(e.id, s.execs[e.id].question), id);
    }
  }

  lemma {:induction false} StaysGone(b: Behaviour, m: nat, n: nat, id: string)
    requires b.Valid() && m <= n <= |b.events| && Gone(b.states[m], id)
    ensures Gone(b.states[n], id)
    decreases n
  {
    if m < n {
      StaysGone(b, m, n - 1, id);
      assert b.StepAt(n - 1);
      StepKeepsGone(b.states[n - 1], b.events[n - 1], id);
    }
  }

  lemma DispatchIsGone(s: System, e: Event)
    requires Invariant(s) && Enabled(s, e) && e.Dispatch?
    ensures Gone(Next(s, e), s.questions[0].id)
  {
    CountMember(s.questions, s.questions[0]);
    assert Places(s, s.questions[0].id) == One(s.questions[0].id in s.execs);
  }

  lemma NotDispatchedAgain(b: Behaviour, d1: nat, d2: nat, id: string)
    requires b.Valid() && DispatchedAt(b, d1, id) && DispatchedAt(b, d2, id)
    ensures d1 >= d2
  {
    CountMember(b.states[d2].questions, b.states[d2].questions[0]);
    if d1 < d2 {
      InvariantAt(b, d1);
      assert b.StepAt(d1);
      DispatchIsGone(b.states[d1], b.events[d1]);
      StaysGone(b, d1 + 1, d2, id);
    }
  }

  lemma DispatchedOnce(b: Behaviour, d1: nat, d2: nat, id: string)
    requires b.Valid() && DispatchedAt(b, d1, id) && DispatchedAt(b, d2, id)
    ensures d1 == d2
  {
    NotDispatchedAgain(b, d1, d2, id);
    NotDispatchedAgain(b, d2, d1, id);
  }

  lemma JustifiedIsUnique(b: Behaviour, m: nat, n: nat, id: string, answer: string, other: string)
    requires b.Valid() && Justified(b, m, id, answer) && Justified(b, n, id, other)
    ensures answer == other
  {
    var d1: nat, k1: nat :| AnswerFrom(b, d1, k1, id, answer);
    var d2: nat, k2: nat :| AnswerFrom(b, d2, k2, id, other);
    SameAnswer(b, d1, k1, d2, k2, id, answer, other);
  }

  lemma SameAnswer(b: Behaviour, d1: nat, k1: nat, d2: nat, k2: nat, id: string, answer: string, other: string)
    requires b.Valid() && AnswerFrom(b, d1, k1, id, answer) && AnswerFrom(b, d2, k2, id, other)
    ensures answer == other
  {
    DispatchedOnce(b, d1, d2, id);
  }

  /** First answer wins: an answer that Execute returns is the no-clients text, when nobody was
      connected at the dispatch, and otherwise the text of the first reply naming the request that
      the bridge processed after the dispatch. No other reply, earlier, later, repeated or for
      another request, can change it: this text is the only one the whole run allows. */
  lemma FirstAnswerWins(b: Behaviour, n: nat, id: string, answer: string)
    requires b.Valid() && n <= |b.events| && id in b.states[n].execs
    requires b.states[n].execs[id].phase.Out(Answered(answer))
    ensures Justified(b, n, id, answer)
    ensures forall later, other :: Justified(b, later, id, other) ==> other == answer
  {
    OutcomesJustifiedAt(b, n);
    forall later: nat, other | Justified(b, later, id, other) ensures other == answer {
      JustifiedIsUnique(b, later, n, id, other, answer);
    }
  }

  // ---------------------------------------------------------------------------------------
  // Questions.

  /** What a step sends a client: the question it takes from the queue, if the client is known
      then, or the acknowledgement of the client's own connect message. */
  function FramesOf(s: System, e: Event, clientID: string): seq<Frame> {
    if e.Dispatch? && clientID in s.bridge.clients && s.questions != [] then [Ask(s.questions[0])]
    else if e.Message? && e.msg.kind.Connect? && e.msg.clientID == clientID
            && (e.msg.hasSender || clientID in s.bridge.clients) then [ConnectAck]
    else []
  }

  ghost function FramesDue(b: Behaviour, n: nat, clientID: string): seq<Frame>
    requires b.Valid() && n <= |b.events|
  {
    if n == 0 then []
    else FramesDue(b, n - 1, clientID) + FramesOf(b.states[n - 1], b.events[n - 1], clientID)
  }

  lemma OutboxStep(s: System, e: Event, clientID: string)
    requires Enabled(s, e)
    ensures SentTo(Next(s, e).bridge.outbox, clientID) == SentTo(s.bridge.outbox, clientID) + FramesOf(s, e, clientID)
  {
    assert SentTo(s.bridge.outbox, clientID) + [] == SentTo(s.bridge.outbox, clientID);
  }

  ghost predicate SentWhatIsDue(b: Behaviour, n: nat, clientID: string)
    requires b.Valid() && n <= |b.events|
  {
    SentTo(b.states[n].bridge.outbox, clientID) == FramesDue(b, n, clientID)
  }

  lemma NothingSentAtStart(b: Behaviour, clientID: string)
    requires b.Valid()
    ensures SentWhatIsDue(b, 0, clientID)
  {
    assert b.states[0].bridge.outbox == map[];
  }

  lemma SentStep(b: Behaviour, n: nat, clientID: string)
    requires b.Valid() && n < |b.events| && SentWhatIsDue(b, n, clientID)
    ensures SentWhatIsDue(b, n + 1, clientID)
  {
    assert b.StepAt(n);
    OutboxStep(b.states[n], b.events[n], clientID);
  }

  lemma {:induction false} SentWhatIsDueAt(b: Behaviour, n: nat, clientID: string)
    requires b.Valid() && n <= |b.events|
    ensures SentWhatIsDue(b, n, clientID)
  {
    if n == 0 {
      NothingSentAtStart(b, clientID);
    } else {
      SentWhatIsDueAt(b, n - 1, clientID);
      SentStep(b, n - 1, clientID);
    }
  }

  /** Every client is sent each question dispatched while it is known and an acknowledgement of
      each of its connect messages, once, in order, and nothing else. */
  lemma EveryKnownClientIsAsked(b: Behaviour, n: nat, clientID: string)
    requires b.Valid() && n <= |b.events|
    ensures SentTo(b.states[n].bridge.outbox, clientID) == FramesDue(b, n, clientID)
  {
    SentWhatIsDueAt(b, n, clientID);
  }

  /** A message by which the bridge learns a client's sender and does not forget it again. */
  predicate MakesKnown(e: Event, clientID: string) {
    e.Message? && e.msg.clientID == clientID && e.msg.hasSender && !e.msg.kind.Disconnect?
  }

  predicate MakesUnknown(e: Event, clientID: string) {
    e.Message? && e.msg.clientID == clientID && e.msg.kind.Disconnect?
  }

  ghost predicate KnownSince(b: Behaviour, k: nat, n: nat, clientID: string) {
    && k < n <= |b.events| && MakesKnown(b.events[k], clientID)
    && forall j :: k < j < n ==> !MakesUnknown(b.events[j], clientID)
  }

  lemma KnownStep(s: System, e: Event, clientID: string)
    requires Enabled(s, e)
    ensures clientID in Next(s, e).bridge.clients <==>
      MakesKnown(e, clientID) || (clientID in s.bridge.clients && !MakesUnknown(e, clientID))
  {
  }

  /** The clients that are asked are those that sent some message with a sender and have not
      disconnected since. */
  lemma {:induction false} KnownClients(b: Behaviour, n: nat, clientID: string)
    requires b.Valid() && n <= |b.events|
    ensures clientID in b.states[n].bridge.clients <==> exists k: nat :: KnownSince(b, k, n, clientID)
  {
    if n > 0 {
      KnownClients(b, n - 1, clientID);
      assert b.StepAt(n - 1);
      var e := b.events[n - 1];
      KnownStep(b.states[n - 1], e, clientID);
      if MakesKnown(e, clientID) {
        assert KnownSince(b, n - 1, n, clientID);
      } else if exists k: nat :: KnownSince(b, k, n, clientID) {
        var k: nat :| KnownSince(b, k, n, clientID);
        assert KnownSince(b, k, n - 1, clientID);
      } else if clientID in b.states[n].bridge.clients {
        var k: nat :| KnownSince(b, k, n - 1, clientID);
        assert KnownSince(b, k, n, clientID);
      }
    }
  }
}
