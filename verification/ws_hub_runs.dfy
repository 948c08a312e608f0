/** The hub over whole runs: no panic, one close per channel, and no gap in what a registered
    client is sent. */
module WsHubRuns {
  import opened WsHub

  datatype Event =
    | Connect(id: string)
    | Disconnect(id: string)
    | Publish(msg: Message)
    | Respond(id: string, msg: Message)
    | Write(id: string)

  /** Client IDs are unique, SendResponse is used on registered clients, and writePump takes only
      what is there. A client's readPump may report it gone at any time, even after the hub itself
      closed it. */
  predicate Enabled(h: Hub, e: Event) {
    match e
    case Connect(id) => id !in h.channels
    case Disconnect(id) => id in h.channels
    case Publish(_) => true
    case Respond(id, _) => id in h.clients && id in h.channels
    case Write(id) => id in h.channels && h.channels[id].queue != []
  }

  function Next(h: Hub, e: Event): Hub
    requires Enabled(h, e)
  {
    match e
    case Connect(id) => Registered(h, id)
    case Disconnect(id) => Unregistered(h, id)
    case Publish(m) => Broadcasted(h, m)
    case Respond(id, m) => Responded(h, id, m)
    case Write(id) => Taken(h, id)
  }

  ghost predicate Run(events: seq<Event>)
    decreases |events|, 0
  {
    events == [] ||
    var front := events[..|events| - 1];
    Run(front) && Enabled(After(front), events[|events| - 1])
  }

  ghost function After(events: seq<Event>): Hub
    requires Run(events)
    decreases |events|, 1
  {
    if events == [] then EMPTY
    else Next(After(events[..|events| - 1]), events[|events| - 1])
  }

  // ---------------------------------------------------------------------------------------
  // Close once, and never touch a closed channel.

  ghost predicate Safe(h: Hub) {
    && !h.panicked
    && h.clients <= h.channels.Keys
    && (forall id :: id in h.channels ==> h.channels[id].closes == if id in h.clients then 0 else 1)
    && (forall id :: id in h.channels ==> |h.channels[id].queue| <= QUEUE_CAPACITY)
  }

  lemma StepSafe(h: Hub, e: Event)
    requires Safe(h) && Enabled(h, e)
    ensures Safe(Next(h, e))
  {
  }

  /** Over every run: no panic; a channel is open exactly while its client is registered, and is
      closed at most once; no queue passes its capacity. */
  lemma {:induction false} CloseOnce(events: seq<Event>)
    requires Run(events)
    ensures var h := After(events);
            && !h.panicked
            && h.clients <= h.channels.Keys
            && (forall id :: id in h.channels ==> h.channels[id].closes == if id in h.clients then 0 else 1)
            && (forall id :: id in h.channels ==> |h.channels[id].queue| <= QUEUE_CAPACITY)
    decreases |events|
  {
    if events != [] {
      var front := events[..|events| - 1];
      CloseOnce(front);
      StepSafe(After(front), events[|events| - 1]);
    }
  }

  /** A removed client never returns. */
  lemma {:induction false} RemovedForGood(events: seq<Event>, n: nat, id: string)
    requires Run(events) && n <= |events|
    ensures Run(events[..n])
    ensures id in After(events[..n]).channels && id !in After(events[..n]).clients ==>
      id in After(events).channels && id !in After(events).clients
    decreases |events|
  {
    if n == |events| {
      assert events[..n] == events;
    } else {
      var front := events[..|events| - 1];
      assert front[..n] == events[..n];
      RemovedForGood(front, n, id);
      CloseOnce(front);
    }
  }

  // ---------------------------------------------------------------------------------------
  // No gap.

  /** The broadcasts among the items, in order. */
  function FromTheHub(items: seq<Item>): seq<Message> {
    if items == [] then []
    else FromTheHub(items[..|items| - 1]) + match items[|items| - 1] case FromHub(m) => [m] case FromResponse(_) => []
  }

  /** The broadcasts addressed to the client since it connected, in order. */
  function AddressedSince(events: seq<Event>, id: string): seq<Message> {
    if events == [] then []
    else
      var front, last := events[..|events| - 1], events[|events| - 1];
      AddressedSince(front, id)
      + if last.Publish? && AddressedTo(last.msg, id) && Connect(id) in front then [last.msg] else []
  }

  lemma {:induction false} ConnectedIffKnown(events: seq<Event>, id: string)
    requires Run(events)
    ensures Connect(id) in events <==> id in After(events).channels
    decreases |events|
  {
    if events != [] {
      var front, last := events[..|events| - 1], events[|events| - 1];
      ConnectedIffKnown(front, id);
      assert events == front + [last];
    }
  }

  lemma {:induction false} NothingBeforeConnect(events: seq<Event>, id: string)
    requires Connect(id) !in events
    ensures AddressedSince(events, id) == []
    decreases |events|
  {
    if events != [] {
      var front, last := events[..|events| - 1], events[|events| - 1];
      assert events == front + [last];
      NothingBeforeConnect(front, id);
    }
  }

  lemma {:induction false} HubPartOfConcat(a: seq<Item>, item: Item)
    ensures FromTheHub(a + [item]) == FromTheHub(a) + match item case FromHub(m) => [m] case FromResponse(_) => []
  {
    assert (a + [item])[..|a|] == a;
  }

  /** What a step puts into a client's queue: a broadcast for a registered client it is addressed
      to, or a response, unless the queue is full. */
  function NewlyPut(h: Hub, e: Event, id: string): seq<Item>
    requires id in h.channels
  {
    if |h.channels[id].queue| >= QUEUE_CAPACITY then []
    else if e.Publish? && AddressedTo(e.msg, id) && id in h.clients then [FromHub(e.msg)]
    else if e.Respond? && e.id == id then [FromResponse(e.msg)]
    else []
  }

  lemma StepPuts(h: Hub, e: Event, id: string)
    requires Safe(h) && Enabled(h, e) && id in h.channels
    ensures id in Next(h, e).channels
    ensures Next(h, e).channels[id].Enqueued() == h.channels[id].Enqueued() + NewlyPut(h, e, id)
    ensures |Next(h, e).channels[id].written| == |h.channels[id].written| + if e == Write(id) then 1 else 0
  {
    var c, c' := h.channels[id], Next(h, e).channels[id];
    if e == Write(id) {
      assert c.written + [c.queue[0]] + c.queue[1..] == c.written + c.queue;
    } else if NewlyPut(h, e, id) != [] {
      assert c.written + (c.queue + NewlyPut(h, e, id)) == c.written + c.queue + NewlyPut(h, e, id);
    } else {
      assert c'.Enqueued() == c.Enqueued();
    }
  }

  /** Everything put into a client's queue, in order. */
  ghost function PutInto(events: seq<Event>, id: string): seq<Item>
    requires Run(events)
    decreases |events|
  {
    if events == [] then []
    else
      var front := events[..|events| - 1];
      var h := After(front);
      PutInto(front, id) + if id in h.channels then NewlyPut(h, events[|events| - 1], id) else []
  }

  function Writes(events: seq<Event>, id: string): nat {
    if events == [] then 0
    else Writes(events[..|events| - 1], id) + if events[|events| - 1] == Write(id) then 1 else 0
  }

  lemma {:induction false} NothingPutBeforeConnect(events: seq<Event>, id: string)
    requires Run(events) && id !in After(events).channels
    ensures PutInto(events, id) == [] && Writes(events, id) == 0
    decreases |events|
  {
    if events != [] {
      NothingPutBeforeConnect(events[..|events| - 1], id);
    }
  }

  /** writePump writes what was put into the client's queue, broadcasts and responses alike, in the
      order it was put there, one item each time it takes one; the rest waits in the queue. */
  lemma {:induction false} WritesInOrder(events: seq<Event>, id: string)
    requires Run(events) && id in After(events).channels
    ensures var c := After(events).channels[id];
            && |PutInto(events, id)| == Writes(events, id) + |c.queue|
            && c.written == PutInto(events, id)[..Writes(events, id)]
            && c.queue == PutInto(events, id)[Writes(events, id)..]
    decreases |events|
  {
    AllPut(events, id);
    var c := After(events).channels[id];
    assert c.Enqueued()[..|c.written|] == c.written && c.Enqueued()[|c.written|..] == c.queue;
  }

  lemma {:induction false} AllPut(events: seq<Event>, id: string)
    requires Run(events) && id in After(events).channels
    ensures After(events).channels[id].Enqueued() == PutInto(events, id)
    ensures |After(events).channels[id].written| == Writes(events, id)
    decreases |events|
  {
    var front, last := events[..|events| - 1], events[|events| - 1];
    CloseOnce(front);
    if id in After(front).channels {
      AllPut(front, id);
      StepPuts(After(front), last, id);
    } else {
      NothingPutBeforeConnect(front, id);
    }
  }

  /** The broadcast a step sends to a client. */
  function NewlySent(h: Hub, e: Event, id: string): seq<Message>
    requires id in h.channels
  {
    if e.Publish? && AddressedTo(e.msg, id) && id in h.clients && !h.channels[id].Full() then [e.msg] else []
  }

  lemma StepSends(h: Hub, e: Event, id: string)
    requires Safe(h) && Enabled(h, e) && id in h.channels
    ensures id in Next(h, e).channels
    ensures FromTheHub(Next(h, e).channels[id].Enqueued())
         == FromTheHub(h.channels[id].Enqueued()) + NewlySent(h, e, id)
  {
    StepPuts(h, e, id);
    if NewlyPut(h, e, id) != [] {
      HubPartOfConcat(h.channels[id].Enqueued(), NewlyPut(h, e, id)[0]);
    } else {
      assert h.channels[id].Enqueued() + [] == h.channels[id].Enqueued();
    }
  }

  /** A client stays registered through a step unless it is disconnected, or misses a broadcast. */
  lemma StepClients(h: Hub, e: Event, id: string)
    requires Safe(h) && Enabled(h, e) && id in h.channels && id in Next(h, e).clients
    ensures id in h.clients
    ensures e.Publish? && AddressedTo(e.msg, id) ==> NewlySent(h, e, id) == [e.msg]
  {
  }

  /** A registered client has been sent every broadcast addressed to it since it connected, in
      order and with none missing, whatever responses were mixed in; a client that has been
      removed was sent all of them up to a point, and none after it. */
  lemma {:induction false} NoGapDelivery(events: seq<Event>, id: string)
    requires Run(events) && id in After(events).channels
    ensures var sent := FromTheHub(After(events).channels[id].Enqueued());
            && sent <= AddressedSince(events, id)
            && (id in After(events).clients ==> sent == AddressedSince(events, id))
    decreases |events|
  {
    var front, last := events[..|events| - 1], events[|events| - 1];
    var h := After(front);
    CloseOnce(front);
    ConnectedIffKnown(front, id);
    if id !in h.channels {
      NothingBeforeConnect(front, id);
      assert Next(h, last).channels[id] == NEW_CHANNEL;
    } else {
      NoGapDelivery(front, id);
      StepSends(h, last, id);
      if id in Next(h, last).clients {
        StepClients(h, last, id);
      }
    }
  }

  /** A client is dropped by a broadcast exactly when that broadcast is addressed to it and its
      queue is full; what it had been sent until then stays as it was. */
  lemma DroppedIffFull(events: seq<Event>, m: Message, id: string)
    requires Run(events) && id in After(events).clients
    ensures id in After(events).channels
    ensures id !in Broadcasted(After(events), m).clients <==>
      AddressedTo(m, id) && |After(events).channels[id].queue| == QUEUE_CAPACITY
    ensures id !in Broadcasted(After(events), m).clients ==>
      Broadcasted(After(events), m).channels[id] == After(events).channels[id].(closes := 1)
  {
    CloseOnce(events);
  }

  // ---------------------------------------------------------------------------------------
  // Who is registered.

  /** Some broadcast addressed to the client found its queue full. */
  ghost predicate Overflowed(events: seq<Event>, id: string)
    requires Run(events)
    decreases |events|
  {
    events != [] &&
    var front, last := events[..|events| - 1], events[|events| - 1];
    var h := After(front);
    || Overflowed(front, id)
    || (last.Publish? && AddressedTo(last.msg, id) && id in h.clients && id in h.channels
        && |h.channels[id].queue| >= QUEUE_CAPACITY)
  }

  lemma {:induction false} UnknownNotOverflowed(events: seq<Event>, id: string)
    requires Run(events) && id !in After(events).channels
    ensures !Overflowed(events, id) && Disconnect(id) !in events
    decreases |events|
  {
    if events != [] {
      var front, last := events[..|events| - 1], events[|events| - 1];
      UnknownNotOverflowed(front, id);
      assert events == front + [last];
    }
  }

  lemma StepRegistered(h: Hub, e: Event, id: string)
    requires Safe(h) && Enabled(h, e)
    ensures id in Next(h, e).clients <==>
      || e == Connect(id)
      || (id in h.clients && e != Disconnect(id)
          && !(e.Publish? && AddressedTo(e.msg, id) && |h.channels[id].queue| >= QUEUE_CAPACITY))
  {
  }

  /** A client is registered, and its channel open, exactly when it has connected, has not
      disconnected, and no broadcast addressed to it has found its queue full; after any of the
      last two its channel has been closed, once. */
  lemma {:induction false} RegisteredIff(events: seq<Event>, id: string)
    requires Run(events)
    ensures id in After(events).clients <==>
      Connect(id) in events && Disconnect(id) !in events && !Overflowed(events, id)
    ensures Connect(id) in events ==>
      && id in After(events).channels
      && After(events).channels[id].closes == if Disconnect(id) in events || Overflowed(events, id) then 1 else 0
    decreases |events|
  {
    CloseOnce(events);
    ConnectedIffKnown(events, id);
    if events != [] {
      var front, last := events[..|events| - 1], events[|events| - 1];
      assert events == front + [last];
      RegisteredIff(front, id);
      CloseOnce(front);
      StepRegistered(After(front), last, id);
      if id !in After(front).channels {
        UnknownNotOverflowed(front, id);
      }
    }
  }
}
