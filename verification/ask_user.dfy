/** AskUserTool of internal/tools/ask_user.go, cut at the points where other goroutines can come
    in between: the locked map operations, the channel operations and the close. */
module AskUser {
  import opened Options

  /** A response channel of capacity one. */
  datatype Channel = Channel(slot: Option<string>, closed: bool)

  const NEW_CHANNEL := Channel(None, false)

  /** Requests are named by their IDs, which are fresh at registration, and so are their channels:
      `channels` holds one for every request ever registered. */
  datatype Tool = Tool(pending: set<string>, channels: map<string, Channel>)

  datatype Sent = Delivered | ChannelFull | SendPanics

  function SendResult(c: Channel): Sent {
    if c.closed then SendPanics else if c.slot.Some? then ChannelFull else Delivered
  }

  function AfterSend(c: Channel, answer: string): Channel {
    if SendResult(c) == Delivered then c.(slot := Some(answer)) else c
  }

  function Registered(t: Tool, id: string): Tool {
    Tool(t.pending + {id}, t.channels[id := NEW_CHANNEL])
  }

  function Forgotten(t: Tool, id: string): Tool {
    t.(pending := t.pending - {id})
  }

  function WithChannel(t: Tool, id: string, c: Channel): Tool {
    t.(channels := t.channels[id := c])
  }

  class ResponseChannel {
    ghost const request: string
    var slot: Option<string>
    var closed: bool

    function View(): Channel
      reads this
    {
      Channel(slot, closed)
    }

    constructor (ghost request: string)
      ensures this.request == request && View() == NEW_CHANNEL
    {
      this.request := request;
      slot, closed := None, false;
    }
  }

  class AskUserTool {
    var pendingRequests: map<string, ResponseChannel>
    ghost var issued: map<string, ResponseChannel>

    ghost predicate Valid()
      reads this
    {
      && (forall id :: id in pendingRequests ==> id in issued && pendingRequests[id] == issued[id])
      && (forall id :: id in issued ==> issued[id].request == id)
    }

    ghost function Channels(): map<string, Channel>
      reads this, issued.Values
    {
      map id | id in issued :: issued[id].View()
    }

    ghost function View(): Tool
      reads this, issued.Values
    {
      Tool(pendingRequests.Keys, Channels())
    }

    constructor ()
      ensures Valid() && View() == Tool({}, map[])
    {
      pendingRequests, issued := map[], map[];
    }

    /** Execute, up to the registration. */
    method Register(id: string) returns (ch: ResponseChannel)
      requires Valid() && id !in issued
      modifies this
      ensures Valid() && fresh(ch) && issued == old(issued)[id := ch]
      ensures View() == Registered(old(View()), id)
    {
      ch := new ResponseChannel(id);
      Enlist(id, ch);
    }

    method Enlist(id: string, ch: ResponseChannel)
      requires Valid() && id !in issued && ch.request == id && ch.View() == NEW_CHANNEL
      modifies this
      ensures Valid() && issued == old(issued)[id := ch]
      ensures View() == Registered(old(View()), id)
    {
      ghost var before := Channels();
      pendingRequests := pendingRequests[id := ch];
      issued := issued[id := ch];
      assert Channels() == before[id := NEW_CHANNEL];
    }

    /** Execute's cleanup, first half: under the lock. */
    method RemovePending(id: string)
      requires Valid()
      modifies this`pendingRequests
      ensures Valid() && View() == Forgotten(old(View()), id)
    {
      pendingRequests := pendingRequests - {id};
    }

    /** Execute's cleanup, second half; closing twice would panic. */
    method CloseChannel(id: string, ch: ResponseChannel)
      requires Valid() && id in issued && issued[id] == ch && !ch.closed
      modifies ch
      ensures Valid() && View() == WithChannel(old(View()), id, old(View()).channels[id].(closed := true))
    {
      ch.closed := true;
    }

    /** Execute's select, when it takes the answer. */
    method Receive(id: string, ch: ResponseChannel) returns (answer: string)
      requires Valid() && id in issued && issued[id] == ch && ch.slot.Some?
      modifies ch
      ensures Valid() && View().channels.Keys == old(View()).channels.Keys
      ensures Some(answer) == old(ch.slot)
      ensures View() == WithChannel(old(View()), id, old(View()).channels[id].(slot := None))
    {
      answer := ch.slot.value;
      ch.slot := None;
    }

    /** HandleUserResponse, first half: under the lock. */
    method Lookup(id: string) returns (found: Option<ResponseChannel>)
      requires Valid()
      ensures found.Some? <==> id in View().pending
      ensures found.Some? ==> id in issued && found.value == issued[id]
    {
      if id in pendingRequests {
        return Some(pendingRequests[id]);
      }
      return None;
    }

    /** HandleUserResponse, second half: the select with a default. */
    method Send(id: string, ch: ResponseChannel, answer: string) returns (sent: Sent)
      requires Valid() && id in issued && issued[id] == ch
      modifies ch
      ensures Valid() && sent == SendResult(old(View()).channels[id])
      ensures View() == WithChannel(old(View()), id, AfterSend(old(View()).channels[id], answer))
    {
      if ch.closed {
        return SendPanics;
      }
      if ch.slot.Some? {
        return ChannelFull;
      }
      ch.slot := Some(answer);
      return Delivered;
    }
  }
}
