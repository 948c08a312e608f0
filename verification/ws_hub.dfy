/** The WebSocket hub: Server.run of internal/wsserver/server.go, with the client's writePump as
    consumer and SendResponse as a second producer of the same bounded queue. */
module WsHub {
  const QUEUE_CAPACITY: nat := 256

  /** `clientID` is empty for a message to all clients. */
  datatype Message = Message(clientID: string, payload: string)

  datatype Item = FromHub(msg: Message) | FromResponse(msg: Message)

  /** A client's send channel: what waits in it, what writePump has taken out of it, and how
      often it has been closed. */
  datatype Channel = Channel(queue: seq<Item>, written: seq<Item>, closes: nat)
  {
    predicate Full() {
      |queue| >= QUEUE_CAPACITY
    }

    /** Everything ever put in, in order. */
    function Enqueued(): seq<Item> {
      written + queue
    }
  }

  const NEW_CHANNEL := Channel([], [], 0)

  /** The hub's registry and the channels of all clients it ever registered. `panicked` records a
      send on a closed channel or a second close. */
  datatype Hub = Hub(clients: set<string>, channels: map<string, Channel>, panicked: bool)

  const EMPTY := Hub({}, map[], false)

  predicate AddressedTo(m: Message, id: string) {
    m.clientID == "" || m.clientID == id
  }

  function Put(c: Channel, item: Item): Channel {
    if c.Full() then c else c.(queue := c.queue + [item])
  }

  function Close(c: Channel): Channel {
    c.(closes := c.closes + 1)
  }

  function Registered(h: Hub, id: string): Hub {
    h.(clients := h.clients + {id}, channels := h.channels[id := NEW_CHANNEL])
  }

  function Unregistered(h: Hub, id: string): Hub {
    if id in h.clients && id in h.channels then
      Hub(h.clients - {id}, h.channels[id := Close(h.channels[id])], h.panicked || h.channels[id].closes > 0)
    else h
  }

  /** What a broadcast does to the channel of a registered, addressed client. */
  function Offered(c: Channel, m: Message): Channel {
    if c.Full() then Close(c) else Put(c, FromHub(m))
  }

  function OfferedTo(channels: map<string, Channel>, ids: set<string>, m: Message): map<string, Channel> {
    map id | id in channels :: if id in ids then Offered(channels[id], m) else channels[id]
  }

  /** The registered clients not closed once all but the `unvisited` have been offered a message. */
  function Survivors(channels: map<string, Channel>, registered: set<string>, unvisited: set<string>): set<string>
    requires registered <= channels.Keys
  {
    set id | id in registered && (id in unvisited || !channels[id].Full())
  }

  /** The hub offers the message to each addressed client, and closes and forgets those whose
      queue is full. */
  function Broadcasted(h: Hub, m: Message): Hub {
    Hub(set id | id in h.clients && !(AddressedTo(m, id) && id in h.channels && h.channels[id].Full()),
        map id | id in h.channels ::
          if id in h.clients && AddressedTo(m, id) then Offered(h.channels[id], m) else h.channels[id],
        h.panicked
        || exists id :: id in h.clients && id in h.channels && AddressedTo(m, id) && h.channels[id].closes > 0)
  }

  function Responded(h: Hub, id: string, m: Message): Hub
    requires id in h.channels
  {
    h.(channels := h.channels[id := Put(h.channels[id], FromResponse(m))],
       panicked := h.panicked || h.channels[id].closes > 0)
  }

  function Taken(h: Hub, id: string): Hub
    requires id in h.channels && h.channels[id].queue != []
  {
    var c := h.channels[id];
    h.(channels := h.channels[id := c.(queue := c.queue[1..], written := c.written + [c.queue[0]])])
  }

  // ---------------------------------------------------------------------------------------
  // The objects. A send or a close demands an open channel: that these demands are met is the
  // proof that the hub never panics.

  class Client {
    const ID: string
    var send: seq<Item>
    var closes: nat
    ghost var written: seq<Item>

    ghost function View(): Channel
      reads this
    {
      Channel(send, written, closes)
    }

    constructor (id: string)
      ensures ID == id && View() == NEW_CHANNEL
    {
      ID := id;
      send, closes, written := [], 0, [];
    }

    /** A select with a send and a default. */
    method TrySend(item: Item) returns (sent: bool)
      requires closes == 0
      modifies this
      ensures sent == !old(View()).Full()
      ensures View() == Put(old(View()), item)
    {
      sent := |send| < QUEUE_CAPACITY;
      if sent {
        send := send + [item];
      }
    }

    method CloseSend()
      requires closes == 0
      modifies this
      ensures View() == Close(old(View()))
    {
      closes := closes + 1;
    }

    method SendResponse(m: Message)
      requires closes == 0
      modifies this
      ensures View() == Put(old(View()), FromResponse(m))
    {
      var _ := TrySend(FromResponse(m));
    }

    /** writePump's receive: the next message, or none from a closed and drained channel. */
    method Receive() returns (ok: bool, item: Item)
      requires send != [] || closes > 0
      modifies this
      ensures ok == (old(send) != [])
      ensures ok ==> item == old(send)[0] && View() == Channel(old(send)[1..], old(written) + [item], old(closes))
      ensures !ok ==> View() == old(View())
    {
      if send == [] {
        item := FromHub(Message("", ""));
        return false, item;
      }
      item := send[0];
      send := send[1..];
      written := written + [item];
      return true, item;
    }
  }

  class Server {
    var clients: map<string, Client>
    ghost var everyone: map<string, Client>

    /** Client IDs are unique, the registry holds registered clients, and those are open. */
    ghost predicate Valid()
      reads this, everyone.Values
    {
      && (forall id :: id in everyone ==> everyone[id].ID == id)
      && (forall id :: id in clients ==> id in everyone && everyone[id] == clients[id])
      && (forall id :: id in clients ==> everyone[id].closes == 0)
    }

    ghost function Channels(): map<string, Channel>
      reads this, everyone.Values
    {
      map id | id in everyone :: everyone[id].View()
    }

    ghost function View(): Hub
      reads this, everyone.Values
    {
      Hub(clients.Keys, Channels(), false)
    }

    constructor ()
      ensures Valid() && View() == EMPTY
    {
      clients, everyone := map[], map[];
    }

    method Register(client: Client)
      requires Valid() && client.ID !in everyone && client.View() == NEW_CHANNEL
      modifies this
      ensures Valid() && View() == Registered(old(View()), client.ID)
      ensures everyone == old(everyone)[client.ID := client]
    {
      ghost var before := Channels();
      clients := clients[client.ID := client];
      everyone := everyone[client.ID := client];
      assert Channels() == before[client.ID := NEW_CHANNEL];
    }

    method Unregister(client: Client)
      requires Valid() && client.ID in everyone && everyone[client.ID] == client
      modifies this, client
      ensures Valid() && View() == Unregistered(old(View()), client.ID)
      ensures everyone == old(everyone)
    {
      if client.ID in clients {
        clients := clients - {client.ID};
        client.CloseSend();
      }
    }

    /** The select with a default that both arms of a broadcast share. */
    method Offer(id: string, m: Message)
      requires Valid() && id in clients
      modifies this`clients, clients[id]
      ensures Valid()
      ensures id in Channels().Keys && Channels() == old(Channels())[id := Offered(old(Channels())[id], m)]
      ensures clients.Keys == old(clients.Keys) - if old(Channels())[id].Full() then {id} else {}
    {
      var client := clients[id];
      var sent := client.TrySend(FromHub(m));
      if !sent {
        client.CloseSend();
        clients := clients - {client.ID};
      }
    }

    /** The loop over the registry, in whatever order the map yields it. */
    method OfferToAll(m: Message)
      requires Valid()
      modifies this`clients, everyone.Values
      ensures Valid()
      ensures Channels() == OfferedTo(old(Channels()), old(clients.Keys), m)
      ensures clients.Keys == Survivors(old(Channels()), old(clients.Keys), {})
    {
      var unvisited := clients.Keys;
      ghost var before, registered := Channels(), clients.Keys;
      while unvisited != {}
        invariant Valid()
        invariant unvisited <= registered <= before.Keys
        invariant Channels() == OfferedTo(before, registered - unvisited, m)
        invariant clients.Keys == Survivors(before, registered, unvisited)
        decreases unvisited
      {
        var id :| id in unvisited;
        OfferedOneMore(before, registered, unvisited, id, m);
        unvisited := unvisited - {id};
        assert clients[id] in everyone.Values;
        Offer(id, m);
      }
    }

    method Broadcast(m: Message)
      requires Valid()
      modifies this`clients, everyone.Values
      ensures Valid() && View() == Broadcasted(old(View()), m)
    {
      ghost var before := View();
      if m.clientID == "" {
        OfferToAll(m);
      } else if m.clientID in clients {
        Offer(m.clientID, m);
      }
      BroadcastPointwise(before, View(), m);
    }
  }

  lemma OfferedOneMore(channels: map<string, Channel>, registered: set<string>, unvisited: set<string>,
                       id: string, m: Message)
    requires id in unvisited && unvisited <= registered <= channels.Keys
    ensures OfferedTo(channels, registered - unvisited, m)[id] == channels[id]
    ensures OfferedTo(channels, registered - (unvisited - {id}), m)
         == OfferedTo(channels, registered - unvisited, m)[id := Offered(channels[id], m)]
    ensures id in Survivors(channels, registered, unvisited)
    ensures Survivors(channels, registered, unvisited - {id})
         == Survivors(channels, registered, unvisited) - if channels[id].Full() then {id} else {}
  {
  }

  lemma BroadcastPointwise(h: Hub, h': Hub, m: Message)
    requires h.clients <= h.channels.Keys == h'.channels.Keys && !h.panicked && !h'.panicked
    requires forall id :: id in h.clients ==> h.channels[id].closes == 0
    requires forall id :: id in h.channels ==>
      h'.channels[id] == if id in h.clients && AddressedTo(m, id) then Offered(h.channels[id], m) else h.channels[id]
    requires forall id ::
      id in h'.clients <==> id in h.clients && !(AddressedTo(m, id) && h.channels[id].Full())
    ensures h' == Broadcasted(h, m)
  {
  }
}
