/** The bridge of cmd/server/main_monitoring.go: handleWebSocketToMCP's clients and active
    questions. A response it wants forwarded is the result of the step. */
module QuestionBridge {
  import opened Options

  const NO_CLIENTS := "Error: No clients connected to answer the question"

  /** A question or a response on its way, with its request ID. */
  datatype Post = Post(id: string, text: string)

  datatype Payload = Malformed | Reply(id: string, answer: string)

  datatype Kind = UserResponse(payload: Payload) | Connect | Disconnect | Unknown

  datatype Inbound = Inbound(clientID: string, hasSender: bool, kind: Kind)

  datatype Frame = Ask(question: Post) | ConnectAck

  /** `outbox` is what was handed to each client's sender. */
  datatype Bridge = Bridge(clients: set<string>, active: map<string, string>, outbox: map<string, seq<Frame>>)

  const NEW_BRIDGE := Bridge({}, map[], map[])

  function SentTo(outbox: map<string, seq<Frame>>, id: string): seq<Frame> {
    if id in outbox then outbox[id] else []
  }

  function Deliver(outbox: map<string, seq<Frame>>, ids: set<string>, frame: Frame): map<string, seq<Frame>> {
    map id | id in outbox.Keys + ids :: if id in ids then SentTo(outbox, id) + [frame] else SentTo(outbox, id)
  }

  /** A question broadcast to all clients; `tracked` is the client the map yields last. */
  function Asked(b: Bridge, q: Post, tracked: string): Bridge {
    b.(active := b.active[q.id := tracked], outbox := Deliver(b.outbox, b.clients, Ask(q)))
  }

  datatype Handling = Handling(forward: Option<Post>, bridge: Bridge)

  function Handled(b: Bridge, msg: Inbound): Handling {
    var b1 := if msg.hasSender then b.(clients := b.clients + {msg.clientID}) else b;
    match msg.kind
    case UserResponse(Reply(id, answer)) =>
      if id in b1.active then Handling(Some(Post(id, answer)), b1.(active := b1.active - {id}))
      else Handling(None, b1)
    case UserResponse(Malformed) => Handling(None, b1)
    case Connect =>
      if msg.clientID in b1.clients
      then Handling(None, b1.(outbox := Deliver(b1.outbox, {msg.clientID}, ConnectAck)))
      else Handling(None, b1)
    case Disconnect => Handling(None, b1.(clients := b1.clients - {msg.clientID}))
    case Unknown => Handling(None, b1)
  }

  class WebSocketToMCP {
    var clients: set<string>
    var activeQuestions: map<string, string>
    var outbox: map<string, seq<Frame>>

    function View(): Bridge
      reads this
    {
      Bridge(clients, activeQuestions, outbox)
    }

    constructor ()
      ensures View() == NEW_BRIDGE
    {
      clients, activeQuestions, outbox := {}, map[], map[];
    }

    method SendResponse(id: string, frame: Frame)
      modifies this`outbox
      ensures outbox == Deliver(old(outbox), {id}, frame)
    {
      outbox := outbox[id := SentTo(outbox, id) + [frame]];
    }

    /** One question from the queue, offered to every client in whatever order the map yields. */
    method HandleQuestion(question: Post) returns (forward: Option<Post>)
      modifies this
      ensures old(clients) == {} ==> forward == Some(Post(question.id, NO_CLIENTS)) && View() == old(View())
      ensures old(clients) != {} ==>
        forward == None && exists tracked :: tracked in old(clients) && View() == Asked(old(View()), question, tracked)
    {
      if clients == {} {
        return Some(Post(question.id, NO_CLIENTS));
      }
      var unvisited := clients;
      assert Deliver(outbox, {}, Ask(question)) == outbox;
      assert clients - unvisited == {};
      ghost var tracked := "";
      while unvisited != {}
        invariant clients == old(clients) && unvisited <= clients
        invariant outbox == Deliver(old(outbox), clients - unvisited, Ask(question))
        invariant if unvisited == clients then activeQuestions == old(activeQuestions)
                  else tracked in clients && activeQuestions == old(activeQuestions)[question.id := tracked]
        decreases unvisited
      {
        var clientID :| clientID in unvisited;
        DeliverOneMore(old(outbox), clients - unvisited, clientID, Ask(question));
        assert clients - (unvisited - {clientID}) == clients - unvisited + {clientID};
        unvisited := unvisited - {clientID};
        activeQuestions := activeQuestions[question.id := clientID];
        tracked := clientID;
        SendResponse(clientID, Ask(question));
      }
      assert clients - {} == clients;
      assert View() == Asked(old(View()), question, tracked);
      return None;
    }

    method HandleMessage(msg: Inbound) returns (forward: Option<Post>)
      modifies this
      ensures Handling(forward, View()) == Handled(old(View()), msg)
    {
      forward := None;
      if msg.hasSender {
        clients := clients + {msg.clientID};
      }
      match msg.kind
      case UserResponse(payload) =>
        if payload.Malformed? {
          return;
        }
        if payload.id in activeQuestions {
          forward := Some(Post(payload.id, payload.answer));
          activeQuestions := activeQuestions - {payload.id};
        }
      case Connect =>
        if msg.clientID in clients {
          SendResponse(msg.clientID, ConnectAck);
        }
      case Disconnect =>
        clients := clients - {msg.clientID};
      case Unknown =>
    }
  }

  lemma DeliverOneMore(outbox: map<string, seq<Frame>>, ids: set<string>, id: string, frame: Frame)
    requires id !in ids
    ensures Deliver(Deliver(outbox, ids, frame), {id}, frame) == Deliver(outbox, ids + {id}, frame)
  {
  }
}
