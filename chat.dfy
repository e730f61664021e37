/**
  The Socket.IO connection handler of backend/server.js: the guard that drops
  connections without a user, the `msg:post` fan-out and the `msg:load` reply.
  The server's state is the namespace's collection of live sockets, in the
  order they connected (the iteration order of `io.sockets.sockets`), the set
  of sockets with event handlers attached, and the sequence of everything
  emitted so far. `sendMessage` and `getMessages` are abstract collaborators;
  `None` stands for a rejected promise, which aborts the awaiting handler.
 */
module Chat {
  import opened Wrappers
  import Gate

  type SocketId = nat

  /** A socket and the user the handshake gate attached to it, if any. */
  datatype Socket = Socket(id: SocketId, user: Option<Gate.Payload>)

  /** The payload of an emitted event: `{ message: [m] }` for `msg:get`,
      the resolved history for `msg:load`. */
  datatype Body<M> = Delivery(message: seq<M>) | History(messages: seq<M>)

  /** One `emit(event, body)` on the socket `to`. */
  datatype Emit<M> = Emit(to: SocketId, event: string, body: Body<M>)

  const MsgGet := "msg:get"
  const MsgLoad := "msg:load"

  /** `s.user?.username === name`: a socket without a user never matches. */
  predicate Addressed(s: Socket, name: string)
  {
    s.user.Some? && s.user.value.username == name
  }

  /** `[...io.sockets.sockets.values()].find(...)`: the position of the first
      socket, in iteration order, whose user has the given username. */
  function FirstMatch(sockets: seq<Socket>, name: string): (r: Option<nat>)
    ensures r.Some? ==> r.value < |sockets| && Addressed(sockets[r.value], name)
    ensures r.Some? ==> forall j :: 0 <= j < r.value ==> !Addressed(sockets[j], name)
    ensures r.None? <==> forall j :: 0 <= j < |sockets| ==> !Addressed(sockets[j], name)
    decreases |sockets|
  {
    if |sockets| == 0 then None
    else if Addressed(sockets[0], name) then Some(0)
    else
      match FirstMatch(sockets[1..], name)
      case None => None
      case Some(i) => Some(i + 1)
  }

  /** What a successful `msg:post` from `sender` emits once `sendMessage` has
      resolved to `m`: one `msg:get` to the receiver's socket when one is live,
      then one to the sender, both carrying `{ message: [m] }`. */
  function PostEmits<M>(sockets: seq<Socket>, sender: SocketId, receiverUsername: string, m: M): (out: seq<Emit<M>>)
    ensures 1 <= |out| <= 2
    ensures out[|out| - 1] == Emit(sender, MsgGet, Delivery([m]))
    ensures forall k :: 0 <= k < |out| ==> out[k].event == MsgGet && out[k].body == Delivery([m])
    ensures |out| == 2 <==> exists j :: 0 <= j < |sockets| && Addressed(sockets[j], receiverUsername)
    ensures |out| == 2 ==>
      exists j :: 0 <= j < |sockets| && Addressed(sockets[j], receiverUsername) && out[0].to == sockets[j].id &&
        forall i :: 0 <= i < j ==> !Addressed(sockets[i], receiverUsername)
  {
    var echo := Emit(sender, MsgGet, Delivery([m]));
    match FirstMatch(sockets, receiverUsername)
    case Some(i) => [Emit(sockets[i].id, MsgGet, Delivery([m])), echo]
    case None => [echo]
  }

  /** The number of emits addressed to socket `id`. */
  function CountTo<M>(out: seq<Emit<M>>, id: SocketId): nat
    decreases |out|
  {
    if |out| == 0 then 0 else (if out[0].to == id then 1 else 0) + CountTo(out[1..], id)
  }

  /** Socket ids strictly increase along the collection: it lists sockets in
      the order they connected, each once. */
  ghost predicate ConnectionOrder(sockets: seq<Socket>)
  {
    forall i, j :: 0 <= i < j < |sockets| ==> sockets[i].id < sockets[j].id
  }

  /** The ids of the sockets in the collection. */
  function Ids(sockets: seq<Socket>): set<SocketId>
  {
    set s | s in sockets :: s.id
  }

  /** The collection after socket `id` has left it, the others in their order. */
  function Without(sockets: seq<Socket>, id: SocketId): (r: seq<Socket>)
    ensures forall s :: s in r <==> s in sockets && s.id != id
    ensures |r| <= |sockets|
    decreases |sockets|
  {
    if |sockets| == 0 then []
    else if sockets[0].id == id then Without(sockets[1..], id)
    else [sockets[0]] + Without(sockets[1..], id)
  }

  /** Every live socket other than the sender receives exactly one emit if it
      is the first socket of the receiving user and none otherwise; the sender
      receives its echo, and a second copy only when it is that first socket. */
  lemma {:induction false} PostDeliveryCounts<M>(sockets: seq<Socket>, sender: SocketId, receiverUsername: string, m: M, k: nat)
    requires ConnectionOrder(sockets)
    requires k < |sockets|
    ensures var out := PostEmits(sockets, sender, receiverUsername, m);
      CountTo(out, sockets[k].id) ==
        (if sockets[k].id == sender then 1 else 0) + (if FirstMatch(sockets, receiverUsername) == Some(k) then 1 else 0)
  {
    var out := PostEmits(sockets, sender, receiverUsername, m);
    var id := sockets[k].id;
    var echo := Emit(sender, MsgGet, Delivery([m]));
    match FirstMatch(sockets, receiverUsername)
    case None =>
      assert out == [echo] && out[1..] == [];
    case Some(i) =>
      assert out[0].to == sockets[i].id;
      if i < k { assert sockets[i].id < id; }
      if k < i { assert id < sockets[i].id; }
      assert out[1..] == [echo] && out[1..][1..] == [];
      assert CountTo(out, id) == (if i == k then 1 else 0) + CountTo([echo], id);
      assert [echo][1..] == [];
      assert CountTo([echo], id) == (if sender == id then 1 else 0) + CountTo([echo][1..], id);
      assert (FirstMatch(sockets, receiverUsername) == Some(k)) == (i == k);
  }

  /** The receiver is the user's oldest live session: among several sockets of
      the same user, the earliest-connected one is chosen. */
  lemma OldestSessionReceives(sockets: seq<Socket>, name: string, j: nat)
    requires ConnectionOrder(sockets)
    requires j < |sockets| && Addressed(sockets[j], name)
    ensures FirstMatch(sockets, name).Some?
    ensures sockets[FirstMatch(sockets, name).value].id <= sockets[j].id
  {
  }

  /** A socket that connects later does not change which socket an existing
      user's messages go to. */
  lemma {:induction false} FirstMatchStable(sockets: seq<Socket>, s: Socket, name: string)
    requires FirstMatch(sockets, name).Some?
    ensures FirstMatch(sockets + [s], name) == FirstMatch(sockets, name)
    decreases |sockets|
  {
    if !Addressed(sockets[0], name) {
      assert (sockets + [s])[1..] == sockets[1..] + [s];
      FirstMatchStable(sockets[1..], s, name);
    }
  }

  /** Removing a socket that is not in the collection changes nothing. */
  lemma {:induction false} WithoutAbsent(sockets: seq<Socket>, id: SocketId)
    requires id !in Ids(sockets)
    ensures Without(sockets, id) == sockets
    decreases |sockets|
  {
    if |sockets| > 0 {
      assert sockets[0] in sockets;
      assert forall s :: s in sockets[1..] ==> s in sockets;
      WithoutAbsent(sockets[1..], id);
      assert [sockets[0]] + sockets[1..] == sockets;
    }
  }

  /** Disconnecting twice leaves the collection as disconnecting once. */
  lemma WithoutIdempotent(sockets: seq<Socket>, id: SocketId)
    ensures Without(Without(sockets, id), id) == Without(sockets, id)
  {
    WithoutAbsent(Without(sockets, id), id);
  }

  /** A suffix of the collection is still in connection order. */
  lemma OrderTail(sockets: seq<Socket>)
    requires |sockets| > 0 && ConnectionOrder(sockets)
    ensures ConnectionOrder(sockets[1..])
  {
  }

  /** A socket older than all others may stand in front of them. */
  lemma OrderCons(h: Socket, r: seq<Socket>)
    requires ConnectionOrder(r)
    requires forall s :: s in r ==> h.id < s.id
    ensures ConnectionOrder([h] + r)
  {
  }

  /** Leaving keeps the remaining sockets in connection order. */
  lemma {:induction false} WithoutKeepsOrder(sockets: seq<Socket>, id: SocketId)
    requires ConnectionOrder(sockets)
    ensures ConnectionOrder(Without(sockets, id))
    decreases |sockets|
  {
    if |sockets| > 0 {
      var tail := sockets[1..];
      OrderTail(sockets);
      WithoutKeepsOrder(tail, id);
      if sockets[0].id != id {
        forall s | s in Without(tail, id) ensures sockets[0].id < s.id {
          var k :| 0 <= k < |tail| && tail[k] == s;
          assert tail[k] == sockets[k + 1];
        }
        OrderCons(sockets[0], Without(tail, id));
      }
    }
  }

  class Server<M> {
    /** `io.sockets.sockets`: the live sockets, in the order they connected. */
    var sockets: seq<Socket>
    /** The sockets on which the `msg:post` and `msg:load` handlers are registered. */
    var listening: set<SocketId>
    /** Every event emitted so far, in order. */
    var outbox: seq<Emit<M>>
    /** The id the next socket is given. */
    var nextId: SocketId

    ghost predicate Valid()
      reads this
    {
      && ConnectionOrder(sockets)
      && (forall i :: 0 <= i < |sockets| ==> sockets[i].id < nextId && sockets[i].user.Some?)
      && listening == Ids(sockets)
    }

    constructor ()
      ensures Valid()
      ensures sockets == [] && listening == {} && outbox == []
    {
      sockets, listening, outbox, nextId := [], {}, [], 0;
    }

    /** A socket that passed the handshake joins the namespace and the
        `connection` handler runs: without a user it is disconnected at once
        and no handler is attached; otherwise its handlers are registered. */
    method Connect(user: Option<Gate.Payload>) returns (id: SocketId)
      requires Valid()
      modifies this
      ensures Valid()
      ensures id == old(nextId) && nextId == old(nextId) + 1
      ensures user.None? ==> sockets == old(sockets) && listening == old(listening)
      ensures user.Some? ==> sockets == old(sockets) + [Socket(id, user)] && listening == old(listening) + {id}
      ensures id !in old(Ids(sockets))
      ensures outbox == old(outbox)
    {
      id := nextId;
      nextId := nextId + 1;
      var joined := sockets;
      sockets := sockets + [Socket(id, user)];
      if user.None? {
        // socket.disconnect(true)
        sockets := joined;
      } else {
        listening := listening + {id};
      }
    }

    /** A connection attempt: the gate decides, and only an admitted socket
        reaches the namespace, carrying the decoded payload as its user. */
    method Handshake(token: Option<string>, now: int, verify: string -> Gate.Verdict)
      returns (a: Gate.Admission, id: Option<SocketId>)
      requires Valid()
      modifies this
      ensures Valid()
      ensures a == Gate.Authenticate(token, now, verify)
      ensures a.Rejected? ==> id.None? && sockets == old(sockets) && listening == old(listening)
      ensures a.Admitted? ==>
        && id.Some? && id.value !in old(Ids(sockets))
        && sockets == old(sockets) + [Socket(id.value, Some(a.user))] && listening == old(listening) + {id.value}
      ensures outbox == old(outbox)
    {
      a := Gate.Authenticate(token, now, verify);
      id := None;
      if a.Admitted? {
        var joined := Connect(Some(a.user));
        id := Some(joined);
      }
    }

    /** The client went away: Socket.IO drops the socket from the namespace
        (the server's own `disconnect` handlers only log). */
    method Disconnect(id: SocketId)
      requires Valid()
      modifies this
      ensures Valid()
      ensures sockets == Without(old(sockets), id) && listening == old(listening) - {id}
      ensures outbox == old(outbox) && nextId == old(nextId)
    {
      WithoutKeepsOrder(sockets, id);
      sockets := Without(sockets, id);
      listening := listening - {id};
    }

    /** The `msg:post` handler of `sender`: await `sendMessage`; if it resolves
        to `m`, emit `msg:get` to the first live socket of the receiver, if
        any, and then to the sender. */
    method Post(sender: Socket, receiverUsername: string, text: string,
                sendMessage: (Socket, string, string) -> Option<M>)
      requires Valid() && sender in sockets && sender.id in listening
      modifies this`outbox
      ensures Valid()
      ensures sendMessage(sender, receiverUsername, text).None? ==> outbox == old(outbox)
      ensures sendMessage(sender, receiverUsername, text).Some? ==>
        outbox == old(outbox) + PostEmits(sockets, sender.id, receiverUsername, sendMessage(sender, receiverUsername, text).value)
    {
      var messageSent := sendMessage(sender, receiverUsername, text);
      if messageSent.None? {
        return;
      }
      var snapshot := sockets;
      var receiver := FirstMatch(snapshot, receiverUsername);
      if receiver.Some? {
        outbox := outbox + [Emit(snapshot[receiver.value].id, MsgGet, Delivery([messageSent.value]))];
      }
      outbox := outbox + [Emit(sender.id, MsgGet, Delivery([messageSent.value]))];
    }

    /** The `msg:load` handler of `requester`: once `getMessages` resolves,
        emit its result as `msg:load` to the requester alone. */
    method Load(requester: Socket, receiverUsername: string,
                getMessages: (Socket, string) -> Option<seq<M>>)
      requires Valid() && requester in sockets && requester.id in listening
      modifies this`outbox
      ensures Valid()
      ensures getMessages(requester, receiverUsername).None? ==> outbox == old(outbox)
      ensures getMessages(requester, receiverUsername).Some? ==>
        outbox == old(outbox) + [Emit(requester.id, MsgLoad, History(getMessages(requester, receiverUsername).value))]
    {
      var history := getMessages(requester, receiverUsername);
      if history.Some? {
        outbox := outbox + [Emit(requester.id, MsgLoad, History(history.value))];
      }
    }
  }

}
