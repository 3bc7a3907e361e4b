/** The socket.io relay with rooms (front/server.js). The handlers keep no
    table of their own: membership is socket.io's adapter, in which every
    socket sits in a room named by its own id and `socket.join(room)` adds it
    to a named room. `socket.to(x).emit` reaches every socket of room `x`
    except the sender; `join` answers the joiner with the other members. */
module RoomSignal {
  import opened Common

  type SocketId = string

  datatype SignalData = SignalData(to: Option<string>, from: Option<SocketId>, payload: Payload)

  datatype Event = Offer | Answer | IceCandidate | Users | Other(name: string)

  predicate IsRelayed(e: Event) {
    e == Offer || e == Answer || e == IceCandidate
  }

  datatype Argument = Data(data: SignalData) | UserList(ids: set<SocketId>)

  datatype Emit = Emit(recipient: SocketId, event: Event, arg: Argument)

  /** `io.sockets.adapter.rooms.get(name) || []`: the socket whose id is
      `name`, if connected, together with the sockets that joined `name`. */
  function Members(connected: set<SocketId>, joined: map<string, set<SocketId>>, name: string): (m: set<SocketId>)
    ensures forall s :: s in m <==> (s == name && s in connected) || (name in joined && s in joined[name])
  {
    (if name in connected then {name} else {}) + (if name in joined then joined[name] else {})
  }

  /** Line 26: the room's members without the joiner. */
  function OtherUsers(members: set<SocketId>, self: SocketId): (r: set<SocketId>)
    ensures self !in r
    ensures forall s :: s in r <==> s in members && s != self
  {
    members - {self}
  }

  class Server {
    var connected: set<SocketId>
    var joined: map<string, set<SocketId>>
    /** `socket.room` of each socket that has joined a room. */
    var roomOf: map<SocketId, string>

    /** Only connected sockets sit in named rooms or carry `socket.room`,
        and no named room is empty: socket.io's adapter drops a room once
        its last socket leaves. */
    ghost predicate Valid()
      reads this
    {
      (forall r :: r in joined ==> joined[r] != {} && joined[r] <= connected) &&
      roomOf.Keys <= connected
    }

    constructor ()
      ensures Valid()
      ensures connected == {} && joined == map[] && roomOf == map[]
    {
      connected, joined, roomOf := {}, map[], map[];
    }

    /** socket.io's connection: the socket, under an id no connected socket
        holds, enters its own room and no named one. */
    method Connect(id: SocketId)
      requires Valid() && id !in connected
      modifies this
      ensures Valid()
      ensures connected == old(connected) + {id}
      ensures (forall r :: r in joined ==> id !in joined[r]) && id !in roomOf
      ensures joined == old(joined) && roomOf == old(roomOf)
    {
      connected := connected + {id};
    }

    /** Lines 11-21: a relayed event goes, unchanged and under its own name,
        to every member of the room `data.to` other than the sender. */
    method Relay(sender: SocketId, e: Event, d: SignalData) returns (out: set<Emit>)
      ensures forall m :: m in out <==>
        IsRelayed(e) && d.to.Some? && m.recipient in Members(connected, joined, d.to.value) &&
        m.recipient != sender && m.event == e && m.arg == Data(d)
    {
      if IsRelayed(e) && d.to.Some? {
        var targets := Members(connected, joined, d.to.value) - {sender};
        out := set r | r in targets :: Emit(r, e, Data(d));
      } else {
        out := {};
      }
    }

    /** Lines 23-28: join the room, remember it in `socket.room`, and send the
        other members to the joiner alone. */
    method Join(id: SocketId, room: string) returns (out: set<Emit>)
      requires Valid() && id in connected
      modifies this
      ensures Valid()
      ensures joined == old(joined)[room := (if room in old(joined) then old(joined)[room] else {}) + {id}]
      ensures roomOf == old(roomOf)[id := room]
      ensures connected == old(connected)
      ensures out == {Emit(id, Users, UserList(OtherUsers(Members(connected, joined, room), id)))}
    {
      joined := joined[room := (if room in joined then joined[room] else {}) + {id}];
      roomOf := roomOf[id := room];
      out := {Emit(id, Users, UserList(OtherUsers(Members(connected, joined, room), id)))};
    }

    /** socket.io's disconnect: the socket leaves every room; the handler of
        lines 30-32 only logs. */
    method Disconnect(id: SocketId)
      requires Valid()
      modifies this
      ensures Valid()
      ensures connected == old(connected) - {id}
      ensures joined == map r | r in old(joined) && old(joined)[r] - {id} != {} :: old(joined)[r] - {id}
      ensures roomOf == old(roomOf) - {id}
    {
      connected := connected - {id};
      joined := map r | r in joined && joined[r] - {id} != {} :: joined[r] - {id};
      roomOf := roomOf - {id};
    }
  }

  /** After a join, the joiner belongs to the room, and the list it receives
      holds every earlier member of the room and nobody else. */
  lemma JoinReplyIsTheOthers(connected: set<SocketId>, joined: map<string, set<SocketId>>, id: SocketId, room: string)
    ensures var after := joined[room := (if room in joined then joined[room] else {}) + {id}];
      id in Members(connected, after, room) &&
      OtherUsers(Members(connected, after, room), id) == Members(connected, joined, room) - {id}
  {
  }

  /** Addressed to a connected socket whose id no socket has joined as a room
      name, a relayed message reaches exactly that socket. */
  lemma RelayToPeerId(connected: set<SocketId>, joined: map<string, set<SocketId>>, sender: SocketId, p: SocketId)
    requires p in connected && p != sender && p !in joined
    ensures Members(connected, joined, p) - {sender} == {p}
  {
  }
}
