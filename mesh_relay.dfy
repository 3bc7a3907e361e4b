/** The socket.io relay of the mesh client (webrtc_front/server.js): a table
    of connected sockets keyed by socket id, a `new-user` announcement to the
    others on connect, `to`-addressed forwarding of offers, answers and ICE
    candidates, and a `user-disconnected` announcement on disconnect. */
module MeshRelay {
  import opened Common

  type SocketId = string

  /** The `data` object of an `offer`/`answer`/`ice-candidate` event; `to`
      and `from` are absent when the sender left them out. */
  datatype SignalData = SignalData(to: Option<SocketId>, from: Option<SocketId>, payload: Payload)

  datatype Event = NewUser | Offer | Answer | IceCandidate | UserDisconnected | Other(name: string)

  predicate IsRelayed(e: Event) {
    e == Offer || e == Answer || e == IceCandidate
  }

  datatype Argument = Id(id: SocketId) | Data(data: SignalData)

  /** One `emit` on one socket. */
  datatype Emit = Emit(recipient: SocketId, event: Event, arg: Argument)

  /** socket.io's `broadcast.emit`: the same event to every socket in `others`. */
  function Broadcast(others: set<SocketId>, e: Event, a: Argument): (out: set<Emit>)
    ensures forall m :: m in out <==> m.recipient in others && m.event == e && m.arg == a
  {
    set r | r in others :: Emit(r, e, a)
  }

  /** The relay rule of lines 19-35: a relayed event goes, unchanged and under
      its own name, to `users[data.to]` when that socket is registered, and
      nowhere otherwise. */
  function Route(users: set<SocketId>, e: Event, d: SignalData): (out: set<Emit>)
    ensures |out| <= 1
    ensures forall m :: m in out ==> d.to == Some(m.recipient) && m.recipient in users && m.event == e && m.arg == Data(d)
    ensures out == {} <==> !IsRelayed(e) || d.to.None? || d.to.value !in users
  {
    if IsRelayed(e) && d.to.Some? && d.to.value in users then {Emit(d.to.value, e, Data(d))} else {}
  }

  class Server {
    /** The keys of `users`; each value is the socket whose id is the key. */
    var users: set<SocketId>

    constructor ()
      ensures users == {}
    {
      users := {};
    }

    /** `io.on('connection')`: register the socket, announce it to the others. */
    method Connect(id: SocketId) returns (out: set<Emit>)
      modifies this
      ensures users == old(users) + {id}
      ensures out == Broadcast(old(users) - {id}, NewUser, Id(id))
    {
      out := Broadcast(users - {id}, NewUser, Id(id));
      users := users + {id};
    }

    /** The `offer`, `answer` and `ice-candidate` handlers; any other event
      name has no handler. The table is only read. */
    method Relay(e: Event, d: SignalData) returns (out: set<Emit>)
      ensures out == Route(users, e, d)
    {
      out := {};
      if IsRelayed(e) && d.to.Some? && d.to.value in users {
        out := {Emit(d.to.value, e, Data(d))};
      }
    }

    /** `socket.on('disconnect')`: forget the socket, tell the remaining ones. */
    method Disconnect(id: SocketId) returns (out: set<Emit>)
      modifies this
      ensures users == old(users) - {id}
      ensures out == Broadcast(users, UserDisconnected, Id(id))
    {
      users := users - {id};
      out := Broadcast(users, UserDisconnected, Id(id));
    }
  }

  /** The newcomer never hears about itself; every earlier socket does. */
  lemma NewUserReachesOthersOnly(users: set<SocketId>, id: SocketId)
    ensures Emit(id, NewUser, Id(id)) !in Broadcast(users - {id}, NewUser, Id(id))
    ensures forall u :: u in users && u != id ==> Emit(u, NewUser, Id(id)) in Broadcast(users - {id}, NewUser, Id(id))
  {
  }

  /** Once `x` has disconnected, anything addressed to `x` is dropped. */
  lemma DepartedPeerIsDropped(users: set<SocketId>, x: SocketId, e: Event, d: SignalData)
    requires d.to == Some(x)
    ensures Route(users - {x}, e, d) == {}
  {
  }
}
