/** The room relay of the single-page video call (video_webcam/signaling.py):
    `rooms` maps a room id to the set of its open connections; a connection
    joins the room named by its URL, every JSON object it sends goes to all
    other connections of that room, and a room left empty is deleted. */
module RoomRelay {
  import opened Common

  type RoomId = string
  type ConnId = string

  datatype Send = Send(to: ConnId, data: JsonMessage)

  type Rooms = map<RoomId, set<ConnId>>

  /** The shape lines 11-13 and 21-23 keep: no key maps to an empty set. */
  ghost predicate NoEmptyRoom(rooms: Rooms) {
    forall r :: r in rooms ==> rooms[r] != {}
  }

  /** Lines 11-13: create the room's set when absent, then add the connection. */
  function Joined(rooms: Rooms, room: RoomId, c: ConnId): (r: Rooms)
    ensures r.Keys == rooms.Keys + {room}
    ensures c in r[room]
    ensures r[room] == (if room in rooms then rooms[room] else {}) + {c}
    ensures forall x :: x in rooms && x != room ==> r[x] == rooms[x]
    ensures NoEmptyRoom(rooms) ==> NoEmptyRoom(r)
  {
    rooms[room := (if room in rooms then rooms[room] else {}) + {c}]
  }

  /** Lines 21-23: remove the connection, and the room with it if it empties. */
  function Left(rooms: Rooms, room: RoomId, c: ConnId): (r: Rooms)
    requires room in rooms
    ensures r.Keys <= rooms.Keys
    ensures forall x :: x in rooms && x != room ==> x in r && r[x] == rooms[x]
    ensures room in r <==> rooms[room] - {c} != {}
    ensures room in r ==> r[room] == rooms[room] - {c}
    ensures NoEmptyRoom(rooms) ==> NoEmptyRoom(r)
  {
    var rest := rooms[room] - {c};
    if rest == {} then rooms - {room} else rooms[room := rest]
  }

  /** Joining and then leaving, with nobody else moving, restores the table. */
  lemma LeaveUndoesJoin(rooms: Rooms, room: RoomId, c: ConnId)
    requires NoEmptyRoom(rooms)
    requires room in rooms ==> c !in rooms[room]
    ensures Left(Joined(rooms, room, c), room, c) == rooms
  {
    var after := Left(Joined(rooms, room, c), room, c);
    if room in rooms {
      assert after[room] == rooms[room];
    }
    assert after.Keys == rooms.Keys;
  }

  class Hub {
    var rooms: Rooms

    ghost predicate Valid()
      reads this
    {
      NoEmptyRoom(rooms)
    }

    constructor ()
      ensures Valid() && rooms == map[]
    {
      rooms := map[];
    }

    method Join(room: RoomId, c: ConnId)
      requires Valid()
      modifies this
      ensures Valid()
      ensures rooms == Joined(old(rooms), room, c)
    {
      if room !in rooms {
        rooms := rooms[room := {}];
      }
      rooms := rooms[room := rooms[room] + {c}];
    }

    /** The `except WebSocketDisconnect` branch for a connection of `room`. */
    method Leave(room: RoomId, c: ConnId)
      requires Valid() && room in rooms && c in rooms[room]
      modifies this
      ensures Valid()
      ensures rooms == Left(old(rooms), room, c)
    {
      rooms := rooms[room := rooms[room] - {c}];
      if rooms[room] == {} {
        rooms := rooms - {room};
      }
    }

    /** Lines 16-19: one received object goes to each other connection of the
        sender's room, once, and to nobody else. The set is walked in no
        stated order, and the walk stops at the first send that raises,
        `fault` being what it raised. */
    method Broadcast(room: RoomId, sender: ConnId, data: JsonMessage, faults: map<ConnId, Fault>)
      returns (out: seq<Send>, fault: Option<Fault>)
      requires room in rooms
      ensures forall s :: s in out ==> s.data == data
      ensures forall x :: Send(x, data) in out ==> x in rooms[room] && x != sender && x !in faults
      ensures fault.None? <==> forall x :: x in rooms[room] && x != sender ==> x !in faults
      ensures fault.None? ==> forall x :: x in rooms[room] && x != sender ==> Send(x, data) in out
      ensures fault.Some? ==> exists x :: (x in rooms[room] && x != sender && x in faults && fault.value == faults[x])
      ensures NoDup(out)
    {
      var todo := rooms[room];
      ghost var done: set<ConnId> := {};
      out := [];
      while todo != {}
        invariant todo + done == rooms[room] && todo !! done
        invariant forall s :: s in out ==> s.data == data
        invariant forall x :: Send(x, data) in out <==> x in done && x != sender
        invariant forall x :: x in done && x != sender ==> x !in faults
        invariant NoDup(out)
        decreases |todo|
      {
        var c :| c in todo;
        if c != sender {
          if c in faults {
            return out, Some(faults[c]);
          }
          out := out + [Send(c, data)];
        }
        done := done + {c};
        todo := todo - {c};
      }
      fault := None;
    }

    /** One turn of the receive loop (lines 15-23) for `sender`. A received
        object is broadcast; when a send raised `WebSocketDisconnect`, the
        `except` of lines 20-23 in the sender's own handler removes the
        sender and keeps the connection that failed, and any other exception
        ends the handler with the sender still in its room. A frame that is
        not JSON makes `receive_json` raise an exception other than
        `WebSocketDisconnect`: nothing is sent and the sender stays in its
        room. A disconnect takes the sender out of its room. `open` says
        whether the loop goes on. */
    method Receive(room: RoomId, sender: ConnId, ev: Inbound, faults: map<ConnId, Fault>)
      returns (out: seq<Send>, fault: Option<Fault>, open: bool)
      requires Valid() && room in rooms && sender in rooms[room]
      modifies this
      ensures Valid()
      ensures ev.Json? ==> (var data := ev.msg;
        (fault.None? <==> forall x :: x in old(rooms)[room] && x != sender ==> x !in faults) &&
        (fault.None? ==> forall x :: Send(x, data) in out <==> x in old(rooms)[room] && x != sender) &&
        (forall s :: s in out ==> s.data == data) && NoDup(out) &&
        (forall x :: Send(x, data) in out ==> x in old(rooms)[room] && x != sender && x !in faults) &&
        open == fault.None? &&
        rooms == if fault == Some(Gone) then Left(old(rooms), room, sender) else old(rooms))
      ensures ev.Malformed? ==> out == [] && fault.None? && !open && rooms == old(rooms)
      ensures ev.Closed? ==> out == [] && fault.None? && !open && rooms == Left(old(rooms), room, sender)
    {
      match ev
      case Json(data) =>
        out, fault := Broadcast(room, sender, data, faults);
        if fault == Some(Gone) {
          Leave(room, sender);
        }
        open := fault.None?;
      case Malformed =>
        out, fault, open := [], None, false;
      case Closed =>
        Leave(room, sender);
        out, fault, open := [], None, false;
    }
  }

  /** A send that raises `WebSocketDisconnect` takes the sender out of its
      room while the connection that failed stays in it. */
  lemma GoneSendKeepsDeadPeer(rooms: Rooms, room: RoomId, sender: ConnId, dead: ConnId)
    requires room in rooms && dead in rooms[room] && dead != sender
    ensures var r := Left(rooms, room, sender);
      room in r && dead in r[room] && sender !in r[room]
  {
  }
}
