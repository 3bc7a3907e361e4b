/** The FastAPI WebSocket relay (webrtc_backand/main.py): a dict of connected
    clients keyed by `str(id(ws))`, kept in insertion order; a `new-peer`
    notice to every other client on connect; forwarding of every received
    JSON object to `clients[to]`; removal on `WebSocketDisconnect`. */
module PeerRelay {
  import opened Common

  type ClientId = string

  /** One `send_json` to one client. */
  datatype Send = Send(to: ClientId, msg: JsonMessage)

  /** `{"type": "new-peer", "from": client_id}` */
  function NewPeer(id: ClientId): JsonMessage {
    JsonMessage(Some("new-peer"), None, Some(id), NoPayload)
  }

  /** `clients[client_id] = ws` on the dict's key order: a new key goes last,
      an existing key keeps its place. */
  function Registered(clients: seq<ClientId>, id: ClientId): (r: seq<ClientId>)
    ensures NoDup(clients) ==> NoDup(r)
    ensures forall c :: c in r <==> c in clients || c == id
    ensures |clients| <= |r| && r[..|clients|] == clients
  {
    if id in clients then clients else clients + [id]
  }

  /** `del clients[client_id]`: the key order of the others is kept. */
  function Without(clients: seq<ClientId>, id: ClientId): (r: seq<ClientId>)
    ensures forall c :: c in r <==> c in clients && c != id
    ensures NoDup(clients) ==> NoDup(r)
    ensures |r| <= |clients|
  {
    if clients == [] then []
    else if clients[0] == id then Without(clients[1..], id)
    else
      var rest := Without(clients[1..], id);
      assert NoDup(clients) ==> NoDup(clients[1..]) && clients[0] !in clients[1..] by {
        if NoDup(clients) {
          forall i, j | 0 <= i < j < |clients[1..]| ensures clients[1..][i] != clients[1..][j] {
            assert clients[1..][i] == clients[i + 1] && clients[1..][j] == clients[j + 1];
          }
          forall k | 0 <= k < |clients[1..]| ensures clients[1..][k] != clients[0] {
            assert clients[1..][k] == clients[k + 1];
          }
        }
      }
      [clients[0]] + rest
  }

  /** The notices the loop of lines 21-23 sends, in dict order. */
  function NewPeerNotices(clients: seq<ClientId>, id: ClientId): (out: seq<Send>)
    ensures |out| <= |clients|
    ensures forall k :: 0 <= k < |out| ==> out[k].msg == NewPeer(id) && out[k].to in clients && out[k].to != id
    ensures forall c :: c in clients && c != id ==> Send(c, NewPeer(id)) in out
  {
    if clients == [] then []
    else
      var rest := NewPeerNotices(clients[..|clients| - 1], id);
      var c := clients[|clients| - 1];
      assert forall x :: x in clients ==> x in clients[..|clients| - 1] || x == c;
      if c != id then rest + [Send(c, NewPeer(id))] else rest
  }

  /** How far the loop of lines 21-23 gets when the sends to the clients in
      `faults` raise: the index of the first other client whose send fails,
      or the whole length when none does. */
  function Reached(clients: seq<ClientId>, id: ClientId, faults: map<ClientId, Fault>): (n: nat)
    ensures n <= |clients|
    ensures forall j :: 0 <= j < n && clients[j] != id ==> clients[j] !in faults
    ensures n < |clients| ==> clients[n] != id && clients[n] in faults
  {
    if clients == [] then 0
    else if clients[0] != id && clients[0] in faults then 0
    else
      var n := Reached(clients[1..], id, faults);
      assert forall j :: 1 <= j < |clients| ==> clients[j] == clients[1..][j - 1];
      1 + n
  }

  /** The fault the loop of lines 21-23 stops at, if any. */
  function AnnounceFault(clients: seq<ClientId>, id: ClientId, faults: map<ClientId, Fault>): (f: Option<Fault>)
    ensures f.None? <==> forall c :: c in clients && c != id ==> c !in faults
  {
    var n := Reached(clients, id, faults);
    if n < |clients| then Some(faults[clients[n]]) else None
  }

  /** The forwarding rule of lines 27-29: the object goes, unchanged, to the
      client named by a present, non-empty, registered `to`, and nowhere else. */
  function Route(clients: seq<ClientId>, m: JsonMessage): (out: seq<Send>)
    ensures |out| <= 1
    ensures forall s :: s in out ==> m.to == Some(s.to) && s.to in clients && s.msg == m
    ensures out == [] <==> m.to.None? || m.to.value == "" || m.to.value !in clients
  {
    if m.to.Some? && m.to.value != "" && m.to.value in clients then [Send(m.to.value, m)] else []
  }

  class Relay {
    /** The keys of `clients` in insertion order; the values are the sockets. */
    var clients: seq<ClientId>

    ghost predicate Valid()
      reads this
    {
      NoDup(clients)
    }

    constructor ()
      ensures Valid() && clients == []
    {
      clients := [];
    }

    /** Lines 17-23: register the newcomer, then notify every other client.
        A notice that raises `WebSocketDisconnect` sends the newcomer's own
        handler to line 31, which deletes the newcomer and keeps the peer
        whose socket failed; any other exception leaves the newcomer listed. */
    method Connect(id: ClientId, faults: map<ClientId, Fault>) returns (out: seq<Send>, fault: Option<Fault>)
      requires Valid()
      modifies this
      ensures Valid()
      ensures var reg := Registered(old(clients), id);
        out == NewPeerNotices(reg[..Reached(reg, id, faults)], id) &&
        fault == AnnounceFault(reg, id, faults) &&
        clients == if fault == Some(Gone) then Without(reg, id) else reg
    {
      clients := Registered(clients, id);
      out, fault := Announce(id, faults);
      if fault == Some(Gone) {
        clients := Without(clients, id);
      }
    }

    /** The `for cid, client in clients.items()` loop of lines 21-23, which
        stops at the first send that raises. */
    method Announce(id: ClientId, faults: map<ClientId, Fault>) returns (out: seq<Send>, fault: Option<Fault>)
      ensures out == NewPeerNotices(clients[..Reached(clients, id, faults)], id)
      ensures fault == AnnounceFault(clients, id, faults)
    {
      out := [];
      var i := 0;
      while i < |clients|
        invariant 0 <= i <= |clients|
        invariant out == NewPeerNotices(clients[..i], id)
        invariant forall j :: 0 <= j < i && clients[j] != id ==> clients[j] !in faults
      {
        assert clients[..i + 1][..i] == clients[..i];
        if clients[i] != id {
          if clients[i] in faults {
            assert Reached(clients, id, faults) == i;
            return out, Some(faults[clients[i]]);
          }
          out := out + [Send(clients[i], NewPeer(id))];
        }
        i := i + 1;
      }
      assert clients[..i] == clients;
      fault := None;
    }

    /** One turn of the receive loop for the connection registered as `id`.
        `open` says whether the loop goes on. A forward that raises ends it:
        `WebSocketDisconnect` deletes the sender's own entry and keeps the
        addressee's; any other exception leaves the table as it is. Of the
        events from `receive_json`, only a disconnect removes the entry; a
        frame that is not a JSON object ends the handler and leaves the entry:
        either `receive_json` raises, or `data.get` does on the value it
        returned (webrtc_backand/main.py:27). */
    method Handle(id: ClientId, ev: Inbound, faults: map<ClientId, Fault>) returns (out: seq<Send>, open: bool)
      requires Valid() && id in clients
      modifies this
      ensures Valid()
      ensures ev.Json? ==> (var r := Route(old(clients), ev.msg);
        var failed := r != [] && r[0].to in faults;
        out == (if failed then [] else r) && open == !failed &&
        clients == if failed && faults[r[0].to] == Gone then Without(old(clients), id) else old(clients))
      ensures ev.Malformed? ==> out == [] && !open && clients == old(clients)
      ensures ev.Closed? ==> out == [] && !open && clients == Without(old(clients), id)
    {
      match ev
      case Json(m) =>
        var r := Route(clients, m);
        if r != [] && r[0].to in faults {
          if faults[r[0].to] == Gone {
            clients := Without(clients, id);
          }
          out, open := [], false;
        } else {
          out, open := r, true;
        }
      case Malformed =>
        out, open := [], false;
      case Closed =>
        clients := Without(clients, id);
        out, open := [], false;
    }
  }

  /** When none of the other clients' sends raises, the newcomer stays
      registered and every other client gets its notice. */
  lemma FaultFreeAnnounce(clients: seq<ClientId>, id: ClientId, faults: map<ClientId, Fault>)
    requires forall c :: c in clients && c != id ==> c !in faults
    ensures Reached(clients, id, faults) == |clients| && AnnounceFault(clients, id, faults).None?
    ensures NewPeerNotices(clients[..Reached(clients, id, faults)], id) == NewPeerNotices(clients, id)
  {
    assert clients[..|clients|] == clients;
  }

  /** A notice that raises `WebSocketDisconnect` for a fresh newcomer leaves
      the table as it was before the connect: the newcomer is gone and the
      peer whose socket failed is still listed. */
  lemma {:induction false} GoneNoticeDropsNewcomer(clients: seq<ClientId>, id: ClientId, faults: map<ClientId, Fault>)
    requires NoDup(clients) && id !in clients
    requires AnnounceFault(Registered(clients, id), id, faults) == Some(Gone)
    ensures Without(Registered(clients, id), id) == clients
    ensures exists c :: c in clients && c in faults && faults[c] == Gone
  {
    WithoutUndoesRegistered(clients, id);
    var reg := Registered(clients, id);
    var n := Reached(reg, id, faults);
    assert reg[n] in clients;
  }

  /** Registering a fresh id and then dropping it gives back the same table. */
  lemma {:induction false} WithoutUndoesRegistered(clients: seq<ClientId>, id: ClientId)
    requires id !in clients
    ensures Without(Registered(clients, id), id) == clients
  {
    WithoutAbsent(clients, id);
    WithoutAppend(clients, [id], id);
  }

  lemma {:induction false} WithoutAbsent(clients: seq<ClientId>, id: ClientId)
    requires id !in clients
    ensures Without(clients, id) == clients
  {
    if clients != [] {
      WithoutAbsent(clients[1..], id);
      assert clients == [clients[0]] + clients[1..];
    }
  }

  lemma {:induction false} WithoutAppend(a: seq<ClientId>, b: seq<ClientId>, id: ClientId)
    ensures Without(a + b, id) == Without(a, id) + Without(b, id)
  {
    if a != [] {
      assert (a + b)[1..] == a[1..] + b;
      WithoutAppend(a[1..], b, id);
    } else {
      assert a + b == b;
    }
  }
}
