/** The chat WebSocket server (chat_main/main.py): an access-token gate on
    the cookie header, a history of the room's latest visible messages, and
    per received text a broadcast of the original, a second broadcast of the
    validator's replacement when the text is rejected, and the stored record.
    `connected_clients` is a set; a send that raises marks its client dead,
    and the dead are removed after the round. The SQL table is modelled as a
    sequence of records in ascending id order; the JWT decoder, the cookie
    parser and the sockets are parameters. */
module ChatServer {
  import opened Common
  import Validator

  type ClientId = string

  const Room: string := "qwerty"
  const HistoryLimit: nat := 50
  const PolicyViolation: int := 1008
  /** `ACCESS_COOKIE_NAME` when the environment does not set it (line 42). */
  const AccessCookieName: string := "access-name"

  /** A raw header: name and value, already decoded. */
  datatype Header = Header(name: string, value: string)

  /** The claims of a decoded token that the server reads. */
  datatype Claims = Claims(kind: Option<string>, lastName: Option<string>, firstName: Option<string>, middleName: Option<string>)

  /** A stored `Message` row. */
  datatype Message = Message(id: nat, htmlid: string, sender: string, text: string, room: string, visibility: bool, time: string)

  /** The JSON object sent for a message (lines 134-141 and 195-202). */
  datatype Wire = Wire(htmlid: string, sender: string, text: string, room: string, visibility: bool, time: string)

  datatype Frame = Frame(to: ClientId, data: Wire)

  datatype Close = Close(to: ClientId, code: int)

  function WireOf(m: Message): Wire {
    Wire(m.htmlid, m.sender, m.text, m.room, m.visibility, m.time)
  }

  predicate IsCookie(h: Header) {
    Validator.Lower(h.name) == "cookie"
  }

  /** Lines 94-100: the value of the first header named `cookie` in any case. */
  function FirstCookie(headers: seq<Header>): (r: Option<string>)
    ensures r.None? <==> forall j :: 0 <= j < |headers| ==> !IsCookie(headers[j])
    ensures r.Some? ==> exists i :: (0 <= i < |headers| && IsCookie(headers[i]) && headers[i].value == r.value &&
      forall j :: 0 <= j < i ==> !IsCookie(headers[j]))
  {
    if headers == [] then None
    else if IsCookie(headers[0]) then Some(headers[0].value)
    else
      var r := FirstCookie(headers[1..]);
      assert forall j :: 1 <= j < |headers| ==> headers[j] == headers[1..][j - 1];
      if r.Some? then
        var i :| 0 <= i < |headers[1..]| && IsCookie(headers[1..][i]) && headers[1..][i].value == r.value &&
          forall j :: 0 <= j < i ==> !IsCookie(headers[1..][j]);
        assert IsCookie(headers[i + 1]) && forall j :: 0 <= j < i + 1 ==> !IsCookie(headers[j]);
        r
      else r
  }

  /** The header loop of lines 95-100, with its `break`. */
  method FindCookieHeader(headers: seq<Header>) returns (v: Option<string>)
    ensures v == FirstCookie(headers)
  {
    v := None;
    var i := 0;
    while i < |headers|
      invariant 0 <= i <= |headers|
      invariant FirstCookie(headers) == FirstCookie(headers[i..])
    {
      assert headers[i..][1..] == headers[i + 1..];
      if IsCookie(headers[i]) {
        v := Some(headers[i].value);
        return;
      }
      i := i + 1;
    }
  }

  /** `parse_cookies_from_header` (lines 81-86); `parse` is `SimpleCookie`. */
  function ParseCookies(header: Option<string>, parse: string -> map<string, string>): (r: map<string, string>)
    ensures header.None? || header.value == "" ==> r == map[]
    ensures header.Some? && header.value != "" ==> r == parse(header.value)
  {
    if header.None? || header.value == "" then map[] else parse(header.value)
  }

  /** Lines 103-111: a user exactly when a non-empty access cookie decodes to
      claims whose `type` is `access`; `decode` is `jwt.decode`, None when it raises. */
  function AuthUser(cookies: map<string, string>, decode: string -> Option<Claims>): (u: Option<Claims>)
    ensures u.Some? <==> (AccessCookieName in cookies && cookies[AccessCookieName] != [] &&
      decode(cookies[AccessCookieName]).Some? && decode(cookies[AccessCookieName]).value.kind == Some("access"))
    ensures u.Some? ==> u == decode(cookies[AccessCookieName])
  {
    if AccessCookieName !in cookies || cookies[AccessCookieName] == [] then None
    else
      var payload := decode(cookies[AccessCookieName]);
      if payload.Some? && payload.value.kind == Some("access") then payload else None
  }

  /** Line 120, `"{last} {first[0]}.{middle[0]}."`: None where the f-string
      raises, on a missing claim or an empty first or middle name. */
  function UserName(c: Claims): (r: Option<string>)
    ensures r.Some? <==> (c.lastName.Some? && c.firstName.Some? && c.middleName.Some? &&
      c.firstName.value != [] && c.middleName.value != [])
    ensures r.Some? ==> |r.value| == |c.lastName.value| + 5 && r.value[..|c.lastName.value|] == c.lastName.value
    ensures r.Some? ==> r.value[|c.lastName.value|..] == [' ', c.firstName.value[0], '.', c.middleName.value[0], '.']
  {
    if c.lastName.Some? && c.firstName.Some? && c.middleName.Some? && c.firstName.value != [] && c.middleName.value != [] then
      var last := c.lastName.value;
      var name := last + [' ', c.firstName.value[0], '.', c.middleName.value[0], '.'];
      assert name[..|last|] == last;
      Some(name)
    else None
  }

  /** Two users get the same display name exactly when their last names and
      both initials coincide. */
  lemma {:induction false} UserNameKeepsLastNameAndInitials(a: Claims, b: Claims)
    requires UserName(a).Some? && UserName(b).Some?
    ensures UserName(a) == UserName(b) <==>
      a.lastName == b.lastName && a.firstName.value[0] == b.firstName.value[0] && a.middleName.value[0] == b.middleName.value[0]
  {
    var na, nb := UserName(a).value, UserName(b).value;
    if na == nb {
      assert |a.lastName.value| == |b.lastName.value|;
      assert na[..|a.lastName.value|] == nb[..|b.lastName.value|];
      assert na[|a.lastName.value|..] == nb[|b.lastName.value|..];
      assert na[|a.lastName.value|..][1] == nb[|b.lastName.value|..][1];
      assert na[|a.lastName.value|..][3] == nb[|b.lastName.value|..][3];
    }
  }

  /** Ids strictly increase along the table, as autoincrement keys do. */
  ghost predicate IdsIncreasing(s: seq<Message>) {
    forall i, j :: 0 <= i < j < |s| ==> s[i].id < s[j].id
  }

  predicate Shown(m: Message, room: string) {
    m.room == room && m.visibility
  }

  /** `.where(room == room).where(visibility)`, in table order. */
  function Visible(store: seq<Message>, room: string): (r: seq<Message>)
    ensures |r| <= |store|
    ensures forall m :: m in r <==> m in store && Shown(m, room)
  {
    if store == [] then []
    else
      var rest := Visible(store[1..], room);
      assert forall m :: m in store <==> m == store[0] || m in store[1..];
      if Shown(store[0], room) then [store[0]] + rest else rest
  }

  /** Filtering keeps the table's id order. */
  lemma {:induction false} VisibleKeepsOrder(store: seq<Message>, room: string)
    requires IdsIncreasing(store)
    ensures IdsIncreasing(Visible(store, room))
  {
    if store != [] {
      var tail := store[1..];
      assert IdsIncreasing(tail) by {
        forall i, j | 0 <= i < j < |tail| ensures tail[i].id < tail[j].id {
          assert tail[i] == store[i + 1] && tail[j] == store[j + 1];
        }
      }
      VisibleKeepsOrder(tail, room);
      var rest := Visible(tail, room);
      if Shown(store[0], room) {
        var r := [store[0]] + rest;
        forall i, j | 0 <= i < j < |r| ensures r[i].id < r[j].id {
          if i == 0 {
            assert r[j] == rest[j - 1] && rest[j - 1] in tail;
            var k :| 0 <= k < |tail| && tail[k] == rest[j - 1];
            assert tail[k] == store[k + 1];
          } else {
            assert r[i] == rest[i - 1] && r[j] == rest[j - 1];
          }
        }
      }
    }
  }

  function Reverse<T>(s: seq<T>): (r: seq<T>)
    ensures |r| == |s| && forall i :: 0 <= i < |s| ==> r[i] == s[|s| - 1 - i]
  {
    seq(|s|, i requires 0 <= i < |s| => s[|s| - 1 - i])
  }

  function Min(a: nat, b: nat): nat {
    if a < b then a else b
  }

  /** Lines 125-131 on a table in id order: descending id is the reverse
      order, then at most 50 rows. */
  function Query(store: seq<Message>, room: string): seq<Message> {
    var desc := Reverse(Visible(store, room));
    desc[..Min(HistoryLimit, |desc|)]
  }

  /** Line 133: `reversed(msgs)`. */
  function History(store: seq<Message>, room: string): seq<Message> {
    Reverse(Query(store, room))
  }

  /** The first `n` of the reverse, reversed back, are the last `n`. */
  lemma ReversedPrefixIsSuffix<T>(v: seq<T>, n: nat)
    requires n <= |v|
    ensures Reverse(Reverse(v)[..n]) == v[|v| - n..]
  {
    var rv := Reverse(v);
    var w := rv[..n];
    var h := Reverse(w);
    var suffix := v[|v| - n..];
    assert |h| == n == |suffix|;
    forall i | 0 <= i < n ensures h[i] == suffix[i] {
      assert h[i] == w[n - 1 - i] == rv[n - 1 - i];
      assert rv[n - 1 - i] == v[|v| - n + i];
    }
  }

  /** The history is the room's latest min(50, n) visible messages, oldest
      first. */
  lemma HistoryIsLatest(store: seq<Message>, room: string)
    requires IdsIncreasing(store)
    ensures var v := Visible(store, room);
      var h := History(store, room);
      |h| == Min(HistoryLimit, |v|) && h == v[|v| - |h|..] && IdsIncreasing(h)
  {
    var v := Visible(store, room);
    var n := Min(HistoryLimit, |v|);
    ReversedPrefixIsSuffix(v, n);
    VisibleKeepsOrder(store, room);
    var h := History(store, room);
    forall i, j | 0 <= i < j < |h| ensures h[i].id < h[j].id {
      assert h[i] == v[|v| - n + i] && h[j] == v[|v| - n + j];
    }
  }

  function HistoryFrames(to: ClientId, h: seq<Message>): (r: seq<Frame>)
    ensures |r| == |h| && forall i :: 0 <= i < |h| ==> r[i] == Frame(to, WireOf(h[i]))
  {
    seq(|h|, i requires 0 <= i < |h| => Frame(to, WireOf(h[i])))
  }

  /** The loop of lines 205-211: each client is sent `data` once unless its
      send raises, in which case it is listed as dead. */
  method Deliver(clients: set<ClientId>, data: Wire, failing: set<ClientId>) returns (sent: seq<Frame>, dead: seq<ClientId>)
    ensures forall f :: f in sent ==> f.data == data
    ensures forall c :: Frame(c, data) in sent <==> c in clients && c !in failing
    ensures NoDup(sent) && NoDup(dead)
    ensures forall c :: c in dead <==> c in clients && c in failing
  {
    sent, dead := [], [];
    var todo := clients;
    ghost var done: set<ClientId> := {};
    while todo != {}
      invariant todo + done == clients && todo !! done
      invariant forall f :: f in sent ==> f.data == data
      invariant forall c :: Frame(c, data) in sent <==> c in done && c !in failing
      invariant forall c :: c in dead <==> c in done && c in failing
      invariant NoDup(sent) && NoDup(dead)
      decreases |todo|
    {
      var c :| c in todo;
      if c in failing {
        dead := dead + [c];
      } else {
        sent := sent + [Frame(c, data)];
      }
      done := done + {c};
      todo := todo - {c};
    }
  }

  class Server {
    var clients: set<ClientId>
    /** The `Message` table, in id order. */
    var store: seq<Message>
    var nextId: nat
    var outbox: seq<Frame>
    var closes: seq<Close>

    ghost predicate Valid()
      reads this
    {
      IdsIncreasing(store) && forall i :: 0 <= i < |store| ==> store[i].id < nextId
    }

    constructor ()
      ensures Valid() && clients == {} && store == [] && outbox == [] && closes == []
    {
      clients, store, nextId, outbox, closes := {}, [], 1, [], [];
    }

    /** `send_msg_to_clients` (lines 194-213): the dead are removed afterwards,
        and nobody else. */
    method Fanout(data: Wire, failing: set<ClientId>) returns (sent: seq<Frame>)
      modifies this
      ensures clients == old(clients) - failing
      ensures outbox == old(outbox) + sent
      ensures forall f :: f in sent ==> f.data == data
      ensures forall c :: Frame(c, data) in sent <==> c in old(clients) && c !in failing
      ensures NoDup(sent)
      ensures store == old(store) && nextId == old(nextId) && closes == old(closes)
    {
      var dead;
      sent, dead := Deliver(clients, data, failing);
      outbox := outbox + sent;
      var i := 0;
      while i < |dead|
        invariant 0 <= i <= |dead|
        invariant clients == old(clients) - set j | 0 <= j < i :: dead[j]
        invariant outbox == old(outbox) + sent && store == old(store) && nextId == old(nextId) && closes == old(closes)
      {
        clients := clients - {dead[i]};
        i := i + 1;
      }
      assert (set j | 0 <= j < |dead| :: dead[j]) == old(clients) * failing by {
        forall c | c in old(clients) * failing ensures c in set j | 0 <= j < |dead| :: dead[j] {
          var j :| 0 <= j < |dead| && dead[j] == c;
        }
      }
    }

    /** Lines 92-141 for the socket `ws`: a rejected token closes it with
        1008 before registration; otherwise it is registered, then named
        (None when line 120 raises, which leaves it registered), then sent
        the history. The history sends of lines 133-141 lie outside the
        `try` of line 144: `failAt` is the index of the first one that
        raises, if any, and then the endpoint ends with the part sent so far
        and the socket still registered. `listening` says whether the
        receive loop starts. */
    method Connect(ws: ClientId, headers: seq<Header>, parse: string -> map<string, string>, decode: string -> Option<Claims>,
                   failAt: Option<nat>)
      returns (name: Option<string>, listening: bool)
      requires Valid()
      modifies this
      ensures Valid() && store == old(store) && nextId == old(nextId)
      ensures var user := AuthUser(ParseCookies(FirstCookie(headers), parse), decode);
        var h := HistoryFrames(ws, History(store, Room));
        var cut := failAt.Some? && failAt.value < |h|;
        (user.None? ==> (name.None? && !listening && clients == old(clients) && outbox == old(outbox) &&
          closes == old(closes) + [Close(ws, PolicyViolation)])) &&
        (user.Some? ==> (name == UserName(user.value) && clients == old(clients) + {ws} && closes == old(closes) &&
          (listening <==> name.Some? && !cut) &&
          outbox == old(outbox) + if name.None? then [] else if cut then h[..failAt.value] else h))
    {
      var header := FindCookieHeader(headers);
      var cookies := ParseCookies(header, parse);
      var user := AuthUser(cookies, decode);
      if user.None? {
        closes := closes + [Close(ws, PolicyViolation)];
        return None, false;
      }
      clients := clients + {ws};
      name := UserName(user.value);
      if name.None? {
        return name, false;
      }
      var h := HistoryFrames(ws, History(store, Room));
      if failAt.Some? && failAt.value < |h| {
        outbox := outbox + h[..failAt.value];
        return name, false;
      }
      outbox := outbox + h;
      listening := true;
    }

    /** One turn of the receive loop (lines 146-167) for a text from `sender`:
        the original goes out first; when the validator rejects it, the
        replacement goes out under the same html id; the stored text is the
        one sent last. `failFirst` and `failSecond` are the clients whose
        sends raise in each round. */
    method OnText(sender: string, text: string, words: seq<string>, htmlid: string, now: string,
                  failFirst: set<ClientId>, failSecond: set<ClientId>)
      returns (first: seq<Frame>, second: seq<Frame>)
      requires Valid()
      modifies this
      ensures Valid()
      ensures var v := Validator.ProcessMessage(text, words);
        var saved := if v.isValid then text else v.newMessage;
        outbox == old(outbox) + first + second &&
        (forall c :: Frame(c, Wire(htmlid, sender, text, Room, true, now)) in first <==> c in old(clients) && c !in failFirst) &&
        (forall f :: f in first ==> f.data == Wire(htmlid, sender, text, Room, true, now)) &&
        (v.isValid ==> second == [] && clients == old(clients) - failFirst) &&
        (!v.isValid ==> (clients == old(clients) - failFirst - failSecond &&
          (forall f :: f in second ==> f.data == Wire(htmlid, sender, v.newMessage, Room, true, now)) &&
          forall c :: Frame(c, Wire(htmlid, sender, v.newMessage, Room, true, now)) in second <==>
            (c in old(clients) && c !in failFirst && c !in failSecond))) &&
        store == old(store) + [Message(old(nextId), htmlid, sender, saved, Room, true, now)] &&
        nextId == old(nextId) + 1
      ensures closes == old(closes)
    {
      var msg := Message(0, htmlid, sender, text, Room, true, now);
      first := Fanout(WireOf(msg), failFirst);
      var result := Validator.ProcessMessage(msg.text, words);
      second := [];
      if !result.isValid {
        msg := msg.(text := result.newMessage);
        second := Fanout(WireOf(msg), failSecond);
      }
      msg := msg.(id := nextId);
      store := store + [msg];
      nextId := nextId + 1;
    }

    /** The `except` branch of line 170: `remove` raises when a failed send
        already dropped the socket. */
    method Leave(ws: ClientId) returns (raised: bool)
      modifies this
      ensures raised <==> ws !in old(clients)
      ensures clients == old(clients) - {ws}
      ensures store == old(store) && nextId == old(nextId) && outbox == old(outbox) && closes == old(closes)
    {
      raised := ws !in clients;
      clients := clients - {ws};
    }
  }
}
