/** Values shared by every part of the model: optional values, whitespace
    and the trimming that both the Python (`str.strip`) and the JavaScript
    (`String.prototype.trim`) code apply to user text. */
module Common {

  datatype Option<+T> = None | Some(value: T)

  /** The opaque negotiation values that signalling messages carry: a session
      description, an ICE candidate, or nothing. */
  datatype Payload = NoPayload | Sdp(sdp: string) | Candidate(candidate: string)

  /** A JSON signalling object sent over a plain WebSocket: the `type`, `to`
      and `from` members (absent ones are None) and the `payload` member. */
  datatype JsonMessage = JsonMessage(kind: Option<string>, to: Option<string>, from: Option<string>, payload: Payload)

  /** What `receive_json` yields to a FastAPI relay's receive loop. */
  datatype Inbound =
    | Json(msg: JsonMessage)   // a decoded JSON object
    | Malformed                // a frame that is not JSON: `receive_json` raises
    | Closed                   // the peer went away: `WebSocketDisconnect`

  /** What a failing `send_json` to a peer raises in the FastAPI relays:
      `WebSocketDisconnect` (Gone), which the sending handler's own
      `except` catches, or any other exception (Broken), which ends that
      handler with nothing cleaned up. */
  datatype Fault = Gone | Broken

  /** The whitespace that `strip()`/`trim()` drop and the `\s` regex class
      matches, approximated by its ASCII part: both languages also count
      U+00A0, U+1680, U+2000-U+200A, U+2028, U+2029, U+202F, U+205F and
      U+3000, JavaScript U+FEFF, and Python U+001C-U+001F and U+0085. */
  predicate IsSpace(c: char) {
    c == ' ' || c == '\t' || c == '\n' || c == '\r' || c == '\U{B}' || c == '\U{C}'
  }

  predicate AllSpace(s: string) {
    forall k :: 0 <= k < |s| ==> IsSpace(s[k])
  }

  /** Number of whitespace characters at the front of `s`. */
  function Lead(s: string): (n: nat)
    ensures n <= |s|
    ensures forall k :: 0 <= k < n ==> IsSpace(s[k])
    ensures n < |s| ==> !IsSpace(s[n])
  {
    if s == [] || !IsSpace(s[0]) then 0 else 1 + Lead(s[1..])
  }

  /** Number of whitespace characters at the back of `s`. */
  function Trail(s: string): (n: nat)
    ensures n <= |s|
    ensures forall k :: |s| - n <= k < |s| ==> IsSpace(s[k])
    ensures n < |s| ==> !IsSpace(s[|s| - 1 - n])
  {
    if s == [] || !IsSpace(s[|s| - 1]) then 0 else 1 + Trail(s[..|s| - 1])
  }

  /** `s.strip()` / `s.trim()`: drop leading and trailing whitespace. */
  function Trim(s: string): (r: string)
    ensures |r| <= |s|
    ensures Lead(s) + |r| <= |s| && r == s[Lead(s)..Lead(s) + |r|]
    ensures r != [] ==> !IsSpace(r[0]) && !IsSpace(r[|r| - 1])
    ensures AllSpace(s[..Lead(s)]) && AllSpace(s[Lead(s) + |r|..])
  {
    var a := Lead(s);
    var b := if a == |s| then |s| else |s| - Trail(s);
    assert a < |s| ==> !IsSpace(s[a]) && a < b;
    s[a..b]
  }

  /** Trimming leaves nothing exactly when the text is all whitespace. */
  lemma TrimEmptyIff(s: string)
    ensures Trim(s) == [] <==> AllSpace(s)
  {
    if Trim(s) == [] {
      assert Lead(s) == |s|;
      assert s[..Lead(s)] == s;
    } else {
      assert !IsSpace(s[Lead(s)]);
    }
  }

  /** Trimming twice is trimming once. */
  lemma TrimIdempotent(s: string)
    ensures Trim(Trim(s)) == Trim(s)
  {
    var r := Trim(s);
    if r != [] {
      assert Lead(r) == 0;
      assert Trail(r) == 0;
    }
  }

  /** The JavaScript property key an absent (undefined) value is looked up
      under: `obj[undefined]` reads `obj["undefined"]`. */
  function Key(o: Option<string>): (k: string)
    ensures o.Some? ==> k == o.value
  {
    match o
    case Some(v) => v
    case None => "undefined"
  }

  predicate NoDup<T(==)>(s: seq<T>) {
    forall i, j :: 0 <= i < j < |s| ==> s[i] != s[j]
  }
}
