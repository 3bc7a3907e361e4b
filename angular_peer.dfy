/** The Angular call component (webrtc_frontend/angular-rtc-app/src/app/app.component.ts).
    It names itself by a random `wsId`, keeps one RTCPeerConnection per remote
    `from` value in `peers`, and dispatches the relay's JSON messages on their
    `type`. A connection is an opaque handle. The calls `addTrack` (for the
    local tracks, logged by reference to the stream they belong to, since
    a connection shares the stream's track objects), `setRemoteDescription`
    and `addIceCandidate` are logged in `calls`; `createOffer`, `createAnswer` and `setLocalDescription` leave
    no entry, their joint outcome being a parameter. Each awaited step is
    atomic and its outcome a parameter
    (a description or answer that is None, a flag that is false, stands for
    a rejected promise). A method's `ok` is false exactly when the source's
    handler throws, and the state reached before the throw is kept. */
module AngularPeer {
  import opened Common
  import opened Media

  type Handle = nat

  /** A remote MediaStream, by identity. */
  type StreamId = nat

  datatype Call =
    /** `addTrack` for each track of local stream number `stream`. The
        connection is given the stream's own track objects, not copies, so
        it sends them as they are at any later time. */
    | AddTracks(peer: Handle, stream: nat)
    | SetRemote(peer: Handle, desc: Payload)
    | AddIce(peer: Handle, candidate: Payload)

  /** `{type:'offer', to: peerId, from: wsId, payload: offer}` */
  function OfferMessage(peerId: Option<string>, self: string, sdp: string): JsonMessage {
    JsonMessage(Some("offer"), peerId, Some(self), Sdp(sdp))
  }

  /** `{type:'answer', to: from, payload: answer}`: there is no `from` member. */
  function AnswerMessage(to: Option<string>, sdp: string): JsonMessage {
    JsonMessage(Some("answer"), to, None, Sdp(sdp))
  }

  /** `{type:'ice-candidate', to: peerId, from: wsId, payload: candidate}` */
  function CandidateMessage(peerId: Option<string>, self: string, c: string): JsonMessage {
    JsonMessage(Some("ice-candidate"), peerId, Some(self), Candidate(c))
  }

  class Component {
    const wsId: string
    /** Whether `start` reached the WebSocket: only then do messages arrive. */
    var connected: bool
    var local: Option<seq<Track>>
    /** How many streams `getUserMedia` has yielded; `local` is the last one. */
    var streamNo: nat
    var remoteStreams: seq<StreamId>
    var peers: map<string, Handle>
    var nextHandle: Handle
    var videoEnabled: bool
    var audioEnabled: bool
    var calls: seq<Call>
    var sent: seq<JsonMessage>

    ghost predicate Valid()
      reads this
    {
      (connected ==> local.Some?) &&
      NoDup(remoteStreams) &&
      forall k :: k in peers ==> peers[k] < nextHandle
    }

    constructor (id: string)
      ensures Valid() && wsId == id && !connected && local.None?
      ensures remoteStreams == [] && peers == map[] && calls == [] && sent == []
      ensures videoEnabled && audioEnabled
    {
      wsId := id;
      connected := false;
      local := None;
      remoteStreams := [];
      peers := map[];
      nextHandle := 0;
      videoEnabled, audioEnabled := true, true;
      calls, sent := [], [];
      streamNo := 0;
    }

    /** The tracks connection `h` sends, read through the shared track
        objects, when it was given the tracks of the current local stream;
        None otherwise. */
    function Sends(h: Handle): Option<seq<Track>>
      reads this
    {
      if local.Some? && AddTracks(h, streamNo) in calls then local else None
    }

    /** `start` (lines 30-48): without a stream it returns before opening the
        socket; `media` is what `getUserMedia` yields, None when it rejects. */
    method Start(media: Option<seq<Track>>)
      requires Valid()
      modifies this
      ensures Valid()
      ensures media.None? ==> unchanged(this)
      ensures media.Some? ==> connected && local == media && streamNo == old(streamNo) + 1
      ensures peers == old(peers) && calls == old(calls) && sent == old(sent) && remoteStreams == old(remoteStreams)
      ensures videoEnabled == old(videoEnabled) && audioEnabled == old(audioEnabled) && nextHandle == old(nextHandle)
    {
      if media.Some? {
        local := media;
        streamNo := streamNo + 1;
        connected := true;
      }
    }

    /** `createPeer(peerId, isInitiator)` (lines 84-116): nothing when a
        connection for the id exists; otherwise the local tracks are added,
        the connection is stored, and an initiator then sends its offer.
        `offer` is the description once `createOffer` and
        `setLocalDescription` have both resolved, None when either rejects,
        and then the call rejects with the connection already stored. */
    method CreatePeer(peerId: Option<string>, initiator: bool, offer: Option<string>) returns (ok: bool)
      requires Valid() && connected
      modifies this
      ensures Valid() && connected
      ensures ok <==> Key(peerId) in old(peers) || !initiator || offer.Some?
      ensures Key(peerId) in old(peers) ==> unchanged(this)
      ensures Key(peerId) !in old(peers) ==>
        peers == old(peers)[Key(peerId) := old(nextHandle)] && nextHandle == old(nextHandle) + 1 &&
        calls == old(calls) + [AddTracks(old(nextHandle), streamNo)] && Sends(old(nextHandle)) == local &&
        sent == old(sent) + if initiator && offer.Some? then [OfferMessage(peerId, wsId, offer.value)] else []
      ensures local == old(local) && remoteStreams == old(remoteStreams) && streamNo == old(streamNo)
      ensures videoEnabled == old(videoEnabled) && audioEnabled == old(audioEnabled)
    {
      var key := Key(peerId);
      if key in peers {
        return true;
      }
      var h := nextHandle;
      nextHandle := nextHandle + 1;
      calls := calls + [AddTracks(h, streamNo)];
      peers := peers[key := h];
      if initiator {
        if offer.None? {
          return false;
        }
        sent := sent + [OfferMessage(peerId, wsId, offer.value)];
      }
      ok := true;
    }

    /** The `offer` case (lines 58-64): a non-initiator connection for `from`,
        made only if absent, is given the remote description; `remoteOk` says
        whether `setRemoteDescription` resolved. `answer` is the answer once
        `createAnswer` and `setLocalDescription` have both resolved, None when
        either rejects. The answer goes to `from`; a rejection at any of the
        three steps makes the handler throw before anything is sent. */
    method OnOffer(from: Option<string>, payload: Payload, remoteOk: bool, answer: Option<string>) returns (ok: bool)
      requires Valid() && connected
      modifies this
      ensures Valid() && connected
      ensures ok <==> remoteOk && answer.Some?
      ensures Key(from) in peers
      ensures peers == if Key(from) in old(peers) then old(peers) else old(peers)[Key(from) := old(nextHandle)]
      ensures Key(from) in old(peers) ==> peers[Key(from)] == old(peers)[Key(from)]
      ensures calls == old(calls) +
        (if Key(from) in old(peers) then [] else [AddTracks(old(nextHandle), streamNo)]) +
        [SetRemote(peers[Key(from)], payload)]
      ensures sent == old(sent) + if ok then [AnswerMessage(from, answer.value)] else []
      ensures local == old(local) && remoteStreams == old(remoteStreams) && streamNo == old(streamNo)
      ensures videoEnabled == old(videoEnabled) && audioEnabled == old(audioEnabled)
    {
      var _ := CreatePeer(from, false, None);
      var h := peers[Key(from)];
      calls := calls + [SetRemote(h, payload)];
      if !remoteOk || answer.None? {
        return false;
      }
      sent := sent + [AnswerMessage(from, answer.value)];
      ok := true;
    }

    /** The `answer` case (lines 66-68): unguarded, so it throws when there is
        no connection for `from`, and when `setRemoteDescription` rejects
        (`remoteOk` false). */
    method OnAnswer(from: Option<string>, payload: Payload, remoteOk: bool) returns (ok: bool)
      modifies this
      ensures ok <==> Key(from) in old(peers) && remoteOk
      ensures Key(from) !in old(peers) ==> unchanged(this)
      ensures Key(from) in old(peers) ==> calls == old(calls) + [SetRemote(old(peers)[Key(from)], payload)]
      ensures peers == old(peers) && sent == old(sent) && nextHandle == old(nextHandle)
      ensures local == old(local) && remoteStreams == old(remoteStreams) && connected == old(connected) && streamNo == old(streamNo)
      ensures videoEnabled == old(videoEnabled) && audioEnabled == old(audioEnabled)
    {
      var key := Key(from);
      if key !in peers {
        return false;
      }
      calls := calls + [SetRemote(peers[key], payload)];
      ok := remoteOk;
    }

    /** The `ice-candidate` case (lines 70-74): ignored when there is no
        connection for `from`; otherwise the handler throws when
        `addIceCandidate` rejects (`iceOk` false). */
    method OnIceCandidate(from: Option<string>, payload: Payload, iceOk: bool) returns (ok: bool)
      modifies this
      ensures ok <==> Key(from) !in old(peers) || iceOk
      ensures Key(from) !in old(peers) ==> unchanged(this)
      ensures Key(from) in old(peers) ==> calls == old(calls) + [AddIce(old(peers)[Key(from)], payload)]
      ensures peers == old(peers) && sent == old(sent) && nextHandle == old(nextHandle)
      ensures local == old(local) && remoteStreams == old(remoteStreams) && connected == old(connected) && streamNo == old(streamNo)
      ensures videoEnabled == old(videoEnabled) && audioEnabled == old(audioEnabled)
    {
      var key := Key(from);
      if key !in peers {
        return true;
      }
      calls := calls + [AddIce(peers[key], payload)];
      ok := iceOk;
    }

    /** `handleSignal` (lines 51-80). The outcomes of the awaited calls are
        the parameters: `offer` the initiator's own offer for a `new-peer`,
        `remoteOk` the `setRemoteDescription` of an `offer` or `answer`,
        `answer` the answer to an `offer`, `iceOk` the `addIceCandidate`. */
    method HandleSignal(m: JsonMessage, offer: Option<string>, remoteOk: bool, answer: Option<string>, iceOk: bool)
      returns (ok: bool)
      requires Valid() && connected
      modifies this
      ensures Valid() && connected
      ensures m.from == Some(wsId) ==> ok && unchanged(this)
      ensures m.kind !in {Some("offer"), Some("answer"), Some("ice-candidate"), Some("new-peer")} ==> ok && unchanged(this)
      ensures !ok <==> (m.from != Some(wsId) && (
        (m.kind == Some("offer") && !(remoteOk && answer.Some?)) ||
        (m.kind == Some("answer") && (Key(m.from) !in old(peers) || !remoteOk)) ||
        (m.kind == Some("ice-candidate") && Key(m.from) in old(peers) && !iceOk) ||
        (m.kind == Some("new-peer") && Key(m.from) !in old(peers) && offer.None?)))
      ensures peers.Keys <= old(peers).Keys + {Key(m.from)}
      ensures forall k :: k in old(peers) ==> k in peers && peers[k] == old(peers)[k]
      ensures m.from != Some(wsId) && m.kind in {Some("offer"), Some("new-peer")} ==> Key(m.from) in peers
      ensures local == old(local) && remoteStreams == old(remoteStreams) && streamNo == old(streamNo)
      ensures videoEnabled == old(videoEnabled) && audioEnabled == old(audioEnabled)
    {
      ok := true;
      if m.from == Some(wsId) {
        return;
      }
      if m.kind == Some("offer") {
        ok := OnOffer(m.from, m.payload, remoteOk, answer);
      } else if m.kind == Some("answer") {
        ok := OnAnswer(m.from, m.payload, remoteOk);
      } else if m.kind == Some("ice-candidate") {
        ok := OnIceCandidate(m.from, m.payload, iceOk);
      } else if m.kind == Some("new-peer") {
        ok := CreatePeer(m.from, true, offer);
      }
    }

    /** `pc.onicecandidate` of the connection made for `peerId` (lines 92-98). */
    method OnLocalCandidate(peerId: Option<string>, candidate: Option<string>)
      modifies this
      ensures sent == old(sent) + if candidate.Some? then [CandidateMessage(peerId, wsId, candidate.value)] else []
      ensures peers == old(peers) && calls == old(calls) && nextHandle == old(nextHandle)
      ensures local == old(local) && remoteStreams == old(remoteStreams) && connected == old(connected) && streamNo == old(streamNo)
      ensures videoEnabled == old(videoEnabled) && audioEnabled == old(audioEnabled)
    {
      if candidate.Some? {
        sent := sent + [CandidateMessage(peerId, wsId, candidate.value)];
      }
    }

    /** `pc.ontrack` (lines 101-104): a stream is listed once. */
    method OnTrack(stream: StreamId)
      requires Valid()
      modifies this
      ensures Valid()
      ensures stream in remoteStreams
      ensures remoteStreams == old(remoteStreams) + if stream in old(remoteStreams) then [] else [stream]
      ensures peers == old(peers) && calls == old(calls) && sent == old(sent) && nextHandle == old(nextHandle)
      ensures local == old(local) && connected == old(connected) && streamNo == old(streamNo)
      ensures videoEnabled == old(videoEnabled) && audioEnabled == old(audioEnabled)
    {
      if stream !in remoteStreams {
        remoteStreams := remoteStreams + [stream];
      }
    }

    /** `toggleVideo` (lines 118-121): the flag flips first, so without a
        stream it flips and then the call throws. The tracks it sets are the
        ones every connection was given (line 107), so each connection now
        sends video tracks with the new flag. */
    method ToggleVideo() returns (ok: bool)
      requires Valid()
      modifies this
      ensures Valid()
      ensures videoEnabled == !old(videoEnabled) && audioEnabled == old(audioEnabled)
      ensures ok <==> old(local).Some?
      ensures ok ==> local == Some(WithKindEnabled(old(local).value, Video, videoEnabled))
      ensures ok ==> KindIs(local.value, Video, videoEnabled)
      ensures ok ==> forall h :: Sends(h).Some? ==> KindIs(Sends(h).value, Video, videoEnabled)
      ensures !ok ==> local == old(local)
      ensures peers == old(peers) && calls == old(calls) && sent == old(sent) && nextHandle == old(nextHandle)
      ensures remoteStreams == old(remoteStreams) && connected == old(connected) && streamNo == old(streamNo)
    {
      videoEnabled := !videoEnabled;
      if local.None? {
        return false;
      }
      var tracks := SetKindEnabled(local.value, Video, videoEnabled);
      local := Some(tracks);
      ok := true;
    }

    /** `toggleAudio` (lines 123-126), as `ToggleVideo` for the audio tracks. */
    method ToggleAudio() returns (ok: bool)
      requires Valid()
      modifies this
      ensures Valid()
      ensures audioEnabled == !old(audioEnabled) && videoEnabled == old(videoEnabled)
      ensures ok <==> old(local).Some?
      ensures ok ==> local == Some(WithKindEnabled(old(local).value, Audio, audioEnabled))
      ensures ok ==> KindIs(local.value, Audio, audioEnabled)
      ensures ok ==> forall h :: Sends(h).Some? ==> KindIs(Sends(h).value, Audio, audioEnabled)
      ensures !ok ==> local == old(local)
      ensures peers == old(peers) && calls == old(calls) && sent == old(sent) && nextHandle == old(nextHandle)
      ensures remoteStreams == old(remoteStreams) && connected == old(connected) && streamNo == old(streamNo)
    {
      audioEnabled := !audioEnabled;
      if local.None? {
        return false;
      }
      var tracks := SetKindEnabled(local.value, Audio, audioEnabled);
      local := Some(tracks);
      ok := true;
    }
  }
}
