/** The mesh browser client (webrtc_front/public/main.js). It keeps, per remote
    socket id, an RTCPeerConnection (`peers`) and the senders it recorded for
    its cloned local tracks (`senders`); it reacts to the relay's events, mutes
    by kind across the local stream and every recorded sender, and acquires
    the camera with one automatic retry. The connection object is an opaque
    handle. The calls `setRemoteDescription`, `addIceCandidate` and `close`
    are logged in `calls`; `addTrack` shows only in the senders it records,
    and `createOffer`, `createAnswer` and `setLocalDescription` leave no
    entry, their joint outcome being a parameter. Each awaited step is
    atomic, its outcome a parameter. */
module MeshClient {
  import opened Common
  import opened Media
  import MeshRelay

  type SocketId = string

  /** An RTCPeerConnection, by the order of its creation. */
  type Handle = nat

  /** `senders[id]`: per kind, the `enabled` flag of the cloned track of the
      recorded RTCRtpSender, or None for a `null` sender. */
  datatype SenderPair = SenderPair(video: Option<bool>, audio: Option<bool>)

  /** A library call made on a connection. */
  datatype Call = SetRemote(peer: Handle, desc: Payload) | AddIce(peer: Handle, candidate: Payload) | Close(peer: Handle)

  /** What the client emits on its socket. */
  datatype Outgoing = Ready | Signal(event: MeshRelay.Event, data: MeshRelay.SignalData)

  /** How one run of `startLocalStream` ends. */
  datatype Acquire = Started | RetryScheduled | Alerted

  function Get(p: SenderPair, kind: Kind): Option<bool> {
    match kind
    case Video => p.video
    case Audio => p.audio
  }

  /** `if (s.kind) s.kind.track.enabled = flag` on one recorded pair. */
  function Retagged(p: SenderPair, kind: Kind, flag: bool): (q: SenderPair)
    ensures Get(q, kind) == (if Get(p, kind).Some? then Some(flag) else None)
    ensures forall other :: other != kind ==> Get(q, other) == Get(p, other)
  {
    match kind
    case Video => p.(video := if p.video.Some? then Some(flag) else None)
    case Audio => p.(audio := if p.audio.Some? then Some(flag) else None)
  }

  function AllRetagged(m: map<SocketId, SenderPair>, kind: Kind, flag: bool): (r: map<SocketId, SenderPair>)
    ensures r.Keys == m.Keys
    ensures forall k :: k in m ==> r[k] == Retagged(m[k], kind, flag)
  {
    map k | k in m :: Retagged(m[k], kind, flag)
  }

  /** `Object.values(senders).forEach(...)` of lines 120 and 131. */
  method RetagAll(m: map<SocketId, SenderPair>, kind: Kind, flag: bool) returns (r: map<SocketId, SenderPair>)
    ensures r == AllRetagged(m, kind, flag)
  {
    r := m;
    var todo := m.Keys;
    while todo != {}
      invariant todo <= m.Keys && r.Keys == m.Keys
      invariant forall k :: k in m ==> r[k] == if k in todo then m[k] else Retagged(m[k], kind, flag)
      decreases |todo|
    {
      var k :| k in todo;
      r := r[k := Retagged(m[k], kind, flag)];
      todo := todo - {k};
    }
    assert forall k :: k in m ==> r[k] == AllRetagged(m, kind, flag)[k];
  }

  function EnabledOf(t: Option<Track>): Option<bool> {
    if t.Some? then Some(t.value.enabled) else None
  }

  /** The pair lines 150-157 leave in `senders[id]`. */
  function SendersFor(local: Option<seq<Track>>): SenderPair {
    if local.None? then SenderPair(None, None)
    else SenderPair(EnabledOf(LastOfKind(local.value, Video)), EnabledOf(LastOfKind(local.value, Audio)))
  }

  /** The `localStream.getTracks().forEach` of lines 153-157: every track
      is added as a clone, and the sender of the last track of each kind is
      the one recorded. */
  method Attach(tracks: seq<Track>) returns (p: SenderPair)
    ensures p.video == EnabledOf(LastOfKind(tracks, Video))
    ensures p.audio == EnabledOf(LastOfKind(tracks, Audio))
  {
    p := SenderPair(None, None);
    var i := 0;
    while i < |tracks|
      invariant 0 <= i <= |tracks|
      invariant p.video == EnabledOf(LastOfKind(tracks[..i], Video))
      invariant p.audio == EnabledOf(LastOfKind(tracks[..i], Audio))
    {
      assert tracks[..i + 1][..i] == tracks[..i];
      if tracks[i].kind == Video {
        p := p.(video := Some(tracks[i].enabled));
      }
      if tracks[i].kind == Audio {
        p := p.(audio := Some(tracks[i].enabled));
      }
      i := i + 1;
    }
    assert tracks[..i] == tracks;
  }

  /** A recorded sender of `kind` carries `flag`, or there is none. */
  predicate SenderAgrees(p: SenderPair, kind: Kind, flag: bool) {
    Get(p, kind).None? || Get(p, kind).value == flag
  }

  /** The last track of a kind carries the flag that all tracks of that kind carry. */
  lemma LastOfKindAgrees(tracks: seq<Track>, kind: Kind, flag: bool)
    requires KindIs(tracks, kind, flag)
    ensures SenderAgrees(SendersFor(Some(tracks)), kind, flag)
  {
    var last := LastOfKind(tracks, kind);
    if last.Some? {
      var i :| 0 <= i < |tracks| && tracks[i] == last.value;
      assert tracks[i].kind == kind;
    }
  }

  class Client {
    const self: SocketId
    var local: Option<seq<Track>>
    var videoEnabled: bool
    var audioEnabled: bool
    var peers: map<SocketId, Handle>
    var senders: map<SocketId, SenderPair>
    var nextHandle: Handle
    var calls: seq<Call>
    var outbox: seq<Outgoing>

    /** After every handler, `peers` and `senders` have the same keys. */
    ghost predicate Valid()
      reads this
    {
      peers.Keys == senders.Keys && forall k :: k in peers ==> peers[k] < nextHandle
    }

    /** The mute flags hold for every local track and every recorded sender. */
    ghost predicate MuteConsistent()
      reads this
    {
      (local.Some? ==> KindIs(local.value, Video, videoEnabled) && KindIs(local.value, Audio, audioEnabled)) &&
      (forall k :: k in senders ==> SenderAgrees(senders[k], Video, videoEnabled) && SenderAgrees(senders[k], Audio, audioEnabled))
    }

    constructor (id: SocketId)
      ensures Valid() && MuteConsistent()
      ensures self == id && local.None? && videoEnabled && audioEnabled
      ensures peers == map[] && senders == map[] && calls == [] && outbox == []
    {
      self := id;
      local := None;
      videoEnabled, audioEnabled := true, true;
      peers, senders := map[], map[];
      nextHandle := 0;
      calls, outbox := [], [];
    }

    /** `createPeerConnection(id)`: a fresh connection and its recorded senders. */
    method CreatePeerConnection(id: SocketId) returns (h: Handle)
      modifies this
      ensures h == old(nextHandle) && nextHandle == h + 1
      ensures senders == old(senders)[id := SendersFor(local)]
      ensures local == old(local) && peers == old(peers) && calls == old(calls) && outbox == old(outbox)
      ensures videoEnabled == old(videoEnabled) && audioEnabled == old(audioEnabled)
    {
      h := nextHandle;
      nextHandle := nextHandle + 1;
      var pair := SenderPair(None, None);
      if local.Some? {
        pair := Attach(local.value);
      }
      senders := senders[id := pair];
    }

    /** `new-user` (lines 173-181): a new connection replaces whatever was
        stored under `id` (the old one is not closed), then the offer is sent
        when `createOffer` and `setLocalDescription` succeed. */
    method OnNewUser(id: SocketId, offer: Option<string>)
      requires Valid()
      modifies this
      ensures Valid()
      ensures peers == old(peers)[id := old(nextHandle)]
      ensures senders == old(senders)[id := SendersFor(old(local))]
      ensures outbox == old(outbox) +
        if offer.Some? then [Signal(MeshRelay.Offer, MeshRelay.SignalData(Some(id), Some(self), Sdp(offer.value)))] else []
      ensures calls == old(calls) && local == old(local)
      ensures videoEnabled == old(videoEnabled) && audioEnabled == old(audioEnabled)
      ensures old(MuteConsistent()) ==> MuteConsistent()
    {
      var h := CreatePeerConnection(id);
      peers := peers[id := h];
      if offer.Some? {
        outbox := outbox + [Signal(MeshRelay.Offer, MeshRelay.SignalData(Some(id), Some(self), Sdp(offer.value)))];
      }
      if old(MuteConsistent()) && local.Some? {
        LastOfKindAgrees(local.value, Video, videoEnabled);
        LastOfKindAgrees(local.value, Audio, audioEnabled);
      }
    }

    /** `offer` (lines 183-192): always a new connection under `data.from`,
        the remote description applied to it, and the answer sent back to
        `data.from` when the three awaited steps succeed. */
    method OnOffer(d: MeshRelay.SignalData, answer: Option<string>)
      requires Valid()
      modifies this
      ensures Valid()
      ensures peers == old(peers)[Key(d.from) := old(nextHandle)]
      ensures senders == old(senders)[Key(d.from) := SendersFor(old(local))]
      ensures calls == old(calls) + [SetRemote(old(nextHandle), d.payload)]
      ensures outbox == old(outbox) +
        if answer.Some? then [Signal(MeshRelay.Answer, MeshRelay.SignalData(d.from, Some(self), Sdp(answer.value)))] else []
      ensures local == old(local)
      ensures videoEnabled == old(videoEnabled) && audioEnabled == old(audioEnabled)
      ensures old(MuteConsistent()) ==> MuteConsistent()
    {
      var key := Key(d.from);
      var h := CreatePeerConnection(key);
      peers := peers[key := h];
      calls := calls + [SetRemote(h, d.payload)];
      if answer.Some? {
        outbox := outbox + [Signal(MeshRelay.Answer, MeshRelay.SignalData(d.from, Some(self), Sdp(answer.value)))];
      }
      if old(MuteConsistent()) && local.Some? {
        LastOfKindAgrees(local.value, Video, videoEnabled);
        LastOfKindAgrees(local.value, Audio, audioEnabled);
      }
    }

    /** `answer` (lines 194-198): applied to the sender's connection, or
        ignored when there is none. */
    method OnAnswer(d: MeshRelay.SignalData)
      modifies this
      ensures Key(d.from) !in old(peers) ==> unchanged(this)
      ensures Key(d.from) in old(peers) ==> calls == old(calls) + [SetRemote(old(peers)[Key(d.from)], d.payload)]
      ensures peers == old(peers) && senders == old(senders) && outbox == old(outbox) && local == old(local)
      ensures nextHandle == old(nextHandle) && videoEnabled == old(videoEnabled) && audioEnabled == old(audioEnabled)
    {
      var key := Key(d.from);
      if key in peers {
        calls := calls + [SetRemote(peers[key], d.payload)];
      }
    }

    /** `ice-candidate` (lines 200-204): handed to the sender's connection,
        or ignored when there is none. */
    method OnRemoteCandidate(d: MeshRelay.SignalData)
      modifies this
      ensures Key(d.from) !in old(peers) ==> unchanged(this)
      ensures Key(d.from) in old(peers) ==> calls == old(calls) + [AddIce(old(peers)[Key(d.from)], d.payload)]
      ensures peers == old(peers) && senders == old(senders) && outbox == old(outbox) && local == old(local)
      ensures nextHandle == old(nextHandle) && videoEnabled == old(videoEnabled) && audioEnabled == old(audioEnabled)
    {
      var key := Key(d.from);
      if key in peers {
        calls := calls + [AddIce(peers[key], d.payload)];
      }
    }

    /** `user-disconnected` (lines 206-209): close the connection if there is
        one, and forget the id in both tables. */
    method OnUserDisconnected(id: SocketId)
      requires Valid()
      modifies this
      ensures Valid()
      ensures peers == old(peers) - {id} && senders == old(senders) - {id}
      ensures calls == old(calls) + if id in old(peers) then [Close(old(peers)[id])] else []
      ensures outbox == old(outbox) && local == old(local) && nextHandle == old(nextHandle)
      ensures videoEnabled == old(videoEnabled) && audioEnabled == old(audioEnabled)
      ensures old(MuteConsistent()) ==> MuteConsistent()
    {
      if id in peers {
        calls := calls + [Close(peers[id])];
      }
      peers := peers - {id};
      senders := senders - {id};
    }

    /** `peer.onicecandidate` of the connection made for `peerId` (lines 160-164). */
    method OnLocalCandidate(peerId: SocketId, candidate: Option<string>)
      modifies this
      ensures outbox == old(outbox) +
        if candidate.Some? then [Signal(MeshRelay.IceCandidate, MeshRelay.SignalData(Some(peerId), Some(self), Candidate(candidate.value)))] else []
      ensures peers == old(peers) && senders == old(senders) && calls == old(calls) && local == old(local)
      ensures nextHandle == old(nextHandle) && videoEnabled == old(videoEnabled) && audioEnabled == old(audioEnabled)
    {
      if candidate.Some? {
        outbox := outbox + [Signal(MeshRelay.IceCandidate, MeshRelay.SignalData(Some(peerId), Some(self), Candidate(candidate.value)))];
      }
    }

    /** The video button (lines 116-123). */
    method ToggleVideo()
      requires Valid()
      modifies this
      ensures Valid()
      ensures old(local).None? ==> unchanged(this)
      ensures old(local).Some? ==>
        videoEnabled == !old(videoEnabled) &&
        local == Some(WithKindEnabled(old(local).value, Video, videoEnabled)) &&
        senders == AllRetagged(old(senders), Video, videoEnabled)
      ensures old(local).Some? ==> KindIs(local.value, Video, videoEnabled) && forall k :: k in senders ==> SenderAgrees(senders[k], Video, videoEnabled)
      ensures audioEnabled == old(audioEnabled) && peers == old(peers) && calls == old(calls) && outbox == old(outbox)
      ensures nextHandle == old(nextHandle)
      ensures old(MuteConsistent()) ==> MuteConsistent()
    {
      if local.None? {
        return;
      }
      videoEnabled := !videoEnabled;
      var tracks := SetKindEnabled(local.value, Video, videoEnabled);
      local := Some(tracks);
      senders := RetagAll(senders, Video, videoEnabled);
    }

    /** The audio button (lines 127-134). */
    method ToggleAudio()
      requires Valid()
      modifies this
      ensures Valid()
      ensures old(local).None? ==> unchanged(this)
      ensures old(local).Some? ==>
        audioEnabled == !old(audioEnabled) &&
        local == Some(WithKindEnabled(old(local).value, Audio, audioEnabled)) &&
        senders == AllRetagged(old(senders), Audio, audioEnabled)
      ensures old(local).Some? ==> KindIs(local.value, Audio, audioEnabled) && forall k :: k in senders ==> SenderAgrees(senders[k], Audio, audioEnabled)
      ensures videoEnabled == old(videoEnabled) && peers == old(peers) && calls == old(calls) && outbox == old(outbox)
      ensures nextHandle == old(nextHandle)
      ensures old(MuteConsistent()) ==> MuteConsistent()
    {
      if local.None? {
        return;
      }
      audioEnabled := !audioEnabled;
      var tracks := SetKindEnabled(local.value, Audio, audioEnabled);
      local := Some(tracks);
      senders := RetagAll(senders, Audio, audioEnabled);
    }

    /** `startLocalStream(retry)` (lines 81-98); `media` is what
        `getUserMedia` yields, None when it rejects. */
    method StartLocalStream(retry: bool, media: Option<seq<Track>>) returns (o: Acquire)
      modifies this
      ensures media.Some? ==> o == Started && local == media && outbox == old(outbox) + [Ready]
      ensures media.None? ==> o == (if retry then RetryScheduled else Alerted) && unchanged(this)
      ensures peers == old(peers) && senders == old(senders) && calls == old(calls) && nextHandle == old(nextHandle)
      ensures videoEnabled == old(videoEnabled) && audioEnabled == old(audioEnabled)
    {
      if media.Some? {
        local := media;
        outbox := outbox + [Ready];
        o := Started;
      } else if retry {
        o := RetryScheduled;
      } else {
        o := Alerted;
      }
    }

    /** Page load off iOS (line 107) and, when it schedules one, the delayed retry of
        line 93: at most two attempts, and an alert only when both fail. */
    method Boot(first: Option<seq<Track>>, second: Option<seq<Track>>) returns (o: Acquire, attempts: nat)
      modifies this
      ensures 1 <= attempts <= 2 && o != RetryScheduled
      ensures attempts == 2 <==> first.None?
      ensures o == Alerted <==> first.None? && second.None?
      ensures o == Started ==> local == (if first.Some? then first else second) && outbox == old(outbox) + [Ready]
      ensures o == Alerted ==> unchanged(this)
    {
      o := StartLocalStream(true, first);
      attempts := 1;
      if o == RetryScheduled {
        o := StartLocalStream(false, second);
        attempts := 2;
      }
    }
  }
}
