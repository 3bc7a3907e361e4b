/** Local capture tracks as both browser clients see them: a track has a kind
    and an `enabled` flag that a mute toggle sets without removing it. */
module Media {
  import opened Common

  datatype Kind = Video | Audio

  datatype Track = Track(kind: Kind, enabled: bool)

  /** The tracks after `getXTracks().forEach(t => t.enabled = flag)`. */
  function WithKindEnabled(tracks: seq<Track>, kind: Kind, flag: bool): (r: seq<Track>)
    ensures |r| == |tracks|
    ensures forall i :: 0 <= i < |r| ==> r[i].kind == tracks[i].kind
    ensures forall i :: 0 <= i < |r| ==> r[i].enabled == (if tracks[i].kind == kind then flag else tracks[i].enabled)
  {
    seq(|tracks|, i requires 0 <= i < |tracks| => if tracks[i].kind == kind then tracks[i].(enabled := flag) else tracks[i])
  }

  /** The `forEach` loop itself, track by track. */
  method SetKindEnabled(tracks: seq<Track>, kind: Kind, flag: bool) returns (r: seq<Track>)
    ensures r == WithKindEnabled(tracks, kind, flag)
  {
    r := tracks;
    var i := 0;
    while i < |tracks|
      invariant 0 <= i <= |tracks| && |r| == |tracks|
      invariant forall j :: 0 <= j < i ==> r[j] == WithKindEnabled(tracks, kind, flag)[j]
      invariant forall j :: i <= j < |tracks| ==> r[j] == tracks[j]
    {
      if r[i].kind == kind {
        r := r[i := r[i].(enabled := flag)];
      }
      i := i + 1;
    }
  }

  /** Every track of `kind` is enabled exactly when `flag` is. */
  ghost predicate KindIs(tracks: seq<Track>, kind: Kind, flag: bool) {
    forall i :: 0 <= i < |tracks| && tracks[i].kind == kind ==> tracks[i].enabled == flag
  }

  /** `getXTracks()[0]`: the first track of `kind`, if any. */
  function FirstOfKind(tracks: seq<Track>, kind: Kind): (r: Option<Track>)
    ensures r.None? <==> forall i :: 0 <= i < |tracks| ==> tracks[i].kind != kind
    ensures r.Some? ==> r.value.kind == kind
    ensures r.Some? ==> exists i :: 0 <= i < |tracks| && tracks[i] == r.value && (forall j :: 0 <= j < i ==> tracks[j].kind != kind)
  {
    if tracks == [] then None
    else if tracks[0].kind == kind then Some(tracks[0])
    else
      var r := FirstOfKind(tracks[1..], kind);
      assert forall i :: 1 <= i < |tracks| ==> tracks[i] == tracks[1..][i - 1];
      r
  }

  /** The last track of `kind`, if any: which sender a `forEach` that
      overwrites `senders[id].kind` ends up recording. */
  function LastOfKind(tracks: seq<Track>, kind: Kind): (r: Option<Track>)
    ensures r.None? <==> forall i :: 0 <= i < |tracks| ==> tracks[i].kind != kind
    ensures r.Some? ==> r.value.kind == kind
    ensures r.Some? ==> exists i :: 0 <= i < |tracks| && tracks[i] == r.value && (forall j :: i < j < |tracks| ==> tracks[j].kind != kind)
  {
    if tracks == [] then None
    else if tracks[|tracks| - 1].kind == kind then Some(tracks[|tracks| - 1])
    else
      var r := LastOfKind(tracks[..|tracks| - 1], kind);
      assert forall i :: 0 <= i < |tracks| - 1 ==> tracks[i] == tracks[..|tracks| - 1][i];
      r
  }

  /** `updateIndicators` (webrtc_front/public/main.js:67-74): the icon of a
      kind is hidden ("0") exactly when the stream's first track of that kind
      exists and is enabled, and shown ("1") otherwise. */
  function Opacity(tracks: seq<Track>, kind: Kind): (o: string)
    ensures o == "0" || o == "1"
    ensures o == "0" <==> exists i :: 0 <= i < |tracks| && tracks[i].kind == kind && tracks[i].enabled && (forall j :: 0 <= j < i ==> tracks[j].kind != kind)
  {
    var first := FirstOfKind(tracks, kind);
    if first.Some? && first.value.enabled then "0" else "1"
  }
}
