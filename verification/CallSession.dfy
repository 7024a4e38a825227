/** The media side of a call (apps/mobile/lib/call-session.ts:56-233): local tracks, the senders of
    the peer connection, mute, the voice/video switch, and the offers it sends.

    Media acquisition is the host's: it yields one new track per requested kind if it is granted, which
    is an input. The methods
    run one at a time; what the other side of the connection does is not modelled. */
module CallSessions {
  datatype Kind = Audio | Video
  datatype CallType = Voice | VideoCall

  class Track {
    const id: nat
    const kind: Kind
    var enabled: bool
    var stopped: bool

    constructor (id: nat, kind: Kind)
      ensures this.id == id && this.kind == kind && enabled && !stopped
    {
      this.id, this.kind, enabled, stopped := id, kind, true, false;
    }
  }

  function OfKind(tracks: seq<Track>, kind: Kind): (ts: seq<Track>)
    ensures forall t <- ts :: t in tracks && t.kind == kind
    ensures forall t <- tracks :: t.kind == kind ==> t in ts
  {
    if tracks == [] then []
    else
      var rest := OfKind(tracks[..|tracks| - 1], kind);
      var t := tracks[|tracks| - 1];
      if t.kind == kind then rest + [t] else rest
  }

  function Without(tracks: seq<Track>, track: Track): (ts: seq<Track>)
    ensures forall t <- ts :: t in tracks && t != track
    ensures forall t <- tracks :: t != track ==> t in ts
  {
    if tracks == [] then []
    else
      var rest := Without(tracks[..|tracks| - 1], track);
      var t := tracks[|tracks| - 1];
      if t == track then rest else rest + [t]
  }

  predicate DistinctIds(tracks: seq<Track>) {
    forall i, j | 0 <= i < j < |tracks| :: tracks[i].id != tracks[j].id
  }

  lemma OfKindAppend(tracks: seq<Track>, t: Track, kind: Kind)
    ensures OfKind(tracks + [t], kind) == OfKind(tracks, kind) + (if t.kind == kind then [t] else [])
  {
    assert (tracks + [t])[..|tracks|] == tracks;
  }

  lemma {:induction false} WithoutDistinct(tracks: seq<Track>, track: Track)
    requires DistinctIds(tracks)
    ensures DistinctIds(Without(tracks, track))
  {
    if tracks != [] {
      var rest := Without(tracks[..|tracks| - 1], track);
      WithoutDistinct(tracks[..|tracks| - 1], track);
      forall i | 0 <= i < |rest| ensures rest[i].id != tracks[|tracks| - 1].id {
        assert rest[i] in rest;
      }
    }
  }

  lemma {:induction false} KindDistinct(tracks: seq<Track>, kind: Kind)
    requires DistinctIds(tracks)
    ensures DistinctIds(OfKind(tracks, kind))
  {
    if tracks != [] {
      var rest := OfKind(tracks[..|tracks| - 1], kind);
      KindDistinct(tracks[..|tracks| - 1], kind);
      forall i | 0 <= i < |rest| ensures rest[i].id != tracks[|tracks| - 1].id {
        assert rest[i] in rest;
      }
    }
  }

  lemma NotRepeated(tracks: seq<Track>, i: nat)
    requires i < |tracks| && DistinctIds(tracks)
    ensures tracks[i] !in tracks[i + 1..]
  {
  }

  /** Dropping a track of one kind leaves the tracks of another in place and in order. */
  lemma {:induction false} WithoutKeepsOthers(tracks: seq<Track>, track: Track, kind: Kind)
    requires track.kind != kind
    ensures OfKind(Without(tracks, track), kind) == OfKind(tracks, kind)
  {
    if tracks != [] {
      var init, t := tracks[..|tracks| - 1], tracks[|tracks| - 1];
      WithoutKeepsOthers(init, track, kind);
      if t != track {
        assert (Without(init, track) + [t])[..|Without(init, track)|] == Without(init, track);
      }
    }
  }

  /** The senders with a track carry exactly these tracks, each once. */
  predicate Carries(senders: seq<Track?>, tracks: seq<Track>) {
    && (forall t <- tracks :: t in senders)
    && (forall i | 0 <= i < |senders| && senders[i] != null :: senders[i] in tracks)
    && (forall i, j | 0 <= i < j < |senders| && senders[i] != null :: senders[i] != senders[j])
  }

  class MediaStream {
    var tracks: seq<Track>

    constructor (tracks: seq<Track>)
      ensures this.tracks == tracks
    {
      this.tracks := tracks;
    }
  }

  class PeerConnection {
    var senders: seq<Track?>
    var closed: bool

    constructor ()
      ensures senders == [] && !closed
    {
      senders, closed := [], false;
    }

    /** Reuses a sender without a track or adds one, as the implementation likes. */
    method AddTrack(track: Track)
      requires track !in senders
      modifies this
      ensures closed == old(closed)
      ensures forall ts: seq<Track> | Carries(old(senders), ts) :: Carries(senders, ts + [track])
    {
      var reuse: bool := *;
      if reuse && exists i :: 0 <= i < |senders| && senders[i] == null {
        var i :| 0 <= i < |senders| && senders[i] == null;
        AddKeepsCarried(senders, senders[i := track], track);
        senders := senders[i := track];
      } else {
        AddKeepsCarried(senders, senders + [track], track);
        senders := senders + [track];
      }
    }

    /** `getSenders().find(s => s.track?.id === id)`, then `removeTrack` on the sender found. */
    method RemoveById(id: nat)
      modifies this
      ensures closed == old(closed)
      ensures forall track: Track, ts: seq<Track> |
                track.id == id && track in ts && DistinctIds(ts) && Carries(old(senders), ts) ::
                Carries(senders, Without(ts, track))
    {
      for i := 0 to |senders|
        invariant senders == old(senders)
        invariant forall k | 0 <= k < i && senders[k] != null :: senders[k].id != id
      {
        if senders[i] != null && senders[i].id == id {
          RemoveKeepsCarried(senders, i);
          senders := senders[i := null];
          return;
        }
      }
      NothingToRemove(senders, id);
    }
  }

  lemma AddKeepsCarried(senders: seq<Track?>, senders': seq<Track?>, track: Track)
    requires track !in senders
    requires senders' == senders + [track]
             || exists i :: 0 <= i < |senders| && senders[i] == null && senders' == senders[i := track]
    ensures forall ts: seq<Track> | Carries(senders, ts) :: Carries(senders', ts + [track])
  {
    forall ts: seq<Track> | Carries(senders, ts) ensures Carries(senders', ts + [track]) {
      if senders' == senders + [track] {
      } else {
        var i :| 0 <= i < |senders| && senders[i] == null && senders' == senders[i := track];
        assert senders'[i] == track;
        forall t | t in ts ensures t in senders' {
          var k :| 0 <= k < |senders| && senders[k] == t;
          assert senders'[k] == t;
        }
      }
    }
  }

  lemma RemoveKeepsCarried(senders: seq<Track?>, i: nat)
    requires i < |senders| && senders[i] != null
    ensures forall track: Track, ts: seq<Track> |
              track.id == senders[i].id && track in ts && DistinctIds(ts) && Carries(senders, ts) ::
              Carries(senders[i := null], Without(ts, track))
  {
    var senders' := senders[i := null];
    forall track: Track, ts: seq<Track> |
      track.id == senders[i].id && track in ts && DistinctIds(ts) && Carries(senders, ts)
      ensures Carries(senders', Without(ts, track))
    {
      assert senders[i] in ts;
      SameIdSameTrack(ts, senders[i], track);
      forall t | t in Without(ts, track) ensures t in senders' {
        var k :| 0 <= k < |senders| && senders[k] == t;
        assert senders'[k] == t;
      }
    }
  }

  lemma NothingToRemove(senders: seq<Track?>, id: nat)
    requires forall k | 0 <= k < |senders| && senders[k] != null :: senders[k].id != id
    ensures forall track: Track, ts: seq<Track> | track.id == id && track in ts :: !Carries(senders, ts)
  {
  }

  lemma CarriedOnSenders(senders: seq<Track?>, tracks: seq<Track>)
    requires Carries(senders, tracks)
    ensures forall t: Track :: t in senders <==> t in tracks
  {
  }

  lemma NotOnSender(senders: seq<Track?>, tracks: seq<Track>, track: Track)
    requires Carries(senders, tracks) && track !in tracks
    ensures track !in senders
  {
  }

  lemma {:induction false} NoneOfKind(tracks: seq<Track>, kind: Kind)
    requires forall i | 0 <= i < |tracks| :: tracks[i].kind != kind
    ensures OfKind(tracks, kind) == []
  {
    if tracks != [] { NoneOfKind(tracks[..|tracks| - 1], kind); }
  }

  lemma SameIdSameTrack(ts: seq<Track>, a: Track, b: Track)
    requires a in ts && b in ts && a.id == b.id && DistinctIds(ts)
    ensures a == b
  {
  }

  lemma NoTracks()
    ensures OfKind([], Audio) == OfKind([], Video) == []
  {
  }

  /** `getUserMedia`. */
  class MediaDevices {
    var issued: nat

    constructor ()
    {
      issued := 0;
    }

    /** A stream with one new track per requested kind, or null when the request is not granted. */
    method GetUserMedia(audio: bool, video: bool, granted: bool) returns (stream: MediaStream?)
      modifies this
      ensures issued >= old(issued)
      ensures stream != null <==> granted
      ensures stream != null ==>
                && fresh(stream)
                && DistinctIds(stream.tracks)
                && |OfKind(stream.tracks, Audio)| == (if audio then 1 else 0)
                && |OfKind(stream.tracks, Video)| == (if video then 1 else 0)
                && (forall t <- stream.tracks :: fresh(t) && old(issued) <= t.id < issued && t.enabled && !t.stopped)
    {
      hide OfKind;
      if !granted { return null; }
      var tracks: seq<Track> := [];
      NoTracks();
      if audio {
        var t := new Track(issued, Audio);
        issued := issued + 1;
        OfKindAppend(tracks, t, Audio);
        OfKindAppend(tracks, t, Video);
        tracks := tracks + [t];
      }
      if video {
        var t := new Track(issued, Video);
        issued := issued + 1;
        OfKindAppend(tracks, t, Audio);
        OfKindAppend(tracks, t, Video);
        tracks := tracks + [t];
      }
      stream := new MediaStream(tracks);
    }
  }

  class CallSession {
    const isInitiator: bool
    const devices: MediaDevices
    var pc: PeerConnection?
    var localStream: MediaStream?
    var subscribed: bool
    /** `kind: "offer"` signals sent. */
    var offers: nat
    ghost var starts: nat
    ghost var switches: nat

    /** Sender tracks and stream tracks are the same live tracks; the offers are accounted for. */
    ghost predicate Valid()
      reads this, devices, localStream, pc, if localStream == null then [] else localStream.tracks
    {
      && (localStream == null <==> pc == null)
      && offers == (if isInitiator then starts else 0) + switches
      && (localStream != null ==>
            && !pc.closed
            && DistinctIds(localStream.tracks)
            && Carries(pc.senders, localStream.tracks)
            && forall t <- localStream.tracks :: t.id < devices.issued && !t.stopped)
    }

    ghost function Tracks(): seq<Track>
      reads this, localStream
    {
      if localStream == null then [] else localStream.tracks
    }

    constructor (isInitiator: bool, devices: MediaDevices)
      ensures Valid() && Tracks() == [] && offers == 0
      ensures this.isInitiator == isInitiator && this.devices == devices
    {
      this.isInitiator, this.devices := isInitiator, devices;
      pc, localStream, subscribed, offers := null, null, false, 0;
      starts, switches := 0, 0;
    }

    method SendOffer()
      modifies this`offers
      ensures offers == old(offers) + (if pc == null then 0 else 1)
    {
      if pc == null { return; }
      offers := offers + 1;
    }

    /** A new peer connection with every track of the stream on a sender. */
    method ConnectTracks(tracks: seq<Track>) returns (connection: PeerConnection)
      requires DistinctIds(tracks)
      ensures fresh(connection) && !connection.closed && Carries(connection.senders, tracks)
    {
      connection := new PeerConnection();
      for i := 0 to |tracks|
        invariant Carries(connection.senders, tracks[..i]) && !connection.closed
      {
        assert tracks[..i + 1] == tracks[..i] + [tracks[i]];
        connection.AddTrack(tracks[i]);
      }
      assert tracks[..|tracks|] == tracks;
    }

    /** When the media request is not granted nothing has changed. */
    method Start(callType: CallType, granted: bool) returns (ok: bool)
      requires Valid()
      modifies this, devices
      ensures Valid()
      ensures ok <==> granted
      ensures !ok ==> localStream == old(localStream) && pc == old(pc) && offers == old(offers)
      ensures ok ==>
                && localStream != null && subscribed
                && |OfKind(Tracks(), Audio)| == 1
                && |OfKind(Tracks(), Video)| == (if callType == VideoCall then 1 else 0)
                && starts == old(starts) + 1 && switches == old(switches)
                && offers == old(offers) + (if isInitiator then 1 else 0)
                && (forall t <- Tracks() :: t.enabled && !t.stopped && t in pc.senders)
    {
      hide Carries, OfKind;
      var stream := devices.GetUserMedia(true, callType == VideoCall, granted);
      if stream == null { return false; }
      localStream := stream;
      pc := ConnectTracks(stream.tracks);
      subscribed := true;
      starts := starts + 1;
      if isInitiator {
        SendOffer();
      }
      CarriedOnSenders(pc.senders, stream.tracks);
      ok := true;
    }

    method IsVideoEnabled() returns (enabled: bool)
      ensures enabled <==> exists t <- Tracks() :: t.kind == Video
      ensures enabled <==> OfKind(Tracks(), Video) != []
    {
      if localStream == null { return false; }
      var videos := OfKind(localStream.tracks, Video);
      if videos != [] { assert videos[0] in videos; }
      enabled := |videos| > 0;
    }
  
    method SetMuted(muted: bool)
      requires Valid()
      modifies Tracks()
      ensures Valid() && Tracks() == old(Tracks())
      ensures forall t <- Tracks() :: t.enabled == if t.kind == Audio then !muted else old(t.enabled)
    {
      if localStream == null { return; }
      var audio := OfKind(localStream.tracks, Audio);
      for i := 0 to |audio|
        invariant forall t <- Tracks() :: t.stopped == old(t.stopped)
        invariant forall t <- Tracks() :: t.enabled == if t in audio[..i] then !muted else old(t.enabled)
      {
        assert audio[i] in audio;
        audio[i].enabled := !muted;
      }
      assert audio[..|audio|] == audio;
    }

    /** Removing one video track from the stream and from its sender, and stopping it. */
    method DropTrack(track: Track)
      requires localStream != null && pc != null && track in localStream.tracks && track.kind == Video
      requires DistinctIds(localStream.tracks) && Carries(pc.senders, localStream.tracks)
      modifies localStream, pc, track`stopped
      ensures localStream.tracks == Without(old(localStream.tracks), track)
      ensures Carries(pc.senders, localStream.tracks) && DistinctIds(localStream.tracks)
      ensures pc.closed == old(pc.closed) && track.stopped
    {
      WithoutDistinct(localStream.tracks, track);
      localStream.tracks := Without(localStream.tracks, track);
      track.stopped := true;
      pc.RemoveById(track.id);
    }

    /** A switch happens exactly when there is a call, it is in the other state, and, for turning
        video on, the camera is granted; otherwise nothing happens. Audio
        tracks stay the same objects in the same order, with their mute flags; video tracks that were
        switched off are stopped. */
    method SetVideoEnabled(enabled: bool, granted: bool) returns (switched: bool)
      requires Valid()
      modifies this, devices, localStream, pc, Tracks()
      ensures Valid() && localStream == old(localStream) && pc == old(pc) && subscribed == old(subscribed)
      ensures OfKind(Tracks(), Audio) == old(OfKind(Tracks(), Audio))
      ensures forall t <- OfKind(Tracks(), Audio) :: t.enabled == old(t.enabled)
      ensures switched <==>
                && localStream != null
                && enabled != (OfKind(old(Tracks()), Video) != [])
                && (enabled ==> granted)
      ensures switched ==> |OfKind(Tracks(), Video)| == (if enabled then 1 else 0)
      ensures switched && !enabled ==> forall t <- OfKind(old(Tracks()), Video) :: t.stopped
      ensures switched ==> forall t: Track :: t in pc.senders <==> t in Tracks()
      ensures forall t <- Tracks() :: t in old(Tracks()) || (fresh(t) && t.kind == Video && t.enabled)
      ensures !switched ==> Tracks() == old(Tracks())
      ensures offers == old(offers) + (if switched then 1 else 0)
      ensures starts == old(starts) && switches == old(switches) + (if switched then 1 else 0)
    {
      hide Carries, OfKind;
      if localStream == null || pc == null { return false; }
      var currentlyEnabled := IsVideoEnabled();
      if enabled == currentlyEnabled { return false; }
      if enabled {
        var ok := AddVideo(granted);
        if !ok { return false; }
      } else {
        DropVideo();
      }
      switches := switches + 1;
      SendOffer();
      CarriedOnSenders(pc.senders, localStream.tracks);
      switched := true;
    }

    /** Turning the camera on: one new video track, on the stream and on a sender. */
    method AddVideo(granted: bool) returns (ok: bool)
      requires Valid() && localStream != null && pc != null
      modifies devices, localStream, pc
      ensures Valid()
      ensures OfKind(localStream.tracks, Audio) == old(OfKind(localStream.tracks, Audio))
      ensures ok <==> granted
      ensures ok ==> |OfKind(localStream.tracks, Video)| == |old(OfKind(localStream.tracks, Video))| + 1
      ensures !ok ==> localStream.tracks == old(localStream.tracks)
      ensures forall t <- localStream.tracks ::
                t in old(localStream.tracks) || (fresh(t) && t.kind == Video && t.enabled)
      ensures forall t <- old(localStream.tracks) :: t.enabled == old(t.enabled)
    {
      hide Carries, OfKind;
      var stream := devices.GetUserMedia(false, true, granted);
      if stream == null { return false; }
      var videoTrack := OfKind(stream.tracks, Video)[0];
      assert videoTrack in OfKind(stream.tracks, Video);
      OfKindAppend(localStream.tracks, videoTrack, Audio);
      OfKindAppend(localStream.tracks, videoTrack, Video);
      NotOnSender(pc.senders, localStream.tracks, videoTrack);
      localStream.tracks := localStream.tracks + [videoTrack];
      pc.AddTrack(videoTrack);
      ok := true;
    }

    method DropVideo()
      requires Valid() && localStream != null && pc != null
      modifies localStream, pc, localStream.tracks
      ensures DistinctIds(localStream.tracks) && Carries(pc.senders, localStream.tracks)
      ensures pc.closed == old(pc.closed)
      ensures OfKind(localStream.tracks, Audio) == old(OfKind(localStream.tracks, Audio))
      ensures OfKind(localStream.tracks, Video) == []
      ensures forall t <- localStream.tracks :: t in old(localStream.tracks) && t.stopped == old(t.stopped)
      ensures forall t <- old(OfKind(localStream.tracks, Video)) :: t.stopped
      ensures forall t <- old(localStream.tracks) :: t.enabled == old(t.enabled)
    {
      hide Carries, DistinctIds, OfKind, Without;
      var videos := OfKind(localStream.tracks, Video);
      for i := 0 to |videos|
        invariant DistinctIds(localStream.tracks) && Carries(pc.senders, localStream.tracks)
        invariant pc.closed == old(pc.closed)
        invariant OfKind(localStream.tracks, Audio) == old(OfKind(localStream.tracks, Audio))
        invariant forall t <- localStream.tracks ::
            t in old(localStream.tracks) && t !in videos[..i] && t.stopped == old(t.stopped)
        invariant forall t <- videos[i..] :: t in localStream.tracks
        invariant forall t <- videos[..i] :: t.stopped
        invariant forall t <- old(localStream.tracks) :: t.enabled == old(t.enabled)
      {
        assert videos[i] in videos[i..] && videos[i] in videos;
        KindDistinct(old(localStream.tracks), Video);
        NotRepeated(videos, i);
        WithoutKeepsOthers(localStream.tracks, videos[i], Audio);
        DropTrack(videos[i]);
      }
      assert videos[..|videos|] == videos;
      forall k | 0 <= k < |localStream.tracks| ensures localStream.tracks[k].kind != Video {
        assert localStream.tracks[k] in localStream.tracks;
      }
      NoneOfKind(localStream.tracks, Video);
    }

    /** Afterwards there is no stream and no connection, and every local track is stopped. */
    method End()
      requires Valid()
      modifies this, pc, Tracks()
      ensures Valid() && localStream == null && pc == null && !subscribed && offers == old(offers)
      ensures forall t <- old(Tracks()) :: t.stopped
      ensures old(pc) != null ==> old(pc).closed
    {
      subscribed := false;
      var connection := pc;
      if localStream != null {
        var tracks := localStream.tracks;
        for i := 0 to |tracks|
          invariant subscribed == false && offers == old(offers) && starts == old(starts) && switches == old(switches)
          invariant forall t <- tracks[..i] :: t.stopped
        {
          tracks[i].stopped := true;
        }
        assert tracks[..|tracks|] == tracks;
      }
      localStream := null;
      if connection != null { connection.closed := true; }
      pc := null;
    }
  }
}
