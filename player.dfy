/** The per-player outbound transport: sending one encoded packet, and
    distributing a track as an announcement followed by chunk frames. */
module Game {
  import opened Wire
  import opened GameTrack
  import opened GamePackets
  import opened WebrtcSession
  import opened Chunking

  /** Why `Send` failed: the packet could not be encoded (the error names its
      type), or the channel refused the frame. */
  datatype SendError = MarshalFailed(packetType: PacketType) | TransportFailed

  /** Why `SendTrack` failed: no track identifier, the announcement could not
      be sent (with `Send`'s reason), or the chunk at byte `offset` was refused. */
  datatype TrackError =
    | TrackIdFailed
    | AnnounceFailed(cause: SendError)
    | ChunkFailed(offset: nat)

  /** What one operation does to the channel: its result, the frames the
      channel accepts (in order) and how many send calls it makes. */
  datatype Effect<E> = Effect(outcome: Outcome<E>, written: seq<Bytes>, calls: nat)

  /** The effect of sending `packet` when the channel has already seen `call`
      send calls. The packet type only enters the marshal error. */
  function SendEffect(packet: PlayerPacket, codec: Codec, call: nat, refuses: nat -> bool): Effect<SendError> {
    match codec.marshal(packet)
    case None => Effect(Fail(MarshalFailed(codec.typeOf(packet))), [], 0)
    case Some(data) =>
      if refuses(call) then Effect(Fail(TransportFailed), [], 1)
      else Effect(Pass, [data], 1)
  }

  /** Index of the first refused call among calls from .. from + n - 1,
      or n when none of them is refused. */
  function FirstRefusal(refuses: nat -> bool, from: nat, n: nat): (k: nat)
    ensures k <= n
    ensures forall c :: from <= c < from + k ==> !refuses(c)
    ensures k < n ==> refuses(from + k)
    decreases n
  {
    if n == 0 || refuses(from) then 0 else 1 + FirstRefusal(refuses, from + 1, n - 1)
  }

  /** The effect of distributing `track`: resolve its identifier, announce it,
      then send the chunk frames in order, stopping at the first refused one. */
  function TrackEffect(track: Track, codec: Codec, call: nat, refuses: nat -> bool): Effect<TrackError> {
    match track.resolvedId
    case None => Effect(Fail(TrackIdFailed), [], 0)
    case Some(id) =>
      var announce := SendEffect(TrackIDPacket(id), codec, call, refuses);
      if announce.outcome.Fail? then
        Effect(Fail(AnnounceFailed(announce.outcome.error)), [], announce.calls)
      else
        var frames := ChunkFrames(codec.trackChunk, track.exportString);
        var k := FirstRefusal(refuses, call + 1, |frames|);
        if k == |frames| then Effect(Pass, announce.written + frames, 1 + k)
        else Effect(Fail(ChunkFailed(k * MaxChunkLen)), announce.written + frames[..k], 2 + k)
  }

  /** Builds one chunk frame in a fresh buffer: the tag byte, then the bytes
      s[offset..chunkEnd] copied verbatim. */
  method NewChunkFrame(tag: Byte, s: Bytes, offset: nat, chunkEnd: nat) returns (packet: array<Byte>)
    requires offset <= chunkEnd <= |s|
    ensures fresh(packet)
    ensures packet[..] == Frame(tag, s[offset..chunkEnd])
  {
    var chunkLen := chunkEnd - offset;
    packet := new Byte[1 + chunkLen];
    packet[0] := tag;
    forall j | 0 <= j < chunkLen {
      packet[1 + j] := s[offset + j];
    }
  }

  /** A connected player, as the holder of its session's reliable channel. */
  class Player {
    var reliableDC: DataChannel

    constructor (reliableDC: DataChannel)
      ensures this.reliableDC == reliableDC
    {
      this.reliableDC := reliableDC;
    }

    /** Encodes `packet` and makes one write on the channel. When encoding
        fails nothing is written; otherwise exactly one call is made, and the
        encoded bytes are appended when the channel accepts them. */
    method Send(packet: PlayerPacket, codec: Codec) returns (r: Outcome<SendError>)
      modifies reliableDC
      ensures var e := SendEffect(packet, codec, old(reliableDC.calls), reliableDC.refuses);
        r == e.outcome && reliableDC.sent == old(reliableDC.sent) + e.written
        && reliableDC.calls == old(reliableDC.calls) + e.calls
    {
      var data := codec.marshal(packet);
      if data.None? {
        return Fail(MarshalFailed(codec.typeOf(packet)));
      }
      var ok: bool;
      if codec.typeOf(packet) == codec.trackChunk {
        ok := reliableDC.Send(data.value);
      } else {
        ok := reliableDC.Send(data.value);
      }
      r := if ok then Pass else Fail(TransportFailed);
    }

    /** Announces the track's identifier, then sends its export string as
        chunk frames; see `TrackEffect` for the whole effect. */
    method SendTrack(track: Track, codec: Codec) returns (r: Outcome<TrackError>)
      modifies reliableDC
      ensures var e := TrackEffect(track, codec, old(reliableDC.calls), reliableDC.refuses);
        r == e.outcome && reliableDC.sent == old(reliableDC.sent) + e.written
        && reliableDC.calls == old(reliableDC.calls) + e.calls
    {
      if track.resolvedId.None? {
        return Fail(TrackIdFailed);
      }
      var announced := Send(TrackIDPacket(track.resolvedId.value), codec);
      if announced.Fail? {
        return Fail(AnnounceFailed(announced.error));
      }
      r := SendChunks(codec.trackChunk, track.exportString);
    }

    /** Sends `trackString` as chunk frames of at most MaxChunkLen payload
        bytes, in order, stopping at the first refused chunk: the channel
        receives the frames before the refused one (all of them when none is
        refused), and a failure reports the refused chunk's byte offset. */
    method SendChunks(tag: Byte, trackString: Bytes) returns (r: Outcome<TrackError>)
      modifies reliableDC
      ensures var frames := ChunkFrames(tag, trackString);
        var k := FirstRefusal(reliableDC.refuses, old(reliableDC.calls), |frames|);
        && r == (if k == |frames| then Pass else Fail(ChunkFailed(k * MaxChunkLen)))
        && reliableDC.sent == old(reliableDC.sent) + frames[..k]
        && reliableDC.calls == old(reliableDC.calls) + (if k == |frames| then k else k + 1)
    {
      ghost var frames := ChunkFrames(tag, trackString);
      ghost var sent0, calls0 := reliableDC.sent, reliableDC.calls;
      ghost var refuses := reliableDC.refuses;
      ghost var i: nat := 0;
      var offset := 0;
      while offset < |trackString|
        invariant offset == i * MaxChunkLen
        invariant i <= |frames|
        invariant i < |frames| <==> offset < |trackString|
        invariant reliableDC.refuses == refuses
        invariant reliableDC.sent == sent0 + frames[..i]
        invariant reliableDC.calls == calls0 + i
        invariant forall c :: calls0 <= c < calls0 + i ==> !refuses(c)
      {
        var chunkEnd := offset + MaxChunkLen;
        if chunkEnd > |trackString| {
          chunkEnd := |trackString|;
        }
        ChunkAt(trackString, i);
        var packet := NewChunkFrame(tag, trackString, offset, chunkEnd);
        var ok := reliableDC.Send(packet[..]);
        if !ok {
          assert FirstRefusal(refuses, calls0, |frames|) == i;
          return Fail(ChunkFailed(offset));
        }
        assert !refuses(calls0 + i);
        assert frames[..i + 1] == frames[..i] + [frames[i]];
        offset := offset + MaxChunkLen;
        i := i + 1;
        ChunkIndexInRange(trackString, i);
      }
      assert frames[..i] == frames;
      assert FirstRefusal(refuses, calls0, |frames|) == |frames|;
      r := Pass;
    }
  }

  /** Both failures before the first chunk write nothing: a track without an
      identifier makes no send call at all, and a failed announcement makes
      only that `Send`'s calls (at most one, not delivered) and carries
      `Send`'s error as its cause. */
  lemma EarlyFailuresWriteNothing(track: Track, codec: Codec, call: nat, refuses: nat -> bool)
    ensures var e := TrackEffect(track, codec, call, refuses);
      track.resolvedId.None? ==> e == Effect(Fail(TrackIdFailed), [], 0)
    ensures var e := TrackEffect(track, codec, call, refuses);
      e.outcome.Fail? && e.outcome.error.AnnounceFailed? ==>
        && track.resolvedId.Some?
        && var announce := SendEffect(TrackIDPacket(track.resolvedId.value), codec, call, refuses);
        && e.written == [] && e.calls == announce.calls <= 1
        && announce.outcome == Fail(e.outcome.error.cause)
  {
  }

  /** Sending is uniform over packet types: once a packet encodes, its type
      tag has no bearing on the result or the frame written. */
  lemma SendIgnoresPacketType(packet: PlayerPacket, codec: Codec, other: Codec, call: nat, refuses: nat -> bool)
    requires codec.marshal(packet).Some? && other.marshal(packet) == codec.marshal(packet)
    ensures SendEffect(packet, codec, call, refuses) == SendEffect(packet, other, call, refuses)
    ensures var e := SendEffect(packet, codec, call, refuses);
      e.calls == 1 && (e.outcome.Pass? <==> e.written == [codec.marshal(packet).value])
  {
  }

  /** A successful transfer writes the announcement first, then
      ChunkCount(|s|) chunk frames, every call accepted; stripping the tag
      byte of each chunk frame and concatenating gives back the export
      string. */
  lemma TransferSucceeds(track: Track, codec: Codec, call: nat, refuses: nat -> bool)
    requires TrackEffect(track, codec, call, refuses).outcome.Pass?
    ensures var e := TrackEffect(track, codec, call, refuses);
      && track.resolvedId.Some?
      && codec.marshal(TrackIDPacket(track.resolvedId.value)).Some?
      && |e.written| == e.calls == 1 + ChunkCount(|track.exportString|)
      && e.written[0] == codec.marshal(TrackIDPacket(track.resolvedId.value)).value
      && e.written[1..] == ChunkFrames(codec.trackChunk, track.exportString)
      && Reassemble(e.written[1..]) == track.exportString
      && (forall c :: call <= c < call + e.calls ==> !refuses(c))
  {
    var e := TrackEffect(track, codec, call, refuses);
    var s := track.exportString;
    ChunkFramesLayout(codec.trackChunk, s);
    ReassembleChunkFrames(codec.trackChunk, s);
    assert e.written[1..] == ChunkFrames(codec.trackChunk, s);
  }

  /** A transfer that fails at a chunk reports a byte offset that is a
      multiple of MaxChunkLen and inside the string; exactly offset /
      MaxChunkLen chunk frames follow the announcement, they reassemble to
      the string's first `offset` bytes, and the refused call is the last one
      made. */
  lemma TransferStopsAtFailedChunk(track: Track, codec: Codec, call: nat, refuses: nat -> bool, offset: nat)
    requires TrackEffect(track, codec, call, refuses).outcome == Fail(ChunkFailed(offset))
    ensures var e := TrackEffect(track, codec, call, refuses);
      && offset % MaxChunkLen == 0
      && offset < |track.exportString|
      && track.resolvedId.Some?
      && |e.written| == 1 + offset / MaxChunkLen
      && e.written[0] == codec.marshal(TrackIDPacket(track.resolvedId.value)).value
      && e.written[1..] == ChunkFrames(codec.trackChunk, track.exportString)[..offset / MaxChunkLen]
      && Reassemble(e.written[1..]) == track.exportString[..offset]
      && e.calls == |e.written| + 1
      && refuses(call + e.calls - 1)
  {
    var e := TrackEffect(track, codec, call, refuses);
    var s := track.exportString;
    var frames := ChunkFrames(codec.trackChunk, s);
    var k := FirstRefusal(refuses, call + 1, |frames|);
    assert offset == k * MaxChunkLen;
    ChunkAt(s, k);
    ReassemblePrefix(codec.trackChunk, s, k);
    assert e.written[1..] == frames[..k];
  }

  /** A successful transfer of a 20000-byte export string makes three
      writes: the announcement and chunk frames carrying 16383 and 3617
      bytes. */
  lemma TwentyThousandByteTransfer(track: Track, codec: Codec, call: nat, refuses: nat -> bool)
    requires |track.exportString| == 20000
    requires TrackEffect(track, codec, call, refuses).outcome.Pass?
    ensures var e := TrackEffect(track, codec, call, refuses);
      |e.written| == 3 && |e.written[1]| == 1 + 16383 && |e.written[2]| == 1 + 3617
  {
    TransferSucceeds(track, codec, call, refuses);
    TwentyThousandBytes(track.exportString);
  }
}
