/** The track package, reduced to what the player's transport reads of a track. */
module GameTrack {
  import opened Wire

  /** A track identifier as the track package produces it. */
  type TrackId = string

  /** A track, seen through the two members the transport uses:
      `resolvedId` is what `GetTrackID` returns for this track (`None` when it
      fails; how the identifier is computed is not part of this model), and
      `exportString` is the bytes of the base62 export string. */
  datatype Track = Track(resolvedId: Option<TrackId>, exportString: Bytes)
}

/** The packet package, reduced to the capabilities the transport needs:
    encode a packet, report its type tag, and the tag of raw chunk frames. */
module GamePackets {
  import opened Wire
  import opened GameTrack

  /** A packet type tag. Taken to be 8 bits wide, so that converting the
      chunk tag to a byte keeps its value. */
  type PacketType = Byte

  /** The packets the transport handles: the track announcement it builds
      itself, and any other packet handed to it by game logic. */
  datatype PlayerPacket =
    | TrackIDPacket(trackId: TrackId)
    | OtherPacket(content: Bytes)

  /** The packet package as uninterpreted functions: `marshal` is a packet's
      `Marshal` method (`None` when it fails), `typeOf` its `Type` method, and
      `trackChunk` the `TrackChunk` type constant. */
  datatype Codec = Codec(
    marshal: PlayerPacket -> Option<Bytes>,
    typeOf: PlayerPacket -> PacketType,
    trackChunk: PacketType)
}

/** The peer session's reliable, ordered data channel. */
module WebrtcSession {
  import opened Wire

  /** The channel as a log of the frames it accepted, in order, plus a count of
      the send calls made on it. Whether a call fails is decided by the
      transport and is not visible to the caller in advance: `refuses(n)` is
      the verdict on the n-th call (counting from 0). A refused frame is not
      delivered. */
  class DataChannel {
    var sent: seq<Bytes>
    var calls: nat
    const refuses: nat -> bool

    constructor (refuses: nat -> bool)
      ensures sent == [] && calls == 0 && this.refuses == refuses
    {
      this.refuses := refuses;
      sent := [];
      calls := 0;
    }

    /** Hands one frame to the transport; `ok` is false when the send errs. */
    method Send(data: Bytes) returns (ok: bool)
      modifies this
      ensures ok == !refuses(old(calls))
      ensures calls == old(calls) + 1
      ensures sent == if ok then old(sent) + [data] else old(sent)
    {
      ok := !refuses(calls);
      if ok {
        sent := sent + [data];
      }
      calls := calls + 1;
    }
  }
}
