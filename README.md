# Per-player packet transport of the polyserver game server

This project models the outbound side of a connected player in
`game/player.go`. That file covers two things:

- sending one game packet over the player's reliable WebRTC data channel;
- distributing a track over that channel. A track goes out as a
  track-ID announcement packet followed by raw chunk frames. Each chunk frame
  is one `TrackChunk` tag byte followed by at most 16383 bytes of the track's
  export string.

The channel is a class, `WebrtcSession.DataChannel`. It holds the log of
frames it accepted (`sent`), the number of send calls made on it (`calls`) and
a failure oracle (`refuses`) that gives the transport's verdict on each call.
`Game.Player` holds the channel. Its methods `Send` and `SendTrack` change
that log the way the Go methods write to `Session.ReliableDC`.

Each method is proved against a specification function:

- `SendEffect` for one `Send`;
- `TrackEffect` for a whole track transfer. It is built from the recursive
  partition `Chunking.Chunks` and from `FirstRefusal`, the first call the
  channel refuses.

`SendChunks` keeps the Go offset loop, and its loop invariants tie the log to
the first `i` chunk frames. The lemmas then prove the transfer properties from
the two specification functions: reassembly, frame layout, chunk count, the
announcement first, and stopping at the first failure.

The packages the file imports are reduced to the interface it uses:

- `GamePackets.Codec`: a packet's `Marshal` and `Type` methods and the
  `TrackChunk` constant, as uninterpreted functions and a value.
- `GameTrack.Track`: the outcome of `GetTrackID` and the bytes of
  `ExportString`.

`Send` returns the channel's error unwrapped (`game/player.go:45`, `:49`): it
adds no context. A failed chunk reports exactly `offset = k * 16383`, the
byte offset of the k-th chunk.

## Model

| member | source | states |
|---|---|---|
| `WebrtcSession.DataChannel.Send` | game/player.go:84 | one call on the reliable channel: the call is counted, the transport's verdict decides the result, and the frame is appended to the log only when accepted |
| `Game.Player.Send` | game/player.go:37-50 | a marshal failure writes nothing and makes no call, and reports the packet's type; otherwise exactly one call is made, and on success exactly the marshalled bytes are appended; both type branches have the same effect (`SendEffect`) |
| `Game.SendIgnoresPacketType` | game/player.go:43-49 | once a packet marshals, its type tag has no bearing on the result or the frame: two codecs that marshal it alike give the same effect, which is one call that writes the marshalled bytes exactly when it passes |
| `Game.Player.SendTrack` | game/player.go:52-93 | the result, the new frame log and the number of calls are exactly those of `TrackEffect`: resolve the ID, announce it through `Send`, then send the chunk frames up to the first refused one |
| `Game.Player.SendChunks` | game/player.go:68-90 | the offset loop appends the chunk frames `ChunkFrames(tag, s)[..k]`, where `k` is the first refused chunk; it makes `k` calls on success and `k + 1` on failure, and a failure reports offset `k * 16383` |
| `Game.NewChunkFrame` | game/player.go:70-81 | the fresh buffer holds the `TrackChunk` tag in byte 0, followed by `s[offset..chunkEnd]` copied verbatim; it requires `offset <= chunkEnd <= |s|` (the caller caps `chunkEnd` at the string's end) |
| `Game.FirstRefusal` | game/player.go:84-86 | the index of the first refused call among `n` consecutive calls: every call before it passes, and it is refused unless it equals `n` |
| `Game.EarlyFailuresWriteNothing` | game/player.go:54-61 | a failed `GetTrackID` makes no send call and writes nothing; a failed announcement writes nothing, makes exactly the calls of that one `Send` (at most one), and reports `Send`'s own error as its cause, so no chunk follows |
| `Game.TransferSucceeds` | game/player.go:59-92 | on success the announcement's bytes are the first frame, followed by exactly `ceil(len/16383)` chunk frames, for `1 + ceil(len/16383)` accepted calls; stripping each chunk frame's first byte and concatenating gives back `ExportString` |
| `Game.TransferStopsAtFailedChunk` | game/player.go:68-86 | a chunk failure at `offset` has `offset` a multiple of 16383 and below `len`; the announcement and exactly `offset/16383` chunk frames precede it and reassemble to `ExportString[..offset]`; the refused call is the last one made |
| `Game.TwentyThousandByteTransfer` | game/player.go:59-90 | a successful transfer of 20000 bytes makes 3 writes, whose chunk frames carry 16383 and 3617 payload bytes |
| `Chunking.ChunkAt` | game/player.go:68-74 | the i-th chunk of the recursive partition is the slice the offset loop cuts: it starts at `i * 16383` (inside the string) and ends 16383 bytes later or at the string's end |
| `Chunking.ChunksCount` | game/player.go:68 | the number of chunks is `ceil(len/16383)`, which is zero exactly for an empty string |
| `Chunking.ChunkIndexInRange` | game/player.go:68 | chunk `i` exists exactly when the loop condition `offset < len` holds at `offset = i * 16383` |
| `Chunking.ChunkSizes` | game/player.go:70-74 | every chunk has between 1 and 16383 bytes, all but the last have exactly 16383, and the last has `len mod 16383` bytes (16383 when that is 0), so no empty trailing chunk exists |
| `Chunking.ChunkFramesLayout` | game/player.go:76-81 | there are `ceil(len/16383)` chunk frames; each has byte 0 equal to the tag, holds its chunk in the remaining bytes and is 2 to 16384 bytes long, and all but the last are exactly 16384 bytes |
| `Chunking.ReassembleAppend` | game/player.go:84 | reassembly distributes over concatenation: reassembling two runs of frames back to back equals concatenating their reassemblies (a helper for `ReassemblePrefix`) |
| `Chunking.ReassembleOneFrame` | game/player.go:77-81 | stripping a single chunk frame's tag byte gives back exactly its chunk |
| `Chunking.PrefixGrows` | game/player.go:68-74 | the bytes before chunk `k - 1` followed by that chunk are the string's prefix up to `min(k * 16383, len)` |
| `Chunking.ReassemblePrefix` | game/player.go:68-86 | the first `k` chunk frames reassemble to `ExportString[..min(k * 16383, len)]` |
| `Chunking.ReassembleChunkFrames` | game/player.go:68-90 | all chunk frames reassemble to exactly `ExportString`, so every byte is carried once, in order |
| `Chunking.TwentyThousandBytes` | game/player.go:68-74 | a 20000-byte string is cut into two chunks of 16383 and 3617 bytes |

## Left out

- The WebRTC peer session and its data channel's implementation are foreign code. The channel is modelled only as an append-only log with a per-call failure oracle; a refused frame is taken as not delivered.
- Packet encoding and type tags (package `game/packets`) and track ID computation and base62 export (package `game/track`) are not part of this model. They appear as the uninterpreted `Codec` functions and the `Track` fields. The packet type is taken to be 8 bits wide, so `byte(TrackChunk)` keeps its value.
- `StartNewSession` (game/player.go:95-100) is one `Send` call whose error is discarded; it adds nothing beyond `Game.Player.Send`.
- The ping fields `Ping`, `PingIdCounter` and `PingPackages` (game/player.go:22-24, 32-35) have no logic in this file, and `time.Time` is wall-clock time. No probe ledger is modelled.
- The identity and game-state fields of `Player` (ID, nickname, mods, country code, car style, reset counter, `Record`, `UnsentCarStates`, `IsKicked`) are plain storage with no behaviour here. `Game.Player` holds only the channel.
- Error message texts produced by `fmt.Errorf` are modelled as the `SendError` and `TrackError` datatypes, which keep the packet type and the chunk offset the messages carry.
- Concurrency and goroutine ownership of the channel are not modelled. Each call is taken as running alone on its player's channel.
- Go's `int` offsets (32 or 64 bits) are modelled as unbounded naturals; an export string long enough to overflow them cannot exist in memory.
