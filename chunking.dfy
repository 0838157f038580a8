/** How a track's export string is cut into chunk frames, and how a receiver
    puts it back together. */
module Chunking {
  import opened Wire

  /** The largest payload one chunk frame carries. */
  const MaxChunkLen: nat := 16383

  function Min(a: int, b: int): int {
    if a <= b then a else b
  }

  /** ceil(n / MaxChunkLen): how many chunks a payload of n bytes needs. */
  function ChunkCount(n: nat): nat {
    (n + MaxChunkLen - 1) / MaxChunkLen
  }

  /** The partition, stated independently of offsets: the first MaxChunkLen
      bytes form a chunk, and the rest is partitioned the same way. */
  function Chunks(s: Bytes): seq<Bytes>
    decreases |s|
  {
    if |s| == 0 then []
    else if |s| <= MaxChunkLen then [s]
    else [s[..MaxChunkLen]] + Chunks(s[MaxChunkLen..])
  }

  /** A chunk frame: one tag byte, then the chunk's bytes verbatim. */
  function Frame(tag: Byte, chunk: Bytes): Bytes {
    [tag] + chunk
  }

  /** The chunk frames for `s`, in send order. */
  function ChunkFrames(tag: Byte, s: Bytes): seq<Bytes> {
    seq(|Chunks(s)|, i requires 0 <= i < |Chunks(s)| => Frame(tag, Chunks(s)[i]))
  }

  /** What a frame carries after its tag byte. */
  function Payload(frame: Bytes): Bytes {
    if |frame| == 0 then [] else frame[1..]
  }

  /** The receiver's side: strip the tag byte of every frame and concatenate
      the payloads in arrival order. */
  function Reassemble(frames: seq<Bytes>): Bytes {
    if frames == [] then [] else Payload(frames[0]) + Reassemble(frames[1..])
  }

  /** The i-th chunk is the slice the sender's offset loop cuts at
      offset i * MaxChunkLen, ending MaxChunkLen later or at the end of `s`. */
  lemma {:induction false} ChunkAt(s: Bytes, i: nat)
    requires i < |Chunks(s)|
    ensures i * MaxChunkLen < |s|
    ensures Chunks(s)[i] == s[i * MaxChunkLen .. Min(i * MaxChunkLen + MaxChunkLen, |s|)]
    decreases i
  {
    if i > 0 {
      var rest := s[MaxChunkLen..];
      assert Chunks(s) == [s[..MaxChunkLen]] + Chunks(rest);
      ChunkAt(rest, i - 1);
      var lo := (i - 1) * MaxChunkLen;
      var hi := Min(lo + MaxChunkLen, |rest|);
      assert rest[lo..hi] == s[MaxChunkLen + lo .. MaxChunkLen + hi];
    }
  }

  /** The number of chunks is ceil(|s| / MaxChunkLen); an empty string has none. */
  lemma {:induction false} ChunksCount(s: Bytes)
    ensures |Chunks(s)| == ChunkCount(|s|)
    ensures |s| == 0 <==> |Chunks(s)| == 0
    decreases |s|
  {
    if |s| > MaxChunkLen {
      ChunksCount(s[MaxChunkLen..]);
    }
  }

  /** Chunk index i exists exactly when the sender's loop still runs at
      offset i * MaxChunkLen. */
  lemma ChunkIndexInRange(s: Bytes, i: nat)
    ensures i < |Chunks(s)| <==> i * MaxChunkLen < |s|
  {
    ChunksCount(s);
  }

  /** No chunk is empty or longer than MaxChunkLen; all but the last are full;
      the last holds |s| mod MaxChunkLen bytes, or a full MaxChunkLen when |s|
      is a multiple of it. */
  lemma ChunkSizes(s: Bytes)
    ensures forall i :: 0 <= i < |Chunks(s)| ==> 1 <= |Chunks(s)[i]| <= MaxChunkLen
    ensures forall i :: 0 <= i < |Chunks(s)| - 1 ==> |Chunks(s)[i]| == MaxChunkLen
    ensures |Chunks(s)| > 0 ==>
      |Chunks(s)[|Chunks(s)| - 1]| == if |s| % MaxChunkLen == 0 then MaxChunkLen else |s| % MaxChunkLen
  {
    var n := |Chunks(s)|;
    forall i | 0 <= i < n
      ensures 1 <= |Chunks(s)[i]| <= MaxChunkLen
      ensures i < n - 1 ==> |Chunks(s)[i]| == MaxChunkLen
    {
      ChunkAt(s, i);
      if i < n - 1 {
        ChunkAt(s, i + 1);
      }
    }
    if n > 0 {
      ChunkAt(s, n - 1);
      ChunksCount(s);
    }
  }

  /** Frame layout: each chunk frame is the tag byte followed by its chunk,
      between 2 and 1 + MaxChunkLen bytes long, and every frame but the last
      is exactly 1 + MaxChunkLen bytes. */
  lemma ChunkFramesLayout(tag: Byte, s: Bytes)
    ensures |ChunkFrames(tag, s)| == ChunkCount(|s|)
    ensures forall i :: 0 <= i < |ChunkFrames(tag, s)| ==>
      var f := ChunkFrames(tag, s)[i];
      2 <= |f| <= 1 + MaxChunkLen && f[0] == tag && f[1..] == Chunks(s)[i]
    ensures forall i :: 0 <= i < |ChunkFrames(tag, s)| - 1 ==>
      |ChunkFrames(tag, s)[i]| == 1 + MaxChunkLen
  {
    ChunksCount(s);
    ChunkSizes(s);
    var fs := ChunkFrames(tag, s);
    forall i | 0 <= i < |fs|
      ensures fs[i][1..] == Chunks(s)[i]
    {
      assert fs[i] == [tag] + Chunks(s)[i];
    }
  }

  /** Reassembly distributes over concatenation of frame sequences. */
  lemma {:induction false} ReassembleAppend(a: seq<Bytes>, b: seq<Bytes>)
    ensures Reassemble(a + b) == Reassemble(a) + Reassemble(b)
    decreases |a|
  {
    if a == [] {
      assert a + b == b;
    } else {
      assert (a + b)[0] == a[0];
      assert (a + b)[1..] == a[1..] + b;
      ReassembleAppend(a[1..], b);
    }
  }

  /** A single chunk frame reassembles to its chunk. */
  lemma ReassembleOneFrame(tag: Byte, s: Bytes, i: nat)
    requires i < |Chunks(s)|
    ensures Reassemble([ChunkFrames(tag, s)[i]]) == Chunks(s)[i]
  {
    var f := ChunkFrames(tag, s)[i];
    assert f == [tag] + Chunks(s)[i];
    assert Payload(f) == Chunks(s)[i];
    assert [f][1..] == [];
  }

  /** Appending chunk k - 1 to the bytes before it extends the prefix by
      one chunk. */
  lemma PrefixGrows(s: Bytes, k: nat)
    requires 0 < k <= |Chunks(s)|
    ensures s[..Min((k - 1) * MaxChunkLen, |s|)] + Chunks(s)[k - 1] == s[..Min(k * MaxChunkLen, |s|)]
  {
    ChunkAt(s, k - 1);
    var lo := (k - 1) * MaxChunkLen;
    var hi := Min(lo + MaxChunkLen, |s|);
    assert Min(lo, |s|) == lo && hi == Min(k * MaxChunkLen, |s|);
    assert s[..lo] + s[lo..hi] == s[..hi];
  }

  /** The first k chunk frames reassemble to the first k * MaxChunkLen bytes
      of `s` (or all of `s`, once k * MaxChunkLen passes its end). */
  lemma {:induction false} ReassemblePrefix(tag: Byte, s: Bytes, k: nat)
    requires k <= |Chunks(s)|
    ensures Reassemble(ChunkFrames(tag, s)[..k]) == s[..Min(k * MaxChunkLen, |s|)]
    decreases k
  {
    var fs := ChunkFrames(tag, s);
    if k == 0 {
      assert fs[..0] == [];
    } else {
      assert fs[..k] == fs[..k - 1] + [fs[k - 1]];
      calc {
        Reassemble(fs[..k]);
        { ReassembleAppend(fs[..k - 1], [fs[k - 1]]); }
        Reassemble(fs[..k - 1]) + Reassemble([fs[k - 1]]);
        { ReassemblePrefix(tag, s, k - 1); ReassembleOneFrame(tag, s, k - 1); }
        s[..Min((k - 1) * MaxChunkLen, |s|)] + Chunks(s)[k - 1];
        { PrefixGrows(s, k); }
        s[..Min(k * MaxChunkLen, |s|)];
      }
    }
  }

  /** Round trip: stripping the tag byte from each chunk frame and
      concatenating the payloads in order gives back exactly `s`. */
  lemma ReassembleChunkFrames(tag: Byte, s: Bytes)
    ensures Reassemble(ChunkFrames(tag, s)) == s
  {
    var fs := ChunkFrames(tag, s);
    ReassemblePrefix(tag, s, |fs|);
    ChunksCount(s);
    assert fs[..|fs|] == fs;
  }

  /** A 20000-byte string goes out as two chunks of 16383 and 3617 bytes. */
  lemma TwentyThousandBytes(s: Bytes)
    requires |s| == 20000
    ensures |Chunks(s)| == 2
    ensures |Chunks(s)[0]| == 16383 && |Chunks(s)[1]| == 3617
  {
    ChunksCount(s);
    ChunkSizes(s);
  }
}
