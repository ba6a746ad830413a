/** Cutting RTMP messages into chunks: `rtmp/chunk_divider.go`. */
module RtmpDivider {
  import opened Bytes

  /** `csid` and the stream id are Go integers; the other fields have the widths of the source. */
  datatype RtmpHeader = RtmpHeader(
    csid: int, msgLen: uint32, msgTypeId: byte, msgStreamId: int, timestampAbs: uint32)

  /** The largest timestamp of the 3-byte field, which stands for "extended" as well. */
  const MAX_TIMESTAMP: uint32 := 0xFF_FFFF
  const MAX_HEADER_SIZE := 18

  function Wrap32(x: int): uint32 {
    x % 0x1_0000_0000
  }

  /** The chunk format: how much repeats the previous header. */
  function ChunkFmt(h: RtmpHeader, prev: Option<RtmpHeader>): nat {
    match prev
    case None => 0
    case Some(p) =>
      if h.msgStreamId != p.msgStreamId then 0
      else if h.msgLen != p.msgLen || h.msgTypeId != p.msgTypeId then 1
      else if h.timestampAbs != p.timestampAbs then 2
      else 3
  }

  function ChunkTimestamp(h: RtmpHeader, prev: Option<RtmpHeader>): uint32 {
    if prev.None? || ChunkFmt(h, prev) == 0 || h.timestampAbs > MAX_TIMESTAMP then h.timestampAbs
    else Wrap32(h.timestampAbs - prev.value.timestampAbs)
  }

  function BasicHeader(fmt: nat, csid: int): (s: seq<byte>)
    requires fmt <= 3
    ensures 1 <= |s| <= 3
  {
    if 2 <= csid <= 63 then [fmt * 0x40 + csid]
    else if 64 <= csid <= 319 then [fmt * 0x40, csid - 64]
    else [fmt * 0x40 + 1, (csid - 64) % 0x100, (csid - 64) / 0x100 % 0x100]
  }

  function Clip24(v: uint32): uint24 {
    if v > MAX_TIMESTAMP then MAX_TIMESTAMP else v
  }

  function MessageHeader(fmt: nat, h: RtmpHeader, timestamp: uint32): (s: seq<byte>)
    ensures |s| <= 11
  {
    (if fmt <= 2 then BePut24(Clip24(timestamp)) else [])
    + (if fmt <= 1 then BePut24(h.msgLen % 0x100_0000) + [h.msgTypeId] else [])
    + (if fmt == 0 then LePut32(Wrap32(h.msgStreamId)) else [])
  }

  function Extended(timestamp: uint32): (s: seq<byte>)
    ensures |s| <= 4
  {
    if timestamp > MAX_TIMESTAMP then BePut32(timestamp) else []
  }

  function CalcHeader(h: RtmpHeader, prev: Option<RtmpHeader>): (s: seq<byte>)
    ensures 1 <= |s| <= MAX_HEADER_SIZE
  {
    var fmt, timestamp := ChunkFmt(h, prev), ChunkTimestamp(h, prev);
    BasicHeader(fmt, h.csid) + MessageHeader(fmt, h, timestamp) + Extended(timestamp)
  }

  /** The chunks of the message from byte `i` on: each a header and at most `chunkSize` bytes. */
  function Chunks(message: seq<byte>, i: nat, h: RtmpHeader, prev: Option<RtmpHeader>, chunkSize: nat): seq<byte>
    requires i <= |message| && chunkSize > 0
    decreases |message| - i
  {
    if i == |message| then []
    else
      var end := if i + chunkSize < |message| then i + chunkSize else |message|;
      CalcHeader(h, prev) + message[i..end] + Chunks(message, end, h, Some(h), chunkSize)
  }

  /** Number of chunks. */
  function NumOfChunk(message: seq<byte>, chunkSize: nat): nat
    requires chunkSize > 0
  {
    |message| / chunkSize + if |message| % chunkSize != 0 then 1 else 0
  }

  function LastChunkSize(message: seq<byte>, chunkSize: nat): nat
    requires chunkSize > 0
  {
    if |message| % chunkSize != 0 then |message| % chunkSize else chunkSize
  }

  /** Where chunk `i` starts, and how much room the first `i` chunks have. */
  function Start(i: nat, chunkSize: nat): nat {
    i * chunkSize
  }

  function Room(i: nat, chunkSize: nat): nat {
    (chunkSize + MAX_HEADER_SIZE) * i
  }

  method CountChunks(message: seq<byte>, chunkSize: nat) returns (numOfChunk: nat, lastChunkSize: nat)
    requires chunkSize > 0
    ensures numOfChunk == NumOfChunk(message, chunkSize)
    ensures lastChunkSize == LastChunkSize(message, chunkSize) && 0 < lastChunkSize <= chunkSize
  {
    numOfChunk := |message| / chunkSize;
    lastChunkSize := chunkSize;
    if |message| % chunkSize != 0 {
      numOfChunk := numOfChunk + 1;
      lastChunkSize := |message| % chunkSize;
    }
  }

  /** The source's loop, with its fixed output buffer: the bytes set aside are always enough. */
  method Message2Chunks(message: seq<byte>, header: RtmpHeader, prevHeader: Option<RtmpHeader>, chunkSize: nat)
    returns (r: seq<byte>)
    requires chunkSize > 0
    ensures r == Chunks(message, 0, header, prevHeader, chunkSize)
    ensures |r| <= Room(NumOfChunk(message, chunkSize), chunkSize)
  {
    hide *;
    var numOfChunk, lastChunkSize := CountChunks(message, chunkSize);
    var maxNeededLen := Room(numOfChunk, chunkSize);
    var out := new byte[maxNeededLen];
    var index: nat := 0;
    var prev := prevHeader;
    ghost var all := Chunks(message, 0, header, prevHeader, chunkSize);
    ghost var done: seq<byte> := [];
    ChunksStart(message, header, prevHeader, chunkSize);
    var i := 0;
    while i < numOfChunk
      invariant 0 <= i <= numOfChunk
      invariant index <= Room(i, chunkSize) && Room(i, chunkSize) <= maxNeededLen == Room(numOfChunk, chunkSize)
      invariant index <= out.Length && out[..index] == done
      invariant ChunksLeft(message, i, header, prev, chunkSize, done, all)
    {
      var pos := Start(i, chunkSize);
      var size := if i != numOfChunk - 1 then chunkSize else lastChunkSize;
      RoomLeft(chunkSize, i, numOfChunk);
      ChunksStep(message, i, header, prev, chunkSize, done, all);
      var head, part := CalcHeader(header, prev), message[pos..pos + size];
      index := Append(out, index, head, done);
      index := Append(out, index, part, done + head);
      done := done + head + part;
      prev := Some(header);
      i := i + 1;
    }
    ChunksEnd(message, i, header, prev, chunkSize, done, all);
    r := out[..index];
  }

  /** `done` holds the first `i` of the chunks that make up `all`. */
  ghost predicate ChunksLeft(message: seq<byte>, i: nat, h: RtmpHeader, prev: Option<RtmpHeader>,
    chunkSize: nat, done: seq<byte>, all: seq<byte>)
    requires chunkSize > 0
  {
    if i < NumOfChunk(message, chunkSize)
    then Start(i, chunkSize) < |message| && all == done + Chunks(message, Start(i, chunkSize), h, prev, chunkSize)
    else all == done
  }

  lemma ChunksStart(message: seq<byte>, h: RtmpHeader, prev: Option<RtmpHeader>, chunkSize: nat)
    requires chunkSize > 0
    ensures ChunksLeft(message, 0, h, prev, chunkSize, [], Chunks(message, 0, h, prev, chunkSize))
    ensures Room(0, chunkSize) == 0 && Room(0, chunkSize) <= Room(NumOfChunk(message, chunkSize), chunkSize)
  {
    if NumOfChunk(message, chunkSize) == 0 {
      assert |message| == |message| / chunkSize * chunkSize + |message| % chunkSize == 0;
      NoChunks(message, h, prev, chunkSize);
    } else {
      ChunkBounds(message, chunkSize, 0);
    }
  }

  lemma ChunksStep(message: seq<byte>, i: nat, h: RtmpHeader, prev: Option<RtmpHeader>,
    chunkSize: nat, done: seq<byte>, all: seq<byte>)
    requires chunkSize > 0 && i < NumOfChunk(message, chunkSize)
    requires ChunksLeft(message, i, h, prev, chunkSize, done, all)
    ensures
      var pos := Start(i, chunkSize);
      var size := if i != NumOfChunk(message, chunkSize) - 1 then chunkSize else LastChunkSize(message, chunkSize);
      pos + size <= |message|
      && ChunksLeft(message, i + 1, h, Some(h), chunkSize, done + CalcHeader(h, prev) + message[pos..pos + size], all)
  {
    hide Start, LastChunkSize, CalcHeader, Chunks, NumOfChunk;
    var n := NumOfChunk(message, chunkSize);
    var pos := Start(i, chunkSize);
    var size := if i != n - 1 then chunkSize else LastChunkSize(message, chunkSize);
    ChunkBounds(message, chunkSize, i);
    ChunksUnfold(message, pos, size, h, prev, chunkSize, done);
    if i + 1 == n {
      NoChunks(message, h, Some(h), chunkSize);
    }
  }

  lemma ChunksEnd(message: seq<byte>, i: nat, h: RtmpHeader, prev: Option<RtmpHeader>,
    chunkSize: nat, done: seq<byte>, all: seq<byte>)
    requires chunkSize > 0 && i >= NumOfChunk(message, chunkSize)
    requires ChunksLeft(message, i, h, prev, chunkSize, done, all)
    ensures all == done
  {
  }

  lemma NoChunks(message: seq<byte>, h: RtmpHeader, prev: Option<RtmpHeader>, chunkSize: nat)
    requires chunkSize > 0
    ensures Chunks(message, |message|, h, prev, chunkSize) == []
  {
  }

  lemma ChunksUnfold(message: seq<byte>, i: nat, size: nat, h: RtmpHeader, prev: Option<RtmpHeader>,
    chunkSize: nat, done: seq<byte>)
    requires chunkSize > 0 && i < |message|
    requires size == if i + chunkSize < |message| then chunkSize else |message| - i
    ensures done + Chunks(message, i, h, prev, chunkSize)
      == done + CalcHeader(h, prev) + message[i..i + size] + Chunks(message, i + size, h, Some(h), chunkSize)
  {
    hide CalcHeader;
    var head, part, rest := CalcHeader(h, prev), message[i..i + size], Chunks(message, i + size, h, Some(h), chunkSize);
    assert Chunks(message, i, h, prev, chunkSize) == head + part + rest;
    hide *;
    Regroup(done, head, part, rest);
  }

  lemma Regroup(a: seq<byte>, b: seq<byte>, c: seq<byte>, d: seq<byte>)
    ensures a + (b + c + d) == a + b + c + d
  {
  }

  lemma RoomLeft(chunkSize: nat, i: nat, n: nat)
    requires i < n
    ensures Room(i, chunkSize) + chunkSize + MAX_HEADER_SIZE == Room(i + 1, chunkSize)
    ensures Room(i + 1, chunkSize) <= Room(n, chunkSize)
  {
    var size := chunkSize + MAX_HEADER_SIZE;
    assert size * n == size * (i + 1) + size * (n - i - 1);
  }

  lemma ChunkBounds(message: seq<byte>, chunkSize: nat, i: nat)
    requires chunkSize > 0 && i < NumOfChunk(message, chunkSize)
    ensures
      var n, last, pos := NumOfChunk(message, chunkSize), LastChunkSize(message, chunkSize), Start(i, chunkSize);
      0 < last <= chunkSize && pos < |message|
      && (i < n - 1 ==> pos + chunkSize == Start(i + 1, chunkSize) < |message|)
      && (i == n - 1 ==> pos + last == |message|)
  {
    var n := NumOfChunk(message, chunkSize);
    var q := |message| / chunkSize;
    assert |message| == q * chunkSize + |message| % chunkSize;
    if i < n - 1 {
      Monotone(i + 1, n - 1, chunkSize);
      assert (n - 1) * chunkSize < |message| by {
        if |message| % chunkSize == 0 {
          assert (n - 1) * chunkSize == q * chunkSize - chunkSize;
        }
      }
    }
  }

  lemma Monotone(a: nat, b: nat, c: nat)
    requires a <= b
    ensures a * c <= b * c
  {
  }
}
