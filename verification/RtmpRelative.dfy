/** Chunk headers that say only what differs from the previous message of the stream: formats 1, 2 and 3. */
module RtmpRelative {
  import opened Bytes
  import opened RtmpDivider
  import opened RtmpComposer
  import opened Wire
  import opened RtmpBuffers
  import opened RtmpParsing
  import opened RtmpInterleaving
  import opened RtmpMisreading
  import opened RtmpRoundTrip
  import opened RtmpMessages

  lemma FieldsOf1(input: seq<byte>, pos: nat, h: RtmpHeader, ts: uint32, s: StreamState)
    requires At(input, pos, MessageHeader(1, h, ts)) && h.msgLen < 0x100_0000
    ensures |MessageHeader(1, h, ts)| == 7 == HeaderSize(1) && pos + 7 <= |input|
    ensures ReadFields(s, 1, input, pos)
      == s.(header := s.header.(msgLen := h.msgLen, msgTypeId := h.msgTypeId), timestamp := Clip24(ts))
  {
    var a, b, c := BePut24(Clip24(ts)), BePut24(h.msgLen), [h.msgTypeId];
    assert MessageHeader(1, h, ts) == a + (b + c);
    AtSplit(input, pos, a, b + c);
    AtSplit(input, pos + 3, b, c);
    hide At;
    At24(input, pos, Clip24(ts));
    At24(input, pos + 3, h.msgLen);
    AtByte(input, pos + 6, h.msgTypeId);
  }

  lemma FieldsOf2(input: seq<byte>, pos: nat, h: RtmpHeader, ts: uint32, s: StreamState)
    requires At(input, pos, MessageHeader(2, h, ts))
    ensures |MessageHeader(2, h, ts)| == 3 == HeaderSize(2) && pos + 3 <= |input|
    ensures ReadFields(s, 2, input, pos) == s.(timestamp := Clip24(ts))
  {
    assert MessageHeader(2, h, ts) == BePut24(Clip24(ts));
    At24(input, pos, Clip24(ts));
  }

  /** The timestamp after the headers: unchanged, or moved by the composer's rule for extended ones. */
  function Moved(prev: uint32, ts: uint32): uint32 {
    if ts < MAX_TIMESTAMP then prev else Wrap32(prev - MAX_TIMESTAMP + ts)
  }

  lemma ExtendedMoves(input: seq<byte>, pos: nat, ts: uint32, s: StreamState, fmt: nat)
    requires ts != MAX_TIMESTAMP && At(input, pos, Extended(ts)) && 1 <= fmt <= 2 && s.timestamp == Clip24(ts)
    ensures |Extended(ts)| == ExtendedSize(s) && pos + ExtendedSize(s) <= |input|
    ensures ReadExtended(s, fmt, input, pos)
      == s.(header := s.header.(timestampAbs := Moved(s.header.timestampAbs, ts)), timestamp := ts)
  {
    if ts > MAX_TIMESTAMP {
      At32(input, pos, ts);
    }
  }

  /** The buffer is large enough for the message, and within 64 MB. */
  predicate Settled(u: StreamState) {
    Roomy(u.(msg := u.msg.(e := 0)))
  }

  /** The stream has no message in progress, and room. */
  predicate Ready(u: StreamState) {
    Roomy(u) && u.msg.e == 0
  }

  /** The stream is between two messages: the last had the header `prev`, and `step` is what the stream
      keeps of its timestamp. */
  predicate Rests(s: StreamState, prev: RtmpHeader, step: uint32) {
    Ready(s) && s.header == prev && s.timestamp == step && Steady(prev, step)
  }

  /** The divider's choice, for a message of the same chunk stream. */
  function Fmt(h: RtmpHeader, prev: RtmpHeader): (fmt: nat)
    ensures fmt <= 3
  {
    ChunkFmt(h, Some(prev))
  }

  /** What the stream keeps of the timestamp of a message. */
  function NextStep(h: RtmpHeader, prev: RtmpHeader, step: uint32): uint32 {
    if Fmt(h, prev) == 3 then step else ChunkTimestamp(h, Some(prev))
  }

  /** What the message is delivered with. */
  function Delivered(h: RtmpHeader, prev: RtmpHeader, step: uint32): RtmpHeader {
    var ts := NextStep(h, prev, step);
    match Fmt(h, prev)
    case 0 => h
    case 3 => h.(timestampAbs := Wrap32(h.timestampAbs + ts))
    case _ => h.(timestampAbs := Wrap32(Moved(prev.timestampAbs, ts) + ts))
  }

  /** No timestamp of exactly 0xFFFFFF is written. */
  predicate Understood(h: RtmpHeader, prev: RtmpHeader) {
    Fmt(h, prev) == 3 || ChunkTimestamp(h, Some(prev)) != MAX_TIMESTAMP
  }

  /** The header is in time: a full one except for the timestamp 0xFFFFFF; a relative one up to 0xFFFFFF and
      less than that after the previous one (above that only by accident); none at all when the previous
      message had itself not moved. */
  predicate InTime(h: RtmpHeader, prev: RtmpHeader, step: uint32) {
    match Fmt(h, prev)
    case 0 => h.timestampAbs != MAX_TIMESTAMP
    case 3 => step == 0
    case _ =>
      if h.timestampAbs <= MAX_TIMESTAMP then Wrap32(h.timestampAbs - prev.timestampAbs) < MAX_TIMESTAMP
      else Wrap32(h.timestampAbs + prev.timestampAbs) == MAX_TIMESTAMP
  }

  // The arithmetic

  lemma WrapsBack(t: uint32, t0: uint32)
    ensures Wrap32(t0 + Wrap32(t - t0)) == t
  {
  }

  lemma WrapsTwice(t0: uint32, ts: uint32)
    ensures Wrap32(Wrap32(t0 - MAX_TIMESTAMP + ts) + ts) == Wrap32(t0 - MAX_TIMESTAMP + ts + ts)
  {
  }

  lemma WrapsLate(t: uint32, t0: uint32, ts: uint32)
    requires ts == Wrap32(t - t0) && ts > MAX_TIMESTAMP
    ensures Wrap32(t0 - MAX_TIMESTAMP + ts + ts) != t
  {
  }

  lemma WrapsOnto(t0: uint32, t: uint32)
    ensures Wrap32(t0 - MAX_TIMESTAMP + t + t) == t <==> Wrap32(t + t0) == MAX_TIMESTAMP
  {
  }

  lemma WrapsStill(t: uint32, step: uint32)
    ensures Wrap32(t + step) == t <==> step == 0
  {
  }

  /** A header that is understood gives the right timestamp exactly when it is in time. */
  lemma DeliveredExact(h: RtmpHeader, prev: RtmpHeader, step: uint32)
    requires Understood(h, prev)
    ensures Delivered(h, prev, step) == h <==> InTime(h, prev, step)
  {
    hide Wrap32;
    var ts, t0, t := ChunkTimestamp(h, Some(prev)), prev.timestampAbs, h.timestampAbs;
    if Fmt(h, prev) == 3 {
      WrapsStill(t, step);
    } else if Fmt(h, prev) > 0 {
      DistanceIs(h, prev);
      if ts < MAX_TIMESTAMP {
        WrapsBack(t, t0);
      } else {
        WrapsTwice(t0, ts);
        if t <= MAX_TIMESTAMP {
          WrapsLate(t, t0, ts);
        } else {
          WrapsOnto(t0, t);
        }
      }
    }
  }

  /** Above 0xFFFFFF the divider writes the timestamp itself, otherwise the distance. */
  lemma DistanceIs(h: RtmpHeader, prev: RtmpHeader)
    requires 0 < Fmt(h, prev) < 3
    ensures ChunkTimestamp(h, Some(prev))
      == if h.timestampAbs > MAX_TIMESTAMP then h.timestampAbs else Wrap32(h.timestampAbs - prev.timestampAbs)
  {
    hide Wrap32;
  }

  /** The chunks that follow are read as they are written, unless the timestamp went back. */
  lemma SteadyExact(h: RtmpHeader, prev: RtmpHeader, step: uint32)
    requires Understood(h, prev) && Steady(prev, step)
    ensures Steady(h, NextStep(h, prev, step))
      <==> Fmt(h, prev) == 0 || Fmt(h, prev) == 3 || h.timestampAbs > MAX_TIMESTAMP
           || Wrap32(h.timestampAbs - prev.timestampAbs) < MAX_TIMESTAMP
  {
    hide Wrap32;
  }

  // The headers of the first chunk

  /** What the composer has when it has read them. */
  predicate Opens(u: StreamState, h: RtmpHeader, prev: RtmpHeader, step: uint32, message: seq<byte>) {
    u.msg.Sound() && Settled(u) && Carries(Sending(h, message, 0), u)
    && u.header.msgTypeId == h.msgTypeId && u.timestamp == NextStep(h, prev, step)
    && RtmpComposer.Completed(u, h.csid, Fmt(h, prev) == 0) == Delivered(h, prev, step)
  }

  function Flagged(c: State, fmt: nat): State {
    c.(absTsFlag := c.absTsFlag || fmt == 0)
  }

  lemma FlaggedSound(c: State, fmt: nat)
    requires c.Sound()
    ensures Flagged(c, fmt).Sound() && Flagged(c, fmt).streams == c.streams
    ensures Flagged(c, fmt).peerChunkSize == c.peerChunkSize
    ensures !c.absTsFlag ==> Flagged(c, fmt).absTsFlag == (fmt == 0)
  {
  }

  /** A full header. */
  lemma OpensFull(c: State, h: RtmpHeader, prev: RtmpHeader, step: uint32, message: seq<byte>, input: seq<byte>, pos: nat)
    returns (u: StreamState)
    requires c.Sound() && h.csid in c.streams && Rests(c.streams[h.csid], prev, step)
    requires Expressible(h, message) && Fmt(h, prev) == 0 && Understood(h, prev)
    requires At(input, pos, CalcHeader(h, Some(prev)))
    ensures Opens(u, h, prev, step, message)
    ensures Headed(c, 0, h, Some(prev), u, input, pos)
  {
    hide *;
    SameHeader(h, prev);
    KnownReady(c, h.csid, prev, step);
    UnderstoodFull(h, prev);
    ExpressibleParts(h, message);
    IdleReserves(c.streams[h.csid], h.msgLen);
    u := FirstChunk(c, c.streams[h.csid], h, message, input, pos);
    ReservedAnnounced(c.streams[h.csid], u);
    StepIs(c, input, pos);
    OpensFullIs(u, h, prev, step, message);
    HeadedIs(c, 0, h, prev, u, input, pos);
  }

  /** The composer has read the headers of the chunk at `pos`, and goes on to the payload. */
  predicate Headed(c: State, fmt: nat, h: RtmpHeader, prev: Option<RtmpHeader>, u: StreamState, input: seq<byte>, pos: nat)
    requires c.Sound() && u.msg.Sound()
  {
    var q := pos + |CalcHeader(h, prev)|;
    q <= |input| && Step(c, input, pos) == Payload(Flagged(c, fmt), h.csid, u, input, q)
  }

  lemma HeadedIs(c: State, fmt: nat, h: RtmpHeader, prev: RtmpHeader, u: StreamState, input: seq<byte>, pos: nat)
    requires c.Sound() && u.msg.Sound()
    requires
      var q := pos + |CalcHeader(h, Some(prev))|;
      q <= |input|
      && Step(c, input, pos) == Payload(if fmt == 0 then c.(absTsFlag := true) else c, h.csid, u, input, q)
    ensures Headed(c, fmt, h, Some(prev), u, input, pos)
  {
    hide Payload, Step, CalcHeader;
    SameFlag(c);
  }

  lemma SameHeader(h: RtmpHeader, prev: RtmpHeader)
    requires Fmt(h, prev) == 0
    ensures CalcHeader(h, Some(prev)) == CalcHeader(h, None)
  {
    hide BasicHeader, MessageHeader, Extended;
  }

  lemma UnderstoodFull(h: RtmpHeader, prev: RtmpHeader)
    requires Fmt(h, prev) == 0 && Understood(h, prev)
    ensures h.timestampAbs != MAX_TIMESTAMP
  {
  }

  lemma KnownReady(c: State, csid: int, prev: RtmpHeader, step: uint32)
    requires c.Sound() && csid in c.streams && Rests(c.streams[csid], prev, step)
    ensures
      var s := c.streams[csid];
      c.GetOrCreateStream(csid) == s && Roomy(s) && s.msg.e == 0 && s.msg.b == 0 && s.msg.Sound()
      && s.header == prev && s.timestamp == step && Steady(prev, step)
  {
  }

  lemma OpensFullIs(u: StreamState, h: RtmpHeader, prev: RtmpHeader, step: uint32, message: seq<byte>)
    requires u.header == h.(csid := u.header.csid) && u.timestamp == h.timestampAbs && Expressible(h, message)
    requires u.msg.e == 0 && Announced(u, 0) && u.msg.Sound() && Fmt(h, prev) == 0
    ensures Opens(u, h, prev, step, message)
  {
  }

  /** A header with the length, the type and the timestamp, or with the timestamp alone. */
  lemma OpensRelative(c: State, h: RtmpHeader, prev: RtmpHeader, step: uint32, message: seq<byte>, input: seq<byte>,
    pos: nat) returns (u: StreamState)
    requires c.Sound() && h.csid == prev.csid && h.csid in c.streams && Rests(c.streams[h.csid], prev, step)
    requires Expressible(h, message) && 1 <= Fmt(h, prev) <= 2 && Understood(h, prev)
    requires At(input, pos, CalcHeader(h, Some(prev)))
    ensures Opens(u, h, prev, step, message)
    ensures Headed(c, Fmt(h, prev), h, Some(prev), u, input, pos)
  {
    hide *;
    var fmt, ts := Fmt(h, prev), ChunkTimestamp(h, Some(prev));
    KnownReady(c, h.csid, prev, step);
    UnderstoodRelative(h, prev);
    HeaderParts(h, prev);
    CsidFits(h, message);
    var a, b, e := BasicHeader(fmt, h.csid), MessageHeader(fmt, h, ts), Extended(ts);
    AtSplit(input, pos, a + b, e);
    AtSplit(input, pos, a, b);
    BasicParses(input, pos, fmt, h.csid);
    var p, s := pos + |a|, c.streams[h.csid];
    var t := FieldsMerge(input, p, h, prev, step, message, s);
    ExtendedMoves(input, p + |b|, ts, t, fmt);
    u := ReadExtended(t, fmt, input, p + |b|);
    assert p + |b| + |e| == pos + |a + b + e|;
    ChunkIs(c, Basic(fmt, h.csid, p), s, input, t);
    StepIs(c, input, pos);
    OpensRelativeIs(t, u, h, prev, step, message);
    HeadedParts(c, fmt, h, prev, u, input, pos);
  }

  lemma HeadedParts(c: State, fmt: nat, h: RtmpHeader, prev: RtmpHeader, u: StreamState, input: seq<byte>, pos: nat)
    requires c.Sound() && u.msg.Sound()
    requires
      var q := pos + |CalcHeader(h, Some(prev))|;
      q <= |input|
      && Step(c, input, pos) == Payload(c.(absTsFlag := c.absTsFlag || fmt == 0), h.csid, u, input, q)
    ensures Headed(c, fmt, h, Some(prev), u, input, pos)
  {
    hide Payload, Step, CalcHeader;
  }

  lemma UnderstoodRelative(h: RtmpHeader, prev: RtmpHeader)
    requires 1 <= Fmt(h, prev) <= 2 && Understood(h, prev)
    ensures ChunkTimestamp(h, Some(prev)) != MAX_TIMESTAMP
  {
  }

  lemma HeaderParts(h: RtmpHeader, prev: RtmpHeader)
    ensures
      var fmt, ts := Fmt(h, prev), ChunkTimestamp(h, Some(prev));
      CalcHeader(h, Some(prev)) == BasicHeader(fmt, h.csid) + MessageHeader(fmt, h, ts) + Extended(ts)
  {
    hide BasicHeader, MessageHeader, Extended, ChunkTimestamp;
  }

  /** What the header leaves out is the same as before. */
  lemma FieldsMerge(input: seq<byte>, p: nat, h: RtmpHeader, prev: RtmpHeader, step: uint32, message: seq<byte>,
    s: StreamState) returns (t: StreamState)
    requires Expressible(h, message) && h.csid == prev.csid && 1 <= Fmt(h, prev) <= 2
    requires Rests(s, prev, step) && s.msg.Sound()
    requires At(input, p, MessageHeader(Fmt(h, prev), h, ChunkTimestamp(h, Some(prev))))
    ensures
      var fmt, ts := Fmt(h, prev), ChunkTimestamp(h, Some(prev));
      |MessageHeader(fmt, h, ts)| == HeaderSize(fmt) && p + HeaderSize(fmt) <= |input|
      && Announce(ReadFields(s, fmt, input, p), fmt) == Some(t) && Announced(t, fmt)
      && t.msg.Sound() && t.msg.b == 0 && t.msg.e == 0
      && t.header == h.(timestampAbs := prev.timestampAbs) && t.timestamp == Clip24(ts)
  {
    var fmt, ts := Fmt(h, prev), ChunkTimestamp(h, Some(prev));
    hide At, MessageHeader, ChunkTimestamp;
    if fmt == 1 {
      FieldsOf1(input, p, h, ts, s);
    } else {
      FieldsOf2(input, p, h, ts, s);
    }
    AnnounceRoomy(s, fmt, input, p);
    hide ReadFields;
    t := Announce(ReadFields(s, fmt, input, p), fmt).value;
  }

  lemma OpensRelativeIs(t: StreamState, u: StreamState, h: RtmpHeader, prev: RtmpHeader, step: uint32,
    message: seq<byte>)
    requires Expressible(h, message) && 1 <= Fmt(h, prev) <= 2 && Announced(t, Fmt(h, prev))
    requires t.msg.Sound() && t.msg.b == 0 && t.msg.e == 0 && t.header == h.(timestampAbs := prev.timestampAbs)
    requires
      var ts := ChunkTimestamp(h, Some(prev));
      u == t.(header := t.header.(timestampAbs := Moved(prev.timestampAbs, ts)), timestamp := ts)
    ensures u.msg.Sound() && Opens(u, h, prev, step, message)
  {
    hide Wrap32, Moved, ChunkTimestamp;
  }

  /** No header: everything is as before. */
  lemma OpensSame(c: State, h: RtmpHeader, prev: RtmpHeader, step: uint32, message: seq<byte>, input: seq<byte>, pos: nat)
    returns (u: StreamState)
    requires c.Sound() && h.csid == prev.csid && h.csid in c.streams && Rests(c.streams[h.csid], prev, step)
    requires Expressible(h, message) && Fmt(h, prev) == 3
    requires At(input, pos, CalcHeader(h, Some(prev)))
    ensures Opens(u, h, prev, step, message)
    ensures Headed(c, 3, h, Some(prev), u, input, pos)
  {
    hide *;
    u := c.streams[h.csid];
    Unchanged(h, prev);
    KnownReady(c, h.csid, prev, step);
    NextChunk(c, u, h, message, input, pos);
    StepIs(c, input, pos);
    OpensSameIs(u, h, step, message);
    HeadedIs(c, 3, h, prev, u, input, pos);
  }

  lemma Unchanged(h: RtmpHeader, prev: RtmpHeader)
    requires Fmt(h, prev) == 3 && h.csid == prev.csid
    ensures h == prev
  {
  }

  lemma OpensSameIs(u: StreamState, h: RtmpHeader, step: uint32, message: seq<byte>)
    requires Rests(u, h, step) && Expressible(h, message)
    ensures u.msg.Sound() && Opens(u, h, h, step, message)
  {
    hide Wrap32;
  }

  /** The headers of a message that follows another on its stream. */
  lemma HeaderOpens(c: State, h: RtmpHeader, prev: RtmpHeader, step: uint32, message: seq<byte>, input: seq<byte>, pos: nat)
    returns (u: StreamState)
    requires c.Sound() && h.csid == prev.csid && h.csid in c.streams && Rests(c.streams[h.csid], prev, step)
    requires Expressible(h, message) && Understood(h, prev) && At(input, pos, CalcHeader(h, Some(prev)))
    ensures Opens(u, h, prev, step, message)
    ensures Headed(c, Fmt(h, prev), h, Some(prev), u, input, pos)
  {
    hide *;
    if Fmt(h, prev) == 0 {
      u := OpensFull(c, h, prev, step, message, input, pos);
    } else if Fmt(h, prev) == 3 {
      u := OpensSame(c, h, prev, step, message, input, pos);
    } else {
      u := OpensRelative(c, h, prev, step, message, input, pos);
    }
  }

  // One message

  predicate Ordinary(h: RtmpHeader) {
    h.msgTypeId != SET_CHUNK_SIZE && h.msgTypeId != AGGREGATE_MESSAGE
  }

  /** A stream at rest, and the flag of all streams down. */
  predicate Resting(c: State, prev: RtmpHeader, step: uint32) {
    c.Sound() && c.peerChunkSize > 0 && !c.absTsFlag && prev.csid in c.streams && Rests(c.streams[prev.csid], prev, step)
  }

  lemma RestingParts(c: State, prev: RtmpHeader, step: uint32)
    requires Resting(c, prev, step)
    ensures c.Sound() && c.peerChunkSize > 0 && !c.absTsFlag && prev.csid in c.streams
    ensures Rests(c.streams[prev.csid], prev, step) && Steady(prev, step)
  {
  }

  /** It can be read to its end: in one chunk in any case, in several when it is steady. */
  predicate Readily(h: RtmpHeader, prev: RtmpHeader, step: uint32, message: seq<byte>, chunkSize: nat) {
    Understood(h, prev) && (|message| <= chunkSize || Steady(h, NextStep(h, prev, step)))
  }

  /** A message that follows another, in any number of chunks: its headers are merged with what the stream
      has kept, and its timestamp moves on from the previous one. */
  lemma RelativeMessage(c: State, h: RtmpHeader, prev: RtmpHeader, step: uint32, message: seq<byte>, input: seq<byte>,
    pos: nat) returns (d: State)
    requires Resting(c, prev, step) && Expressible(h, message) && h.csid == prev.csid && Ordinary(h)
    requires Readily(h, prev, step, message, c.peerChunkSize) && c.peerChunkSize > 0
    requires At(input, pos, Chunks(message, 0, h, Some(prev), c.peerChunkSize)) && c.Sound() && pos <= |input|
    ensures d.Sound() && d.peerChunkSize == c.peerChunkSize && !d.absTsFlag && h.csid in d.streams
    ensures Ready(d.streams[h.csid]) && d.streams[h.csid].header == Delivered(h, prev, step)
    ensures d.streams[h.csid].timestamp == NextStep(h, prev, step)
    ensures
      var next := pos + |Chunks(message, 0, h, Some(prev), c.peerChunkSize)|;
      next <= |input|
      && Run(c, input, pos)
        == ([Delivery(Delivered(h, prev, step), message)] + Run(d, input, next).0, Run(d, input, next).1)
  {
    hide *;
    RestingParts(c, prev, step);
    ExpressibleParts(h, message);
    var s, n, fmt := Sending(h, message, 0), c.peerChunkSize, Fmt(h, prev);
    ChunksOpen(s, Some(prev), n);
    ReadilyParts(h, prev, step, message, n);
    var end := End(s, n);
    AtSplit(input, pos, CalcHeader(h, Some(prev)) + message[0..end], Chunks(message, end, h, Some(h), n));
    AtSplit(input, pos, CalcHeader(h, Some(prev)), message[0..end]);
    var u := HeaderOpens(c, h, prev, step, message, input, pos);
    FlaggedSound(c, fmt);
    OpensParts(u, h, prev, step, message, n);
    HeadedStep(c, fmt, h, Some(prev), u, input, pos);
    var w := WholeFrom(c, Flagged(c, fmt), s, u, Some(prev), input, pos);
    d := DeliversWhole(c, h, prev, step, message, u, w, input, pos + |Chunks(message, 0, h, Some(prev), n)|);
  }

  lemma ReadilyParts(h: RtmpHeader, prev: RtmpHeader, step: uint32, message: seq<byte>, chunkSize: nat)
    requires Readily(h, prev, step, message, chunkSize)
    ensures Understood(h, prev) && (|message| <= chunkSize || Steady(h, NextStep(h, prev, step)))
  {
  }

  lemma HeadedStep(c: State, fmt: nat, h: RtmpHeader, prev: Option<RtmpHeader>, u: StreamState, input: seq<byte>, pos: nat)
    requires c.Sound() && u.msg.Sound() && Headed(c, fmt, h, prev, u, input, pos)
    ensures
      var q := pos + |CalcHeader(h, prev)|;
      q <= |input| && Step(c, input, pos) == Payload(Flagged(c, fmt), h.csid, u, input, q)
  {
    hide Payload, Step, CalcHeader;
  }

  lemma OpensParts(u: StreamState, h: RtmpHeader, prev: RtmpHeader, step: uint32, message: seq<byte>, chunkSize: nat)
    requires Opens(u, h, prev, step, message) && Expressible(h, message)
    requires |message| <= chunkSize || Steady(h, NextStep(h, prev, step))
    ensures u.msg.Sound() && (Open(Sending(h, message, 0), u, chunkSize)
      || (|message| <= chunkSize && Opened(Sending(h, message, 0), u)))
  {
    hide RtmpComposer.Completed, NextStep, Delivered, Fmt, Settled, Carries, Expressible;
  }

  /** The end of the message: it is handed on, and its stream rests. */
  lemma DeliversWhole(c: State, h: RtmpHeader, prev: RtmpHeader, step: uint32, message: seq<byte>, u: StreamState,
    w: StreamState, input: seq<byte>, next: nat) returns (d: State)
    requires c.Sound() && !c.absTsFlag && Ordinary(h) && Opens(u, h, prev, step, message) && next <= |input|
    requires Carries(Sending(h, message, |message|), w) && w.msg.Sound() && u.msg.Sound() && Same(u, w)
    ensures Flagged(c, Fmt(h, prev)).Sound()
    ensures d.Sound() && d.peerChunkSize == c.peerChunkSize && !d.absTsFlag && h.csid in d.streams
    ensures Ready(d.streams[h.csid]) && d.streams[h.csid].header == Delivered(h, prev, step)
    ensures d.streams[h.csid].timestamp == NextStep(h, prev, step)
    ensures Onwards(Finish(Flagged(c, Fmt(h, prev)), h.csid, w, next), input)
      == ([Delivery(Delivered(h, prev, step), message)] + Run(d, input, next).0, Run(d, input, next).1)
  {
    hide *;
    var e, s := Flagged(c, Fmt(h, prev)), Sending(h, message, |message|);
    FlaggedSound(c, Fmt(h, prev));
    OpensType(u, h, prev, step, message);
    SameParts(u, w);
    CompletedSame(u, w, h.csid, Fmt(h, prev) == 0);
    var v := FinishOrdinary(e, s, w, next);
    EndsReady(u, w, h.csid, e.absTsFlag);
    SizeStays(w, c.peerChunkSize, h);
    var r := Finish(e, h.csid, w, next);
    FinishMoves(e, h.csid, w, next);
    d := r.state;
    OnwardsIs(r, input);
  }

  lemma EndsReady(u: StreamState, w: StreamState, csid: int, absTsFlag: bool)
    requires u.msg.Sound() && w.msg.Sound() && Settled(u) && Same(u, w)
    ensures Ready(StreamState(RtmpComposer.Completed(w, csid, absTsFlag), w.msg.(b := 0, e := 0), w.timestamp))
  {
  }

  lemma OpensType(u: StreamState, h: RtmpHeader, prev: RtmpHeader, step: uint32, message: seq<byte>)
    requires Opens(u, h, prev, step, message) && Ordinary(h)
    ensures u.header.msgTypeId == h.msgTypeId && u.header.msgTypeId != AGGREGATE_MESSAGE && Settled(u)
    ensures u.timestamp == NextStep(h, prev, step)
    ensures RtmpComposer.Completed(u, h.csid, Fmt(h, prev) == 0) == Delivered(h, prev, step)
  {
    hide RtmpComposer.Completed, NextStep, Delivered, Fmt, Settled, Carries;
  }

  lemma CompletedSame(u: StreamState, w: StreamState, csid: int, absTsFlag: bool)
    requires w.header == u.header && w.timestamp == u.timestamp
    ensures RtmpComposer.Completed(w, csid, absTsFlag) == RtmpComposer.Completed(u, csid, absTsFlag)
  {
  }

  lemma SizeStays(u: StreamState, chunkSize: uint32, h: RtmpHeader)
    requires u.header.msgTypeId == h.msgTypeId && Ordinary(h) && u.msg.Sound()
    ensures |u.msg.buf| >= 4 && SizeAfter(u.header, u.msg.buf, chunkSize) == chunkSize
  {
  }

  // When the composer takes four bytes of the payload for a timestamp

  /** The header of the message says 0xFFFFFF. */
  lemma FirstMisread(c: State, h: RtmpHeader, prev: RtmpHeader, step: uint32, message: seq<byte>, input: seq<byte>)
    requires Resting(c, prev, step) && Expressible(h, message) && h.csid == prev.csid && !Understood(h, prev)
    requires c.Sound() && c.peerChunkSize > 0 && input == Chunks(message, 0, h, Some(prev), c.peerChunkSize)
    ensures var out := Run(c, input, 0).0; out == [] || Short(out, h.csid, |message|)
  {
    hide *;
    RestingParts(c, prev, step);
    ExpressibleParts(h, message);
    var fmt, n := Fmt(h, prev), c.peerChunkSize;
    MisreadHeader(h, prev);
    FirstLength(h, message, Some(prev), n);
    var p := |CalcHeader(h, Some(prev))|;
    var t := HeaderMisread(c, h, prev, step, message, input);
    if p + 4 > |input| {
      RunStops(c, input, 0);
    } else {
      FlaggedSound(c, fmt);
      MisreadFrom(c, Flagged(c, fmt), h.csid, t, n, |message|, input, 0, p + 4);
    }
  }

  lemma MisreadHeader(h: RtmpHeader, prev: RtmpHeader)
    requires !Understood(h, prev)
    ensures h.timestampAbs <= MAX_TIMESTAMP && Fmt(h, prev) <= 2
    ensures ChunkTimestamp(h, Some(prev)) == MAX_TIMESTAMP
  {
  }

  lemma HeaderMisread(c: State, h: RtmpHeader, prev: RtmpHeader, step: uint32, message: seq<byte>, input: seq<byte>)
    returns (t: StreamState)
    requires c.Sound() && h.csid == prev.csid && h.csid in c.streams && Rests(c.streams[h.csid], prev, step)
    requires Expressible(h, message) && !Understood(h, prev) && At(input, 0, CalcHeader(h, Some(prev)))
    ensures t.msg.Sound() && t.msg.b == 0 && t.msg.e == 0
    ensures
      var p := |CalcHeader(h, Some(prev))|;
      Step(c, input, 0)
        == if p + 4 > |input| then Stop([], EndOfInput)
           else Payload(Flagged(c, Fmt(h, prev)), h.csid, t, input, p + 4)
  {
    hide *;
    var fmt, s := Fmt(h, prev), c.streams[h.csid];
    KnownReady(c, h.csid, prev, step);
    MisreadHeader(h, prev);
    HeaderParts(h, prev);
    CsidFits(h, message);
    var a, b := BasicHeader(fmt, h.csid), MessageHeader(fmt, h, MAX_TIMESTAMP);
    NothingExtended(a + b);
    AtSplit(input, 0, a, b);
    BasicParses(input, 0, fmt, h.csid);
    var r := LargestAnnounced(h, prev, step, message, s, input, |a|);
    ExtendedFollows(r);
    StepIs(c, input, 0);
    t := r;
    if |a| + |b| + 4 <= |input| {
      t := ReadExtended(r, fmt, input, |a| + |b|);
      ChunkIs(c, Basic(fmt, h.csid, |a|), s, input, r);
      FlaggedIs(c, fmt);
    } else {
      ChunkStops(c, Basic(fmt, h.csid, |a|), s, input, r);
    }
  }

  lemma FlaggedIs(c: State, fmt: nat)
    ensures Flagged(c, fmt) == c.(absTsFlag := c.absTsFlag || fmt == 0)
  {
  }

  /** The message header with the timestamp 0xFFFFFF, in each of the three formats. */
  lemma LargestAnnounced(h: RtmpHeader, prev: RtmpHeader, step: uint32, message: seq<byte>, s: StreamState,
    input: seq<byte>, p: nat) returns (t: StreamState)
    requires Expressible(h, message) && h.csid == prev.csid && !Understood(h, prev)
    requires Rests(s, prev, step) && s.msg.Sound() && At(input, p, MessageHeader(Fmt(h, prev), h, MAX_TIMESTAMP))
    ensures |MessageHeader(Fmt(h, prev), h, MAX_TIMESTAMP)| == HeaderSize(Fmt(h, prev))
    ensures p + HeaderSize(Fmt(h, prev)) <= |input|
    ensures Announce(ReadFields(s, Fmt(h, prev), input, p), Fmt(h, prev)) == Some(t)
    ensures t.msg.Sound() && t.msg.b == 0 && t.msg.e == 0 && t.timestamp == MAX_TIMESTAMP
  {
    hide *;
    MisreadHeader(h, prev);
    if Fmt(h, prev) == 0 {
      RestsRoomy(s, prev, step);
      FullLargest(h, prev);
      ExpressibleParts(h, message);
      IdleReserves(s, h.msgLen);
      t := FieldsAnnounced(h, message, s, input, p);
      LargestStays();
      ReservedAnnounced(s, t);
    } else {
      t := FieldsMerge(input, p, h, prev, step, message, s);
      LargestStays();
    }
  }

  lemma LargestStays()
    ensures Clip24(MAX_TIMESTAMP) == MAX_TIMESTAMP
  {
  }

  lemma RestsRoomy(s: StreamState, prev: RtmpHeader, step: uint32)
    requires Rests(s, prev, step)
    ensures Roomy(s) && s.msg.e == 0 && s.msg.b == 0
  {
  }

  lemma FullLargest(h: RtmpHeader, prev: RtmpHeader)
    requires Fmt(h, prev) == 0 && !Understood(h, prev)
    ensures h.timestampAbs == MAX_TIMESTAMP
  {
  }

  /** The timestamp goes back: the first chunk carries an extended timestamp, the others do not, and the
      composer looks for one in each. */
  lemma LaterMisread(c: State, h: RtmpHeader, prev: RtmpHeader, step: uint32, message: seq<byte>, input: seq<byte>)
    requires Resting(c, prev, step) && Expressible(h, message) && h.csid == prev.csid && Understood(h, prev)
    requires c.Sound() && 0 < c.peerChunkSize < |message| && input == Chunks(message, 0, h, Some(prev), c.peerChunkSize)
    requires !Steady(h, NextStep(h, prev, step))
    ensures var out := Run(c, input, 0).0; out == [] || Short(out, h.csid, |message|)
  {
    hide *;
    RestingParts(c, prev, step);
    ExpressibleParts(h, message);
    WentBack(h, prev, step);
    var t, e, next := FirstPart(c, h, prev, step, message, input);
    SecondMisread(e, h, message, t, input, next);
  }

  /** The first of several chunks: part of the message is on its stream. */
  lemma FirstPart(c: State, h: RtmpHeader, prev: RtmpHeader, step: uint32, message: seq<byte>, input: seq<byte>)
    returns (t: StreamState, e: State, next: nat)
    requires Resting(c, prev, step) && Expressible(h, message) && h.csid == prev.csid && Understood(h, prev)
    requires c.Sound() && 0 < c.peerChunkSize < |message| && input == Chunks(message, 0, h, Some(prev), c.peerChunkSize)
    ensures e.Sound() && e.peerChunkSize == c.peerChunkSize && h.csid in e.streams && e.streams[h.csid] == t
    ensures t.msg.Sound() && Carries(Sending(h, message, c.peerChunkSize), t) && t.timestamp == NextStep(h, prev, step)
    ensures t.msg.b == 0
    ensures next <= |input| && Run(c, input, 0) == Run(e, input, next)
    ensures At(input, next, Chunks(message, c.peerChunkSize, h, Some(h), c.peerChunkSize))
    ensures |input| == next + |Chunks(message, c.peerChunkSize, h, Some(h), c.peerChunkSize)|
  {
    hide *;
    RestingParts(c, prev, step);
    ExpressibleParts(h, message);
    var n, s := c.peerChunkSize, Sending(h, message, 0);
    var head := CalcHeader(h, Some(prev));
    FirstPartAt(h, prev, message, n, input);
    var u := HeaderOpens(c, h, prev, step, message, input, 0);
    FlaggedSound(c, Fmt(h, prev));
    OpensRoom(u, h, prev, step, message, n);
    HeadedStep(c, Fmt(h, prev), h, Some(prev), u, input, 0);
    var d := Flagged(c, Fmt(h, prev));
    PartialEnd(s, n);
    t := PayloadFills(d, s, u, input, |head|);
    FinishPartial(d, s.(i := n), t, |head| + n);
    Replaced(d, h.csid, t);
    e := d.(streams := d.streams[h.csid := t]);
    next := |head| + n;
    RunOnwards(c, input, 0);
    Quietly(Step(c, input, 0), input);
  }

  lemma FirstPartAt(h: RtmpHeader, prev: RtmpHeader, message: seq<byte>, n: nat, input: seq<byte>)
    requires 0 < n < |message| && input == Chunks(message, 0, h, Some(prev), n)
    ensures
      var head, rest := CalcHeader(h, Some(prev)), Chunks(message, n, h, Some(h), n);
      At(input, 0, head) && At(input, |head|, message[0..n]) && At(input, |head| + n, rest)
      && |input| == |head| + n + |rest|
  {
    hide *;
    var s := Sending(h, message, 0);
    ChunksOpen(s, Some(prev), n);
    PartialEnd(s, n);
    AtSlice(input, 0, input);
    FullSlice(input);
    var head, rest := CalcHeader(h, Some(prev)), Chunks(message, n, h, Some(h), n);
    AtSplit(input, 0, head + message[0..n], rest);
    AtSplit(input, 0, head, message[0..n]);
  }

  lemma WentBack(h: RtmpHeader, prev: RtmpHeader, step: uint32)
    requires Understood(h, prev) && Steady(prev, step) && !Steady(h, NextStep(h, prev, step))
    ensures h.timestampAbs <= MAX_TIMESTAMP && NextStep(h, prev, step) >= MAX_TIMESTAMP
  {
    hide Wrap32;
  }

  lemma PartialEnd(s: Sending, chunkSize: nat)
    requires s.i == 0 && chunkSize < |s.message|
    ensures End(s, chunkSize) == chunkSize
  {
  }

  lemma OpensRoom(u: StreamState, h: RtmpHeader, prev: RtmpHeader, step: uint32, message: seq<byte>, chunkSize: uint32)
    requires Opens(u, h, prev, step, message)
    ensures u.msg.Sound() && u.msg.b == 0 && Carries(Sending(h, message, 0), u) && !Overlong(u, chunkSize)
    ensures u.timestamp == NextStep(h, prev, step)
  {
    hide RtmpComposer.Completed, NextStep, Delivered, Fmt;
  }

  lemma SecondMisread(c: State, h: RtmpHeader, message: seq<byte>, t: StreamState, input: seq<byte>, pos: nat)
    requires c.Sound() && 0 < c.peerChunkSize < |message| && h.csid in c.streams && c.streams[h.csid] == t
    requires Expressible(h, message) && h.timestampAbs <= MAX_TIMESTAMP <= t.timestamp && t.msg.Sound() && t.msg.b == 0
    requires Carries(Sending(h, message, c.peerChunkSize), t) && pos <= |input|
    requires At(input, pos, Chunks(message, c.peerChunkSize, h, Some(h), c.peerChunkSize))
    requires |input| == pos + |Chunks(message, c.peerChunkSize, h, Some(h), c.peerChunkSize)|
    ensures var out := Run(c, input, pos).0; out == [] || Short(out, h.csid, |message|)
  {
    hide *;
    var n: nat := c.peerChunkSize;
    var csid, length, a := h.csid, |message|, BasicHeader(3, h.csid);
    ChunksLength(h, message, n, n);
    HeadersStep(csid, length, n, n);
    NextHeader(h, message, n, input, pos);
    CsidFits(h, message);
    BasicParses(input, pos, 3, csid);
    OpenStream(c, csid);
    StepIs(c, input, pos);
    NothingRead(t, input, pos + |a|);
    CarriesAt(Sending(h, message, n), t);
    LateFollows(t);
    if pos + |a| + 4 > |input| {
      ChunkStops(c, Basic(3, csid, pos + |a|), t, input, t);
      RunStops(c, input, pos);
    } else {
      ChunkIs(c, Basic(3, csid, pos + |a|), t, input, t);
      SameFlag(c);
      var u := ReadExtended(t, 3, input, pos + |a|);
      MisreadFrom(c, c, csid, u, n + n, length, input, pos, pos + |a| + 4);
    }
  }

  lemma LateFollows(t: StreamState)
    requires t.timestamp >= MAX_TIMESTAMP
    ensures ExtendedSize(t) == 4
  {
  }

  lemma CarriesAt(s: Sending, t: StreamState)
    requires Carries(s, t)
    ensures t.msg.e == t.msg.b + s.i
  {
  }

  lemma NextHeader(h: RtmpHeader, message: seq<byte>, n: nat, input: seq<byte>, pos: nat)
    requires 0 < n < |message| && h.timestampAbs <= MAX_TIMESTAMP
    requires At(input, pos, Chunks(message, n, h, Some(h), n))
    ensures At(input, pos, BasicHeader(3, h.csid)) && pos + |BasicHeader(3, h.csid)| <= |input|
  {
    hide BasicHeader, At;
    var s := Sending(h, message, n);
    ChunksFirst(s, n);
    RepeatedHeader(h);
    var none: seq<byte> := [];
    assert BasicHeader(3, h.csid) + none == BasicHeader(3, h.csid);
    hide Chunks, ChunkOf, CalcHeader;
    ChunkHead(s, n);
    AtSplit(input, pos, ChunkOf(s, n), Chunks(message, End(s, n), h, Some(h), n));
    AtSplit(input, pos, CalcHeader(h, Some(h)), message[n..End(s, n)]);
    AtFits(input, pos, BasicHeader(3, h.csid));
  }

  lemma ChunkHead(s: Sending, chunkSize: nat)
    requires 0 < s.i < |s.message| && chunkSize > 0
    ensures s.i <= End(s, chunkSize) <= |s.message|
    ensures ChunkOf(s, chunkSize) == CalcHeader(s.header, Some(s.header)) + s.message[s.i..End(s, chunkSize)]
    ensures s.header.timestampAbs <= MAX_TIMESTAMP ==> Extended(s.header.timestampAbs) == []
  {
    hide CalcHeader;
  }

  /** Any message that follows another on its stream, in any number of chunks and formats: it comes back, with
      its own header and timestamp, if and only if it is in time. */
  lemma RelativeExact(c: State, m: Message, prev: RtmpHeader, step: uint32)
    requires Resting(c, prev, step) && Expressible(m.header, m.payload) && m.header.csid == prev.csid
    requires Ordinary(m.header) && c.Sound() && c.peerChunkSize > 0
    ensures Run(c, Chunks(m.payload, 0, m.header, Some(prev), c.peerChunkSize), 0) == (AllDelivered([m]), EndOfInput)
      <==> InTime(m.header, prev, step)
  {
    hide *;
    var h, message, n := m.header, m.payload, c.peerChunkSize;
    var input := Chunks(message, 0, h, Some(prev), n);
    RestingParts(c, prev, step);
    OneDelivered(m);
    NotShort(h, message);
    if !Understood(h, prev) {
      FirstMisread(c, h, prev, step, message, input);
      LargestLate(h, prev, step);
    } else if Readily(h, prev, step, message, n) {
      AtSlice(input, 0, input);
      FullSlice(input);
      var d := RelativeMessage(c, h, prev, step, message, input, 0);
      RunEnds(d, input);
      DeliveredExact(h, prev, step);
      OnlyOne(Delivery(Delivered(h, prev, step), message), Delivery(h, message));
    } else {
      NotReadily(h, prev, step, message, n);
      LaterMisread(c, h, prev, step, message, input);
      BackLate(h, prev, step);
    }
  }

  lemma OnlyOne(a: Delivery, b: Delivery)
    ensures [a] + [] == [b] <==> a == b
  {
    assert [a] + [] == [a];
    assert [a] == [b] ==> [a][0] == [b][0];
  }

  lemma NotReadily(h: RtmpHeader, prev: RtmpHeader, step: uint32, message: seq<byte>, chunkSize: nat)
    requires Understood(h, prev) && !Readily(h, prev, step, message, chunkSize)
    ensures chunkSize < |message| && !Steady(h, NextStep(h, prev, step))
  {
  }

  lemma LargestLate(h: RtmpHeader, prev: RtmpHeader, step: uint32)
    requires !Understood(h, prev)
    ensures !InTime(h, prev, step)
  {
  }

  lemma BackLate(h: RtmpHeader, prev: RtmpHeader, step: uint32)
    requires Understood(h, prev) && Steady(prev, step) && !Steady(h, NextStep(h, prev, step))
    ensures !InTime(h, prev, step)
  {
    SteadyExact(h, prev, step);
    hide Wrap32;
  }

  // Whole streams

  /** The divider's output when each message is compared with the one before. */
  function RelativeChunks(messages: seq<Message>, prev: Option<RtmpHeader>, chunkSize: nat): seq<byte>
    requires chunkSize > 0
    decreases |messages|
  {
    if messages == [] then []
    else
      Chunks(messages[0].payload, 0, messages[0].header, prev, chunkSize)
      + RelativeChunks(messages[1..], Some(messages[0].header), chunkSize)
  }

  /** Messages of one stream, each in time after the one before. */
  predicate Related(messages: seq<Message>, prev: RtmpHeader, step: uint32)
    decreases |messages|
  {
    messages == []
    || (var h := messages[0].header;
        Expressible(h, messages[0].payload) && h.csid == prev.csid && Ordinary(h) && InTime(h, prev, step)
        && Related(messages[1..], h, NextStep(h, prev, step)))
  }

  lemma InTimeReads(h: RtmpHeader, prev: RtmpHeader, step: uint32, message: seq<byte>, chunkSize: nat)
    requires InTime(h, prev, step) && Steady(prev, step)
    ensures Readily(h, prev, step, message, chunkSize) && Delivered(h, prev, step) == h
    ensures Steady(h, NextStep(h, prev, step))
  {
    InTimeUnderstood(h, prev, step);
    DeliveredExact(h, prev, step);
    SteadyExact(h, prev, step);
    hide Wrap32, Delivered, NextStep;
  }

  lemma InTimeUnderstood(h: RtmpHeader, prev: RtmpHeader, step: uint32)
    requires InTime(h, prev, step)
    ensures Understood(h, prev)
  {
    hide Wrap32;
  }

  lemma {:induction false} RelativeRun(c: State, messages: seq<Message>, prev: RtmpHeader, step: uint32,
    input: seq<byte>, pos: nat)
    requires Resting(c, prev, step) && Related(messages, prev, step) && c.Sound() && c.peerChunkSize > 0
    requires At(input, pos, RelativeChunks(messages, Some(prev), c.peerChunkSize))
    requires |input| == pos + |RelativeChunks(messages, Some(prev), c.peerChunkSize)|
    ensures Run(c, input, pos) == (AllDelivered(messages), EndOfInput)
    decreases |messages|
  {
    hide *;
    var n := c.peerChunkSize;
    if messages == [] {
      NoMessages(Some(prev), n);
      RunEnds(c, input);
    } else {
      var h, payload, rest := messages[0].header, messages[0].payload, messages[1..];
      RestingParts(c, prev, step);
      FirstRelated(messages, prev, step, n);
      var chunks := Chunks(payload, 0, h, Some(prev), n);
      AtSplit(input, pos, chunks, RelativeChunks(rest, Some(h), n));
      InTimeReads(h, prev, step, payload, n);
      var d := RelativeMessage(c, h, prev, step, payload, input, pos);
      RestsAgain(d, h, NextStep(h, prev, step));
      RelativeRun(d, rest, h, NextStep(h, prev, step), input, pos + |chunks|);
    }
  }

  lemma RestsAgain(d: State, h: RtmpHeader, step: uint32)
    requires d.Sound() && d.peerChunkSize > 0 && !d.absTsFlag && h.csid in d.streams && Ready(d.streams[h.csid])
    requires d.streams[h.csid].header == h && d.streams[h.csid].timestamp == step && Steady(h, step)
    ensures Resting(d, h, step)
  {
    hide Ready, Steady;
  }

  lemma NoMessages(prev: Option<RtmpHeader>, chunkSize: nat)
    requires chunkSize > 0
    ensures RelativeChunks([], prev, chunkSize) == [] && AllDelivered([]) == []
  {
  }

  lemma FirstRelated(messages: seq<Message>, prev: RtmpHeader, step: uint32, chunkSize: nat)
    requires messages != [] && Related(messages, prev, step) && chunkSize > 0
    ensures
      var h, payload := messages[0].header, messages[0].payload;
      Expressible(h, payload) && h.csid == prev.csid && Ordinary(h) && InTime(h, prev, step)
      && Related(messages[1..], h, NextStep(h, prev, step))
      && RelativeChunks(messages, Some(prev), chunkSize)
        == Chunks(payload, 0, h, Some(prev), chunkSize) + RelativeChunks(messages[1..], Some(h), chunkSize)
      && AllDelivered(messages) == [Delivery(h, payload)] + AllDelivered(messages[1..])
  {
    hide Chunks, InTime, NextStep, Expressible, Ordinary;
  }

  /** A first message with its full header leaves its stream at rest. */
  lemma FirstRests(m: Message, chunkSize: uint32, input: seq<byte>) returns (d: State)
    requires Sendable(m.header, m.payload) && chunkSize > 0
    requires At(input, 0, Chunks(m.payload, 0, m.header, None, chunkSize))
    ensures Resting(d, m.header, m.header.timestampAbs) && d.Sound() && d.peerChunkSize == chunkSize
    ensures
      var next := |Chunks(m.payload, 0, m.header, None, chunkSize)|;
      next <= |input|
      && Run(Receiver(chunkSize), input, 0)
        == ([Delivery(m.header, m.payload)] + Run(d, input, next).0, Run(d, input, next).1)
  {
    hide *;
    var h, message, c := m.header, m.payload, Receiver(chunkSize);
    ReceiverNew(chunkSize, h.csid);
    SendableParts(h, message);
    SendableType(h, message);
    var u := WholeMessage(c, 0, h, message, input, 0);
    var e, s := c.(absTsFlag := true), Sending(h, message, |message|);
    CompletedAs(h, u);
    var v := FinishOrdinary(e, s, u, |Chunks(message, 0, h, None, chunkSize)|);
    OrdinaryIs(h);
    SizeStays(u, chunkSize, h);
    var r := Finish(e, h.csid, u, |Chunks(message, 0, h, None, chunkSize)|);
    FinishMoves(e, h.csid, u, |Chunks(message, 0, h, None, chunkSize)|);
    d := r.state;
    OnwardsIs(r, input);
    FirstReady(h.msgLen, u, v);
    FullSteady(h);
    RestsAgain(d, h, h.timestampAbs);
  }

  lemma OrdinaryIs(h: RtmpHeader)
    ensures Ordinary(h) <==> h.msgTypeId != SET_CHUNK_SIZE && h.msgTypeId != AGGREGATE_MESSAGE
  {
  }

  lemma FirstReady(n: int, u: StreamState, v: StreamState)
    requires HasRoom(NEW_STREAM.msg, n, u.msg) && v.msg == u.msg.(b := 0, e := 0) && v.header.msgLen == n
    ensures Ready(v)
  {
    ReserveRoomy(NEW_STREAM.msg, n);
  }

  lemma FullSteady(h: RtmpHeader)
    ensures h.timestampAbs != MAX_TIMESTAMP ==> Steady(h, h.timestampAbs)
  {
  }

  /** Relative headers are undone on whole streams: the first message with its full header, the others with
      what differs, each in any number of chunks, come back with payloads, headers and timestamps. */
  lemma RelativeRoundTrip(messages: seq<Message>, chunkSize: uint32)
    requires chunkSize > 0 && messages != [] && Sendable(messages[0].header, messages[0].payload)
    requires Related(messages[1..], messages[0].header, messages[0].header.timestampAbs)
    ensures Run(Receiver(chunkSize), RelativeChunks(messages, None, chunkSize), 0)
      == (AllDelivered(messages), EndOfInput)
  {
    hide *;
    var m, rest := messages[0], messages[1..];
    var input := RelativeChunks(messages, None, chunkSize);
    FirstOf(messages, chunkSize);
    var chunks := Chunks(m.payload, 0, m.header, None, chunkSize);
    AtSlice(input, 0, input);
    FullSlice(input);
    AtSplit(input, 0, chunks, RelativeChunks(rest, Some(m.header), chunkSize));
    var d := FirstRests(m, chunkSize, input);
    RelativeRun(d, rest, m.header, m.header.timestampAbs, input, |chunks|);
  }

  lemma FirstOf(messages: seq<Message>, chunkSize: nat)
    requires messages != [] && chunkSize > 0
    ensures
      var h, payload := messages[0].header, messages[0].payload;
      RelativeChunks(messages, None, chunkSize)
        == Chunks(payload, 0, h, None, chunkSize) + RelativeChunks(messages[1..], Some(h), chunkSize)
      && AllDelivered(messages) == [Delivery(h, payload)] + AllDelivered(messages[1..])
  {
    hide Chunks;
  }

  // On a new chunk stream

  lemma NewFields(h: RtmpHeader, message: seq<byte>, input: seq<byte>, pos: nat) returns (t: StreamState)
    requires Expressible(h, message) && h.timestampAbs < 0xFF_FFFF && NEW_STREAM.msg.Sound()
    requires At(input, pos, MessageHeader(1, h, h.timestampAbs))
    ensures |MessageHeader(1, h, h.timestampAbs)| == 7 == HeaderSize(1) && pos + 7 <= |input|
    ensures Announce(ReadFields(NEW_STREAM, 1, input, pos), 1) == Some(t) && t.msg.Sound() && ExtendedSize(t) == 0
    ensures t.header == RtmpHeader(0, h.msgLen, h.msgTypeId, 0, 0) && t.timestamp == h.timestampAbs
    ensures Carries(Sending(h, message, 0), t) && !Overlong(t, 0xFFFF_FFFF)
  {
    FieldsOf1(input, pos, h, h.timestampAbs, NEW_STREAM);
    NewFits(h, message);
    hide ReadFields, MessageHeader, Reserve;
    t := Announce(ReadFields(NEW_STREAM, 1, input, pos), 1).value;
  }

  lemma NewFits(h: RtmpHeader, message: seq<byte>)
    requires Expressible(h, message)
    ensures NEW_STREAM.msg.Sound() && NEW_STREAM.msg.b == NEW_STREAM.msg.e == 0 && h.msgLen < 0x100_0000
    ensures Reserve(NEW_STREAM.msg, h.msgLen).Some?
    ensures
      var m := Reserve(NEW_STREAM.msg, h.msgLen).value;
      m.Sound() && m.b == m.e == 0 && |message| < |m.buf|
  {
    assert Roomy(NEW_STREAM);
    ReserveRoomy(NEW_STREAM.msg, h.msgLen);
  }

  /** A message in one chunk with a relative header on a new chunk stream: its timestamp counts from 0, and its stream
      id is 0. */
  lemma FirstRelative(c: State, h: RtmpHeader, message: seq<byte>, input: seq<byte>, pos: nat)
    requires c.Sound() && !c.absTsFlag && h.csid !in c.streams && |message| <= c.peerChunkSize && Ordinary(h)
    requires Expressible(h, message) && h.timestampAbs < 0xFF_FFFF
    requires At(input, pos, BasicHeader(1, h.csid) + MessageHeader(1, h, h.timestampAbs) + message)
    ensures var r := Step(c, input, pos); r.Next? && r.out == [Delivery(h.(msgStreamId := 0), message)]
  {
    hide *;
    var a, b := BasicHeader(1, h.csid), MessageHeader(1, h, h.timestampAbs);
    AtSplit(input, pos, a + b, message);
    AtSplit(input, pos, a, b);
    CsidFits(h, message);
    BasicParses(input, pos, 1, h.csid);
    NewRoomy(c, h.csid);
    var t := NewFields(h, message, input, pos + |a|);
    var q := pos + |a| + |b|;
    NothingExtendedRead(t, 1, input, q);
    ChunkIs(c, Basic(1, h.csid, pos + |a|), NEW_STREAM, input, t);
    StepIs(c, input, pos);
    SameFlag(c);
    ExpressibleParts(h, message);
    WholeInOne(Sending(h, message, 0), t, c.peerChunkSize);
    var u := PayloadFills(c, Sending(h, message, 0), t, input, q);
    OrdinaryIs(h);
    var v := FinishOrdinary(c, Sending(h, message, |message|), u, q + |message|);
    TimestampFrom0(u, h);
  }

  lemma NothingExtendedRead(t: StreamState, fmt: nat, input: seq<byte>, pos: nat)
    requires ExtendedSize(t) == 0 && pos <= |input|
    ensures ReadExtended(t, fmt, input, pos) == t
  {
  }

  lemma WholeInOne(s: Sending, t: StreamState, chunkSize: uint32)
    requires s.i == 0 && |s.message| <= chunkSize && Carries(s, t)
    ensures End(s, chunkSize) == |s.message| && !Overlong(t, chunkSize) && s.message[s.i..|s.message|] == s.message
  {
  }

  lemma TimestampFrom0(u: StreamState, h: RtmpHeader)
    requires u.header == RtmpHeader(0, h.msgLen, h.msgTypeId, 0, 0) && u.timestamp == h.timestampAbs
    ensures RtmpComposer.Completed(u, h.csid, false) == h.(msgStreamId := 0)
  {
  }

  /** A chunk without any header on a new chunk stream is at once an empty message of type 0 at time 0. */
  lemma FirstBare(c: State, csid: int, input: seq<byte>, pos: nat)
    requires c.Sound() && !c.absTsFlag && csid !in c.streams && 2 <= csid <= 65599
    requires At(input, pos, BasicHeader(3, csid)) && pos <= |input|
    ensures var r := Step(c, input, pos); r.Next? && r.out == [Delivery(RtmpHeader(csid, 0, 0, 0, 0), [])]
  {
    hide *;
    var q := pos + |BasicHeader(3, csid)|;
    AtFits(input, pos, BasicHeader(3, csid));
    BasicParses(input, pos, 3, csid);
    NewRoomy(c, csid);
    NothingRead(NEW_STREAM, input, q);
    NewBare();
    NothingExtendedRead(NEW_STREAM, 3, input, q);
    ChunkIs(c, Basic(3, csid, q), NEW_STREAM, input, NEW_STREAM);
    StepIs(c, input, pos);
    SameFlag(c);
    BarePayload(c, csid, input, q);
  }

  lemma NewBare()
    ensures NEW_STREAM.msg.Sound() && ExtendedSize(NEW_STREAM) == 0
  {
  }

  lemma BarePayload(c: State, csid: int, input: seq<byte>, pos: nat)
    requires c.Sound() && !c.absTsFlag && NEW_STREAM.msg.Sound() && pos <= |input|
    ensures
      var r := Payload(c, csid, NEW_STREAM, input, pos);
      r.Next? && r.out == [Delivery(RtmpHeader(csid, 0, 0, 0, 0), [])]
  {
    hide SoundStreams, Split;
  }
}
