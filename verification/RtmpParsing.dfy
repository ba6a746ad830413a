/** Each part of a chunk header is read back as it was written. */
module RtmpParsing {
  import opened Bytes
  import opened RtmpDivider
  import opened RtmpComposer
  import opened Wire
  import opened RtmpBuffers

  /** What both chunk headers can express: the chunk stream ids of the three basic headers, a
      length of 24 bits and a stream id of 32. */
  predicate Expressible(h: RtmpHeader, message: seq<byte>) {
    2 <= h.csid <= 65599 && 0 < |message| == h.msgLen < 0x100_0000 && 0 <= h.msgStreamId < 0x1_0000_0000
  }

  /** What the divider and the composer read alike: every timestamp but the one that means "extended"
      to the composer and not to the divider. */
  predicate Readable(h: RtmpHeader, message: seq<byte>) {
    Expressible(h, message) && h.timestampAbs != 0xFF_FFFF
  }

  /** Of these, every type that the composer does not act upon. */
  predicate Sendable(h: RtmpHeader, message: seq<byte>) {
    Readable(h, message) && h.msgTypeId != 1 && h.msgTypeId != 22
  }

  lemma BasicParses(input: seq<byte>, pos: nat, fmt: nat, csid: int)
    requires fmt <= 3 && 2 <= csid <= 65599 && At(input, pos, BasicHeader(fmt, csid))
    ensures ReadBasic(input, pos) == Some(Basic(fmt, csid, pos + |BasicHeader(fmt, csid)|))
  {
    var b := BasicHeader(fmt, csid);
    assert input[pos + 0] == b[0];
    if csid >= 64 {
      assert input[pos + 1] == b[1];
      if csid >= 320 {
        assert input[pos + 2] == b[2];
      }
    }
  }

  lemma FieldsParse(input: seq<byte>, pos: nat, h: RtmpHeader, ts: uint32, s: StreamState)
    requires At(input, pos, MessageHeader(0, h, ts)) && h.msgLen < 0x100_0000 && 0 <= h.msgStreamId < 0x1_0000_0000
    ensures |MessageHeader(0, h, ts)| == 11 == HeaderSize(0) && pos + 11 <= |input|
    ensures ReadFields(s, 0, input, pos)
      == s.(header := h.(csid := s.header.csid, timestampAbs := Clip24(ts)), timestamp := Clip24(ts))
  {
    hide *;
    var a, b, c := BePut24(Clip24(ts)), BePut24(h.msgLen), [h.msgTypeId];
    var d := LePut32(Wrap32(h.msgStreamId));
    FullFields(h, ts);
    AtSplit(input, pos, a + (b + c), d);
    AtSplit(input, pos, a, b + c);
    AtSplit(input, pos + 3, b, c);
    At24(input, pos, Clip24(ts));
    At24(input, pos + 3, h.msgLen);
    AtByte(input, pos + 6, h.msgTypeId);
    AtLe32(input, pos + 7, Wrap32(h.msgStreamId));
    FieldsAre(input, pos, h, ts, s);
  }

  lemma FullFields(h: RtmpHeader, ts: uint32)
    requires h.msgLen < 0x100_0000 && 0 <= h.msgStreamId < 0x1_0000_0000
    ensures Wrap32(h.msgStreamId) == h.msgStreamId
    ensures MessageHeader(0, h, ts)
      == BePut24(Clip24(ts)) + (BePut24(h.msgLen) + [h.msgTypeId]) + LePut32(Wrap32(h.msgStreamId))
    ensures |MessageHeader(0, h, ts)| == 11 == HeaderSize(0)
  {
    hide BePut24, LePut32, Clip24;
  }

  lemma FieldsAre(input: seq<byte>, pos: nat, h: RtmpHeader, ts: uint32, s: StreamState)
    requires pos + 11 <= |input| && Be24At(input, pos) == Clip24(ts) && Be24At(input, pos + 3) == h.msgLen
    requires input[pos + 6] == h.msgTypeId && Le32At(input, pos + 7) == h.msgStreamId
    ensures HeaderSize(0) == 11
    ensures ReadFields(s, 0, input, pos)
      == s.(header := h.(csid := s.header.csid, timestampAbs := Clip24(ts)), timestamp := Clip24(ts))
  {
    hide Be24At, Le32At, Clip24;
  }

  /** An extended timestamp that the divider wrote is the one that the composer looks for. */
  lemma ExtendedParses(input: seq<byte>, pos: nat, ts: uint32, s: StreamState, fmt: nat)
    requires ts != MAX_TIMESTAMP && At(input, pos, Extended(ts)) && (fmt == 0 || fmt == 3)
    requires s.timestamp == if fmt == 0 then Clip24(ts) else ts
    requires s.header.timestampAbs == s.timestamp
    ensures |Extended(ts)| == ExtendedSize(s) && pos + ExtendedSize(s) <= |input|
    ensures ReadExtended(s, fmt, input, pos) == s.(header := s.header.(timestampAbs := ts), timestamp := ts)
  {
    if ts > MAX_TIMESTAMP {
      At32(input, pos, ts);
    }
  }

  /** A chunk that starts a message, on any stream with space for it: what stands before its payload. */
  lemma FirstChunk(c: State, s: StreamState, h: RtmpHeader, message: seq<byte>, input: seq<byte>, pos: nat)
    returns (u: StreamState)
    requires Expressible(h, message) && h.timestampAbs != MAX_TIMESTAMP && c.Sound() && s.msg.Sound()
    requires h.msgLen < 0x100_0000 && Reserve(s.msg, h.msgLen).Some? && At(input, pos, CalcHeader(h, None))
    ensures
      var basic := ReadBasic(input, pos);
      var q := pos + |CalcHeader(h, None)|;
      basic.Some? && basic.value.csid == h.csid && q <= |input| && u.msg.Sound()
      && Chunk(c, basic.value, s, input) == Payload(c.(absTsFlag := true), h.csid, u, input, q)
    ensures u.header == h.(csid := u.header.csid) && u.timestamp == h.timestampAbs
    ensures Some(u.msg) == Reserve(s.msg, h.msgLen)
  {
    hide *;
    var ts := h.timestampAbs;
    var a, b, e := BasicHeader(0, h.csid), MessageHeader(0, h, ts), Extended(ts);
    FullHeader(h);
    AtSplit(input, pos, a + b, e);
    AtSplit(input, pos, a, b);
    CsidFits(h, message);
    BasicParses(input, pos, 0, h.csid);
    var p := pos + |a|;
    var t := FieldsAnnounced(h, message, s, input, p);
    ExtendedParses(input, p + |b|, ts, t, 0);
    u := ReadExtended(t, 0, input, p + |b|);
    assert p + |b| + |e| == pos + |a + b + e|;
    ChunkIs(c, Basic(0, h.csid, p), s, input, t);
  }

  /** On a stream that is roomy and idle, the space is found and covers the message. */
  lemma IdleReserves(s: StreamState, n: uint24)
    requires Roomy(s) && s.msg.e == 0
    ensures s.msg.Sound() && Reserve(s.msg, n).Some?
  {
    ReserveRoomy(s.msg, n);
  }

  lemma ReservedAnnounced(s: StreamState, u: StreamState)
    requires Roomy(s) && s.msg.e == 0 && s.msg.Sound() && u.header.msgLen < 0x100_0000
    requires Some(u.msg) == Reserve(s.msg, u.header.msgLen)
    ensures u.msg.b == 0 && u.msg.e == 0 && Announced(u, 0)
  {
    ReserveRoomy(s.msg, u.header.msgLen);
  }

  lemma FullHeader(h: RtmpHeader)
    ensures
      var ts := h.timestampAbs;
      CalcHeader(h, None) == BasicHeader(0, h.csid) + MessageHeader(0, h, ts) + Extended(ts)
  {
    hide BasicHeader, MessageHeader, Extended;
  }

  /** The message header, and the room it asks for. */
  lemma FieldsAnnounced(h: RtmpHeader, message: seq<byte>, s: StreamState, input: seq<byte>, p: nat)
    returns (t: StreamState)
    requires Expressible(h, message) && s.msg.Sound() && h.msgLen < 0x100_0000 && Reserve(s.msg, h.msgLen).Some?
    requires At(input, p, MessageHeader(0, h, h.timestampAbs))
    ensures |MessageHeader(0, h, h.timestampAbs)| == 11 == HeaderSize(0) && p + 11 <= |input|
    ensures Announce(ReadFields(s, 0, input, p), 0) == Some(t) && t.msg.Sound()
    ensures t.header == h.(csid := t.header.csid, timestampAbs := t.timestamp)
    ensures t.timestamp == Clip24(h.timestampAbs) && Some(t.msg) == Reserve(s.msg, h.msgLen)
  {
    FieldsParse(input, p, h, h.timestampAbs, s);
    hide ReadFields, MessageHeader, Clip24, Reserve;
    t := Announce(ReadFields(s, 0, input, p), 0).value;
  }

  lemma ChunkIs(c: State, basic: Basic, s: StreamState, input: seq<byte>, t: StreamState)
    requires c.Sound() && s.msg.Sound() && t.msg.Sound() && basic.next + HeaderSize(basic.fmt) <= |input|
    requires Announce(ReadFields(s, basic.fmt, input, basic.next), basic.fmt) == Some(t)
    requires basic.next + HeaderSize(basic.fmt) + ExtendedSize(t) <= |input|
    ensures
      var q := basic.next + HeaderSize(basic.fmt);
      var u := ReadExtended(t, basic.fmt, input, q);
      u.msg.Sound()
      && Chunk(c, basic, s, input)
        == Payload(c.(absTsFlag := c.absTsFlag || basic.fmt == 0), basic.csid, u, input, q + ExtendedSize(t))
  {
    hide Payload, ReadFields, Announce, ReadExtended;
  }

  /** The header of a chunk that repeats the previous one. */
  lemma RepeatedHeader(h: RtmpHeader)
    ensures CalcHeader(h, Some(h)) == BasicHeader(3, h.csid) + Extended(h.timestampAbs)
  {
    var ts := ChunkTimestamp(h, Some(h));
    assert ChunkFmt(h, Some(h)) == 3 && Extended(ts) == Extended(h.timestampAbs);
    var none := MessageHeader(3, h, ts);
    assert none == [] && BasicHeader(3, h.csid) + none == BasicHeader(3, h.csid);
  }

  /** The stream looks for an extended timestamp in the chunks that continue a message exactly when the
      divider writes one, and for the one that it knows already. */
  predicate Steady(h: RtmpHeader, timestamp: uint32) {
    if h.timestampAbs > MAX_TIMESTAMP then timestamp == h.timestampAbs else timestamp < MAX_TIMESTAMP
  }

  lemma ExtendedStays(input: seq<byte>, pos: nat, h: RtmpHeader, s: StreamState)
    requires Steady(h, s.timestamp) && At(input, pos, Extended(h.timestampAbs))
    ensures |Extended(h.timestampAbs)| == ExtendedSize(s) && pos + ExtendedSize(s) <= |input|
    ensures ReadExtended(s, 3, input, pos) == s
  {
    if h.timestampAbs > MAX_TIMESTAMP {
      At32(input, pos, h.timestampAbs);
    }
  }

  /** A chunk that continues one: its stream is left as it is. */
  lemma NextChunk(c: State, s: StreamState, h: RtmpHeader, message: seq<byte>, input: seq<byte>, pos: nat)
    requires Expressible(h, message) && Steady(h, s.timestamp) && c.Sound() && s.msg.Sound()
    requires At(input, pos, CalcHeader(h, Some(h)))
    ensures
      var basic := ReadBasic(input, pos);
      var q := pos + |CalcHeader(h, Some(h))|;
      basic.Some? && basic.value.csid == h.csid && q <= |input|
      && Chunk(c, basic.value, s, input) == Payload(c, h.csid, s, input, q)
  {
    hide *;
    var a, e := BasicHeader(3, h.csid), Extended(h.timestampAbs);
    RepeatedHeader(h);
    AtSplit(input, pos, a, e);
    CsidFits(h, message);
    BasicParses(input, pos, 3, h.csid);
    ExtendedStays(input, pos + |a|, h, s);
    NothingRead(s, input, pos + |a|);
    ChunkIs(c, Basic(3, h.csid, pos + |a|), s, input, s);
    SameFlag(c);
  }

  lemma CsidFits(h: RtmpHeader, message: seq<byte>)
    requires Expressible(h, message)
    ensures 2 <= h.csid <= 65599
  {
  }

  lemma NothingRead(s: StreamState, input: seq<byte>, pos: nat)
    requires s.msg.Sound()
    ensures HeaderSize(3) == 0
    ensures pos <= |input| ==> Announce(ReadFields(s, 3, input, pos), 3) == Some(s)
  {
  }

  lemma SameFlag(c: State)
    ensures c.(absTsFlag := c.absTsFlag) == c
  {
  }
}
