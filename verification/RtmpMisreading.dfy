/** A message whose timestamp is exactly 0xFFFFFF: the divider writes no extended timestamp, the composer
    takes four payload bytes for one. Counting bytes, it never finds the whole message. */
module RtmpMisreading {
  import opened Bytes
  import opened RtmpDivider
  import opened RtmpComposer
  import opened Wire
  import opened RtmpBuffers
  import opened RtmpParsing
  import opened RtmpInterleaving

  /** The header bytes that the divider still writes when `i` of `length` bytes are out. */
  function Headers(csid: int, length: nat, i: nat, chunkSize: nat): nat
    requires chunkSize > 0
    decreases length - i
  {
    if i >= length then 0 else |BasicHeader(3, csid)| + Headers(csid, length, i + chunkSize, chunkSize)
  }

  lemma HeadersStep(csid: int, length: nat, i: nat, chunkSize: nat)
    requires chunkSize > 0
    ensures Headers(csid, length, i, chunkSize)
      <= |BasicHeader(3, csid)| + Headers(csid, length, i + chunkSize, chunkSize)
  {
    hide BasicHeader;
  }

  lemma HeadersEnd(csid: int, length: nat, i: nat, chunkSize: nat)
    requires chunkSize > 0 && i >= length
    ensures Headers(csid, length, i, chunkSize) == 0
  {
  }

  lemma {:induction false} ChunksLength(h: RtmpHeader, message: seq<byte>, i: nat, chunkSize: nat)
    requires chunkSize > 0 && i <= |message| && h.timestampAbs <= MAX_TIMESTAMP
    ensures |Chunks(message, i, h, Some(h), chunkSize)|
      == |message| - i + Headers(h.csid, |message|, i, chunkSize)
    decreases |message| - i
  {
    if i < |message| {
      hide CalcHeader, BasicHeader;
      var end := if i + chunkSize < |message| then i + chunkSize else |message|;
      ChunksLength(h, message, end, chunkSize);
      ShortHeader(h);
      if end == |message| {
        HeadersEnd(h.csid, |message|, end, chunkSize);
        HeadersEnd(h.csid, |message|, i + chunkSize, chunkSize);
      }
    }
  }

  /** No extended timestamp is written up to 0xFFFFFF. */
  lemma ShortHeader(h: RtmpHeader)
    requires h.timestampAbs <= MAX_TIMESTAMP
    ensures |CalcHeader(h, Some(h))| == |BasicHeader(3, h.csid)|
  {
    hide BasicHeader;
    RepeatedHeader(h);
  }

  /** No basic header of a chunk stream is shorter than the divider's. */
  lemma ShortestBasic(input: seq<byte>, pos: nat)
    requires ReadBasic(input, pos).Some?
    ensures
      var basic := ReadBasic(input, pos).value;
      2 <= basic.csid <= 65599 && pos + |BasicHeader(3, basic.csid)| <= basic.next <= |input|
  {
  }

  /** The composer has `e` bytes of the message, in no more chunks than it takes to send `i`, and of the
      bytes it still needs and their headers at least four are not among the `left` ones. */
  predicate Lacks(e: nat, csid: int, length: nat, i: nat, chunkSize: nat, left: int)
    requires chunkSize > 0
  {
    e <= i && left + 4 + e <= length + Headers(csid, length, i, chunkSize)
  }

  lemma LacksOn(e: nat, n: nat, csid: int, length: nat, i: nat, chunkSize: nat, left: int, after: int)
    requires chunkSize > 0 && Lacks(e, csid, length, i, chunkSize, left) && n <= chunkSize
    requires after + n + |BasicHeader(3, csid)| <= left
    ensures Lacks(e + n, csid, length, i + chunkSize, chunkSize, after)
  {
    hide BasicHeader, Headers;
    HeadersStep(csid, length, i, chunkSize);
  }

  lemma LacksShort(e: nat, csid: int, length: nat, i: nat, chunkSize: nat, left: nat)
    requires chunkSize > 0 && Lacks(e, csid, length, i, chunkSize, left)
    ensures e < length
  {
    hide Headers;
    if i >= length {
      HeadersEnd(csid, length, i, chunkSize);
    }
  }

  predicate Behind(c: State, csid: int, length: nat, i: nat, left: nat) {
    c.Sound() && c.peerChunkSize > 0 && csid in c.streams && c.streams[csid].msg.b == 0
    && Lacks(c.streams[csid].msg.e, csid, length, i, c.peerChunkSize, left)
  }

  /** The first delivery is not the message: if it is from `csid` it is shorter. */
  predicate Short(out: seq<Delivery>, csid: int, length: nat) {
    out != [] && (out[0].header.csid == csid ==> |out[0].payload| < length)
  }

  // One chunk, on any state

  lemma SplitFirst(buf: seq<byte>, b: nat, e: nat, header: RtmpHeader)
    requires b <= e <= |buf|
    ensures
      var r := Split(buf, b, e, header, None);
      if r.0 == [] then !r.1 || b == e
      else r.0[0].header.csid == header.csid && |r.0[0].payload| < e - b
  {
    hide SubTimestamp, Be24At;
  }

  /** What a stream hands on is no longer than what it holds. */
  lemma HandOnFirst(s: StreamState, csid: int, absTsFlag: bool)
    requires s.msg.Sound()
    ensures
      var r := HandOn(s, csid, absTsFlag);
      if r.out == [] then
        s.header.msgTypeId == AGGREGATE_MESSAGE && (r.ok ==> s.msg.b == s.msg.e && r.stream.msg == s.msg)
      else
        r.out[0].header.csid == csid && |r.out[0].payload| <= s.msg.e
        && (s.header.msgTypeId == AGGREGATE_MESSAGE ==> |r.out[0].payload| < s.msg.e)
  {
    hide Split;
    SplitFirst(s.msg.buf, s.msg.b, s.msg.e, Completed(s, csid, absTsFlag));
  }

  /** A chunk on `csid` that hands on nothing leaves everything else as it is. */
  predicate Quiet(c: State, csid: int, m: Msg, d: State) {
    d.peerChunkSize == c.peerChunkSize && csid in d.streams && d.streams == c.streams[csid := d.streams[csid]]
    && d.streams[csid].msg == m
  }

  /** A chunk on `csid` puts the buffer `m` in place of the stream's, or hands on part of it. */
  predicate Takes(c: State, csid: int, m: Msg, next: nat, r: Outcome) {
    if r.out == [] then r.Stop? || (r.pos == next && Quiet(c, csid, m, r.state))
    else r.out[0].header.csid == csid && |r.out[0].payload| <= m.e && (r.Next? ==> r.pos == next)
  }

  lemma FinishTakes(c: State, csid: int, s: StreamState, pos: nat)
    requires c.Sound() && s.msg.Sound()
    ensures Takes(c, csid, s.msg, pos, Finish(c, csid, s, pos))
  {
    hide HandOn;
    HandOnFirst(s, csid, c.absTsFlag);
  }

  lemma PayloadStops(c: State, csid: int, s: StreamState, input: seq<byte>, pos: nat)
    requires c.Sound() && s.msg.Sound() && pos <= |input|
    ensures
      var n := NeededSize(s, c.peerChunkSize);
      s.msg.e + n > |s.msg.buf| || pos + n > |input| ==>
        Payload(c, csid, s, input, pos).Stop? && Payload(c, csid, s, input, pos).out == []
  {
    hide Finish, NeededSize;
  }

  /** The payload: at most a chunk size of bytes. */
  lemma PayloadTakes(c: State, csid: int, s: StreamState, input: seq<byte>, pos: nat) returns (m: Msg)
    requires c.Sound() && s.msg.Sound() && pos <= |input|
    ensures m.b == s.msg.b && s.msg.e <= m.e <= s.msg.e + c.peerChunkSize
    ensures
      var r, next := Payload(c, csid, s, input, pos), pos + m.e - s.msg.e;
      next <= |input| && Takes(c, csid, m, next, r)
  {
    hide *;
    var n := NeededSize(s, c.peerChunkSize);
    m := s.msg;
    if s.msg.e + n <= |s.msg.buf| && pos + n <= |input| {
      m := Fill(s.msg, input[pos..pos + n]);
      FilledSound(s, m);
      PayloadIs(c, csid, s, input, pos);
      FinishTakes(c, csid, s.(msg := m), pos + n);
    } else {
      PayloadStops(c, csid, s, input, pos);
      StopTakes(c, csid, m, pos, Payload(c, csid, s, input, pos));
    }
  }

  lemma FilledSound(s: StreamState, m: Msg)
    requires m.Sound()
    ensures s.(msg := m).msg.Sound()
  {
  }

  lemma StopTakes(c: State, csid: int, m: Msg, next: nat, r: Outcome)
    requires r.Stop? && r.out == []
    ensures Takes(c, csid, m, next, r)
  {
  }

  lemma SameTakes(c: State, d: State, csid: int, m: Msg, next: nat, r: Outcome)
    requires Takes(d, csid, m, next, r) && d.streams == c.streams && d.peerChunkSize == c.peerChunkSize
    ensures Takes(c, csid, m, next, r)
  {
  }

  lemma ChunkTakes(c: State, basic: Basic, s: StreamState, input: seq<byte>) returns (m: Msg, next: nat)
    requires c.Sound() && s.msg.Sound() && basic.next <= |input|
    ensures m.b == s.msg.b && s.msg.e <= m.e <= s.msg.e + c.peerChunkSize
    ensures basic.next + m.e - s.msg.e <= next <= |input|
    ensures Takes(c, basic.csid, m, next, Chunk(c, basic, s, input))
  {
    hide ReadFields, Announce, ReadExtended, Payload, Takes;
    var fmt, p := basic.fmt, basic.next;
    var q := p + HeaderSize(fmt);
    m, next := s.msg, p;
    StopTakes(c, basic.csid, m, p, Stop([], EndOfInput));
    StopTakes(c, basic.csid, m, p, Stop([], Broken));
    if q <= |input| {
      var t := Announce(ReadFields(s, fmt, input, p), fmt);
      if t.Some? && q + ExtendedSize(t.value) <= |input| {
        var d, u := c.(absTsFlag := c.absTsFlag || fmt == 0), ReadExtended(t.value, fmt, input, q);
        m := PayloadTakes(d, basic.csid, u, input, q + ExtendedSize(t.value));
        next := q + ExtendedSize(t.value) + m.e - s.msg.e;
        SameTakes(c, d, basic.csid, m, next, Chunk(c, basic, s, input));
      }
    }
  }

  // The rest of the run

  /** A chunk on the stream itself. */
  lemma OwnBehind(c: State, csid: int, m: Msg, next: nat, length: nat, i: nat, left: nat, after: nat, r: Outcome)
    requires Behind(c, csid, length, i, left) && Takes(c, csid, m, next, r) && (r.Next? ==> r.state.Sound())
    requires m.b == 0 && c.streams[csid].msg.e <= m.e <= c.streams[csid].msg.e + c.peerChunkSize
    requires after + (m.e - c.streams[csid].msg.e) + |BasicHeader(3, csid)| <= left
    ensures
      if r.out == [] then r.Next? ==> r.pos == next && Behind(r.state, csid, length, i + c.peerChunkSize, after)
      else Short(r.out, csid, length)
  {
    hide Lacks, BasicHeader, SoundStreams;
    var e, n := c.streams[csid].msg.e, c.peerChunkSize;
    LacksOn(e, m.e - e, csid, length, i, n, left, after);
    LacksShort(m.e, csid, length, i + n, n, after);
  }

  /** A chunk on another stream. */
  lemma OtherBehind(c: State, csid: int, other: int, m: Msg, next: nat, length: nat, i: nat, left: nat, after: nat,
    r: Outcome)
    requires Behind(c, csid, length, i, left) && Takes(c, other, m, next, r) && (r.Next? ==> r.state.Sound())
    requires other != csid && after <= left
    ensures
      if r.out == [] then r.Next? ==> r.pos == next && Behind(r.state, csid, length, i, after)
      else Short(r.out, csid, length)
  {
    hide Headers, SoundStreams;
  }

  lemma BehindStream(c: State, csid: int, length: nat, i: nat, left: nat)
    requires Behind(c, csid, length, i, left)
    ensures c.Sound() && csid in c.streams && c.GetOrCreateStream(csid) == c.streams[csid]
    ensures c.streams[csid].msg.b == 0
  {
  }

  lemma NoStep(c: State, input: seq<byte>, pos: nat)
    requires c.Sound() && ReadBasic(input, pos).None?
    ensures Step(c, input, pos) == Stop([], EndOfInput)
  {
  }

  lemma StepMoves(c: State, input: seq<byte>, pos: nat)
    requires c.Sound() && Step(c, input, pos).Next?
    ensures var r := Step(c, input, pos); r.state.Sound() && pos < r.pos <= |input|
  {
    hide Step;
  }

  /** One chunk, on this or another chunk stream: the four bytes stay missing. */
  lemma StepBehind(c: State, csid: int, length: nat, i: nat, input: seq<byte>, pos: nat) returns (j: nat)
    requires pos <= |input| && Behind(c, csid, length, i, |input| - pos)
    ensures c.Sound()
    ensures
      var r := Step(c, input, pos);
      if r.out == [] then r.Next? ==> pos < r.pos <= |input| && Behind(r.state, csid, length, j, |input| - r.pos)
      else Short(r.out, csid, length)
  {
    hide *;
    j := i;
    BehindStream(c, csid, length, i, |input| - pos);
    if ReadBasic(input, pos).None? {
      NoStep(c, input, pos);
    } else {
      var basic := ReadBasic(input, pos).value;
      StepIs(c, input, pos);
      ShortestBasic(input, pos);
      var m, next := ChunkTakes(c, basic, c.GetOrCreateStream(basic.csid), input);
      var r := Step(c, input, pos);
      if r.Next? {
        StepMoves(c, input, pos);
      }
      if basic.csid == csid {
        j := i + c.peerChunkSize;
        OwnBehind(c, csid, m, next, length, i, |input| - pos, |input| - next, r);
      } else {
        OtherBehind(c, csid, basic.csid, m, next, length, i, |input| - pos, |input| - next, r);
      }
    }
  }

  /** From a state that lacks four bytes, the first delivery is never the whole message. */
  lemma {:induction false} NeverWhole(c: State, csid: int, length: nat, i: nat, input: seq<byte>, pos: nat)
    requires pos <= |input| && Behind(c, csid, length, i, |input| - pos)
    ensures c.Sound() && (Run(c, input, pos).0 == [] || Short(Run(c, input, pos).0, csid, length))
    decreases |input| - pos
  {
    hide *;
    var j := StepBehind(c, csid, length, i, input, pos);
    var r := Step(c, input, pos);
    if r.Stop? {
      RunStops(c, input, pos);
    } else {
      RunStep(c, input, pos);
      if r.out == [] {
        NothingFirst(r.out, Run(r.state, input, r.pos).0);
        NeverWhole(r.state, csid, length, j, input, r.pos);
      } else {
        ShortFirst(r.out, Run(r.state, input, r.pos).0, csid, length);
      }
    }
  }

  lemma NothingFirst(a: seq<Delivery>, b: seq<Delivery>)
    requires a == []
    ensures a + b == b
  {
  }

  lemma RunStops(c: State, input: seq<byte>, pos: nat)
    requires c.Sound() && pos <= |input| && Step(c, input, pos).Stop?
    ensures Run(c, input, pos) == (Step(c, input, pos).out, Step(c, input, pos).why)
  {
    hide Step;
  }

  lemma ShortFirst(a: seq<Delivery>, b: seq<Delivery>, csid: int, length: nat)
    requires Short(a, csid, length)
    ensures Short(a + b, csid, length)
  {
  }

  // The first chunk

  lemma NothingExtended(s: seq<byte>)
    ensures s + Extended(MAX_TIMESTAMP) == s
  {
  }

  lemma NewRoomy(c: State, csid: int)
    requires c.Sound() && csid !in c.streams
    ensures c.GetOrCreateStream(csid) == NEW_STREAM && Roomy(NEW_STREAM) && NEW_STREAM.msg.Sound()
    ensures NEW_STREAM.msg.b == 0 && NEW_STREAM.msg.e == 0
  {
  }

  lemma ExpressibleParts(h: RtmpHeader, message: seq<byte>)
    requires Expressible(h, message)
    ensures 0 < |message| == h.msgLen < 0x100_0000 && 0 <= h.msgStreamId < 0x1_0000_0000
    ensures Clip24(MAX_TIMESTAMP) == MAX_TIMESTAMP
  {
  }

  lemma ExtendedFollows(s: StreamState)
    requires s.timestamp == MAX_TIMESTAMP
    ensures ExtendedSize(s) == 4
  {
  }

  lemma ChunkStops(c: State, basic: Basic, s: StreamState, input: seq<byte>, t: StreamState)
    requires c.Sound() && s.msg.Sound() && basic.next + HeaderSize(basic.fmt) <= |input|
    requires Announce(ReadFields(s, basic.fmt, input, basic.next), basic.fmt) == Some(t)
    requires basic.next + HeaderSize(basic.fmt) + ExtendedSize(t) > |input|
    ensures Chunk(c, basic, s, input) == Stop([], EndOfInput)
  {
    hide ReadFields, Announce;
  }

  /** The composer behind the message header: it takes the next four bytes for a timestamp. */
  lemma HeaderTaken(c: State, h: RtmpHeader, message: seq<byte>, input: seq<byte>) returns (t: StreamState)
    requires c.Sound() && h.csid !in c.streams && Expressible(h, message) && h.timestampAbs == MAX_TIMESTAMP
    requires At(input, 0, CalcHeader(h, None))
    ensures t.msg.Sound() && t.msg.b == 0 && t.msg.e == 0
    ensures
      var p := |CalcHeader(h, None)|;
      Step(c, input, 0)
        == if p + 4 > |input| then Stop([], EndOfInput)
           else Payload(c.(absTsFlag := c.absTsFlag || 0 == 0), h.csid, t, input, p + 4)
  {
    hide *;
    var a, b := BasicHeader(0, h.csid), MessageHeader(0, h, MAX_TIMESTAMP);
    FullHeader(h);
    NothingExtended(a + b);
    AtSplit(input, 0, a, b);
    CsidFits(h, message);
    BasicParses(input, 0, 0, h.csid);
    NewRoomy(c, h.csid);
    ExpressibleParts(h, message);
    FieldsParse(input, |a|, h, MAX_TIMESTAMP, NEW_STREAM);
    AnnounceRoomy(NEW_STREAM, 0, input, |a|);
    var s := Announce(ReadFields(NEW_STREAM, 0, input, |a|), 0).value;
    ExtendedFollows(s);
    StepIs(c, input, 0);
    t := s;
    if |a| + 11 + 4 <= |input| {
      t := ReadExtended(s, 0, input, |a| + 11);
      ChunkIs(c, Basic(0, h.csid, |a|), NEW_STREAM, input, s);
    } else {
      ChunkStops(c, Basic(0, h.csid, |a|), NEW_STREAM, input, s);
    }
  }

  lemma FirstLength(h: RtmpHeader, message: seq<byte>, prev: Option<RtmpHeader>, chunkSize: nat)
    requires chunkSize > 0 && 0 < |message| && h.timestampAbs <= MAX_TIMESTAMP
    ensures
      var chunks, head := Chunks(message, 0, h, prev, chunkSize), CalcHeader(h, prev);
      |chunks| == |head| + |message| + Headers(h.csid, |message|, chunkSize, chunkSize) && At(chunks, 0, head)
  {
    hide CalcHeader, BasicHeader, Headers;
    var end := if chunkSize < |message| then chunkSize else |message|;
    ChunksLength(h, message, end, chunkSize);
    if end == |message| {
      HeadersEnd(h.csid, |message|, end, chunkSize);
      HeadersEnd(h.csid, |message|, chunkSize, chunkSize);
    }
  }

  /** A chunk whose payload the composer looks for four bytes too late, when it has at most as much of the
      message as the divider has written: what comes out first, if anything, is not the message. */
  lemma MisreadFrom(c: State, d: State, csid: int, t: StreamState, i: nat, length: nat, input: seq<byte>,
    pos: nat, p: nat)
    requires c.Sound() && d.Sound() && d.peerChunkSize > 0 && pos <= |input| && p <= |input|
    requires t.msg.Sound() && t.msg.b == 0 && t.msg.e + d.peerChunkSize <= i
    requires Step(c, input, pos) == Payload(d, csid, t, input, p)
    requires |input| - p + 4 + t.msg.e <= length + Headers(csid, length, i, d.peerChunkSize)
    ensures var out := Run(c, input, pos).0; out == [] || Short(out, csid, length)
  {
    hide *;
    var r := Step(c, input, pos);
    var m := PayloadTakes(d, csid, t, input, p);
    var next := p + m.e - t.msg.e;
    if r.Next? {
      StepMoves(c, input, pos);
      RunStep(c, input, pos);
    } else {
      RunStops(c, input, pos);
    }
    FirstBehind(d, csid, m, next, length, i, |input| - next, r);
    if r.out != [] && r.Next? {
      ShortFirst(r.out, Run(r.state, input, r.pos).0, csid, length);
    } else if r.Next? {
      NothingFirst(r.out, Run(r.state, input, r.pos).0);
      NeverWhole(r.state, csid, length, i, input, r.pos);
    }
  }

  lemma FirstBehind(c: State, csid: int, m: Msg, next: nat, length: nat, i: nat, left: nat, r: Outcome)
    requires c.peerChunkSize > 0 && Takes(c, csid, m, next, r) && (r.Next? ==> r.state.Sound())
    requires m.b == 0 && m.e <= i && left + 4 + m.e <= length + Headers(csid, length, i, c.peerChunkSize)
    ensures
      if r.out == [] then r.Next? ==> r.pos == next && Behind(r.state, csid, length, i, left)
      else Short(r.out, csid, length)
  {
    hide Headers, SoundStreams;
    LacksShort(m.e, csid, length, i, c.peerChunkSize, left);
  }

  /** A message of any length with this timestamp, under a full header. */
  lemma Misread(c: State, h: RtmpHeader, message: seq<byte>)
    requires c.Sound() && c.peerChunkSize > 0 && h.csid !in c.streams
    requires Expressible(h, message) && h.timestampAbs == MAX_TIMESTAMP
    ensures
      var out := Run(c, Chunks(message, 0, h, None, c.peerChunkSize), 0).0;
      out == [] || Short(out, h.csid, |message|)
  {
    hide *;
    var n, csid, length := c.peerChunkSize, h.csid, |message|;
    var input := Chunks(message, 0, h, None, n);
    var p := |CalcHeader(h, None)|;
    ExpressibleParts(h, message);
    FirstLength(h, message, None, n);
    var t := HeaderTaken(c, h, message, input);
    if p + 4 > |input| {
      RunStops(c, input, 0);
    } else {
      FlagSound(c);
      MisreadFrom(c, c.(absTsFlag := true), csid, t, n, length, input, 0, p + 4);
    }
  }

  lemma FlagSound(c: State)
    requires c.Sound()
    ensures c.(absTsFlag := true).Sound()
  {
  }
}
