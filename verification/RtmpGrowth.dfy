/** The input that breaks the composer: the chunk size grows while a message is in progress. */
module RtmpGrowth {
  import opened Bytes
  import opened RtmpDivider
  import opened RtmpComposer
  import opened Wire
  import opened RtmpBuffers
  import opened RtmpParsing

  const VIDEO := RtmpHeader(4, 4095, 9, 1, 0)
  const RESIZE := RtmpHeader(2, 4, SET_CHUNK_SIZE, 0, 0)

  /** 128 of 4095 bytes, then a message that sets the chunk size to 4096, then the start of a chunk
      that continues the first message. */
  function Growing(): seq<byte> {
    CalcHeader(VIDEO, None) + Zeros(128) + (CalcHeader(RESIZE, None) + BePut32(4096)) + [0xC4]
  }

  /** A first chunk on a new stream. */
  lemma Opens(c: State, h: RtmpHeader, message: seq<byte>, input: seq<byte>, pos: nat) returns (u: StreamState)
    requires c.Sound() && h.csid !in c.streams && Expressible(h, message) && h.timestampAbs == 0
    requires h.msgLen < INIT_MSG_LEN && At(input, pos, CalcHeader(h, None))
    ensures u.msg == NEW_STREAM.msg && u.header == h.(csid := u.header.csid) && u.timestamp == 0
    ensures
      var q := pos + |CalcHeader(h, None)|;
      q <= |input| && Step(c, input, pos) == Payload(c.(absTsFlag := true), h.csid, u, input, q)
  {
    hide At, CalcHeader, Chunk, Payload, ReadBasic;
    assert Roomy(NEW_STREAM);
    IdleReserves(NEW_STREAM, h.msgLen);
    u := FirstChunk(c, NEW_STREAM, h, message, input, pos);
  }

  /** 128 of 4095 bytes are there, and the buffer has its first capacity. */
  predicate Waiting(s: StreamState) {
    s.header.msgLen == 4095 && s.timestamp == 0 && s.msg.b == 0 && s.msg.e == 128 && |s.msg.buf| == 4096
  }

  /** The first 128 bytes of the video message leave its stream waiting for the rest. */
  lemma VideoOpens(input: seq<byte>)
    requires At(input, 0, CalcHeader(VIDEO, None)) && At(input, |CalcHeader(VIDEO, None)|, Zeros(128))
    ensures
      var r := Step(FRESH, input, 0);
      r.Next? && r.pos == |CalcHeader(VIDEO, None)| + 128 && r.state.peerChunkSize == 128
      && r.state.streams.Keys == {4} && Waiting(r.state.streams[4])
  {
    hide At, CalcHeader, Step, Split;
    var u := Opens(FRESH, VIDEO, Zeros(4095), input, 0);
    AtSlice(input, |CalcHeader(VIDEO, None)|, Zeros(128));
  }

  /** The second message changes the chunk size and nothing on the video stream. */
  lemma ResizeOpens(c: State, input: seq<byte>, pos: nat)
    requires c.Sound() && c.streams.Keys == {4} && c.peerChunkSize == 128
    requires At(input, pos, CalcHeader(RESIZE, None)) && At(input, pos + |CalcHeader(RESIZE, None)|, BePut32(4096))
    ensures
      var r := Step(c, input, pos);
      r.Next? && r.pos == pos + |CalcHeader(RESIZE, None)| + 4 && r.state.peerChunkSize == 4096
      && 4 in r.state.streams && r.state.streams[4] == c.streams[4]
  {
    hide At, CalcHeader, Step, Split, BePut32;
    var q := pos + |CalcHeader(RESIZE, None)|;
    var u := Opens(c, RESIZE, BePut32(4096), input, pos);
    var part := BePut32(4096);
    AtSlice(input, q, part);
    var filled := Fill(u.msg, part);
    assert filled.buf[..4] == part;
    RoundTrip32(4096, filled.buf[4..]);
    assert filled.buf == part + filled.buf[4..];
  }

  /** The composer reads past the video stream's buffer, although every length in the input is true. */
  lemma GrowthBreaks()
    ensures Run(FRESH, Growing(), 0).1 == Broken
  {
    hide *;
    var input := Growing();
    var a, b, c, d := CalcHeader(VIDEO, None), Zeros(128), CalcHeader(RESIZE, None), BePut32(4096);
    GrowingParts();
    AtSlice(input, 0, input);
    AtSplit(input, 0, a + b + (c + d), [0xC4]);
    AtSplit(input, 0, a + b, c + d);
    AtSplit(input, 0, a, b);
    AtSplit(input, |a + b|, c, d);
    AtByte(input, |a + b + (c + d)|, 0xC4);
    FreshSound();
    VideoOpens(input);
    var r := Step(FRESH, input, 0);
    ResizeOpens(r.state, input, r.pos);
    var t := Step(r.state, input, r.pos);
    Continues(t.state, input, t.pos);
    RunThree(input);
  }

  lemma FreshSound()
    ensures FRESH.Sound()
  {
  }

  lemma GrowingParts()
    ensures Growing()
      == CalcHeader(VIDEO, None) + Zeros(128) + (CalcHeader(RESIZE, None) + BePut32(4096)) + [0xC4]
  {
  }

  lemma Continues(c: State, input: seq<byte>, pos: nat)
    requires c.Sound() && 4 in c.streams && c.peerChunkSize == 4096
    requires Waiting(c.streams[4])
    requires |input| == pos + 1 && input[pos] == 0xC4
    ensures Step(c, input, pos) == Stop([], Broken)
  {
    assert ReadBasic(input, pos) == Some(Basic(3, 4, pos + 1));
  }

  lemma RunThree(input: seq<byte>)
    requires
      var r := Step(FRESH, input, 0);
      r.Next? && var t := Step(r.state, input, r.pos); t.Next? && Step(t.state, input, t.pos) == Stop([], Broken)
    ensures Run(FRESH, input, 0).1 == Broken
  {
    hide Step;
    var r := Step(FRESH, input, 0);
    var t := Step(r.state, input, r.pos);
    assert Run(t.state, input, t.pos).1 == Broken;
    assert Run(r.state, input, r.pos).1 == Broken;
  }
}
