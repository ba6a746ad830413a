/** Messages of every type, one after the other: ordinary ones, those that set the chunk size, and
    aggregates; and the timestamp that the two sides read differently. */
module RtmpMessages {
  import opened Bytes
  import opened RtmpDivider
  import opened RtmpComposer
  import opened Wire
  import opened RtmpBuffers
  import opened RtmpParsing
  import opened RtmpInterleaving
  import opened RtmpAggregates
  import opened RtmpMisreading
  import opened RtmpRoundTrip

  // One message, chunk by chunk, up to its last one

  /** The stream holds a part of a message and is ready for the next chunk. */
  predicate Open(s: Sending, t: StreamState, chunkSize: nat) {
    Expressible(s.header, s.message) && Carries(s, t) && t.msg.Sound()
    && (s.i < |s.message| ==> Steady(s.header, t.timestamp) && (s.i > 0 ==> chunkSize < |s.message|))
  }

  lemma OpenParts(s: Sending, t: StreamState, chunkSize: uint32)
    requires Open(s, t, chunkSize) && 0 < s.i < |s.message|
    ensures Expressible(s.header, s.message) && Carries(s, t) && t.msg.Sound()
    ensures Steady(s.header, t.timestamp) && chunkSize < |s.message| && !Overlong(t, chunkSize)
  {
  }

  /** Everything but the unread bytes, their end and the free space. */
  predicate Same(u: StreamState, t: StreamState)
    requires u.msg.Sound() && t.msg.Sound()
  {
    t.header == u.header && t.timestamp == u.timestamp && |t.msg.buf| == |u.msg.buf| && t.msg.b == u.msg.b
    && t.msg.buf[..t.msg.b] == u.msg.buf[..u.msg.b]
  }

  lemma SameStill(u: StreamState, t: StreamState, v: StreamState)
    requires u.msg.Sound() && t.msg.Sound() && v.msg.Sound() && Same(u, t) && Same(t, v)
    ensures Same(u, v)
  {
  }

  lemma SameItself(u: StreamState)
    requires u.msg.Sound()
    ensures Same(u, u)
  {
  }

  lemma SameParts(u: StreamState, t: StreamState)
    requires u.msg.Sound() && t.msg.Sound()
    ensures Same(u, t) <==>
      t.header == u.header && t.timestamp == u.timestamp && |t.msg.buf| == |u.msg.buf| && t.msg.b == u.msg.b
      && t.msg.buf[..t.msg.b] == u.msg.buf[..u.msg.b]
  {
  }

  /** A chunk that continues it. */
  lemma Continuing(c: State, s: Sending, input: seq<byte>, pos: nat) returns (t: StreamState)
    requires c.Sound() && c.peerChunkSize > 0 && s.header.csid in c.streams && 0 < s.i < |s.message|
    requires Open(s, c.streams[s.header.csid], c.peerChunkSize)
    requires At(input, pos, ChunkOf(s, c.peerChunkSize))
    ensures
      var u, next := c.streams[s.header.csid], pos + |ChunkOf(s, c.peerChunkSize)|;
      Open(s.(i := End(s, c.peerChunkSize)), t, c.peerChunkSize) && next <= |input|
      && t.msg.Sound() && u.msg.Sound() && Same(u, t)
      && Step(c, input, pos) == Finish(c, s.header.csid, t, next)
  {
    hide *;
    var h := s.header;
    var u := c.streams[h.csid];
    OpenParts(s, u, c.peerChunkSize);
    ChunkAt(s, c.peerChunkSize, input, pos);
    OpenStream(c, h.csid);
    NextChunk(c, u, h, s.message, input, pos);
    t := PayloadFills(c, s, u, input, pos + |CalcHeader(h, Some(h))|);
    StepIs(c, input, pos);
    SameParts(u, t);
    OpenStill(s, u, t, c.peerChunkSize);
  }

  lemma OpenStream(c: State, csid: int)
    requires c.Sound() && csid in c.streams
    ensures c.GetOrCreateStream(csid) == c.streams[csid]
  {
  }

  lemma OpenStill(s: Sending, u: StreamState, t: StreamState, chunkSize: nat)
    requires Open(s, u, chunkSize) && s.i < |s.message|
    requires s.i == 0 && End(s, chunkSize) < |s.message| ==> chunkSize < |s.message|
    requires Carries(s.(i := End(s, chunkSize)), t) && t.msg.Sound() && t.timestamp == u.timestamp
    ensures Open(s.(i := End(s, chunkSize)), t, chunkSize)
  {
    hide Expressible, Carries, Steady;
  }

  // One message, whole

  /** The run after the outcome of a step. */
  function Onwards(r: Outcome, input: seq<byte>): (seq<Delivery>, Reason)
    requires r.Next? ==> r.state.Sound() && r.pos <= |input|
  {
    match r
    case Stop(out, why) => (out, why)
    case Next(d, next, out) => (out + Run(d, input, next).0, Run(d, input, next).1)
  }

  lemma RunOnwards(c: State, input: seq<byte>, pos: nat)
    requires c.Sound() && pos <= |input|
    ensures Run(c, input, pos) == Onwards(Step(c, input, pos), input)
  {
    hide Step;
  }

  lemma Quietly(r: Outcome, input: seq<byte>)
    requires r.Next? && r.state.Sound() && r.pos <= |input| && r.out == []
    ensures Onwards(r, input) == Run(r.state, input, r.pos)
  {
    hide Run;
    NothingFirst(r.out, Run(r.state, input, r.pos).0);
  }

  /** Until the last chunk only the message's own stream changes. */
  lemma FinishPartial(c: State, s: Sending, t: StreamState, pos: nat)
    requires c.Sound() && t.msg.Sound() && Carries(s, t) && s.i < |s.message|
    ensures Finish(c, s.header.csid, t, pos) == Next(c.(streams := c.streams[s.header.csid := t]), pos, [])
    ensures c.(streams := c.streams[s.header.csid := t]).Sound()
  {
    hide HandOn;
  }

  lemma CarriesPart(s: Sending, t: StreamState, chunkSize: nat)
    requires Open(s, t, chunkSize)
    ensures Carries(s, t) && t.msg.Sound()
  {
  }

  /** What `Finish` does to a stream does not depend on what was there. */
  lemma FinishSame(c: State, csid: int, t: StreamState, u: StreamState, pos: nat)
    requires c.Sound() && t.msg.Sound() && u.msg.Sound()
    ensures
      var d := c.(streams := c.streams[csid := t]);
      d.Sound() && Finish(d, csid, u, pos) == Finish(c, csid, u, pos)
  {
    hide HandOn;
    Overwritten(c.streams, csid, t, u);
    Overwritten(c.streams, csid, t, HandOn(u, csid, c.absTsFlag).stream);
  }

  lemma Overwritten(streams: map<int, StreamState>, csid: int, t: StreamState, u: StreamState)
    ensures streams[csid := t][csid := u] == streams[csid := u]
  {
  }

  lemma Replaced(c: State, csid: int, t: StreamState)
    requires c.Sound() && t.msg.Sound()
    ensures
      var d := c.(streams := c.streams[csid := t]);
      d.Sound() && d.peerChunkSize == c.peerChunkSize && csid in d.streams && d.streams[csid] == t
  {
  }

  /** From a chunk in the middle of a message on: if anything of it is left, the rest leads to its end. */
  lemma {:induction false} RestWhole(c: State, s: Sending, t: StreamState, input: seq<byte>, pos: nat)
    returns (u: StreamState)
    requires c.Sound() && c.peerChunkSize > 0 && Open(s, t, c.peerChunkSize) && 0 < s.i <= |s.message|
    requires t.msg.Sound() && pos <= |input|
    requires At(input, pos, Chunks(s.message, s.i, s.header, Some(s.header), c.peerChunkSize))
    ensures
      var next := pos + |Chunks(s.message, s.i, s.header, Some(s.header), c.peerChunkSize)|;
      next <= |input| && Carries(s.(i := |s.message|), u) && u.msg.Sound() && Same(t, u)
      && Onwards(Finish(c, s.header.csid, t, pos), input) == Onwards(Finish(c, s.header.csid, u, next), input)
    decreases |s.message| - s.i
  {
    hide *;
    var h, n := s.header, c.peerChunkSize;
    CarriesPart(s, t, n);
    if s.i == |s.message| {
      NoChunks(s.message, h, Some(h), n);
      u := t;
      SameItself(t);
      FinishMoves(c, h.csid, t, pos);
      assert s.(i := |s.message|) == s;
    } else {
      Replaced(c, h.csid, t);
      var d := c.(streams := c.streams[h.csid := t]);
      FinishPartial(c, s, t, pos);
      Quietly(Finish(c, h.csid, t, pos), input);
      ChunksFirst(s, n);
      var end := End(s, n);
      var more := Chunks(s.message, end, h, Some(h), n);
      AtSplit(input, pos, ChunkOf(s, n), more);
      var v := Continuing(d, s, input, pos);
      var next := pos + |ChunkOf(s, n)|;
      RunOnwards(d, input, pos);
      FinishSame(c, h.csid, t, v, next);
      EndMoves(s, n);
      u := RestWhole(c, s.(i := end), v, input, next);
      SameStill(t, v, u);
    }
  }

  lemma FinishMoves(c: State, csid: int, t: StreamState, pos: nat)
    requires c.Sound() && t.msg.Sound()
    ensures var r := Finish(c, csid, t, pos); r.Next? ==> r.state.Sound() && r.pos == pos
  {
    hide Finish;
  }

  lemma EndMoves(s: Sending, chunkSize: nat)
    requires s.i < |s.message| && chunkSize > 0
    ensures s.i < End(s, chunkSize) <= |s.message|
  {
  }

  /** All chunks of a message, once the composer has understood the header of the first one. */
  lemma WholeFrom(c: State, d: State, s: Sending, u0: StreamState, prev: Option<RtmpHeader>, input: seq<byte>, pos: nat)
    returns (u: StreamState)
    requires c.Sound() && d.Sound() && d.peerChunkSize > 0 && s.i == 0 < |s.message|
    requires Open(s, u0, d.peerChunkSize) || (|s.message| <= d.peerChunkSize && Opened(s, u0))
    requires At(input, pos, Chunks(s.message, 0, s.header, prev, d.peerChunkSize)) && u0.msg.Sound()
    requires
      var q := pos + |CalcHeader(s.header, prev)|;
      q <= |input| && Step(c, input, pos) == Payload(d, s.header.csid, u0, input, q)
    ensures
      var next := pos + |Chunks(s.message, 0, s.header, prev, d.peerChunkSize)|;
      pos <= next <= |input| && Carries(s.(i := |s.message|), u) && u.msg.Sound() && Same(u0, u)
      && Run(c, input, pos) == Onwards(Finish(d, s.header.csid, u, next), input)
  {
    hide *;
    var h, n := s.header, d.peerChunkSize;
    var head, end := CalcHeader(h, prev), End(s, n);
    var more := Chunks(s.message, end, h, Some(h), n);
    ChunksOpen(s, prev, n);
    AtSplit(input, pos, head + s.message[0..end], more);
    AtSplit(input, pos, head, s.message[0..end]);
    OpenedParts(s, u0, n);
    var t := PayloadFills(d, s, u0, input, pos + |head|);
    SameParts(u0, t);
    EndMoves(s, n);
    OpenNext(s, u0, t, n);
    RunOnwards(c, input, pos);
    u := RestWhole(d, s.(i := end), t, input, pos + |head| + end);
    SameStill(u0, t, u);
  }

  /** A message that fits into one chunk need not be steady. */
  predicate Opened(s: Sending, t: StreamState) {
    Expressible(s.header, s.message) && Carries(s, t) && t.msg.Sound()
  }

  lemma OpenedParts(s: Sending, u: StreamState, chunkSize: uint32)
    requires s.i == 0 && (Open(s, u, chunkSize) || Opened(s, u))
    ensures Carries(s, u) && u.msg.Sound() && !Overlong(u, chunkSize)
  {
  }

  lemma OpenNext(s: Sending, u: StreamState, t: StreamState, chunkSize: nat)
    requires s.i == 0 && (Open(s, u, chunkSize) || (|s.message| <= chunkSize && Opened(s, u)))
    requires Carries(s.(i := End(s, chunkSize)), t) && t.msg.Sound() && t.timestamp == u.timestamp
    ensures Open(s.(i := End(s, chunkSize)), t, chunkSize)
  {
    hide Expressible, Carries, Steady;
  }

  lemma ChunksOpen(s: Sending, prev: Option<RtmpHeader>, chunkSize: nat)
    requires chunkSize > 0 && s.i == 0 < |s.message|
    ensures
      var end := End(s, chunkSize);
      Chunks(s.message, 0, s.header, prev, chunkSize)
        == CalcHeader(s.header, prev) + s.message[0..end] + Chunks(s.message, end, s.header, Some(s.header), chunkSize)
  {
    hide CalcHeader;
  }

  /** The stream has no message in progress, `used` bytes that aggregates have used up, and space left. */
  predicate Idle(u: StreamState, used: nat) {
    u.msg.b == u.msg.e == used < |u.msg.buf| && u.msg.Sound()
  }

  lemma IdleParts(u: StreamState, used: nat)
    requires Idle(u, used)
    ensures u.msg.b == u.msg.e == used < |u.msg.buf| && u.msg.Sound()
  {
  }

  /** Up to here the buffer of a stream never has to pass 32 bits. */
  const MAX_USED := 0xFD00_0000

  lemma UsedReserves(u: StreamState, used: nat, n: uint24)
    requires Idle(u, used) && used <= MAX_USED
    ensures u.msg.Sound() && Reserve(u.msg, n).Some?
  {
    ReserveExact(u.msg, n);
  }

  /** The space that the header asks for covers the message. */
  lemma ReservedCarries(s: Sending, r: StreamState, used: nat, u: StreamState)
    requires Idle(r, used) && s.i == 0 && 0 < |s.message| == s.header.msgLen < 0x100_0000
    requires Some(u.msg) == Reserve(r.msg, s.header.msgLen) && u.header.msgLen == s.header.msgLen
    ensures Carries(s, u) && u.msg.Sound() && u.msg.b == used
  {
    ReserveExact(r.msg, s.header.msgLen);
  }

  /** All chunks of a message under a full header, from any state in which its stream is idle. */
  lemma WholeMessage(c: State, used: nat, h: RtmpHeader, message: seq<byte>, input: seq<byte>, pos: nat)
    returns (u: StreamState)
    requires c.Sound() && c.peerChunkSize > 0 && Readable(h, message)
    requires Idle(c.GetOrCreateStream(h.csid), used) && used <= MAX_USED
    requires At(input, pos, Chunks(message, 0, h, None, c.peerChunkSize))
    ensures c.(absTsFlag := true).Sound()
    ensures
      var next := pos + |Chunks(message, 0, h, None, c.peerChunkSize)|;
      pos <= next <= |input| && Carries(Sending(h, message, |message|), u) && u.msg.Sound()
      && u.header == h.(csid := u.header.csid) && u.timestamp == h.timestampAbs
      && HasRoom(c.GetOrCreateStream(h.csid).msg, h.msgLen, u.msg)
      && Run(c, input, pos) == Onwards(Finish(c.(absTsFlag := true), h.csid, u, next), input)
  {
    hide *;
    var s, n := Sending(h, message, 0), c.peerChunkSize;
    FlagSound(c);
    ReadableParts(h, message);
    ChunksOpen(s, None, n);
    var end := End(s, n);
    AtSplit(input, pos, CalcHeader(h, None) + message[0..end], Chunks(message, end, h, Some(h), n));
    AtSplit(input, pos, CalcHeader(h, None), message[0..end]);
    var r := c.GetOrCreateStream(h.csid);
    IdleParts(r, used);
    UsedReserves(r, used, h.msgLen);
    var u0 := FirstChunk(c, r, h, message, input, pos);
    StepIs(c, input, pos);
    ReservedCarries(s, r, used, u0);
    OpensAtOnce(s, u0, n);
    u := WholeFrom(c, c.(absTsFlag := true), s, u0, None, input, pos);
    SameParts(u0, u);
    RoomIs(r, h.msgLen, u0, u);
  }

  /** `u` has the space that a header for `n` bytes reserves in `m`, and what is used up is still there. */
  predicate HasRoom(m: Msg, n: int, u: Msg) {
    0 <= n < 0x100_0000 && m.Sound() && u.Sound() && Reserve(m, n).Some? && Reserved(Reserve(m, n).value, u)
  }

  predicate Reserved(r: Msg, u: Msg)
    requires r.Sound() && u.Sound()
  {
    |u.buf| == |r.buf| && u.b == r.b && u.buf[..u.b] == r.buf[..r.b]
  }

  lemma RoomIs(r: StreamState, n: uint24, u0: StreamState, u: StreamState)
    requires r.msg.Sound() && u0.msg.Sound() && u.msg.Sound() && Some(u0.msg) == Reserve(r.msg, n) && Same(u0, u)
    ensures HasRoom(r.msg, n, u.msg)
  {
    hide Reserve;
  }

  lemma RoomStart(m: Msg, n: int, u: Msg)
    requires HasRoom(m, n, u)
    ensures u.b == m.b && (n < |m.buf| - m.e ==> |u.buf| == |m.buf| && u.buf[..u.b] == m.buf[..m.b])
  {
  }

  lemma ReadableParts(h: RtmpHeader, message: seq<byte>)
    requires Readable(h, message)
    ensures Expressible(h, message) && h.timestampAbs != MAX_TIMESTAMP && 0 < |message| == h.msgLen < 0x100_0000
  {
  }

  lemma OpensAtOnce(s: Sending, u: StreamState, chunkSize: nat)
    requires s.i == 0 && Readable(s.header, s.message) && u.msg.Sound() && Carries(s, u)
    requires u.timestamp == s.header.timestampAbs
    ensures Open(s, u, chunkSize)
  {
  }

  // What the end of a message does, by type

  lemma HandedWhole(s: Sending, u: StreamState)
    requires s.i == |s.message| && Carries(s, u) && u.msg.Sound()
    ensures u.msg.Len() == u.header.msgLen == |s.message| && u.msg.e == u.msg.b + |s.message|
    ensures u.msg.buf[u.msg.b..u.msg.e] == s.message
  {
  }

  lemma CompletedAs(h: RtmpHeader, u: StreamState)
    requires u.header == h.(csid := u.header.csid) && u.timestamp == h.timestampAbs
    ensures RtmpComposer.Completed(u, h.csid, true) == h && u.header.msgTypeId == h.msgTypeId
  {
  }

  /** The chunk size that the composer has after a message. */
  function SizeAfter(h: RtmpHeader, buf: seq<byte>, chunkSize: uint32): uint32
    requires |buf| >= 4
  {
    if h.msgTypeId == SET_CHUNK_SIZE then Be32(buf) else chunkSize
  }

  lemma FinishOrdinary(c: State, s: Sending, u: StreamState, pos: nat) returns (v: StreamState)
    requires c.Sound() && s.i == |s.message| && Carries(s, u) && u.msg.Sound()
    requires u.header.msgTypeId != AGGREGATE_MESSAGE
    ensures
      var csid := s.header.csid;
      var h := RtmpComposer.Completed(u, csid, c.absTsFlag);
      v.msg.Sound() && v == StreamState(h, u.msg.(b := 0, e := 0), u.timestamp)
      && Finish(c, csid, u, pos)
        == Next(State(SizeAfter(u.header, u.msg.buf, c.peerChunkSize), c.streams[csid := v], false), pos,
                [Delivery(h, s.message)])
  {
    HandedWhole(s, u);
    v := StreamState(RtmpComposer.Completed(u, s.header.csid, c.absTsFlag), u.msg.(b := 0, e := 0), u.timestamp);
    hide Carries, Split, Be32;
  }

  lemma FinishAggregate(c: State, h: RtmpHeader, subs: seq<Sub>, u: StreamState, pos: nat) returns (v: StreamState)
    requires c.Sound() && c.absTsFlag && h.msgTypeId == AGGREGATE_MESSAGE && AllFit(subs) && subs != []
    requires Carries(Sending(h, Join(subs), |Join(subs)|), u) && u.msg.Sound()
    requires u.header == h.(csid := u.header.csid) && u.timestamp == h.timestampAbs
    ensures v.msg.Sound() && v == StreamState(h, u.msg.(b := u.msg.e), h.timestampAbs)
    ensures Finish(c, h.csid, u, pos)
      == Next(State(c.peerChunkSize, c.streams[h.csid := v], false), pos, Deliveries(subs, h, subs[0].timestamp))
  {
    CompletedAs(h, u);
    HandedWhole(Sending(h, Join(subs), |Join(subs)|), u);
    AtSlice(u.msg.buf, u.msg.b, Join(subs));
    SplitJoined(subs, u.msg.buf, u.msg.b, u.msg.e, h, None);
    v := StreamState(h, u.msg.(b := u.msg.e), u.timestamp);
    hide Carries, RtmpComposer.Completed, Split, Be32, At, Join, Deliveries;
  }

  lemma AggregateFirst(c: State, h: RtmpHeader, message: seq<byte>, u: StreamState, pos: nat)
    requires c.Sound() && h.msgTypeId == AGGREGATE_MESSAGE && message != [] && u.msg.b == 0
    requires Carries(Sending(h, message, |message|), u) && u.msg.Sound() && u.header == h.(csid := u.header.csid)
    ensures
      var r := Finish(c, h.csid, u, pos);
      if r.out == [] then r.Stop? else Short(r.out, h.csid, |message|)
  {
    hide HandOn;
    HandOnFirst(u, h.csid, c.absTsFlag);
  }

  // The timestamp that the two sides read differently

  /** Over all messages and chunk sizes: the divider's chunks come back as the message exactly when its
      timestamp is not 0xFFFFFF, which the divider writes as it is and the composer takes for a sign that
      an extended one follows, and it is not an aggregate, which comes back in parts. */
  lemma ExtendedExact(m: Message, chunkSize: uint32)
    requires Expressible(m.header, m.payload) && chunkSize > 0
    ensures Run(Receiver(chunkSize), Chunks(m.payload, 0, m.header, None, chunkSize), 0)
        == (AllDelivered([m]), EndOfInput)
      <==> m.header.timestampAbs != 0xFF_FFFF && m.header.msgTypeId != 22
  {
    hide *;
    Numbers();
    var h, message, c := m.header, m.payload, Receiver(chunkSize);
    var input := Chunks(message, 0, h, None, chunkSize);
    ReceiverNew(chunkSize, h.csid);
    OneDelivered(m);
    if h.timestampAbs == MAX_TIMESTAMP {
      Misread(c, h, message);
      NotShort(h, message);
    } else {
      ReadableIs(h, message);
      ReadableParts(h, message);
      AtSlice(input, 0, input);
      FullSlice(input);
      var u := WholeMessage(c, 0, h, message, input, 0);
      var d := c.(absTsFlag := true);
      RoomStart(c.GetOrCreateStream(h.csid).msg, h.msgLen, u.msg);
      if h.msgTypeId == AGGREGATE_MESSAGE {
        AggregateFirst(d, h, message, u, |input|);
        OnwardsShort(Finish(d, h.csid, u, |input|), input, h.csid, |message|);
        NotShort(h, message);
      } else {
        CompletedAs(h, u);
        var v := FinishOrdinary(d, Sending(h, message, |message|), u, |input|);
        OnwardsLast(Finish(d, h.csid, u, |input|), input);
      }
    }
  }

  lemma Numbers()
    ensures MAX_TIMESTAMP == 0xFF_FFFF && SET_CHUNK_SIZE == 1 && AGGREGATE_MESSAGE == 22
  {
  }

  lemma ReceiverNew(chunkSize: uint32, csid: int)
    ensures
      var c := Receiver(chunkSize);
      c.Sound() && c.peerChunkSize == chunkSize && csid !in c.streams
      && Idle(c.GetOrCreateStream(csid), 0) && 0 <= MAX_USED && c.GetOrCreateStream(csid) == NEW_STREAM
      && NEW_STREAM.msg.b == NEW_STREAM.msg.e == 0 && |NEW_STREAM.msg.buf| == INIT_MSG_LEN
  {
  }

  lemma OneDelivered(m: Message)
    ensures AllDelivered([m]) == [Delivery(m.header, m.payload)]
  {
  }

  lemma ReadableIs(h: RtmpHeader, message: seq<byte>)
    ensures Readable(h, message) <==> Expressible(h, message) && h.timestampAbs != MAX_TIMESTAMP
  {
  }

  lemma NotShort(h: RtmpHeader, message: seq<byte>)
    ensures !Short([Delivery(h, message)], h.csid, |message|)
  {
  }

  lemma OnwardsShort(r: Outcome, input: seq<byte>, csid: int, length: nat)
    requires r.Next? ==> r.state.Sound() && r.pos <= |input|
    requires if r.out == [] then r.Stop? else Short(r.out, csid, length)
    ensures Onwards(r, input).0 == [] || Short(Onwards(r, input).0, csid, length)
  {
    hide Short, Run;
    if r.Next? {
      ShortFirst(r.out, Run(r.state, input, r.pos).0, csid, length);
    }
  }

  lemma OnwardsLast(r: Outcome, input: seq<byte>)
    requires r.Next? && r.state.Sound() && r.pos == |input|
    ensures Onwards(r, input) == (r.out, EndOfInput)
  {
    hide Run;
    RunEnds(r.state, input);
    assert r.out + [] == r.out;
  }

  // Messages of all types, one after the other

  datatype Item = Single(header: RtmpHeader, payload: seq<byte>) | Aggregate(header: RtmpHeader, subs: seq<Sub>)

  /** The sub-messages of an aggregate fit; a new chunk size is a number above 0. */
  predicate Proper(item: Item) {
    match item
    case Single(h, payload) =>
      Readable(h, payload) && h.msgTypeId != 22
      && (h.msgTypeId == 1 ==> |payload| >= 4 && Be32(payload) > 0)
    case Aggregate(h, subs) =>
      AllFit(subs) && Readable(h, Join(subs)) && h.msgTypeId == 22
  }

  function Body(item: Item): seq<byte>
    requires Proper(item)
  {
    match item
    case Single(_, payload) => payload
    case Aggregate(_, subs) => Join(subs)
  }

  /** The chunk size that the sender uses after the message. */
  function NextSize(item: Item, chunkSize: uint32): (n: uint32)
    requires Proper(item) && chunkSize > 0
    ensures n > 0
  {
    if item.Single? && item.header.msgTypeId == 1 then Be32(item.payload) else chunkSize
  }

  function Callbacks(item: Item): seq<Delivery>
    requires Proper(item)
  {
    match item
    case Single(h, payload) => [Delivery(h, payload)]
    case Aggregate(h, subs) => if subs == [] then [] else Deliveries(subs, h, subs[0].timestamp)
  }

  /** How much of the buffer of a chunk stream aggregates have used up, in bytes. */
  function UsedOn(used: map<int, nat>, csid: int): nat {
    if csid in used then used[csid] else 0
  }

  /** The composer does not clear the buffer of an aggregate, but that of any other message. */
  function Spend(item: Item, used: map<int, nat>): map<int, nat>
    requires Proper(item)
  {
    var csid := item.header.csid;
    used[csid := if item.Aggregate? then UsedOn(used, csid) + |Body(item)| else 0]
  }

  /** The buffer stays within 32 bits, and a new chunk size is not looked for in what an aggregate has left. */
  predicate Placed(item: Item, used: map<int, nat>) {
    UsedOn(used, item.header.csid) <= MAX_USED
    && (item.Single? && item.header.msgTypeId == 1 ==> UsedOn(used, item.header.csid) == 0)
  }

  predicate AllProper(items: seq<Item>, used: map<int, nat>) {
    items != [] ==>
      Proper(items[0]) && Placed(items[0], used) && AllProper(items[1..], Spend(items[0], used))
  }

  /** The divider's output, with the chunk size changing after each message that sets it. */
  function AllSent(items: seq<Item>, used: map<int, nat>, chunkSize: uint32): seq<byte>
    requires AllProper(items, used) && chunkSize > 0
    decreases |items|
  {
    if items == [] then []
    else
      Chunks(Body(items[0]), 0, items[0].header, None, chunkSize)
      + AllSent(items[1..], Spend(items[0], used), NextSize(items[0], chunkSize))
  }

  function AllCallbacks(items: seq<Item>, used: map<int, nat>): seq<Delivery>
    requires AllProper(items, used)
    decreases |items|
  {
    if items == [] then []
    else
      Callbacks(items[0]) + AllCallbacks(items[1..], Spend(items[0], used))
  }

  /** Between two messages every stream is idle, with as much used up as the aggregates say. */
  predicate Between(c: State, used: map<int, nat>) {
    c.Sound() && c.peerChunkSize > 0
    && (forall csid | csid in c.streams :: Idle(c.streams[csid], UsedOn(used, csid)))
    && (forall csid | csid in used :: csid in c.streams)
  }

  lemma BetweenStream(c: State, used: map<int, nat>, csid: int)
    requires Between(c, used)
    ensures c.Sound() && c.peerChunkSize > 0
    ensures Idle(c.GetOrCreateStream(csid), UsedOn(used, csid))
  {
    assert Idle(NEW_STREAM, 0);
  }

  lemma SingleEnd(c: State, used: map<int, nat>, item: Item, u: StreamState, pos: nat)
    requires c.Sound() && c.absTsFlag && Between(c, used) && Proper(item) && item.Single? && Placed(item, used)
    requires Carries(Sending(item.header, item.payload, |item.payload|), u) && u.msg.Sound()
    requires u.header == item.header.(csid := u.header.csid) && u.timestamp == item.header.timestampAbs
    requires u.msg.b == UsedOn(used, item.header.csid)
    ensures
      var r := Finish(c, item.header.csid, u, pos);
      r.Next? && r.pos == pos && r.out == Callbacks(item) && Between(r.state, Spend(item, used))
      && r.state.peerChunkSize == NextSize(item, c.peerChunkSize)
  {
    var h, payload := item.header, item.payload;
    CompletedAs(h, u);
    var v := FinishOrdinary(c, Sending(h, payload, |payload|), u, pos);
    if h.msgTypeId == SET_CHUNK_SIZE {
      SameSize(Sending(h, payload, |payload|), u);
    }
    hide Finish, Readable, Carries, Be32, RtmpComposer.Completed, SoundStreams;
    StillBetween(c, used, h.csid, v, 0, NextSize(item, c.peerChunkSize));
  }

  lemma SameSize(s: Sending, u: StreamState)
    requires Carries(s, u) && s.i == |s.message| && |s.message| >= 4 && u.msg.b == 0
    ensures |u.msg.buf| >= 4 && Be32(u.msg.buf) == Be32(s.message)
  {
    assert forall k | 0 <= k < 4 :: u.msg.buf[..s.i][k] == s.message[k];
  }

  /** One stream is idle again. */
  lemma StillBetween(c: State, used: map<int, nat>, csid: int, v: StreamState, n: nat, chunkSize: uint32)
    requires Between(c, used) && Idle(v, n) && chunkSize > 0
    ensures Between(State(chunkSize, c.streams[csid := v], false), used[csid := n])
  {
  }

  lemma AggregateEnd(c: State, used: map<int, nat>, item: Item, u: StreamState, pos: nat)
    requires c.Sound() && c.absTsFlag && Between(c, used) && Proper(item) && item.Aggregate?
    requires Carries(Sending(item.header, Body(item), |Body(item)|), u) && u.msg.Sound()
    requires u.header == item.header.(csid := u.header.csid) && u.timestamp == item.header.timestampAbs
    requires u.msg.b == UsedOn(used, item.header.csid)
    ensures
      var r := Finish(c, item.header.csid, u, pos);
      r.Next? && r.pos == pos && r.out == Callbacks(item) && Between(r.state, Spend(item, used))
      && r.state.peerChunkSize == c.peerChunkSize
  {
    var h := item.header;
    NotEmpty(h, item.subs);
    var v := FinishAggregate(c, h, item.subs, u, pos);
    StillBetween(c, used, h.csid, v, u.msg.e, c.peerChunkSize);
    hide Finish, Readable, Join, Deliveries, Between;
  }

  lemma NotEmpty(h: RtmpHeader, subs: seq<Sub>)
    requires AllFit(subs) && Readable(h, Join(subs))
    ensures subs != []
  {
  }

  /** One message, wherever it stands. */
  lemma ItemRun(c: State, used: map<int, nat>, item: Item, input: seq<byte>, pos: nat) returns (d: State)
    requires Between(c, used) && Proper(item) && Placed(item, used) && pos <= |input|
    requires c.Sound() && c.peerChunkSize > 0
    requires At(input, pos, Chunks(Body(item), 0, item.header, None, c.peerChunkSize))
    ensures Between(d, Spend(item, used)) && d.Sound() && d.peerChunkSize == NextSize(item, c.peerChunkSize)
    ensures
      var next := pos + |Chunks(Body(item), 0, item.header, None, c.peerChunkSize)|;
      next <= |input|
      && Run(c, input, pos) == (Callbacks(item) + Run(d, input, next).0, Run(d, input, next).1)
  {
    hide *;
    var h := item.header;
    BetweenStream(c, used, h.csid);
    ProperParts(item, used);
    var u := WholeMessage(c, UsedOn(used, h.csid), h, Body(item), input, pos);
    var next := pos + |Chunks(Body(item), 0, h, None, c.peerChunkSize)|;
    var e := c.(absTsFlag := true);
    FlagBetween(c, used);
    IdleParts(c.GetOrCreateStream(h.csid), UsedOn(used, h.csid));
    RoomStart(c.GetOrCreateStream(h.csid).msg, h.msgLen, u.msg);
    var r := Finish(e, h.csid, u, next);
    if item.Single? {
      SingleBody(item);
      SingleEnd(e, used, item, u, next);
    } else {
      AggregateEnd(e, used, item, u, next);
      AggregateSize(item, e.peerChunkSize);
    }
    d := r.state;
    BetweenSound(d, Spend(item, used));
    OnwardsIs(r, input);
  }

  lemma ProperParts(item: Item, used: map<int, nat>)
    requires Proper(item) && Placed(item, used)
    ensures Readable(item.header, Body(item)) && UsedOn(used, item.header.csid) <= MAX_USED
  {
  }

  lemma FlagBetween(c: State, used: map<int, nat>)
    requires Between(c, used)
    ensures Between(c.(absTsFlag := true), used)
  {
  }

  lemma SingleBody(item: Item)
    requires Proper(item) && item.Single?
    ensures Body(item) == item.payload
  {
  }

  lemma AggregateSize(item: Item, chunkSize: uint32)
    requires Proper(item) && item.Aggregate? && chunkSize > 0
    ensures NextSize(item, chunkSize) == chunkSize
  {
  }

  lemma BetweenSound(c: State, used: map<int, nat>)
    requires Between(c, used)
    ensures c.Sound() && c.peerChunkSize > 0
  {
  }

  lemma OnwardsIs(r: Outcome, input: seq<byte>)
    requires r.Next? && r.state.Sound() && r.pos <= |input|
    ensures Onwards(r, input) == (r.out + Run(r.state, input, r.pos).0, Run(r.state, input, r.pos).1)
  {
    hide Run;
  }

  lemma {:induction false} ItemsRun(c: State, used: map<int, nat>, items: seq<Item>, input: seq<byte>, pos: nat)
    requires Between(c, used) && AllProper(items, used) && c.Sound() && c.peerChunkSize > 0
    requires At(input, pos, AllSent(items, used, c.peerChunkSize))
    requires |input| == pos + |AllSent(items, used, c.peerChunkSize)|
    ensures Run(c, input, pos) == (AllCallbacks(items, used), EndOfInput)
    decreases |items|
  {
    hide *;
    if items == [] {
      NoItems(used, c.peerChunkSize);
      RunEnds(c, input);
    } else {
      FirstItem(items, used, c.peerChunkSize);
      var rest, next := items[1..], Spend(items[0], used);
      var chunks := Chunks(Body(items[0]), 0, items[0].header, None, c.peerChunkSize);
      AtSplit(input, pos, chunks, AllSent(rest, next, NextSize(items[0], c.peerChunkSize)));
      AtStart(input, pos, chunks);
      var d := ItemRun(c, used, items[0], input, pos);
      BetweenSound(d, next);
      ItemsRun(d, next, rest, input, pos + |chunks|);
    }
  }

  lemma AtStart(s: seq<byte>, i: nat, part: seq<byte>)
    requires At(s, i, part)
    ensures i <= |s|
  {
  }

  lemma NoItems(used: map<int, nat>, chunkSize: uint32)
    requires chunkSize > 0
    ensures AllProper([], used) && AllSent([], used, chunkSize) == [] && AllCallbacks([], used) == []
  {
  }

  lemma FirstItem(items: seq<Item>, used: map<int, nat>, chunkSize: uint32)
    requires items != [] && AllProper(items, used) && chunkSize > 0
    ensures
      var item := items[0];
      var next := Spend(item, used);
      Proper(item) && Placed(item, used) && AllProper(items[1..], next) && NextSize(item, chunkSize) > 0
      && AllSent(items, used, chunkSize)
        == Chunks(Body(item), 0, item.header, None, chunkSize) + AllSent(items[1..], next, NextSize(item, chunkSize))
      && AllCallbacks(items, used) == Callbacks(item) + AllCallbacks(items[1..], next)
  {
    hide Proper, Body, NextSize, Callbacks, Chunks, Placed, Spend;
  }

  /** Messages of every type, cut one after the other at every chunk size and with the chunk size changing
      any number of times: ordinary messages come back whole, aggregates as their sub-messages, also one
      after the other on the same chunk stream. */
  lemma AllTypesRoundTrip(items: seq<Item>, chunkSize: uint32)
    requires AllProper(items, map[]) && chunkSize > 0
    ensures Run(Receiver(chunkSize), AllSent(items, map[], chunkSize), 0) == (AllCallbacks(items, map[]), EndOfInput)
  {
    hide *;
    var input := AllSent(items, map[], chunkSize);
    ReceiverBetween(chunkSize);
    AtSlice(input, 0, input);
    FullSlice(input);
    ItemsRun(Receiver(chunkSize), map[], items, input, 0);
  }

  lemma ReceiverBetween(chunkSize: uint32)
    requires chunkSize > 0
    ensures var c := Receiver(chunkSize); c.Sound() && c.peerChunkSize == chunkSize && Between(c, map[])
  {
  }

  // A chunk stream that has carried an aggregate

  /** The composer does not clear its buffer. An aggregate of more than half of the first capacity, and a
      chunk that repeats its header: the composer reads past the buffer, although both lengths are true. */
  lemma UsedUpBreaks(h: RtmpHeader, subs: seq<Sub>, chunkSize: uint32)
    requires AllFit(subs) && Readable(h, Join(subs)) && h.msgTypeId == 22
    requires h.timestampAbs < 0xFF_FFFF
    requires |Join(subs)| <= chunkSize && |Join(subs)| < INIT_MSG_LEN < 2 * |Join(subs)|
    ensures
      var again := BasicHeader(3, h.csid);
      Run(Receiver(chunkSize), Chunks(Join(subs), 0, h, None, chunkSize) + again, 0)
        == (Callbacks(Aggregate(h, subs)), Broken)
  {
    hide *;
    Numbers();
    var message, c := Join(subs), Receiver(chunkSize);
    var chunks, again := Chunks(message, 0, h, None, chunkSize), BasicHeader(3, h.csid);
    var input := chunks + again;
    NotEmpty(h, subs);
    ReadableParts(h, message);
    ReceiverNew(chunkSize, h.csid);
    AtSlice(input, 0, input);
    FullSlice(input);
    AtSplit(input, 0, chunks, again);
    var u := WholeMessage(c, 0, h, message, input, 0);
    var v := FinishAggregate(c.(absTsFlag := true), h, subs, u, |chunks|);
    CarriesParts(Sending(h, message, |message|), u);
    RoomStart(c.GetOrCreateStream(h.csid).msg, h.msgLen, u.msg);
    var r := Finish(c.(absTsFlag := true), h.csid, u, |chunks|);
    FinishMoves(c.(absTsFlag := true), h.csid, u, |chunks|);
    OnwardsIs(r, input);
    AggregateCallbacks(h, subs);
    AgainBreaks(r.state, v, h.csid, input, |chunks|);
    assert r.out + [] == r.out;
  }

  lemma CarriesParts(s: Sending, u: StreamState)
    requires Carries(s, u)
    ensures u.msg.e == u.msg.b + s.i <= |u.msg.buf| && u.msg.buf[u.msg.b..u.msg.e] == s.message[..s.i]
    ensures s.i == |s.message| ==> u.msg.e < |u.msg.buf|
  {
  }

  lemma AggregateCallbacks(h: RtmpHeader, subs: seq<Sub>)
    requires AllFit(subs) && Readable(h, Join(subs)) && h.msgTypeId == AGGREGATE_MESSAGE && subs != []
    ensures Proper(Aggregate(h, subs)) && Callbacks(Aggregate(h, subs)) == Deliveries(subs, h, subs[0].timestamp)
  {
    hide Deliveries, Readable, Join;
  }

  lemma AgainBreaks(d: State, v: StreamState, csid: int, input: seq<byte>, pos: nat)
    requires d.Sound() && csid in d.streams && d.streams[csid] == v && v.msg.Sound() && 2 <= csid <= 65599
    requires v.timestamp < MAX_TIMESTAMP && v.header.msgLen == v.msg.e <= d.peerChunkSize
    requires |v.msg.buf| < 2 * v.msg.e && pos <= |input| && At(input, pos, BasicHeader(3, csid))
    ensures Run(d, input, pos) == ([], Broken)
  {
    hide *;
    AtFits(input, pos, BasicHeader(3, csid));
    BasicParses(input, pos, 3, csid);
    OpenStream(d, csid);
    StepIs(d, input, pos);
    ChunkOverreads(d, Basic(3, csid, pos + |BasicHeader(3, csid)|), v, input);
    RunStops(d, input, pos);
  }

  lemma AtFits(s: seq<byte>, i: nat, part: seq<byte>)
    requires At(s, i, part)
    ensures i + |part| <= |s|
  {
  }

  lemma ChunkOverreads(d: State, basic: Basic, v: StreamState, input: seq<byte>)
    requires d.Sound() && v.msg.Sound() && basic.fmt == 3 && basic.next <= |input|
    requires v.timestamp < MAX_TIMESTAMP && v.header.msgLen == v.msg.e <= d.peerChunkSize
    requires |v.msg.buf| < 2 * v.msg.e
    ensures Chunk(d, basic, v, input) == Stop([], Broken)
  {
    hide Finish, SoundStreams;
  }

  /** The capacity of a new stream with a message of `n` bytes. */
  function Capacity(n: nat): nat {
    if n < INIT_MSG_LEN then INIT_MSG_LEN else INIT_MSG_LEN + Doubled(INIT_MSG_LEN, n)
  }

  /** What the composer finds at the start of the buffer: the aggregate, or, when the header of the next
      message has moved the buffer, zeros. */
  function StaleSize(aggregate: seq<byte>, payload: seq<byte>): uint32
    requires |aggregate| >= 4
  {
    if |payload| < Capacity(|aggregate|) - |aggregate| then Be32(aggregate) else 0
  }

  lemma NewCapacity(n: int, u: Msg)
    requires HasRoom(NEW_STREAM.msg, n, u)
    ensures n >= 0 && |u.buf| == Capacity(n)
  {
    assert |NEW_STREAM.msg.buf| == INIT_MSG_LEN;
  }

  lemma StaleStart(m: Msg, n: int, u: Msg, aggregate: seq<byte>, payload: seq<byte>)
    requires HasRoom(m, n, u) && m.b == m.e == |aggregate| < |m.buf| == Capacity(|aggregate|) && n == |payload|
    requires m.Sound() && u.Sound() && m.buf[..m.b] == aggregate && |aggregate| >= 4
    ensures Be32(u.buf) == StaleSize(aggregate, payload)
  {
    if n < |m.buf| - m.e {
      assert forall k | 0 <= k < 4 :: u.buf[..u.b][k] == aggregate[k];
    } else {
      var r := Reserve(m, n).value;
      assert r.buf[..r.b] == Zeros(|r.buf|)[..r.b];
      assert forall k | 0 <= k < 4 :: u.buf[..u.b][k] == 0;
    }
  }

  /** A message that sets the chunk size, behind an aggregate on the same chunk stream: both come out, but
      the composer takes the new chunk size from the bytes that the aggregate has left. */
  lemma SizeMisread(h: RtmpHeader, subs: seq<Sub>, g: RtmpHeader, payload: seq<byte>, chunkSize: uint32,
    rest: seq<byte>) returns (d: State)
    requires AllFit(subs) && Proper(Aggregate(h, subs)) && Proper(Single(g, payload)) && chunkSize > 0
    requires g.msgTypeId == 1 && g.csid == h.csid
    ensures |Join(subs)| >= 15 && d.Sound() && d.peerChunkSize == StaleSize(Join(subs), payload)
    ensures
      var sent := Chunks(Join(subs), 0, h, None, chunkSize) + Chunks(payload, 0, g, None, chunkSize);
      var input := sent + rest;
      Run(Receiver(chunkSize), input, 0)
        == (Callbacks(Aggregate(h, subs)) + [Delivery(g, payload)] + Run(d, input, |sent|).0, Run(d, input, |sent|).1)
  {
    hide *;
    var message, c := Join(subs), Receiver(chunkSize);
    var one, two := Chunks(message, 0, h, None, chunkSize), Chunks(payload, 0, g, None, chunkSize);
    var input := one + two + rest;
    MisreadParts(h, subs, g, payload);
    ReceiverNew(chunkSize, h.csid);
    AtSlice(input, 0, input);
    FullSlice(input);
    AtSplit(input, 0, one + two, rest);
    AtSplit(input, 0, one, two);
    var u := WholeMessage(c, 0, h, message, input, 0);
    var e := c.(absTsFlag := true);
    var v := FinishAggregate(e, h, subs, u, |one|);
    RoomStart(c.GetOrCreateStream(h.csid).msg, h.msgLen, u.msg);
    NewCapacity(h.msgLen, u.msg);
    CarriesParts(Sending(h, message, |message|), u);
    var r := Finish(e, h.csid, u, |one|);
    FinishMoves(e, h.csid, u, |one|);
    OnwardsIs(r, input);
    var f := r.state;
    OpenStream(f, h.csid);
    IdleIs(v, |message|);
    var w := WholeMessage(f, |message|, g, payload, input, |one|);
    StaleStart(v.msg, g.msgLen, w.msg, message, payload);
    var e2 := f.(absTsFlag := true);
    CompletedAs(g, w);
    var x := FinishOrdinary(e2, Sending(g, payload, |payload|), w, |one + two|);
    var q := Finish(e2, h.csid, w, |one + two|);
    FinishMoves(e2, h.csid, w, |one + two|);
    OnwardsIs(q, input);
    SizeIs(w, chunkSize);
    d := q.state;
    AggregateCallbacks(h, subs);
    Grouped(r.out, q.out, Run(d, input, |one + two|).0);
  }

  lemma MisreadParts(h: RtmpHeader, subs: seq<Sub>, g: RtmpHeader, payload: seq<byte>)
    requires AllFit(subs) && Proper(Aggregate(h, subs)) && Proper(Single(g, payload)) && g.msgTypeId == 1
    ensures subs != [] && Readable(h, Join(subs)) && h.msgTypeId == AGGREGATE_MESSAGE && Readable(g, payload)
    ensures h.msgLen == |Join(subs)| <= MAX_USED && 15 <= |Join(subs)| && g.msgLen == |payload|
    ensures g.msgTypeId == SET_CHUNK_SIZE && g.msgTypeId != AGGREGATE_MESSAGE
  {
    NotEmpty(h, subs);
  }

  lemma IdleIs(u: StreamState, used: nat)
    requires u.msg.Sound() && u.msg.b == u.msg.e == used < |u.msg.buf|
    ensures Idle(u, used)
  {
  }

  lemma SizeIs(u: StreamState, chunkSize: uint32)
    requires u.msg.Sound() && u.header.msgTypeId == SET_CHUNK_SIZE
    ensures SizeAfter(u.header, u.msg.buf, chunkSize) == Be32(u.msg.buf)
  {
  }
}
