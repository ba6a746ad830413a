/** Every interleaving of the chunks of different chunk streams delivers every message whole; which
    timestamps come out right is decided by the flag that all streams share. */
module RtmpInterleaving {
  import opened Bytes
  import opened RtmpDivider
  import opened RtmpComposer
  import opened Wire
  import opened RtmpBuffers
  import opened RtmpParsing

  /** A message of which `i` bytes have been sent. */
  datatype Sending = Sending(header: RtmpHeader, message: seq<byte>, i: nat)

  /** The sender sends the first chunk of a message on an idle stream, or the next of one in progress. */
  datatype Event = Begin(header: RtmpHeader, message: seq<byte>) | Continue(csid: int)

  /** `begun` says whether a message has begun since the last one was completed. */
  datatype Sender = Sender(open: map<int, Sending>, begun: bool)

  const IDLE := Sender(map[], false)

  predicate Legal(sender: Sender, event: Event) {
    match event
    case Begin(h, message) => Sendable(h, message) && h.csid !in sender.open
    case Continue(csid) => csid in sender.open
  }

  /** What the event is about, before its chunk. */
  function Subject(sender: Sender, event: Event): Sending
    requires Legal(sender, event)
  {
    match event
    case Begin(h, message) => Sending(h, message, 0)
    case Continue(csid) => sender.open[csid]
  }

  function End(s: Sending, chunkSize: nat): (end: nat)
    ensures s.i <= |s.message| ==> s.i <= end <= |s.message|
  {
    if s.i + chunkSize < |s.message| then s.i + chunkSize else |s.message|
  }

  /** The next chunk, as the divider writes it. */
  function ChunkOf(s: Sending, chunkSize: nat): seq<byte>
    requires s.i <= |s.message|
  {
    CalcHeader(s.header, if s.i == 0 then None else Some(s.header)) + s.message[s.i..End(s, chunkSize)]
  }

  /** What the message is delivered as: its timestamp is doubled unless some message has begun
      since the last was completed. */
  function Stamped(h: RtmpHeader, begun: bool): RtmpHeader {
    if begun then h else h.(timestampAbs := Wrap32(h.timestampAbs + h.timestampAbs))
  }

  predicate SenderValid(sender: Sender, chunkSize: nat) {
    forall csid | csid in sender.open :: Underway(csid, sender.open[csid], chunkSize)
  }

  predicate Underway(csid: int, s: Sending, chunkSize: nat) {
    Sendable(s.header, s.message) && s.header.csid == csid && 0 < s.i < |s.message| && chunkSize < |s.message|
  }

  function After(sender: Sender, event: Event, chunkSize: nat): Sender
    requires Legal(sender, event)
  {
    var s := Subject(sender, event);
    var end := End(s, chunkSize);
    if end == |s.message| then Sender(sender.open - {s.header.csid}, false)
    else Sender(sender.open[s.header.csid := s.(i := end)], sender.begun || event.Begin?)
  }

  function CompletedBy(sender: Sender, event: Event, chunkSize: nat): seq<Delivery>
    requires Legal(sender, event)
  {
    var s := Subject(sender, event);
    if End(s, chunkSize) == |s.message|
    then [Delivery(Stamped(s.header, sender.begun || event.Begin?), s.message)]
    else []
  }

  lemma AfterValid(sender: Sender, event: Event, chunkSize: nat)
    requires SenderValid(sender, chunkSize) && Legal(sender, event) && chunkSize > 0
    ensures SenderValid(After(sender, event, chunkSize), chunkSize)
  {
  }

  // The composer's side

  /** The stream holds the part of the message that has been sent. */
  predicate Holds(s: Sending, t: StreamState) {
    t.header == s.header.(csid := t.header.csid) && t.timestamp == s.header.timestampAbs
    && t.msg.b == 0 && t.msg.e == s.i <= |s.message| < |t.msg.buf| && t.msg.buf[..s.i] == s.message[..s.i]
  }

  /** The same without the header, and wherever in the buffer: what the payload needs. */
  predicate Carries(s: Sending, t: StreamState) {
    t.msg.e == t.msg.b + s.i && s.i <= |s.message| && t.msg.b + |s.message| < |t.msg.buf|
    && t.msg.buf[t.msg.b..t.msg.e] == s.message[..s.i] && t.header.msgLen == |s.message|
  }

  lemma HoldsCarries(s: Sending, t: StreamState)
    requires s.header.msgLen == |s.message|
    ensures Holds(s, t) <==>
      t.msg.b == 0 && Carries(s, t)
      && t.header == s.header.(csid := t.header.csid) && t.timestamp == s.header.timestampAbs
  {
  }

  predicate Tracks(sender: Sender, c: State, chunkSize: nat) {
    c.peerChunkSize == chunkSize && c.absTsFlag == sender.begun && AllRoomy(c) && c.Sound()
    && (forall csid | csid in sender.open :: csid in c.streams && Holds(sender.open[csid], c.streams[csid]))
    && (forall csid | csid in c.streams && csid !in sender.open :: c.streams[csid].msg.e == 0)
  }

  /** A chunk of `s` whose payload stands at `pos` completes the message, or adds to it. */
  predicate Advances(streams: map<int, StreamState>, s: Sending, begun: bool, chunkSize: nat, pos: nat, r: Outcome) {
    var csid, end := s.header.csid, End(s, chunkSize);
    r.Next? && r.pos == pos + end - s.i && AllRoomy(r.state) && r.state.peerChunkSize == chunkSize
    && csid in r.state.streams && r.state.streams == streams[csid := r.state.streams[csid]]
    && if end == |s.message| then
        r.out == [Delivery(Stamped(s.header, begun), s.message)] && !r.state.absTsFlag
        && r.state.streams[csid].msg.e == 0
      else
        r.out == [] && r.state.absTsFlag == begun && Holds(s.(i := end), r.state.streams[csid])
  }

  /** The payload of a chunk completes the message, or is added to it. */
  lemma PayloadStep(c: State, s: Sending, u: StreamState, fmt: nat, input: seq<byte>, pos: nat)
    requires Sendable(s.header, s.message) && s.i < |s.message| && (s.i > 0 ==> c.peerChunkSize < |s.message|)
    requires c.Sound() && AllRoomy(c) && c.peerChunkSize > 0
    requires u.msg.Sound() && Holds(s, u) && Announced(u, fmt) && !Overlong(u, c.peerChunkSize)
    requires pos <= |input| && At(input, pos, s.message[s.i..End(s, c.peerChunkSize)])
    ensures Advances(c.streams, s, c.absTsFlag, c.peerChunkSize, pos, Payload(c, s.header.csid, u, input, pos))
  {
    hide *;
    PayloadExact(c, s.header.csid, u, fmt, input, pos);
    SendableParts(s.header, s.message);
    SendableType(s.header, s.message);
    HoldsCarries(s, u);
    var t := PayloadFills(c, s, u, input, pos);
    HoldsCarries(s.(i := End(s, c.peerChunkSize)), t);
    HoldsType(s, u);
    FinishAdvances(c, s, t, pos + End(s, c.peerChunkSize) - s.i, pos);
  }

  /** The payload of a chunk of a message of any type: the stream holds that much more. */
  lemma PayloadFills(c: State, s: Sending, u: StreamState, input: seq<byte>, pos: nat) returns (t: StreamState)
    requires s.i < |s.message| && (s.i > 0 ==> c.peerChunkSize < |s.message|)
    requires c.Sound() && c.peerChunkSize > 0 && u.msg.Sound() && Carries(s, u) && !Overlong(u, c.peerChunkSize)
    requires pos <= |input| && At(input, pos, s.message[s.i..End(s, c.peerChunkSize)])
    ensures t.msg.Sound() && t.header == u.header && t.timestamp == u.timestamp && |t.msg.buf| == |u.msg.buf|
    ensures t.msg.b == u.msg.b && t.msg.buf[..t.msg.b] == u.msg.buf[..u.msg.b]
    ensures
      var end := End(s, c.peerChunkSize);
      Carries(s.(i := end), t) && pos + end - s.i <= |input|
      && Payload(c, s.header.csid, u, input, pos) == Finish(c, s.header.csid, t, pos + end - s.i)
  {
    hide *;
    var end := End(s, c.peerChunkSize);
    var part := s.message[s.i..end];
    TakesPart(c, s, u);
    AtSlice(input, pos, part);
    Filled(s, u, end);
    PayloadIs(c, s.header.csid, u, input, pos);
    t := u.(msg := Fill(u.msg, part));
    FillKeeps(u, part);
  }

  lemma HoldsType(s: Sending, u: StreamState)
    requires Holds(s, u)
    ensures u.header.msgTypeId == s.header.msgTypeId
  {
  }

  lemma FillKeeps(u: StreamState, part: seq<byte>)
    requires u.msg.Sound() && u.msg.e + |part| <= |u.msg.buf|
    ensures u.(msg := Fill(u.msg, part)).header == u.header && u.(msg := Fill(u.msg, part)).timestamp == u.timestamp
    ensures
      var m := Fill(u.msg, part);
      |m.buf| == |u.msg.buf| && m.b == u.msg.b && m.buf[..m.b] == u.msg.buf[..u.msg.b]
  {
    assert Fill(u.msg, part).buf[..u.msg.b] == u.msg.buf[..u.msg.b];
  }

  lemma PayloadIs(c: State, csid: int, u: StreamState, input: seq<byte>, pos: nat)
    requires c.Sound() && u.msg.Sound() && pos <= |input|
    requires var n := NeededSize(u, c.peerChunkSize); u.msg.e + n <= |u.msg.buf| && pos + n <= |input|
    ensures
      var n := NeededSize(u, c.peerChunkSize);
      Payload(c, csid, u, input, pos) == Finish(c, csid, u.(msg := Fill(u.msg, input[pos..pos + n])), pos + n)
  {
    hide Finish;
  }

  lemma Filled(s: Sending, u: StreamState, end: nat)
    requires u.msg.Sound() && Carries(s, u) && s.i <= end <= |s.message|
    ensures u.msg.e + (end - s.i) <= |u.msg.buf|
    ensures var t := u.(msg := Fill(u.msg, s.message[s.i..end])); t.msg.Sound() && Carries(s.(i := end), t)
  {
    var t := u.(msg := Fill(u.msg, s.message[s.i..end]));
    assert t.msg.buf[..t.msg.e] == u.msg.buf[..u.msg.e] + s.message[s.i..end];
    assert t.msg.buf[t.msg.b..t.msg.e] == u.msg.buf[u.msg.b..u.msg.e] + s.message[s.i..end] == s.message[..end];
  }

  lemma FinishAdvances(c: State, s: Sending, t: StreamState, q: nat, pos: nat)
    requires c.Sound() && t.msg.Sound() && s.i < |s.message| && s.header.msgLen == |s.message|
    requires s.header.msgTypeId != SET_CHUNK_SIZE && s.header.msgTypeId != AGGREGATE_MESSAGE
    requires Holds(s.(i := End(s, c.peerChunkSize)), t) && q == pos + End(s, c.peerChunkSize) - s.i
    requires Finish(c, s.header.csid, t, q).Next? ==> AllRoomy(Finish(c, s.header.csid, t, q).state)
    ensures Advances(c.streams, s, c.absTsFlag, c.peerChunkSize, pos, Finish(c, s.header.csid, t, q))
  {
    hide Split, AllRoomy, SoundStreams;
    var end := End(s, c.peerChunkSize);
    if end == |s.message| {
      assert t.msg.buf[t.msg.b..t.msg.e] == t.msg.buf[..end] == s.message;
    }
  }

  lemma TakesPart(c: State, s: Sending, u: StreamState)
    requires s.i < |s.message| && (s.i > 0 ==> c.peerChunkSize < |s.message|)
    requires u.msg.Sound() && Carries(s, u) && !Overlong(u, c.peerChunkSize)
    ensures NeededSize(u, c.peerChunkSize) == End(s, c.peerChunkSize) - s.i
    ensures u.msg.e + NeededSize(u, c.peerChunkSize) <= |u.msg.buf|
  {
  }

  lemma BeginStep(c: State, h: RtmpHeader, message: seq<byte>, input: seq<byte>, pos: nat)
    requires c.peerChunkSize > 0 && AllRoomy(c) && c.Sound() && Sendable(h, message)
    requires h.csid in c.streams ==> c.streams[h.csid].msg.e == 0
    requires At(input, pos, ChunkOf(Sending(h, message, 0), c.peerChunkSize))
    ensures Advances(c.streams, Sending(h, message, 0), true, c.peerChunkSize, pos + |CalcHeader(h, None)|,
                     Step(c, input, pos))
  {
    hide *;
    var s := Sending(h, message, 0);
    FreshStream(c, h.csid);
    var t := c.GetOrCreateStream(h.csid);
    SendableParts(h, message);
    ChunkAt(s, c.peerChunkSize, input, pos);
    IdleReserves(t, h.msgLen);
    var u := FirstChunk(c, t, h, message, input, pos);
    ReservedAnnounced(t, u);
    StartHolds(s, u, c.peerChunkSize);
    SetFlag(c);
    PayloadStep(c.(absTsFlag := true), s, u, 0, input, pos + |CalcHeader(h, None)|);
    StepIs(c, input, pos);
  }

  lemma FreshStream(c: State, csid: int)
    requires AllRoomy(c) && c.Sound() && (csid in c.streams ==> c.streams[csid].msg.e == 0)
    ensures var t := c.GetOrCreateStream(csid); Roomy(t) && t.msg.e == 0
  {
    assert Roomy(NEW_STREAM);
  }

  lemma SendableParts(h: RtmpHeader, message: seq<byte>)
    requires Sendable(h, message)
    ensures Readable(h, message)
    ensures Expressible(h, message) && h.timestampAbs != MAX_TIMESTAMP && 0 < |message| && h.msgLen < 0x100_0000
  {
  }

  lemma SendableType(h: RtmpHeader, message: seq<byte>)
    requires Sendable(h, message)
    ensures h.msgLen == |message| && h.msgTypeId != SET_CHUNK_SIZE && h.msgTypeId != AGGREGATE_MESSAGE
  {
  }

  lemma ChunkAt(s: Sending, chunkSize: nat, input: seq<byte>, pos: nat)
    requires s.i <= |s.message| && At(input, pos, ChunkOf(s, chunkSize))
    ensures
      var head := CalcHeader(s.header, if s.i == 0 then None else Some(s.header));
      At(input, pos, head) && At(input, pos + |head|, s.message[s.i..End(s, chunkSize)])
      && |ChunkOf(s, chunkSize)| == |head| + End(s, chunkSize) - s.i
  {
    hide At, CalcHeader;
    var head := CalcHeader(s.header, if s.i == 0 then None else Some(s.header));
    AtSplit(input, pos, head, s.message[s.i..End(s, chunkSize)]);
  }

  lemma StepIs(c: State, input: seq<byte>, pos: nat)
    requires c.Sound() && ReadBasic(input, pos).Some?
    ensures
      var basic := ReadBasic(input, pos).value;
      Step(c, input, pos) == Chunk(c, basic, c.GetOrCreateStream(basic.csid), input)
  {
    hide Chunk;
  }

  lemma StartHolds(s: Sending, u: StreamState, chunkSize: uint32)
    requires Readable(s.header, s.message) && s.i == 0
    requires u.header == s.header.(csid := u.header.csid) && u.timestamp == s.header.timestampAbs
    requires u.msg.e == 0 && Announced(u, 0)
    ensures Holds(s, u) && !Overlong(u, chunkSize)
  {
  }

  lemma SetFlag(c: State)
    requires AllRoomy(c) && c.Sound()
    ensures AllRoomy(c.(absTsFlag := true)) && c.(absTsFlag := true).Sound()
  {
  }

  lemma OpenHolds(s: Sending, t: StreamState, chunkSize: uint32)
    requires Underway(s.header.csid, s, chunkSize) && Holds(s, t) && Roomy(t)
    ensures Announced(t, 3) && !Overlong(t, chunkSize) && Steady(s.header, t.timestamp)
    ensures Sendable(s.header, s.message) && 0 < s.i < |s.message| && chunkSize < |s.message|
  {
  }

  lemma ContinueStep(c: State, s: Sending, input: seq<byte>, pos: nat)
    requires c.peerChunkSize > 0 && AllRoomy(c) && c.Sound() && Underway(s.header.csid, s, c.peerChunkSize)
    requires s.header.csid in c.streams && Holds(s, c.streams[s.header.csid])
    requires At(input, pos, ChunkOf(s, c.peerChunkSize))
    ensures Advances(c.streams, s, c.absTsFlag, c.peerChunkSize, pos + |CalcHeader(s.header, Some(s.header))|,
                     Step(c, input, pos))
  {
    hide *;
    var h := s.header;
    KnownStream(c, h.csid);
    var t := c.GetOrCreateStream(h.csid);
    OpenHolds(s, t, c.peerChunkSize);
    SendableParts(h, s.message);
    ChunkAt(s, c.peerChunkSize, input, pos);
    NextChunk(c, t, h, s.message, input, pos);
    PayloadStep(c, s, t, 3, input, pos + |CalcHeader(h, Some(h))|);
    StepIs(c, input, pos);
  }

  lemma KnownStream(c: State, csid: int)
    requires AllRoomy(c) && c.Sound() && csid in c.streams
    ensures c.GetOrCreateStream(csid) == c.streams[csid] && Roomy(c.streams[csid])
  {
  }

  /** Keeping track of a chunk's stream keeps track of all. */
  lemma Advanced(sender: Sender, c: State, event: Event, pos: nat, r: Outcome)
    requires c.peerChunkSize > 0 && SenderValid(sender, c.peerChunkSize) && Legal(sender, event)
    requires Tracks(sender, c, c.peerChunkSize)
    requires Advances(c.streams, Subject(sender, event), sender.begun || event.Begin?, c.peerChunkSize, pos, r)
    ensures r.out == CompletedBy(sender, event, c.peerChunkSize)
    ensures Tracks(After(sender, event, c.peerChunkSize), r.state, c.peerChunkSize)
  {
    hide Holds, AllRoomy, Stamped, Roomy;
    SoundAll(r.state);
  }

  lemma SoundAll(c: State)
    requires AllRoomy(c)
    ensures c.Sound()
  {
  }

  /** One event: the composer takes the chunk, completes the same message and keeps track. */
  lemma EventStep(sender: Sender, c: State, event: Event, input: seq<byte>, pos: nat)
    requires c.peerChunkSize > 0 && SenderValid(sender, c.peerChunkSize) && Legal(sender, event)
    requires Tracks(sender, c, c.peerChunkSize)
    requires At(input, pos, ChunkOf(Subject(sender, event), c.peerChunkSize))
    ensures
      var r := Step(c, input, pos);
      r.Next? && r.pos == pos + |ChunkOf(Subject(sender, event), c.peerChunkSize)|
      && r.out == CompletedBy(sender, event, c.peerChunkSize)
      && r.state.peerChunkSize == c.peerChunkSize
      && Tracks(After(sender, event, c.peerChunkSize), r.state, c.peerChunkSize)
  {
    hide At, Step, AllRoomy, Holds, SoundStreams, CalcHeader;
    match event
    case Begin(h, message) =>
      BeginStep(c, h, message, input, pos);
      Advanced(sender, c, event, pos + |CalcHeader(h, None)|, Step(c, input, pos));
    case Continue(csid) =>
      var s := sender.open[csid];
      ContinueStep(c, s, input, pos);
      Advanced(sender, c, event, pos + |CalcHeader(s.header, Some(s.header))|, Step(c, input, pos));
  }

  // Whole runs

  /** A sender's run: each event is legal when it happens. */
  predicate LegalRun(sender: Sender, events: seq<Event>, chunkSize: nat)
    decreases |events|
  {
    events != [] ==> Legal(sender, events[0]) && LegalRun(After(sender, events[0], chunkSize), events[1..], chunkSize)
  }

  /** The bytes of a run, and the messages completed in it, in the order of completion. */
  function Sent(sender: Sender, events: seq<Event>, chunkSize: nat): seq<byte>
    requires LegalRun(sender, events, chunkSize) && SenderValid(sender, chunkSize) && chunkSize > 0
    decreases |events|
  {
    if events == [] then []
    else
      AfterValid(sender, events[0], chunkSize);
      ChunkOf(Subject(sender, events[0]), chunkSize) + Sent(After(sender, events[0], chunkSize), events[1..], chunkSize)
  }

  function AllCompleted(sender: Sender, events: seq<Event>, chunkSize: nat): seq<Delivery>
    requires LegalRun(sender, events, chunkSize)
    decreases |events|
  {
    if events == [] then []
    else CompletedBy(sender, events[0], chunkSize) + AllCompleted(After(sender, events[0], chunkSize), events[1..], chunkSize)
  }

  /** From any tracking state: the composer hands on what the run completes, and waits for more. */
  lemma {:induction false} RunTracks(sender: Sender, c: State, events: seq<Event>, input: seq<byte>, pos: nat)
    requires c.peerChunkSize > 0 && SenderValid(sender, c.peerChunkSize) && LegalRun(sender, events, c.peerChunkSize)
    requires Tracks(sender, c, c.peerChunkSize) && c.Sound()
    requires At(input, pos, Sent(sender, events, c.peerChunkSize))
    requires pos + |Sent(sender, events, c.peerChunkSize)| == |input|
    ensures Run(c, input, pos) == (AllCompleted(sender, events, c.peerChunkSize), EndOfInput)
    decreases |events|
  {
    hide *;
    var n := c.peerChunkSize;
    if events == [] {
      NothingSent(sender, n);
      RunEnds(c, input);
    } else {
      FirstSent(sender, events, n);
      var next := After(sender, events[0], n);
      var head := ChunkOf(Subject(sender, events[0]), n);
      AtSplit(input, pos, head, Sent(next, events[1..], n));
      EventStep(sender, c, events[0], input, pos);
      RunStep(c, input, pos);
      RunTracks(next, Step(c, input, pos).state, events[1..], input, pos + |head|);
    }
  }

  lemma NothingSent(sender: Sender, chunkSize: nat)
    requires SenderValid(sender, chunkSize) && chunkSize > 0
    ensures LegalRun(sender, [], chunkSize)
    ensures Sent(sender, [], chunkSize) == [] && AllCompleted(sender, [], chunkSize) == []
  {
  }

  lemma FirstSent(sender: Sender, events: seq<Event>, chunkSize: nat)
    requires SenderValid(sender, chunkSize) && chunkSize > 0 && events != [] && LegalRun(sender, events, chunkSize)
    ensures Legal(sender, events[0]) && Subject(sender, events[0]).i <= |Subject(sender, events[0]).message|
    ensures
      var next := After(sender, events[0], chunkSize);
      SenderValid(next, chunkSize) && LegalRun(next, events[1..], chunkSize)
      && Sent(sender, events, chunkSize)
        == ChunkOf(Subject(sender, events[0]), chunkSize) + Sent(next, events[1..], chunkSize)
      && AllCompleted(sender, events, chunkSize)
        == CompletedBy(sender, events[0], chunkSize) + AllCompleted(next, events[1..], chunkSize)
  {
    hide ChunkOf, CompletedBy, After;
    AfterValid(sender, events[0], chunkSize);
  }

  lemma RunStep(c: State, input: seq<byte>, pos: nat)
    requires c.Sound() && pos <= |input| && Step(c, input, pos).Next?
    ensures
      var r := Step(c, input, pos);
      var rest := Run(r.state, input, r.pos);
      Run(c, input, pos) == (r.out + rest.0, rest.1)
  {
    hide Step;
  }

  lemma RunEnds(c: State, input: seq<byte>)
    requires c.Sound()
    ensures Run(c, input, |input|) == ([], EndOfInput)
  {
    assert ReadBasic(input, |input|) == None;
  }
}
