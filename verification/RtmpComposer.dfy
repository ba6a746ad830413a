/** Reassembling RTMP messages from chunks, one chunk per step: the streams of `rtmp/stream.go` and
    the loop of `rtmp/chunk_composer.go`, on values. */
module RtmpComposer {
  import opened Bytes
  import opened RtmpDivider
  import opened Wire

  const INIT_MSG_LEN := 4096
  const DEFAULT_CHUNK_SIZE: uint32 := 128
  const SET_CHUNK_SIZE: byte := 1
  const AGGREGATE_MESSAGE: byte := 22

  /** The buffer behind a stream: `buf[b..e]` is unread, the space after `e` is free. */
  datatype Msg = Msg(buf: seq<byte>, b: nat, e: nat) {
    predicate Sound() {
      b <= e <= |buf| && 4 <= |buf| < 0x1_0000_0000
    }

    function Len(): nat
      requires Sound()
    {
      e - b
    }
  }

  datatype StreamState = StreamState(header: RtmpHeader, msg: Msg, timestamp: uint32)

  const NEW_STREAM := StreamState(RtmpHeader(0, 0, 0, 0, 0), Msg(Zeros(INIT_MSG_LEN), 0, 0), 0)

  predicate SoundStreams(streams: map<int, StreamState>) {
    forall csid | csid in streams :: streams[csid].msg.Sound()
  }

  /** The composer between two chunks; `absTsFlag` is the flag its loop shares among all streams. */
  datatype State = State(peerChunkSize: uint32, streams: map<int, StreamState>, absTsFlag: bool) {
    predicate Sound() {
      SoundStreams(streams)
    }

    function GetOrCreateStream(csid: int): (s: StreamState)
      requires Sound()
      ensures s.msg.Sound()
    {
      if csid in streams then streams[csid] else NEW_STREAM
    }
  }

  const FRESH := State(DEFAULT_CHUNK_SIZE, map[], false)

  /** What the callback is handed. */
  datatype Delivery = Delivery(header: RtmpHeader, payload: seq<byte>)

  /** Why the loop ends: the input is used up, an error is returned, or the program itself fails
      (a slice out of bounds, or the doubling of `reserve` that never ends). */
  datatype Reason = EndOfInput | ErrRtmp | Broken
  datatype Outcome = Next(state: State, pos: nat, out: seq<Delivery>) | Stop(out: seq<Delivery>, why: Reason)

  // Reserving space

  /** The free space, doubled until it covers `n`. */
  function Doubled(free: nat, n: nat): (r: nat)
    requires free > 0
    ensures r >= n && r >= free && (r == free || r < 2 * n)
    decreases if free < n then n - free else 0
  {
    if free < n then Doubled(2 * free, n) else free
  }

  /** `None` when the doubling starts at 0 and never ends, or the capacity leaves 32 bits. */
  function Reserve(m: Msg, n: uint24): (r: Option<Msg>)
    requires m.Sound()
    ensures r.Some? ==> r.value.Sound() && r.value.b == m.b && r.value.e == m.e
    ensures r.Some? && m.b == 0 ==> r.value.buf[..m.e] == m.buf[..m.e]
  {
    var free := |m.buf| - m.e;
    if free > n then Some(m)
    else if free == 0 && n > 0 then None
    else
      var nn := if free == 0 then 0 else Doubled(free, n);
      if |m.buf| + nn >= 0x1_0000_0000 then None
      else Some(Moved(m, nn))
  }

  /** The unread bytes move to the front of a new buffer, but `b` and `e` stay as they are: they
      keep their place only when `b` is 0. */
  function Moved(m: Msg, nn: nat): (r: Msg)
    requires m.Sound() && |m.buf| + nn < 0x1_0000_0000
    ensures r.Sound() && r.b == m.b && r.e == m.e && |r.buf| == |m.buf| + nn
    ensures m.b == 0 ==> r.buf[..r.e] == m.buf[..m.e]
  {
    Msg(m.buf[m.b..m.e] + Zeros(|m.buf| + nn - (m.e - m.b)), m.b, m.e)
  }

  // One chunk

  datatype Basic = Basic(fmt: nat, csid: int, next: nat)

  /** The basic header: the format, and a chunk stream id of 6, 8 or 16 bits. */
  function ReadBasic(input: seq<byte>, pos: nat): (r: Option<Basic>)
    ensures r.Some? ==> r.value.fmt <= 3 && pos < r.value.next <= |input|
  {
    if pos >= |input| then None
    else
      var fmt, low := input[pos] / 0x40, input[pos] % 0x40;
      if low == 0 then
        if pos + 2 > |input| then None else Some(Basic(fmt, 64 + input[pos + 1] as int, pos + 2))
      else if low == 1 then
        if pos + 3 > |input| then None
        else Some(Basic(fmt, 64 + input[pos + 1] as int + input[pos + 2] as int * 0x100, pos + 3))
      else Some(Basic(fmt, low as int, pos + 1))
  }

  function HeaderSize(fmt: nat): nat {
    if fmt == 0 then 11 else if fmt == 1 then 7 else if fmt == 2 then 3 else 0
  }

  /** The fields of a message header of format `fmt`, before any buffer is reserved. */
  function ReadFields(s: StreamState, fmt: nat, input: seq<byte>, pos: nat): (r: StreamState)
    requires pos + HeaderSize(fmt) <= |input|
    ensures r.msg == s.msg
    ensures if fmt <= 1 then r.header.msgLen < 0x100_0000 else r.header == s.header
  {
    if fmt == 0 then
      var ts: uint32 := Be24At(input, pos);
      s.(header := RtmpHeader(s.header.csid, Be24At(input, pos + 3), input[pos + 6], Le32At(input, pos + 7), ts),
         timestamp := ts)
    else if fmt == 1 then
      s.(header := s.header.(msgLen := Be24At(input, pos + 3), msgTypeId := input[pos + 6]),
         timestamp := Be24At(input, pos))
    else if fmt == 2 then s.(timestamp := Be24At(input, pos))
    else s
  }

  /** Formats 0 and 1 announce a length, for which space is reserved. */
  function Announce(s: StreamState, fmt: nat): (r: Option<StreamState>)
    requires s.msg.Sound() && (fmt <= 1 ==> s.header.msgLen < 0x100_0000)
    ensures r.Some? ==> r.value.msg.Sound() && r.value.header == s.header && r.value.timestamp == s.timestamp
    ensures r.Some? ==> r.value.msg.b == s.msg.b && r.value.msg.e == s.msg.e
    ensures r.Some? && s.msg.b == 0 ==> r.value.msg.buf[..s.msg.e] == s.msg.buf[..s.msg.e]
  {
    if fmt <= 1 then
      match Reserve(s.msg, s.header.msgLen)
      case None => None
      case Some(m) => Some(s.(msg := m))
    else Some(s)
  }

  function ExtendedSize(s: StreamState): nat {
    if s.timestamp >= MAX_TIMESTAMP then 4 else 0
  }

  /** The extended timestamp, present whenever the stream's last 3-byte timestamp was the largest. */
  function ReadExtended(s: StreamState, fmt: nat, input: seq<byte>, pos: nat): (r: StreamState)
    requires pos + ExtendedSize(s) <= |input|
    ensures r.msg == s.msg && r.header == s.header.(timestampAbs := r.header.timestampAbs)
  {
    if s.timestamp < MAX_TIMESTAMP then s
    else
      var ts := Be32At(input, pos);
      var ts0 := s.header.timestampAbs;
      var abs := if fmt == 0 then ts else if fmt <= 2 then Wrap32(ts0 - MAX_TIMESTAMP + ts) else ts0;
      s.(header := s.header.(timestampAbs := abs), timestamp := ts)
  }

  /** How many payload bytes the chunk carries. */
  function NeededSize(s: StreamState, peerChunkSize: uint32): (n: uint32)
    requires s.msg.Sound()
    ensures n <= peerChunkSize
  {
    if s.header.msgLen <= peerChunkSize then s.header.msgLen
    else
      var owed := Wrap32(s.header.msgLen - s.msg.Len());
      if owed > peerChunkSize then peerChunkSize else owed
  }

  /** The payload read into the free space. */
  function Fill(m: Msg, part: seq<byte>): (r: Msg)
    requires m.Sound() && m.e + |part| <= |m.buf|
    ensures r.Sound() && r.b == m.b && r.e == m.e + |part| && |r.buf| == |m.buf|
    ensures r.buf[..r.e] == m.buf[..m.e] + part
  {
    Msg(m.buf[..m.e] + part + m.buf[m.e + |part|..], m.b, m.e + |part|)
  }

  /** The header of the sub-message at `b`; its timestamp counts from that of the first. */
  function SubHeader(buf: seq<byte>, b: nat, header: RtmpHeader, first: uint32): RtmpHeader
    requires b + 11 <= |buf|
  {
    RtmpHeader(header.csid, Be24At(buf, b + 1), buf[b], Be24At(buf, b + 8),
               Wrap32(header.timestampAbs + SubTimestamp(buf, b) - first))
  }

  /** 24 bits and above them the extension byte. */
  function SubTimestamp(buf: seq<byte>, b: nat): uint32
    requires b + 11 <= |buf|
  {
    Be24At(buf, b + 4) + buf[b + 7] as int * 0x100_0000
  }

  function FirstTimestamp(buf: seq<byte>, b: nat, first: Option<uint32>): uint32
    requires b + 11 <= |buf|
  {
    if first.Some? then first.value else SubTimestamp(buf, b)
  }

  /** The sub-messages of an aggregate in `buf[b..e]`; false when a length does not fit. */
  function Split(buf: seq<byte>, b: nat, e: nat, header: RtmpHeader, first: Option<uint32>)
    : (r: (seq<Delivery>, bool))
    requires b <= e <= |buf|
    decreases e - b
  {
    if b == e then ([], true)
    else if e < b + 11 then ([], false)
    else
      var start := FirstTimestamp(buf, b, first);
      var sub := SubHeader(buf, b, header, start);
      if e < b + 11 + sub.msgLen then ([], false)
      else
        var d := Delivery(sub, buf[b + 11..b + 11 + sub.msgLen]);
        if e < b + 15 + sub.msgLen then ([d], false)
        else
          var rest := Split(buf, b + 15 + sub.msgLen, e, header, Some(start));
          ([d] + rest.0, rest.1)
  }

  /** The header a completed message is delivered with. */
  function Completed(s: StreamState, csid: int, absTsFlag: bool): RtmpHeader {
    s.header.(csid := csid,
      timestampAbs := if absTsFlag then s.header.timestampAbs else Wrap32(s.header.timestampAbs + s.timestamp))
  }

  /** A completed message is handed on: its stream afterwards, and what the callback gets. */
  datatype Handed = Handed(stream: StreamState, out: seq<Delivery>, ok: bool)

  function HandOn(s: StreamState, csid: int, absTsFlag: bool): (r: Handed)
    requires s.msg.Sound()
    ensures r.stream.msg.Sound()
  {
    var h := Completed(s, csid, absTsFlag);
    if h.msgTypeId == AGGREGATE_MESSAGE then
      var split := Split(s.msg.buf, s.msg.b, s.msg.e, h, None);
      Handed(StreamState(h, s.msg.(b := s.msg.e), s.timestamp), split.0, split.1)
    else
      Handed(StreamState(h, s.msg.(b := 0, e := 0), s.timestamp), [Delivery(h, s.msg.buf[s.msg.b..s.msg.e])], true)
  }

  /** After the payload: a completed message may set the chunk size, and is handed on. */
  function Finish(c: State, csid: int, s: StreamState, pos: nat): (r: Outcome)
    requires c.Sound() && s.msg.Sound()
    ensures r.Next? ==> r.state.Sound() && r.pos == pos
  {
    if s.msg.Len() == s.header.msgLen then
      var peer := if s.header.msgTypeId == SET_CHUNK_SIZE then Be32(s.msg.buf) else c.peerChunkSize;
      var r := HandOn(s, csid, c.absTsFlag);
      if r.ok then Next(State(peer, c.streams[csid := r.stream], false), pos, r.out) else Stop(r.out, ErrRtmp)
    else if s.msg.Len() > s.header.msgLen then Stop([], ErrRtmp)
    else Next(c.(streams := c.streams[csid := s]), pos, [])
  }

  /** The payload of the chunk at `pos`. */
  function Payload(c: State, csid: int, s: StreamState, input: seq<byte>, pos: nat): (r: Outcome)
    requires c.Sound() && s.msg.Sound() && pos <= |input|
    ensures r.Next? ==> r.state.Sound() && pos <= r.pos <= |input|
  {
    var needed := NeededSize(s, c.peerChunkSize);
    if s.msg.e + needed > |s.msg.buf| then Stop([], Broken)
    else if pos + needed > |input| then Stop([], EndOfInput)
    else Finish(c, csid, s.(msg := Fill(s.msg, input[pos..pos + needed])), pos + needed)
  }

  /** The chunk with the given basic header, on its stream `s`. */
  function Chunk(c: State, basic: Basic, s: StreamState, input: seq<byte>): (r: Outcome)
    requires c.Sound() && s.msg.Sound() && basic.next <= |input|
    ensures r.Next? ==> r.state.Sound() && basic.next <= r.pos <= |input|
  {
    var fmt, p := basic.fmt, basic.next;
    if p + HeaderSize(fmt) > |input| then Stop([], EndOfInput)
    else
      match Announce(ReadFields(s, fmt, input, p), fmt)
      case None => Stop([], Broken)
      case Some(t) =>
        var q := p + HeaderSize(fmt);
        if q + ExtendedSize(t) > |input| then Stop([], EndOfInput)
        else
          Payload(c.(absTsFlag := c.absTsFlag || fmt == 0), basic.csid, ReadExtended(t, fmt, input, q),
                  input, q + ExtendedSize(t))
  }

  /** The loop body: one chunk at `pos`. */
  function Step(c: State, input: seq<byte>, pos: nat): (r: Outcome)
    requires c.Sound()
    ensures r.Next? ==> r.state.Sound() && pos < r.pos <= |input|
  {
    match ReadBasic(input, pos)
    case None => Stop([], EndOfInput)
    case Some(basic) => Chunk(c, basic, c.GetOrCreateStream(basic.csid), input)
  }

  /** All chunks from `pos` on. */
  function Run(c: State, input: seq<byte>, pos: nat): (r: (seq<Delivery>, Reason))
    requires c.Sound() && pos <= |input|
    decreases |input| - pos
  {
    match Step(c, input, pos)
    case Stop(out, why) => (out, why)
    case Next(d, next, out) =>
      var rest := Run(d, input, next);
      (out + rest.0, rest.1)
  }
}
