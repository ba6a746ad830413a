/** The mutable composer of `rtmp/chunk_composer.go` and the streams of `rtmp/stream.go`, proved to
    do what the steps on values say. */
module RtmpChunkComposer {
  import opened Bytes
  import opened RtmpDivider
  import opened RtmpComposer
  import opened Wire

  /** A stream; the struct `StreamMsg` it holds by value gives it the fields `buf`, `b` and `e`. */
  class Stream {
    var header: RtmpHeader
    var buf: seq<byte>
    var b: nat
    var e: nat
    var timestamp: uint32

    ghost function Value(): StreamState
      reads this
    {
      StreamState(header, Msg(buf, b, e), timestamp)
    }

    ghost predicate Valid()
      reads this
    {
      Value().msg.Sound()
    }

    constructor ()
      ensures Value() == NEW_STREAM && Valid()
    {
      header := RtmpHeader(0, 0, 0, 0, 0);
      buf := Zeros(INIT_MSG_LEN);
      b, e, timestamp := 0, 0, 0;
    }

    /** `reserve`; `ok` is false where the source's doubling loop would not end. */
    method Reserve(n: uint24) returns (ok: bool)
      requires Valid()
      modifies `buf
      ensures Valid() && ok == RtmpComposer.Reserve(old(Value()).msg, n).Some?
      ensures ok ==> Value().msg == RtmpComposer.Reserve(old(Value()).msg, n).value
    {
      var bufCap := |buf|;
      var nn := bufCap - e;
      if nn > n {
        return true;
      }
      if nn == 0 && n > 0 {
        return false;
      }
      ghost var free := nn;
      while nn < n
        invariant nn >= free && (free == 0 ==> n == nn == 0)
        invariant free > 0 ==> Doubled(nn, n) == Doubled(free, n)
        decreases n - nn
      {
        nn := nn * 2;
      }
      if bufCap + nn >= 0x1_0000_0000 {
        return false;
      }
      buf := buf[b..e] + Zeros(bufCap + nn - (e - b));
      return true;
    }

    method Len() returns (n: nat)
      requires Valid()
      ensures n == Value().msg.Len()
    {
      return e - b;
    }

    /** How many bytes the next chunk carries. */
    method Needed(peerChunkSize: uint32) returns (neededSize: uint32)
      requires Valid()
      ensures neededSize == NeededSize(Value(), peerChunkSize)
    {
      var len := Len();
      neededSize := header.msgLen;
      if header.msgLen > peerChunkSize {
        neededSize := Wrap32(header.msgLen - len);
        if neededSize > peerChunkSize {
          neededSize := peerChunkSize;
        }
      }
    }

    /** The read into the free space, then `produced`. */
    method Produced(part: seq<byte>)
      requires Valid() && e + |part| <= |buf|
      modifies `buf, `e
      ensures Valid() && Value().msg == Fill(old(Value()).msg, part)
    {
      buf := buf[..e] + part + buf[e + |part|..];
      e := e + |part|;
    }

    method Clear()
      requires Valid()
      modifies `b, `e
      ensures Valid() && b == 0 && e == 0
    {
      b, e := 0, 0;
    }

    /** The message header of a chunk, with the space it asks for. */
    method ReadMessageHeader(fmt: nat, input: seq<byte>, pos: nat) returns (ok: bool)
      requires Valid() && fmt <= 3 && pos + HeaderSize(fmt) <= |input|
      modifies this
      ensures Valid()
      ensures
        var r := Announce(ReadFields(old(Value()), fmt, input, pos), fmt);
        ok == r.Some? && (ok ==> Value() == r.value)
    {
      ok := true;
      if fmt == 0 {
        timestamp := Be24At(input, pos);
        header := header.(timestampAbs := timestamp, msgLen := Be24At(input, pos + 3), msgTypeId := input[pos + 6],
          msgStreamId := Le32At(input, pos + 7));
        ok := Reserve(header.msgLen);
      } else if fmt == 1 {
        timestamp := Be24At(input, pos);
        header := header.(msgLen := Be24At(input, pos + 3), msgTypeId := input[pos + 6]);
        ok := Reserve(header.msgLen);
      } else if fmt == 2 {
        timestamp := Be24At(input, pos);
      }
    }

    method ReadExtendedTimestamp(fmt: nat, input: seq<byte>, pos: nat)
      requires Valid() && fmt <= 3 && pos + ExtendedSize(Value()) <= |input|
      modifies `timestamp, `header
      ensures Valid() && Value() == ReadExtended(old(Value()), fmt, input, pos)
    {
      if timestamp >= MAX_TIMESTAMP {
        timestamp := Be32At(input, pos);
        if fmt == 0 {
          header := header.(timestampAbs := timestamp);
        } else if fmt == 1 || fmt == 2 {
          header := header.(timestampAbs := Wrap32(header.timestampAbs - MAX_TIMESTAMP + timestamp));
        }
      }
    }

    /** Hands on the sub-messages of an aggregate. */
    method SplitAggregate() returns (out: seq<Delivery>, ok: bool)
      requires Valid()
      modifies `b
      ensures Valid() && (out, ok) == Split(buf, old(b), e, header, None)
      ensures ok ==> b == e
    {
      hide Split, Left, SubHeader, SubTimestamp;
      var first: Option<uint32> := None;
      var buf, i, e, header := buf, b, e, header;
      ghost var all := Split(buf, i, e, header, None);
      LeftFirst(buf, i, e, header);
      out := [];
      while i != e
        invariant Valid() && i <= e && Left(all, out, buf, i, e, header, first)
        decreases e - i
      {
        LeftStep(all, out, buf, i, e, header, first);
        if e - i < 11 {
          return out, false;
        }
        if first.None? {
          first := Some(SubTimestamp(buf, i));
        }
        var sub := SubHeader(buf, i, header, first.value);
        i := i + 11;
        if e - i < sub.msgLen {
          return out, false;
        }
        out := out + [Delivery(sub, buf[i..i + sub.msgLen])];
        i := i + sub.msgLen;
        if e - i < 4 {
          return out, false;
        }
        i := i + 4;
      }
      b := e;
      LeftNone(all, out, buf, e, header, first);
      return out, true;
    }

    /** A completed message: its timestamp, the callback, and the buffer cleared. */
    method HandOn(csid: int, absTsFlag: bool) returns (out: seq<Delivery>, ok: bool)
      requires Valid()
      modifies this
      ensures
        var r := RtmpComposer.HandOn(old(Value()), csid, absTsFlag);
        Valid() && out == r.out && ok == r.ok && (ok ==> Value() == r.stream)
    {
      hide Split, Wrap32;
      header := header.(csid := csid);
      if !absTsFlag {
        header := header.(timestampAbs := Wrap32(header.timestampAbs + timestamp));
      }
      if header.msgTypeId == AGGREGATE_MESSAGE {
        out, ok := SplitAggregate();
      } else {
        out, ok := [Delivery(header, buf[b..e])], true;
        Clear();
      }
    }
  }

  /** `out` and what is left to split make up `all`. */
  ghost predicate Left(all: (seq<Delivery>, bool), out: seq<Delivery>,
    buf: seq<byte>, b: nat, e: nat, header: RtmpHeader, first: Option<uint32>)
    requires b <= e <= |buf|
  {
    var rest := Split(buf, b, e, header, first);
    all.0 == out + rest.0 && all.1 == rest.1
  }

  lemma LeftFirst(buf: seq<byte>, b: nat, e: nat, header: RtmpHeader)
    requires b <= e <= |buf|
    ensures Left(Split(buf, b, e, header, None), [], buf, b, e, header, None)
  {
    hide Split;
    var none: seq<Delivery> := [];
    assert none + Split(buf, b, e, header, None).0 == Split(buf, b, e, header, None).0;
  }

  lemma LeftNone(all: (seq<Delivery>, bool), out: seq<Delivery>,
    buf: seq<byte>, e: nat, header: RtmpHeader, first: Option<uint32>)
    requires e <= |buf| && Left(all, out, buf, e, e, header, first)
    ensures all == (out, true)
  {
    var none: seq<Delivery> := [];
    assert out + none == out;
  }

  lemma LeftStep(all: (seq<Delivery>, bool), out: seq<Delivery>,
    buf: seq<byte>, b: nat, e: nat, header: RtmpHeader, first: Option<uint32>)
    requires b < e <= |buf| && Left(all, out, buf, b, e, header, first)
    ensures e < b + 11 ==> all == (out, false)
    ensures e >= b + 11 ==>
      var start := FirstTimestamp(buf, b, first);
      var sub := SubHeader(buf, b, header, start);
      if e < b + 11 + sub.msgLen then all == (out, false)
      else
        var d := Delivery(sub, buf[b + 11..b + 11 + sub.msgLen]);
        if e < b + 15 + sub.msgLen then all == (out + [d], false)
        else Left(all, out + [d], buf, b + 15 + sub.msgLen, e, header, Some(start))
  {
    hide SubHeader, FirstTimestamp;
    var none: seq<Delivery> := [];
    assert out + none == out;
    if e >= b + 11 {
      var start := FirstTimestamp(buf, b, first);
      var sub := SubHeader(buf, b, header, start);
      if e >= b + 15 + sub.msgLen {
        ConcatAssociative(out, [Delivery(sub, buf[b + 11..b + 11 + sub.msgLen])],
                          Split(buf, b + 15 + sub.msgLen, e, header, Some(start)).0);
      }
    }
  }

  /** The chunk from its extended timestamp on. */
  function Rest(c: State, basic: Basic, t: StreamState, input: seq<byte>, q: nat): Outcome
    requires c.Sound() && t.msg.Sound() && q <= |input|
  {
    if q + ExtendedSize(t) > |input| then Stop([], EndOfInput)
    else Payload(c, basic.csid, ReadExtended(t, basic.fmt, input, q), input, q + ExtendedSize(t))
  }

  lemma ChunkCases(c: State, basic: Basic, s: StreamState, input: seq<byte>)
    requires c.Sound() && s.msg.Sound() && basic.next <= |input|
    ensures
      var p := basic.next + HeaderSize(basic.fmt);
      if p > |input| then Chunk(c, basic, s, input) == Stop([], EndOfInput)
      else
        match Announce(ReadFields(s, basic.fmt, input, basic.next), basic.fmt)
        case None => Chunk(c, basic, s, input) == Stop([], Broken)
        case Some(t) =>
          Chunk(c, basic, s, input) == Rest(c.(absTsFlag := c.absTsFlag || basic.fmt == 0), basic, t, input, p)
  {
    hide Payload, ReadFields, Announce, ReadExtended, SoundStreams;
  }

  class ChunkComposer {
    var peerChunkSize: uint32
    var csid2stream: map<int, Stream>

    ghost predicate Valid()
      reads this, csid2stream.Values
    {
      (forall i | i in csid2stream :: csid2stream[i].Valid())
      && (forall i, j | i in csid2stream && j in csid2stream && i != j :: csid2stream[i] != csid2stream[j])
    }

    ghost function Streams(): map<int, StreamState>
      reads this, csid2stream.Values
    {
      map i | i in csid2stream :: csid2stream[i].Value()
    }

    constructor ()
      ensures Valid() && State(peerChunkSize, Streams(), false) == FRESH
    {
      peerChunkSize := DEFAULT_CHUNK_SIZE;
      csid2stream := map[];
    }

    method SetPeerChunkSize(val: uint32)
      modifies `peerChunkSize
      ensures peerChunkSize == val
    {
      peerChunkSize := val;
    }

    /** What `stream`, filed under `csid`, contributes to the composer's value. */
    ghost predicate Files(csid: int, stream: Stream, rest: map<int, StreamState>)
      reads this, csid2stream.Values
    {
      Valid() && csid in csid2stream && csid2stream[csid] == stream && Streams() == rest[csid := stream.Value()]
    }

    lemma Looked(csid: int)
      requires Valid()
      ensures Streams().Keys == csid2stream.Keys && SoundStreams(Streams())
      ensures csid in csid2stream ==>
        var value := csid2stream[csid].Value();
        Streams()[csid] == value && Streams()[csid := value] == Streams()
    {
    }

    method GetOrCreateStream(csid: int) returns (stream: Stream)
      requires Valid()
      modifies `csid2stream
      ensures Files(csid, stream, old(Streams()))
      ensures if csid in old(csid2stream) then csid2stream == old(csid2stream)
        else fresh(stream) && csid2stream == old(csid2stream)[csid := stream]
      ensures stream.Value() == State(peerChunkSize, old(Streams()), false).GetOrCreateStream(csid)
    {
      Looked(csid);
      hide SoundStreams;
      if csid in csid2stream {
        stream := csid2stream[csid];
      } else {
        stream := new Stream();
        csid2stream := csid2stream[csid := stream];
        assert Streams() == old(Streams())[csid := stream.Value()];
      }
    }

    /** A completed message: the chunk size, the timestamp, the callback. */
    method Finish(csid: int, stream: Stream, absTsFlag: bool, pos: nat, ghost c: State)
      returns (flag: bool, out: seq<Delivery>, why: Option<Reason>)
      requires c.Sound() && Files(csid, stream, c.streams)
      requires c.absTsFlag == absTsFlag && c.peerChunkSize == peerChunkSize
      modifies this`peerChunkSize, stream
      ensures Valid() && csid2stream == old(csid2stream)
      ensures Follows(RtmpComposer.Finish(c, csid, old(stream.Value()), pos), pos, flag, out, why)
    {
      hide RtmpComposer.HandOn;
      Filed(csid, stream, c.streams);
      flag, out, why := absTsFlag, [], None;
      var len := stream.Len();
      if len == stream.header.msgLen {
        if stream.header.msgTypeId == SET_CHUNK_SIZE {
          SetPeerChunkSize(Be32(stream.buf));
        }
        var ok;
        out, ok := stream.HandOn(csid, absTsFlag);
        flag := false;
        if !ok {
          why := Some(ErrRtmp);
        }
        Refiled(csid, stream, c.streams);
      } else if len > stream.header.msgLen {
        why := Some(ErrRtmp);
      }
    }

    lemma Filed(csid: int, stream: Stream, rest: map<int, StreamState>)
      requires Files(csid, stream, rest)
      ensures csid2stream.Keys == rest.Keys + {csid}
      ensures forall i | i in csid2stream && i != csid :: csid2stream[i].Value() == rest[i]
    {
      assert csid2stream.Keys == Streams().Keys;
      forall i | i in csid2stream && i != csid
        ensures csid2stream[i].Value() == rest[i]
      {
        assert Streams()[i] == rest[i];
      }
    }

    /** A change to `stream` changes one entry. */
    lemma Refiled(csid: int, stream: Stream, rest: map<int, StreamState>)
      requires csid in csid2stream && csid2stream[csid] == stream && csid2stream.Keys == rest.Keys + {csid}
      requires forall i | i in csid2stream && i != csid :: csid2stream[i].Value() == rest[i]
      ensures Streams() == rest[csid := stream.Value()]
    {
    }

    /** The composer's new state and the results are those of `outcome`. */
    ghost predicate Follows(outcome: Outcome, next: nat, flag: bool, out: seq<Delivery>, why: Option<Reason>)
      reads this, csid2stream.Values
    {
      match outcome
      case Stop(o, w) => out == o && why == Some(w)
      case Next(d, n, o) => out == o && why == None && next == n && d == State(peerChunkSize, Streams(), flag)
    }
  
    /** The loop body. */
    method ReadChunk(input: seq<byte>, pos: nat, absTsFlag: bool, ghost c: State)
      returns (next: nat, flag: bool, out: seq<Delivery>, why: Option<Reason>)
      requires Valid() && c == State(peerChunkSize, Streams(), absTsFlag) && c.Sound()
      modifies this, csid2stream.Values
      ensures Valid() && fresh(csid2stream.Values - old(csid2stream.Values))
      ensures Follows(Step(c, input, pos), next, flag, out, why)
    {
      hide Chunk;
      var basic := ReadBasic(input, pos);
      if basic.None? {
        next, flag, out, why := pos, absTsFlag, [], Some(EndOfInput);
      } else {
        var stream := GetOrCreateStream(basic.value.csid);
        next, flag, out, why := ReadHeader(basic.value, stream, absTsFlag, input, c);
      }
    }

    method ReadHeader(basic: Basic, stream: Stream, absTsFlag: bool, input: seq<byte>, ghost c: State)
      returns (next: nat, flag: bool, out: seq<Delivery>, why: Option<Reason>)
      requires c.Sound() && Files(basic.csid, stream, c.streams) && basic.next <= |input| && basic.fmt <= 3
      requires c.absTsFlag == absTsFlag && c.peerChunkSize == peerChunkSize
      modifies this`peerChunkSize, stream
      ensures Valid() && csid2stream == old(csid2stream)
      ensures Follows(Chunk(c, basic, old(stream.Value()), input), next, flag, out, why)
    {
      hide Payload, ReadFields, Announce, ReadExtended, Chunk, Rest;
      next, flag, out, why := basic.next, absTsFlag, [], Some(EndOfInput);
      var fmt := basic.fmt;
      ChunkCases(c, basic, stream.Value(), input);
      if next + HeaderSize(fmt) > |input| {
        return;
      }
      Filed(basic.csid, stream, c.streams);
      var ok := stream.ReadMessageHeader(fmt, input, next);
      if !ok {
        why := Some(Broken);
        return;
      }
      Refiled(basic.csid, stream, c.streams);
      next, flag, out, why := ReadRest(basic, stream, flag || fmt == 0, input, next + HeaderSize(fmt),
                                       c.(absTsFlag := flag || fmt == 0));
    }

    /** What comes behind the message header. */
    method ReadRest(basic: Basic, stream: Stream, absTsFlag: bool, input: seq<byte>, pos: nat, ghost c: State)
      returns (next: nat, flag: bool, out: seq<Delivery>, why: Option<Reason>)
      requires c.Sound() && Files(basic.csid, stream, c.streams) && pos <= |input| && basic.fmt <= 3
      requires c.absTsFlag == absTsFlag && c.peerChunkSize == peerChunkSize
      modifies this`peerChunkSize, stream
      ensures Valid() && csid2stream == old(csid2stream)
      ensures Follows(Rest(c, basic, old(stream.Value()), input, pos), next, flag, out, why)
    {
      hide Payload, ReadExtended;
      next, flag, out, why := pos, absTsFlag, [], Some(EndOfInput);
      var extendedSize := if stream.timestamp >= MAX_TIMESTAMP then 4 else 0;
      if next + extendedSize > |input| {
        return;
      }
      Filed(basic.csid, stream, c.streams);
      stream.ReadExtendedTimestamp(basic.fmt, input, next);
      next := next + extendedSize;
      Refiled(basic.csid, stream, c.streams);
      next, flag, out, why := ReadPayload(basic.csid, stream, absTsFlag, input, next, c);
    }

    method ReadPayload(csid: int, stream: Stream, absTsFlag: bool, input: seq<byte>, pos: nat, ghost c: State)
      returns (next: nat, flag: bool, out: seq<Delivery>, why: Option<Reason>)
      requires c.Sound() && Files(csid, stream, c.streams) && pos <= |input|
      requires c.absTsFlag == absTsFlag && c.peerChunkSize == peerChunkSize
      modifies this`peerChunkSize, stream
      ensures Valid() && csid2stream == old(csid2stream)
      ensures Follows(Payload(c, csid, old(stream.Value()), input, pos), next, flag, out, why)
    {
      next, flag, out, why := pos, absTsFlag, [], Some(EndOfInput);
      hide NeededSize, Fill, RtmpComposer.Finish;
      var neededSize := stream.Needed(peerChunkSize);
      if stream.e + neededSize > |stream.buf| {
        why := Some(Broken);
        return;
      }
      if pos + neededSize > |input| {
        return;
      }
      Filed(csid, stream, c.streams);
      stream.Produced(input[pos..pos + neededSize]);
      next := pos + neededSize;
      Refiled(csid, stream, c.streams);
      flag, out, why := Finish(csid, stream, absTsFlag, next, c);
    }

    /** The loop over the whole input: the messages handed to the callback, in order, and why it ends. */
    method RunLoop(input: seq<byte>) returns (out: seq<Delivery>, why: Reason)
      requires Valid()
      modifies this, csid2stream.Values
      ensures Valid()
      ensures (out, why) == Run(State(old(peerChunkSize), old(Streams()), false), input, 0)
    {
      ghost var c := State(peerChunkSize, Streams(), false);
      ghost var all := Run(c, input, 0);
      var pos, absTsFlag := 0, false;
      out := [];
      while true
        invariant Valid() && fresh(csid2stream.Values - old(csid2stream.Values))
        invariant pos <= |input| && c == State(peerChunkSize, Streams(), absTsFlag) && c.Sound()
        invariant all.0 == out + Run(c, input, pos).0 && all.1 == Run(c, input, pos).1
        decreases |input| - pos
      {
        RunUnfold(c, input, pos, out);
        ghost var step := Step(c, input, pos);
        var next, flag, part, stop := ReadChunk(input, pos, absTsFlag, c);
        out := out + part;
        if stop.Some? {
          return out, stop.value;
        }
        c := step.state;
        pos, absTsFlag := next, flag;
      }
    }

    static lemma RunUnfold(c: State, input: seq<byte>, pos: nat, out: seq<Delivery>)
      requires c.Sound() && pos <= |input|
      ensures match Step(c, input, pos)
        case Stop(o, w) => Run(c, input, pos) == (o, w)
        case Next(d, n, o) =>
          out + Run(c, input, pos).0 == out + o + Run(d, input, n).0 && Run(c, input, pos).1 == Run(d, input, n).1
    {
      hide Step;
      match Step(c, input, pos)
      case Stop(_, _) =>
      case Next(d, n, o) => ConcatAssociative(out, o, Run(d, input, n).0);
    }
  }
}
