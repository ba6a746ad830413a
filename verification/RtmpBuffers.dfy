/** The buffers behind the chunk streams, over every input: which chunk reads outside its buffer or asks
    for space that is never found, named exactly; and without aggregates no buffer passes 64 MB. */
module RtmpBuffers {
  import opened Bytes
  import opened RtmpComposer
  import opened Wire

  const MAX_CAPACITY := 0x400_0000

  /** The free space, `|buf| - e`, is greater than the bytes still owed, `msgLen - e`. */
  predicate Roomy(s: StreamState) {
    s.msg.b == 0 && s.msg.e <= s.header.msgLen < 0x100_0000 && s.header.msgLen < |s.msg.buf| <= MAX_CAPACITY
    && INIT_MSG_LEN <= |s.msg.buf|
  }

  predicate AllRoomy(c: State) {
    forall csid | csid in c.streams :: Roomy(c.streams[csid])
  }

  /** No stream carries an aggregate message. */
  predicate Plain(c: State) {
    forall csid | csid in c.streams :: c.streams[csid].header.msgTypeId != AGGREGATE_MESSAGE
  }

  /** The doubling starts at 1 or more, ends, and stays within 64 MB. */
  lemma ReserveRoomy(m: Msg, n: uint24)
    requires m.b == 0 && m.e < 0x100_0000 && m.e < |m.buf| <= MAX_CAPACITY && INIT_MSG_LEN <= |m.buf|
    ensures m.Sound() && Reserve(m, n).Some?
    ensures var r := Reserve(m, n).value;
      r.b == 0 && r.e == m.e && n < |r.buf| - r.e && |m.buf| <= |r.buf| <= MAX_CAPACITY
  {
    var free := |m.buf| - m.e;
    if free <= n {
      assert Doubled(free, n) >= n;
    }
  }

  /** After the header, what is still to come fits, and format 0 or 1 leaves room for a whole message. */
  predicate Announced(s: StreamState, fmt: nat) {
    Roomy(s.(msg := s.msg.(e := 0))) && s.msg.e < |s.msg.buf|
    && if fmt <= 1 then s.header.msgLen < |s.msg.buf| - s.msg.e else s.msg.e <= s.header.msgLen
  }

  lemma AnnounceRoomy(s: StreamState, fmt: nat, input: seq<byte>, pos: nat)
    requires Roomy(s) && s.msg.Sound() && pos + HeaderSize(fmt) <= |input|
    ensures var r := Announce(ReadFields(s, fmt, input, pos), fmt);
      r.Some? && Announced(r.value, fmt)
      && (fmt >= 2 ==> r.value.header == s.header && r.value.msg == s.msg)
  {
    if fmt <= 1 {
      ReserveRoomy(s.msg, ReadFields(s, fmt, input, pos).header.msgLen);
    }
  }

  /** A message shorter than a chunk is read whole, even when part of it is already there. */
  predicate Overlong(s: StreamState, peerChunkSize: uint32) {
    s.header.msgLen <= peerChunkSize && s.msg.e + s.header.msgLen > |s.msg.buf|
  }

  lemma PayloadExact(c: State, csid: int, s: StreamState, fmt: nat, input: seq<byte>, pos: nat)
    requires AllRoomy(c) && c.Sound() && s.msg.Sound() && Announced(s, fmt) && pos <= |input|
    ensures
      var r := Payload(c, csid, s, input, pos);
      (r == Stop([], Broken) <==> Overlong(s, c.peerChunkSize))
      && (Overlong(s, c.peerChunkSize) ==> fmt >= 2 && s.msg.e > 0)
      && (r.Next? && s.header.msgTypeId != AGGREGATE_MESSAGE ==> AllRoomy(r.state))
  {
    hide Split;
    var needed := NeededSize(s, c.peerChunkSize);
    assert needed <= s.header.msgLen;
    if s.msg.e + needed <= |s.msg.buf| && pos + needed <= |input| {
      var t := s.(msg := Fill(s.msg, input[pos..pos + needed]));
      FinishRoomy(c, csid, t, pos + needed);
    }
  }

  lemma FinishRoomy(c: State, csid: int, t: StreamState, pos: nat)
    requires AllRoomy(c) && c.Sound() && t.msg.Sound() && Roomy(t.(msg := t.msg.(e := 0)))
    ensures
      var r := Finish(c, csid, t, pos);
      r != Stop([], Broken) && (r.Next? && t.header.msgTypeId != AGGREGATE_MESSAGE ==> AllRoomy(r.state))
  {
    hide Split;
  }

  // Any input

  /** As long as no aggregate has used up part of its buffer, a stream has room for its message. */
  predicate Fair(s: StreamState) {
    s.header.msgLen < 0x100_0000 && INIT_MSG_LEN <= |s.msg.buf|
    && (s.msg.b == 0 ==> s.msg.e <= s.header.msgLen < |s.msg.buf|)
  }

  predicate AllFair(c: State) {
    forall csid | csid in c.streams :: Fair(c.streams[csid])
  }

  /** `reserve` never ends: the buffer is used up to its end; or the buffer would pass 32 bits. */
  predicate Unreservable(m: Msg, n: uint24)
    requires m.Sound()
  {
    var free := |m.buf| - m.e;
    if free == 0 then n > 0 else free <= n && |m.buf| + Doubled(free, n) >= 0x1_0000_0000
  }

  lemma ReserveExact(m: Msg, n: uint24)
    requires m.Sound()
    ensures Reserve(m, n) == None <==> Unreservable(m, n)
    ensures m.b == 0 && m.e < 0x100_0000 && m.e < |m.buf| ==> !Unreservable(m, n)
    ensures Reserve(m, n).Some? ==>
      var r := Reserve(m, n).value;
      n <= |r.buf| - r.e && |m.buf| <= |r.buf| && (m.e < |m.buf| ==> n < |r.buf| - r.e)
  {
    var free := |m.buf| - m.e;
    if 0 < free <= n {
      assert Doubled(free, n) >= n;
    }
  }

  /** After the header: a stream that no aggregate has used has room for what is to come; any has room for a
      message whose length was just announced. */
  predicate Prepared(s: StreamState, fmt: nat) {
    s.header.msgLen < 0x100_0000 && INIT_MSG_LEN <= |s.msg.buf|
    && (s.msg.b == 0 ==> s.header.msgLen < |s.msg.buf| && s.msg.e < |s.msg.buf|)
    && if fmt <= 1 then s.msg.e + s.header.msgLen <= |s.msg.buf|
       else s.msg.b == 0 ==> s.msg.e <= s.header.msgLen
  }

  lemma AnnounceExact(s: StreamState, fmt: nat, input: seq<byte>, pos: nat)
    requires Fair(s) && s.msg.Sound() && pos + HeaderSize(fmt) <= |input|
    ensures
      var f := ReadFields(s, fmt, input, pos);
      var r := Announce(f, fmt);
      (r == None <==> fmt <= 1 && Unreservable(s.msg, f.header.msgLen)) && (r == None ==> s.msg.b > 0)
      && (r.Some? ==> Prepared(r.value, fmt))
  {
    hide Unreservable, Reserve, Be24At, Le32At;
    if fmt <= 1 {
      ReserveExact(s.msg, ReadFields(s, fmt, input, pos).header.msgLen);
    }
  }

  lemma FinishFair(c: State, csid: int, t: StreamState, pos: nat)
    requires AllFair(c) && c.Sound() && t.msg.Sound() && t.header.msgLen < 0x100_0000 && INIT_MSG_LEN <= |t.msg.buf|
    requires t.msg.b == 0 ==> t.header.msgLen < |t.msg.buf|
    ensures
      var r := Finish(c, csid, t, pos);
      !(r.Stop? && r.why == Broken) && (r.Next? ==> AllFair(r.state))
  {
    hide Split, SoundStreams;
  }

  /** The payload does not fit into the buffer. */
  predicate Overfull(c: State, u: StreamState)
    requires u.msg.Sound()
  {
    u.msg.e + NeededSize(u, c.peerChunkSize) > |u.msg.buf|
  }

  lemma PayloadFair(c: State, csid: int, u: StreamState, fmt: nat, input: seq<byte>, pos: nat)
    requires AllFair(c) && c.Sound() && u.msg.Sound() && Prepared(u, fmt) && pos <= |input|
    ensures
      var r := Payload(c, csid, u, input, pos);
      (r.Stop? && r.why == Broken <==> Overfull(c, u)) && (Overfull(c, u) ==> fmt >= 2)
      && (u.msg.b == 0 ==> (Overfull(c, u) <==> u.msg.e > 0 && Overlong(u, c.peerChunkSize)))
      && (r.Next? ==> AllFair(r.state))
  {
    hide *;
    OverfullExact(c, u, fmt);
    PayloadCases(c, csid, u, input, pos);
    var n := NeededSize(u, c.peerChunkSize);
    if u.msg.e + n <= |u.msg.buf| && pos + n <= |input| {
      var t := u.(msg := Fill(u.msg, input[pos..pos + n]));
      FilledPrepared(u, fmt, input[pos..pos + n]);
      FinishFair(c, csid, t, pos + n);
    }
  }

  lemma PayloadCases(c: State, csid: int, u: StreamState, input: seq<byte>, pos: nat)
    requires c.Sound() && u.msg.Sound() && pos <= |input|
    ensures
      var n := NeededSize(u, c.peerChunkSize);
      (Overfull(c, u) <==> u.msg.e + n > |u.msg.buf|)
      && Payload(c, csid, u, input, pos)
        == if u.msg.e + n > |u.msg.buf| then Stop([], Broken)
           else if pos + n > |input| then Stop([], EndOfInput)
           else Finish(c, csid, u.(msg := Fill(u.msg, input[pos..pos + n])), pos + n)
  {
    hide Finish, NeededSize, Fill, SoundStreams;
  }

  lemma FilledPrepared(u: StreamState, fmt: nat, part: seq<byte>)
    requires u.msg.Sound() && Prepared(u, fmt) && u.msg.e + |part| <= |u.msg.buf|
    ensures
      var t := u.(msg := Fill(u.msg, part));
      t.msg.Sound() && t.header.msgLen < 0x100_0000 && INIT_MSG_LEN <= |t.msg.buf|
      && (t.msg.b == 0 ==> t.header.msgLen < |t.msg.buf|)
  {
  }

  lemma OverfullExact(c: State, u: StreamState, fmt: nat)
    requires u.msg.Sound() && Prepared(u, fmt)
    ensures Overfull(c, u) ==> fmt >= 2
    ensures u.msg.b == 0 ==> (Overfull(c, u) <==> u.msg.e > 0 && Overlong(u, c.peerChunkSize))
  {
  }

  /** The chunk breaks the program, said of its stream before it: an announced length for which no space is
      found, or a payload behind the end of the buffer in a chunk that announces none. */
  predicate BreaksOn(c: State, s: StreamState, fmt: nat, input: seq<byte>, next: nat)
    requires s.msg.Sound()
  {
    var p := next + HeaderSize(fmt);
    p <= |input|
    && var f := ReadFields(s, fmt, input, next);
      if fmt <= 1 then Unreservable(s.msg, f.header.msgLen)
      else p + ExtendedSize(f) <= |input| && Overfull(c, s)
  }

  predicate Breaks(c: State, input: seq<byte>, pos: nat)
    requires c.Sound()
  {
    match ReadBasic(input, pos)
    case None => false
    case Some(basic) => BreaksOn(c, c.GetOrCreateStream(basic.csid), basic.fmt, input, basic.next)
  }

  lemma FlagFair(c: State, flag: bool)
    requires AllFair(c) && c.Sound()
    ensures AllFair(c.(absTsFlag := flag)) && c.(absTsFlag := flag).Sound()
  {
  }

  /** Formats 2 and 3 change neither the length nor the buffer. */
  lemma SameRest(c: State, s: StreamState, fmt: nat, input: seq<byte>, pos: nat)
    requires s.msg.Sound() && fmt >= 2 && pos + HeaderSize(fmt) <= |input|
    requires pos + HeaderSize(fmt) + ExtendedSize(ReadFields(s, fmt, input, pos)) <= |input|
    ensures
      var t := Announce(ReadFields(s, fmt, input, pos), fmt);
      t == Some(ReadFields(s, fmt, input, pos))
      && var u := ReadExtended(t.value, fmt, input, pos + HeaderSize(fmt));
        u.msg == s.msg && (Overfull(c, u) <==> Overfull(c, s))
  {
    hide Be24At, Be32At;
  }

  lemma ExtendedPrepared(t: StreamState, fmt: nat, input: seq<byte>, pos: nat)
    requires Prepared(t, fmt) && pos + ExtendedSize(t) <= |input|
    ensures Prepared(ReadExtended(t, fmt, input, pos), fmt)
  {
    hide Be32At;
  }

  lemma ChunkBreaks(c: State, basic: Basic, s: StreamState, input: seq<byte>)
    requires AllFair(c) && c.Sound() && Fair(s) && s.msg.Sound() && basic.next <= |input|
    ensures
      var r := Chunk(c, basic, s, input);
      (r.Stop? && r.why == Broken <==> BreaksOn(c, s, basic.fmt, input, basic.next))
      && (r.Next? ==> AllFair(r.state))
  {
    hide Payload, Finish, ReadExtended, ReadFields, Announce, Fair, AllFair, Prepared, Unreservable, SoundStreams;
    var fmt, p := basic.fmt, basic.next + HeaderSize(basic.fmt);
    if p <= |input| {
      AnnounceExact(s, fmt, input, basic.next);
      var t := Announce(ReadFields(s, fmt, input, basic.next), fmt);
      if t.Some? && p + ExtendedSize(t.value) <= |input| {
        var u := ReadExtended(t.value, fmt, input, p);
        ExtendedPrepared(t.value, fmt, input, p);
        FlagFair(c, c.absTsFlag || fmt == 0);
        PayloadFair(c.(absTsFlag := c.absTsFlag || fmt == 0), basic.csid, u, fmt, input, p + ExtendedSize(t.value));
      }
      if fmt >= 2 && p + ExtendedSize(ReadFields(s, fmt, input, basic.next)) <= |input| {
        SameRest(c, s, fmt, input, basic.next);
      }
    }
  }

  /** One chunk, whatever the bytes. */
  lemma StepExact(c: State, input: seq<byte>, pos: nat)
    requires AllFair(c) && c.Sound()
    ensures
      var r := Step(c, input, pos);
      (r.Stop? && r.why == Broken <==> Breaks(c, input, pos)) && (r.Next? ==> AllFair(r.state))
  {
    hide Chunk, BreaksOn, ReadBasic;
    var basic := ReadBasic(input, pos);
    if basic.Some? {
      assert Fair(NEW_STREAM);
      ChunkBreaks(c, basic.value, c.GetOrCreateStream(basic.value.csid), input);
    }
  }

  /** Where the run from `pos` stops: the composer before its last, unfinished chunk. */
  function Last(c: State, input: seq<byte>, pos: nat): (r: (State, nat))
    requires c.Sound() && pos <= |input|
    ensures r.0.Sound()
    decreases |input| - pos
  {
    match Step(c, input, pos)
    case Stop(_, _) => (c, pos)
    case Next(d, next, _) => Last(d, input, next)
  }

  /** Every run: it breaks the program exactly when its last chunk does. */
  lemma {:induction false} RunExact(c: State, input: seq<byte>, pos: nat)
    requires AllFair(c) && c.Sound() && pos <= |input|
    ensures AllFair(Last(c, input, pos).0)
    ensures Run(c, input, pos).1 == Broken <==> Breaks(Last(c, input, pos).0, input, Last(c, input, pos).1)
    decreases |input| - pos
  {
    hide Step, Breaks, AllFair;
    StepExact(c, input, pos);
    match Step(c, input, pos)
    case Stop(_, _) =>
    case Next(d, next, _) => RunExact(d, input, next);
  }

  /** On a stream whose buffer no aggregate has used up, only a chunk of format 2 or 3 breaks the program, in
      the middle of a message that is no longer than a chunk: a new chunk size has overtaken it. */
  lemma BreaksExact(c: State, input: seq<byte>, pos: nat)
    requires AllFair(c) && c.Sound() && ReadBasic(input, pos).Some?
    requires c.GetOrCreateStream(ReadBasic(input, pos).value.csid).msg.b == 0
    ensures
      var basic := ReadBasic(input, pos).value;
      var s, p := c.GetOrCreateStream(basic.csid), basic.next + HeaderSize(basic.fmt);
      Breaks(c, input, pos) <==>
        basic.fmt >= 2 && p <= |input| && p + ExtendedSize(ReadFields(s, basic.fmt, input, basic.next)) <= |input|
        && s.msg.e > 0 && Overlong(s, c.peerChunkSize)
  {
    assert Fair(NEW_STREAM);
    var basic := ReadBasic(input, pos).value;
    var s := c.GetOrCreateStream(basic.csid);
    hide ReadBasic, ReadFields, Unreservable, Overfull, Overlong;
    if basic.next + HeaderSize(basic.fmt) <= |input| {
      AnnounceExact(s, basic.fmt, input, basic.next);
    }
    if basic.fmt >= 2 {
      OverfullExact(c, s, basic.fmt);
    }
  }

  // Without aggregates

  lemma ChunkRoomy(c: State, basic: Basic, s: StreamState, input: seq<byte>)
    requires AllRoomy(c) && c.Sound() && Roomy(s) && s.msg.Sound() && basic.next <= |input|
    ensures var r := Chunk(c, basic, s, input); r.Next? && Plain(r.state) ==> AllRoomy(r.state)
  {
    hide Payload, Finish, ReadExtended;
    var fmt, p := basic.fmt, basic.next + HeaderSize(basic.fmt);
    if p <= |input| {
      AnnounceRoomy(s, fmt, input, basic.next);
      var t := Announce(ReadFields(s, fmt, input, basic.next), fmt).value;
      if p + ExtendedSize(t) <= |input| {
        var d, u, q := c.(absTsFlag := c.absTsFlag || fmt == 0), ReadExtended(t, fmt, input, p), p + ExtendedSize(t);
        PayloadExact(d, basic.csid, u, fmt, input, q);
        PayloadType(d, basic.csid, u, input, q);
      }
    }
  }

  /** The payload's outcome keeps the type of the message. */
  lemma PayloadType(c: State, csid: int, s: StreamState, input: seq<byte>, pos: nat)
    requires c.Sound() && s.msg.Sound() && pos <= |input|
    ensures
      var r := Payload(c, csid, s, input, pos);
      r.Next? ==> csid in r.state.streams && r.state.streams[csid].header.msgTypeId == s.header.msgTypeId
  {
    hide Split;
  }

  lemma StepRoomy(c: State, input: seq<byte>, pos: nat)
    requires AllRoomy(c) && c.Sound()
    ensures var r := Step(c, input, pos); r.Next? && Plain(r.state) ==> AllRoomy(r.state)
  {
    hide Chunk, ReadFields;
    var basic := ReadBasic(input, pos);
    if basic.Some? {
      assert Roomy(NEW_STREAM);
      ChunkRoomy(c, basic.value, c.GetOrCreateStream(basic.value.csid), input);
    }
  }

  /** No chunk of the run belongs to an aggregate message. */
  predicate PlainRun(c: State, input: seq<byte>, pos: nat)
    requires c.Sound() && pos <= |input|
    decreases |input| - pos
  {
    var r := Step(c, input, pos);
    r.Next? ==> Plain(r.state) && PlainRun(r.state, input, r.pos)
  }

  /** Every run without aggregates keeps each buffer within 64 MB. */
  lemma {:induction false} RunRoomy(c: State, input: seq<byte>, pos: nat)
    requires AllRoomy(c) && c.Sound() && pos <= |input| && PlainRun(c, input, pos)
    ensures AllRoomy(Last(c, input, pos).0)
    decreases |input| - pos
  {
    hide Step, AllRoomy;
    StepRoomy(c, input, pos);
    match Step(c, input, pos)
    case Stop(_, _) =>
    case Next(d, next, _) => RunRoomy(d, input, next);
  }

  // When it never breaks

  /** Only messages longer than a chunk are in progress, on the streams that no aggregate has used up. */
  predicate Partial(c: State) {
    forall csid | csid in c.streams :: PartialOn(c.streams[csid], c.peerChunkSize)
  }

  predicate PartialOn(s: StreamState, chunkSize: nat) {
    s.msg.b == 0 && s.msg.e > 0 ==> chunkSize < s.header.msgLen
  }

  /** No chunk follows an aggregate on its chunk stream. */
  predicate Unused(c: State, input: seq<byte>, pos: nat)
    requires c.Sound()
  {
    ReadBasic(input, pos).Some? ==> c.GetOrCreateStream(ReadBasic(input, pos).value.csid).msg.b == 0
  }

  /** In the run no chunk follows an aggregate on its chunk stream, and the chunk size never changes to one
      that a message in progress fits into. */
  predicate SteadyRun(c: State, input: seq<byte>, pos: nat)
    requires c.Sound() && pos <= |input|
    decreases |input| - pos
  {
    var r := Step(c, input, pos);
    Unused(c, input, pos)
    && (r.Next? ==>
      (r.state.peerChunkSize != c.peerChunkSize ==> Partial(r.state)) && SteadyRun(r.state, input, r.pos))
  }

  lemma FinishPartly(c: State, csid: int, t: StreamState, pos: nat)
    requires Partial(c) && c.Sound() && t.msg.Sound()
    requires t.msg.Len() < t.header.msgLen ==> c.peerChunkSize < t.header.msgLen
    ensures
      var r := Finish(c, csid, t, pos);
      r.Next? && r.state.peerChunkSize == c.peerChunkSize ==> Partial(r.state)
  {
    hide Split, SoundStreams;
    var r := Finish(c, csid, t, pos);
    if r.Next? {
      assert csid in r.state.streams;
      assert forall i | i in r.state.streams && i != csid :: r.state.streams[i] == c.streams[i];
    }
  }

  lemma PayloadPartly(c: State, csid: int, u: StreamState, input: seq<byte>, pos: nat)
    requires Partial(c) && c.Sound() && u.msg.Sound() && u.msg.b == 0 && pos <= |input|
    ensures
      var r := Payload(c, csid, u, input, pos);
      r.Next? && r.state.peerChunkSize == c.peerChunkSize ==> Partial(r.state)
  {
    var needed := NeededSize(u, c.peerChunkSize);
    hide Partial, Finish, SoundStreams;
    if u.msg.e + needed <= |u.msg.buf| && pos + needed <= |input| {
      FinishPartly(c, csid, u.(msg := Fill(u.msg, input[pos..pos + needed])), pos + needed);
    }
  }

  lemma FlagPartial(c: State, flag: bool)
    requires Partial(c) && c.Sound()
    ensures Partial(c.(absTsFlag := flag)) && c.(absTsFlag := flag).Sound()
  {
  }

  lemma ChunkPartly(c: State, basic: Basic, s: StreamState, input: seq<byte>)
    requires Partial(c) && c.Sound() && s.msg.Sound() && s.msg.b == 0 && basic.next <= |input|
    ensures
      var r := Chunk(c, basic, s, input);
      r.Next? && r.state.peerChunkSize == c.peerChunkSize ==> Partial(r.state)
  {
    hide Partial, Payload, ReadFields, Announce, ReadExtended, SoundStreams;
    var fmt, p := basic.fmt, basic.next;
    var q := p + HeaderSize(fmt);
    if q <= |input| {
      var t := Announce(ReadFields(s, fmt, input, p), fmt);
      if t.Some? && q + ExtendedSize(t.value) <= |input| {
        var flag := c.absTsFlag || fmt == 0;
        FlagPartial(c, flag);
        PayloadPartly(c.(absTsFlag := flag), basic.csid, ReadExtended(t.value, fmt, input, q), input,
                      q + ExtendedSize(t.value));
      }
    }
  }

  lemma StepPartial(c: State, input: seq<byte>, pos: nat)
    requires Partial(c) && c.Sound() && Unused(c, input, pos)
    ensures
      var r := Step(c, input, pos);
      r.Next? && r.state.peerChunkSize == c.peerChunkSize ==> Partial(r.state)
  {
    hide Partial, Chunk, ReadBasic;
    var basic := ReadBasic(input, pos);
    if basic.Some? {
      ChunkPartly(c, basic.value, c.GetOrCreateStream(basic.value.csid), input);
    }
  }

  /** The composer never fails on any such input. */
  lemma {:induction false} NeverBroken(c: State, input: seq<byte>, pos: nat)
    requires AllFair(c) && Partial(c) && c.Sound() && pos <= |input| && SteadyRun(c, input, pos)
    ensures Run(c, input, pos).1 != Broken
    decreases |input| - pos
  {
    hide Step, AllFair, Breaks, Unused, Partial;
    StepExact(c, input, pos);
    StepPartial(c, input, pos);
    match Step(c, input, pos)
    case Stop(_, _) => PartialReads(c, input, pos);
    case Next(d, next, _) => NeverBroken(d, input, next);
  }

  lemma PartialReads(c: State, input: seq<byte>, pos: nat)
    requires Partial(c) && AllFair(c) && c.Sound() && Unused(c, input, pos)
    ensures !Breaks(c, input, pos)
  {
    hide ReadBasic, Breaks, AllFair;
    if ReadBasic(input, pos).Some? {
      BreaksExact(c, input, pos);
    } else {
      NothingBreaks(c, input, pos);
    }
  }

  lemma NothingBreaks(c: State, input: seq<byte>, pos: nat)
    requires c.Sound() && ReadBasic(input, pos).None?
    ensures !Breaks(c, input, pos)
  {
  }
}
