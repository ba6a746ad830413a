/** Splitting aggregate messages undoes joining them, and accepts nothing else. */
module RtmpAggregates {
  import opened Bytes
  import opened RtmpDivider
  import opened RtmpComposer
  import opened Wire

  /** A sub-message; the size field that follows it is skipped, so it may hold anything. */
  datatype Sub = Sub(msgTypeId: byte, timestamp: uint32, streamId: uint24, payload: seq<byte>, prevSize: seq<byte>)

  predicate Fits(sub: Sub) {
    |sub.payload| < 0x100_0000 && |sub.prevSize| == 4
  }

  function Head(sub: Sub): (s: seq<byte>)
    requires Fits(sub)
    ensures |s| == 11
  {
    [sub.msgTypeId] + BePut24(|sub.payload|) + BePut24(sub.timestamp % 0x100_0000) + [sub.timestamp / 0x100_0000]
    + BePut24(sub.streamId)
  }

  function Whole(sub: Sub): (s: seq<byte>)
    requires Fits(sub)
    ensures |s| == 15 + |sub.payload|
  {
    Head(sub) + sub.payload + sub.prevSize
  }

  predicate AllFit(subs: seq<Sub>) {
    forall i | 0 <= i < |subs| :: Fits(subs[i])
  }

  function Join(subs: seq<Sub>): (s: seq<byte>)
    requires AllFit(subs)
  {
    if subs == [] then [] else Whole(subs[0]) + Join(subs[1..])
  }

  predicate IsJoin(s: seq<byte>, subs: seq<Sub>) {
    AllFit(subs) && Join(subs) == s
  }

  /** What the callback should get: timestamps keep their distance from the first. */
  function Expected(sub: Sub, header: RtmpHeader, first: uint32): Delivery
    requires Fits(sub)
  {
    Delivery(RtmpHeader(header.csid, |sub.payload|, sub.msgTypeId, sub.streamId,
                        Wrap32(header.timestampAbs + sub.timestamp - first)), sub.payload)
  }

  function Deliveries(subs: seq<Sub>, header: RtmpHeader, first: uint32): (r: seq<Delivery>)
    requires AllFit(subs)
    ensures |r| == |subs|
  {
    if subs == [] then [] else [Expected(subs[0], header, first)] + Deliveries(subs[1..], header, first)
  }

  lemma HeadAt(buf: seq<byte>, b: nat, sub: Sub)
    requires Fits(sub)
    ensures At(buf, b, Head(sub)) <==>
      b + 11 <= |buf| && buf[b] == sub.msgTypeId && Be24At(buf, b + 1) == |sub.payload|
      && SubTimestamp(buf, b) == sub.timestamp && Be24At(buf, b + 8) == sub.streamId
  {
    var s0 := [sub.msgTypeId];
    var s1 := s0 + BePut24(|sub.payload|);
    var s2 := s1 + BePut24(sub.timestamp % 0x100_0000);
    var s3 := s2 + [sub.timestamp / 0x100_0000];
    AtSplit(buf, b, s3, BePut24(sub.streamId));
    AtSplit(buf, b, s2, [sub.timestamp / 0x100_0000]);
    AtSplit(buf, b, s1, BePut24(sub.timestamp % 0x100_0000));
    AtSplit(buf, b, s0, BePut24(|sub.payload|));
    hide At;
    AtByte(buf, b, sub.msgTypeId);
    At24(buf, b + 1, |sub.payload|);
    At24(buf, b + 4, sub.timestamp % 0x100_0000);
    AtByte(buf, b + 7, sub.timestamp / 0x100_0000);
    At24(buf, b + 8, sub.streamId);
  }

  /** What it takes for a sub-message to stand at `b`. */
  predicate Reads(buf: seq<byte>, b: nat, sub: Sub) {
    var size := |sub.payload|;
    b + 15 + size <= |buf| && buf[b] == sub.msgTypeId && Be24At(buf, b + 1) == size
    && SubTimestamp(buf, b) == sub.timestamp && Be24At(buf, b + 8) == sub.streamId
    && buf[b + 11..b + 11 + size] == sub.payload && buf[b + 11 + size..b + 15 + size] == sub.prevSize
  }

  lemma WholeAt(buf: seq<byte>, b: nat, sub: Sub)
    requires Fits(sub)
    ensures At(buf, b, Whole(sub)) <==> Reads(buf, b, sub)
  {
    hide At, Head, Be24At, SubTimestamp;
    AtSplit(buf, b, Head(sub) + sub.payload, sub.prevSize);
    AtSplit(buf, b, Head(sub), sub.payload);
    HeadAt(buf, b, sub);
    AtSlice(buf, b + 11, sub.payload);
    AtSlice(buf, b + 11 + |sub.payload|, sub.prevSize);
  }

  lemma SplitNone(buf: seq<byte>, b: nat, header: RtmpHeader, first: Option<uint32>)
    requires b <= |buf|
    ensures |Join([])| == 0 && Split(buf, b, b, header, first) == ([], true)
  {
  }

  lemma SplitOne(buf: seq<byte>, b: nat, e: nat, header: RtmpHeader, first: Option<uint32>, sub: Sub)
    requires Fits(sub) && e <= |buf| && b + 15 + |sub.payload| <= e && Reads(buf, b, sub)
    ensures
      var start := if first.Some? then first.value else sub.timestamp;
      var rest := Split(buf, b + 15 + |sub.payload|, e, header, Some(start));
      Split(buf, b, e, header, first) == ([Expected(sub, header, start)] + rest.0, rest.1)
  {
    hide Be24At, SubTimestamp;
  }

  /** Joined sub-messages are handed on one by one, in order, with their own payloads and headers. */
  lemma {:induction false} SplitJoined(subs: seq<Sub>, buf: seq<byte>, b: nat, e: nat, header: RtmpHeader,
    first: Option<uint32>)
    requires AllFit(subs)
    requires b <= e <= |buf| && e - b == |Join(subs)| && At(buf, b, Join(subs))
    ensures
      var start := if first.Some? then first.value else if subs == [] then 0 else subs[0].timestamp;
      Split(buf, b, e, header, first) == (Deliveries(subs, header, start), true)
    decreases |subs|
  {
    hide *;
    if subs == [] {
      JoinNone(header);
      SplitNone(buf, b, header, first);
    } else {
      var sub := subs[0];
      var size := |sub.payload|;
      JoinOne(subs);
      AtSplit(buf, b, Whole(sub), Join(subs[1..]));
      WholeAt(buf, b, sub);
      var start := if first.Some? then first.value else sub.timestamp;
      SplitJoined(subs[1..], buf, b + 15 + size, e, header, Some(start));
      SplitOne(buf, b, e, header, first, sub);
      DeliveriesOne(subs, header, start);
    }
  }

  lemma JoinNone(header: RtmpHeader)
    ensures Join([]) == [] && Deliveries([], header, 0) == []
    ensures forall first: uint32 :: Deliveries([], header, first) == []
  {
  }

  lemma JoinOne(subs: seq<Sub>)
    requires subs != [] && AllFit(subs)
    ensures Fits(subs[0]) && AllFit(subs[1..]) && Join(subs) == Whole(subs[0]) + Join(subs[1..])
    ensures |Whole(subs[0])| == 15 + |subs[0].payload|
  {
    hide Whole;
  }

  lemma DeliveriesOne(subs: seq<Sub>, header: RtmpHeader, first: uint32)
    requires subs != [] && AllFit(subs)
    ensures AllFit(subs[1..]) && Fits(subs[0])
    ensures Deliveries(subs, header, first) == [Expected(subs[0], header, first)] + Deliveries(subs[1..], header, first)
  {
    hide Expected;
  }

  /** The sub-message that stands at `b`. */
  function PartAt(buf: seq<byte>, b: nat): (sub: Sub)
    requires b + 11 <= |buf| && b + 15 + Be24At(buf, b + 1) <= |buf|
    ensures Fits(sub) && Reads(buf, b, sub)
  {
    var size := Be24At(buf, b + 1);
    Sub(buf[b], SubTimestamp(buf, b), Be24At(buf, b + 8), buf[b + 11..b + 11 + size], buf[b + 11 + size..b + 15 + size])
  }

  /** The sub-messages of a buffer that splits without an error. */
  function Parts(buf: seq<byte>, b: nat, e: nat, header: RtmpHeader, first: Option<uint32>): (subs: seq<Sub>)
    requires b <= e <= |buf| && Split(buf, b, e, header, first).1
    ensures AllFit(subs)
    decreases e - b
  {
    if b == e then []
    else
      [PartAt(buf, b)]
      + Parts(buf, b + 15 + |PartAt(buf, b).payload|, e, header, Some(FirstTimestamp(buf, b, first)))
  }

  /** What splits without an error is the join of some sub-messages, and all of it is used. */
  lemma {:induction false} SplitOnlyJoined(buf: seq<byte>, b: nat, e: nat, header: RtmpHeader, first: Option<uint32>)
    requires b <= e <= |buf| && Split(buf, b, e, header, first).1
    ensures var subs := Parts(buf, b, e, header, first);
      e - b == |Join(subs)| && At(buf, b, Join(subs))
    decreases e - b
  {
    hide *;
    PartsNone(buf, b, header, first);
    if b < e {
      PartsOne(buf, b, e, header, first);
      var sub, next := PartAt(buf, b), Some(FirstTimestamp(buf, b, first));
      var p := b + 15 + |sub.payload|;
      SplitOnlyJoined(buf, p, e, header, next);
      JoinFirst(buf, b, sub, Parts(buf, p, e, header, next));
    }
  }

  lemma PartsNone(buf: seq<byte>, b: nat, header: RtmpHeader, first: Option<uint32>)
    requires b <= |buf|
    ensures Split(buf, b, b, header, first).1 && Parts(buf, b, b, header, first) == []
    ensures |Join([])| == 0 && At(buf, b, Join([]))
  {
  }

  lemma PartsOne(buf: seq<byte>, b: nat, e: nat, header: RtmpHeader, first: Option<uint32>)
    requires b < e <= |buf| && Split(buf, b, e, header, first).1
    ensures b + 11 <= |buf| && b + 15 + Be24At(buf, b + 1) <= e
    ensures Fits(PartAt(buf, b)) && Reads(buf, b, PartAt(buf, b)) && b + 15 + |PartAt(buf, b).payload| <= e
    ensures
      var sub, next := PartAt(buf, b), Some(FirstTimestamp(buf, b, first));
      var p := b + 15 + |sub.payload|;
      Split(buf, p, e, header, next).1
      && Parts(buf, b, e, header, first) == [sub] + Parts(buf, p, e, header, next)
  {
    hide Be24At, SubTimestamp, Reads;
  }

  lemma JoinFirst(buf: seq<byte>, b: nat, sub: Sub, rest: seq<Sub>)
    requires Fits(sub) && AllFit(rest) && Reads(buf, b, sub) && At(buf, b + 15 + |sub.payload|, Join(rest))
    ensures AllFit([sub] + rest) && At(buf, b, Join([sub] + rest))
    ensures |Join([sub] + rest)| == 15 + |sub.payload| + |Join(rest)|
  {
    hide At, Whole, Reads;
    var subs := [sub] + rest;
    assert subs[1..] == rest;
    WholeAt(buf, b, sub);
    AtSplit(buf, b, Whole(sub), Join(rest));
  }

  /** An aggregate body is accepted exactly when it is the join of sub-messages, and then the
      callbacks are those sub-messages in order; any other body ends in an error. */
  lemma SplitExact(buf: seq<byte>, b: nat, e: nat, header: RtmpHeader)
    requires b <= e <= |buf|
    ensures Split(buf, b, e, header, None).1 <==>
      exists subs: seq<Sub> :: IsJoin(buf[b..e], subs)
    ensures forall subs: seq<Sub> | IsJoin(buf[b..e], subs) ::
      Split(buf, b, e, header, None) == (Deliveries(subs, header, if subs == [] then 0 else subs[0].timestamp), true)
  {
    hide Split, At, Join, AllFit, Deliveries;
    if Split(buf, b, e, header, None).1 {
      SplitOnlyJoined(buf, b, e, header, None);
      AtSlice(buf, b, Join(Parts(buf, b, e, header, None)));
      assert IsJoin(buf[b..e], Parts(buf, b, e, header, None));
    }
    forall subs: seq<Sub> | IsJoin(buf[b..e], subs)
      ensures Split(buf, b, e, header, None)
        == (Deliveries(subs, header, if subs == [] then 0 else subs[0].timestamp), true)
    {
      AtSlice(buf, b, Join(subs));
      SplitJoined(subs, buf, b, e, header, None);
    }
  }

  /** At `p` no whole sub-message with its size field stands any more. */
  predicate Cut(buf: seq<byte>, p: nat, e: nat)
    requires p < e <= |buf|
  {
    e < p + 11 || e < p + 15 + Be24At(buf, p + 1)
  }

  /** What still comes out there: a sub-message of which only the size field is missing. */
  function Tail(buf: seq<byte>, p: nat, e: nat, header: RtmpHeader, first: uint32): seq<Delivery>
    requires p < e <= |buf|
  {
    if e < p + 11 || e < p + 11 + Be24At(buf, p + 1) then []
    else
      var size := Be24At(buf, p + 1);
      [Delivery(RtmpHeader(header.csid, size, buf[p], Be24At(buf, p + 8),
                           Wrap32(header.timestampAbs + SubTimestamp(buf, p) - first)),
                buf[p + 11..p + 11 + size])]
  }

  function StartOf(subs: seq<Sub>, buf: seq<byte>, p: nat, e: nat, first: Option<uint32>): uint32
    requires p < e <= |buf|
  {
    if first.Some? then first.value
    else if subs != [] then subs[0].timestamp
    else if e < p + 11 then 0 else SubTimestamp(buf, p)
  }

  lemma SplitCut(buf: seq<byte>, p: nat, e: nat, header: RtmpHeader, first: Option<uint32>)
    requires p < e <= |buf| && Cut(buf, p, e)
    ensures Split(buf, p, e, header, first) == (Tail(buf, p, e, header, StartOf([], buf, p, e, first)), false)
  {
    hide Be24At, SubTimestamp;
  }

  /** A body that breaks off: the sub-messages before the place are handed on, and one more if only its size field
      is missing; then comes the error. */
  lemma {:induction false} SplitStops(subs: seq<Sub>, buf: seq<byte>, b: nat, p: nat, e: nat, header: RtmpHeader,
    first: Option<uint32>)
    requires AllFit(subs) && b <= p < e <= |buf| && Cut(buf, p, e)
    requires p - b == |Join(subs)| && At(buf, b, Join(subs))
    ensures
      var start := StartOf(subs, buf, p, e, first);
      Split(buf, b, e, header, first) == (Deliveries(subs, header, start) + Tail(buf, p, e, header, start), false)
    decreases |subs|
  {
    hide *;
    var start := StartOf(subs, buf, p, e, first);
    if subs == [] {
      NothingJoined(header, start);
      SplitCut(buf, p, e, header, first);
    } else {
      var sub := subs[0];
      JoinOne(subs);
      AtSplit(buf, b, Whole(sub), Join(subs[1..]));
      WholeAt(buf, b, sub);
      StartGoesOn(subs, buf, p, e, first);
      SplitStops(subs[1..], buf, b + 15 + |sub.payload|, p, e, header, Some(start));
      SplitOne(buf, b, e, header, first, sub);
      DeliveriesOne(subs, header, start);
      Grouped([Expected(sub, header, start)], Deliveries(subs[1..], header, start), Tail(buf, p, e, header, start));
    }
  }

  lemma NothingJoined(header: RtmpHeader, first: uint32)
    ensures |Join([])| == 0 && forall tail: seq<Delivery> :: Deliveries([], header, first) + tail == tail
  {
  }

  lemma StartGoesOn(subs: seq<Sub>, buf: seq<byte>, p: nat, e: nat, first: Option<uint32>)
    requires subs != [] && p < e <= |buf|
    ensures
      var start := StartOf(subs, buf, p, e, first);
      start == (if first.Some? then first.value else subs[0].timestamp)
      && StartOf(subs[1..], buf, p, e, Some(start)) == start
  {
  }

  lemma Grouped(a: seq<Delivery>, b: seq<Delivery>, c: seq<Delivery>)
    ensures a + (b + c) == a + b + c
  {
  }
}
