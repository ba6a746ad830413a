/** What a receiver gets from a sender, over whole streams: messages interleaved on any number of
    chunk streams, messages one after the other as the divider writes them, and the edges of both. */
module RtmpRoundTrip {
  import opened Bytes
  import opened RtmpDivider
  import opened RtmpComposer
  import opened Wire
  import opened RtmpBuffers
  import opened RtmpParsing
  import opened RtmpInterleaving

  function Receiver(chunkSize: uint32): State {
    FRESH.(peerChunkSize := chunkSize)
  }

  /** Any interleaving, at any chunk size: the composer hands on exactly the messages completed, in
      the order in which they are completed. */
  lemma Interleaving(events: seq<Event>, chunkSize: uint32)
    requires chunkSize > 0 && LegalRun(IDLE, events, chunkSize)
    ensures SenderValid(IDLE, chunkSize)
    ensures Run(Receiver(chunkSize), Sent(IDLE, events, chunkSize), 0)
      == (AllCompleted(IDLE, events, chunkSize), EndOfInput)
  {
    var input := Sent(IDLE, events, chunkSize);
    RunTracks(IDLE, Receiver(chunkSize), events, input, 0);
  }

  // Each chunk stream by itself

  function Untimed(h: RtmpHeader, message: seq<byte>): Delivery {
    Delivery(h.(timestampAbs := 0), message)
  }

  /** The messages begun on `csid`, in order. */
  function BegunOn(events: seq<Event>, csid: int): seq<Delivery> {
    if events == [] then []
    else
      var rest := BegunOn(events[1..], csid);
      match events[0]
      case Begin(h, message) => if h.csid == csid then [Untimed(h, message)] + rest else rest
      case Continue(_) => rest
  }

  /** The messages handed on for `csid`, in order. */
  function HandedOn(ds: seq<Delivery>, csid: int): seq<Delivery> {
    if ds == [] then []
    else
      var rest := HandedOn(ds[1..], csid);
      if ds[0].header.csid == csid then [Untimed(ds[0].header, ds[0].payload)] + rest else rest
  }

  /** The message in progress on `csid`. */
  function InProgress(sender: Sender, csid: int): seq<Delivery> {
    if csid in sender.open then [Untimed(sender.open[csid].header, sender.open[csid].message)] else []
  }

  function Final(sender: Sender, events: seq<Event>, chunkSize: nat): Sender
    requires LegalRun(sender, events, chunkSize)
    decreases |events|
  {
    if events == [] then sender else Final(After(sender, events[0], chunkSize), events[1..], chunkSize)
  }

  lemma HandedOnAppend(a: seq<Delivery>, b: seq<Delivery>, csid: int)
    requires |a| <= 1
    ensures HandedOn(a + b, csid) == HandedOn(a, csid) + HandedOn(b, csid)
  {
    if a == [] {
      assert a + b == b;
    } else {
      assert (a + b)[1..] == b;
      assert HandedOn(a[1..], csid) == [];
    }
  }

  /** One event moves at most one message from "begun" to "in progress" to "handed on". */
  lemma OwnStep(sender: Sender, event: Event, rest: seq<Event>, chunkSize: nat, csid: int)
    requires chunkSize > 0 && SenderValid(sender, chunkSize) && Legal(sender, event)
    ensures InProgress(sender, csid) + BegunOn([event] + rest, csid)
      == HandedOn(CompletedBy(sender, event, chunkSize), csid)
        + (InProgress(After(sender, event, chunkSize), csid) + BegunOn(rest, csid))
  {
    hide Sendable;
    assert ([event] + rest)[1..] == rest;
    var done := CompletedBy(sender, event, chunkSize);
    assert done != [] ==> HandedOn(done[1..], csid) == [];
  }

  /** On each chunk stream the messages come out whole, with their lengths, types and stream ids, in
      the order in which they were begun; only the one still in progress at the end is missing. */
  lemma {:induction false} OwnOrder(sender: Sender, events: seq<Event>, chunkSize: nat, csid: int)
    requires chunkSize > 0 && SenderValid(sender, chunkSize) && LegalRun(sender, events, chunkSize)
    ensures InProgress(sender, csid) + BegunOn(events, csid)
      == HandedOn(AllCompleted(sender, events, chunkSize), csid) + InProgress(Final(sender, events, chunkSize), csid)
    decreases |events|
  {
    if events == [] {
    } else {
      hide InProgress, CompletedBy, After;
      var next := After(sender, events[0], chunkSize);
      FirstSent(sender, events, chunkSize);
      OwnOrder(next, events[1..], chunkSize, csid);
      OwnStep(sender, events[0], events[1..], chunkSize, csid);
      assert [events[0]] + events[1..] == events;
      AtMostOne(sender, events[0], chunkSize);
      HandedOnAppend(CompletedBy(sender, events[0], chunkSize), AllCompleted(next, events[1..], chunkSize), csid);
      ConcatAssociative(HandedOn(CompletedBy(sender, events[0], chunkSize), csid),
                        HandedOn(AllCompleted(next, events[1..], chunkSize), csid),
                        InProgress(Final(next, events[1..], chunkSize), csid));
    }
  }

  lemma AtMostOne(sender: Sender, event: Event, chunkSize: nat)
    requires Legal(sender, event)
    ensures |CompletedBy(sender, event, chunkSize)| <= 1
  {
  }

  // Timestamps

  /** The messages a run completes, with the headers they were sent with. */
  function AllOriginal(sender: Sender, events: seq<Event>, chunkSize: nat): (r: seq<Delivery>)
    requires LegalRun(sender, events, chunkSize)
    decreases |events|
  {
    if events == [] then []
    else
      var s := Subject(sender, events[0]);
      var rest := AllOriginal(After(sender, events[0], chunkSize), events[1..], chunkSize);
      if End(s, chunkSize) == |s.message| then [Delivery(s.header, s.message)] + rest else rest
  }

  /** Whenever a message is completed, some message has begun since the last completion, or the
      timestamp is 0. */
  predicate Punctual(sender: Sender, events: seq<Event>, chunkSize: nat)
    requires LegalRun(sender, events, chunkSize)
    decreases |events|
  {
    events == []
    || (var s := Subject(sender, events[0]);
        (End(s, chunkSize) == |s.message| ==>
          sender.begun || events[0].Begin? || s.header.timestampAbs == 0)
        && Punctual(After(sender, events[0], chunkSize), events[1..], chunkSize))
  }

  lemma DoubledExact(t: uint32)
    ensures Wrap32(t + t) == t <==> t == 0
  {
  }

  /** All messages keep their timestamps exactly in the punctual runs. */
  lemma {:induction false} TimestampsExact(sender: Sender, events: seq<Event>, chunkSize: nat)
    requires LegalRun(sender, events, chunkSize)
    ensures AllCompleted(sender, events, chunkSize) == AllOriginal(sender, events, chunkSize)
      <==> Punctual(sender, events, chunkSize)
    decreases |events|
  {
    if events == [] {
    } else {
      hide Wrap32, After;
      var s, next := Subject(sender, events[0]), After(sender, events[0], chunkSize);
      TimestampsExact(next, events[1..], chunkSize);
      DoubledExact(s.header.timestampAbs);
      var a, b := AllCompleted(next, events[1..], chunkSize), AllOriginal(next, events[1..], chunkSize);
      if End(s, chunkSize) == |s.message| {
        FirstEqual(Delivery(Stamped(s.header, sender.begun || events[0].Begin?), s.message), a,
                   Delivery(s.header, s.message), b);
      }
    }
  }

  lemma FirstEqual<T>(x: T, a: seq<T>, y: T, b: seq<T>)
    ensures [x] + a == [y] + b <==> x == y && a == b
  {
    if [x] + a == [y] + b {
      assert ([x] + a)[0] == ([y] + b)[0];
      assert ([x] + a)[1..] == a && ([y] + b)[1..] == b;
    }
  }

  /** Two messages in two chunks each, begun and completed in the same order. */
  function Crossing(a: Sending, b: Sending): seq<Event> {
    [Begin(a.header, a.message), Begin(b.header, b.message), Continue(a.header.csid), Continue(b.header.csid)]
  }

  predicate InTwo(s: Sending, chunkSize: nat) {
    Sendable(s.header, s.message) && s.i == 0 && chunkSize < |s.message| <= 2 * chunkSize
  }

  /** The first message to be completed takes the flag that the second one would have needed: such a run
      keeps its timestamps only when that of the second message is 0. */
  lemma CrossingExact(a: Sending, b: Sending, chunkSize: nat)
    requires InTwo(a, chunkSize) && InTwo(b, chunkSize) && a.header.csid != b.header.csid
    ensures LegalRun(IDLE, Crossing(a, b), chunkSize)
    ensures Punctual(IDLE, Crossing(a, b), chunkSize) <==> b.header.timestampAbs == 0
    ensures AllCompleted(IDLE, Crossing(a, b), chunkSize)
      == [Delivery(a.header, a.message), Delivery(Stamped(b.header, false), b.message)]
  {
    var events := Crossing(a, b);
    var a', b' := a.(i := chunkSize), b.(i := chunkSize);
    var s1, s2 := Sender(map[a.header.csid := a'], true), Sender(map[a.header.csid := a', b.header.csid := b'], true);
    var s3 := Sender(map[b.header.csid := b'], false);
    hide LegalRun, Punctual, AllCompleted, Sendable;
    NothingLeft(IDLE, chunkSize);
    assert events[1..][1..][1..][1..] == [];
    assert After(IDLE, events[0], chunkSize) == s1 && CompletedBy(IDLE, events[0], chunkSize) == [];
    assert After(s1, events[1], chunkSize) == s2 && CompletedBy(s1, events[1], chunkSize) == [];
    assert After(s2, events[2], chunkSize) == s3 && CompletedBy(s2, events[2], chunkSize) == [Delivery(a.header, a.message)];
    assert After(s3, events[3], chunkSize) == IDLE;
    Unfolds(s3, events[3..], chunkSize);
    Unfolds(s2, events[2..], chunkSize);
    Unfolds(s1, events[1..], chunkSize);
    Unfolds(IDLE, events, chunkSize);
  }

  lemma NothingLeft(sender: Sender, chunkSize: nat)
    ensures LegalRun(sender, [], chunkSize) && Punctual(sender, [], chunkSize)
    ensures AllCompleted(sender, [], chunkSize) == []
  {
  }

  lemma Unfolds(sender: Sender, events: seq<Event>, chunkSize: nat)
    requires events != [] && Legal(sender, events[0])
    requires LegalRun(After(sender, events[0], chunkSize), events[1..], chunkSize)
    ensures LegalRun(sender, events, chunkSize)
    ensures
      var s, next := Subject(sender, events[0]), After(sender, events[0], chunkSize);
      AllCompleted(sender, events, chunkSize)
        == CompletedBy(sender, events[0], chunkSize) + AllCompleted(next, events[1..], chunkSize)
      && (Punctual(sender, events, chunkSize) <==>
        (End(s, chunkSize) == |s.message| ==>
          sender.begun || events[0].Begin? || s.header.timestampAbs == 0)
        && Punctual(next, events[1..], chunkSize))
  {
    hide After, CompletedBy;
  }

  // Messages one after the other

  datatype Message = Message(header: RtmpHeader, payload: seq<byte>)

  /** The events that send the rest of a message from byte `i` on. */
  function Rest(csid: int, length: nat, i: nat, chunkSize: nat): seq<Event>
    requires chunkSize > 0
    decreases length - i
  {
    if i >= length then [] else [Continue(csid)] + Rest(csid, length, i + chunkSize, chunkSize)
  }

  function InTurn(messages: seq<Message>, chunkSize: nat): seq<Event>
    requires chunkSize > 0
  {
    if messages == [] then []
    else
      var h := messages[0].header;
      [Begin(h, messages[0].payload)] + Rest(h.csid, |messages[0].payload|, chunkSize, chunkSize)
      + InTurn(messages[1..], chunkSize)
  }

  /** The divider's output for all messages. */
  function AllChunks(messages: seq<Message>, chunkSize: nat): seq<byte>
    requires chunkSize > 0
  {
    if messages == [] then []
    else Chunks(messages[0].payload, 0, messages[0].header, None, chunkSize) + AllChunks(messages[1..], chunkSize)
  }

  function AllDelivered(messages: seq<Message>): seq<Delivery> {
    if messages == [] then [] else [Delivery(messages[0].header, messages[0].payload)] + AllDelivered(messages[1..])
  }

  function Only(s: Sending): Sender {
    Sender(map[s.header.csid := s], true)
  }

  /** What the events `events` send and complete, as a relation. */
  predicate Does(sender: Sender, events: seq<Event>, chunkSize: nat, sent: seq<byte>, done: seq<Delivery>) {
    chunkSize > 0 && SenderValid(sender, chunkSize) && LegalRun(sender, events, chunkSize)
    && Sent(sender, events, chunkSize) == sent && AllCompleted(sender, events, chunkSize) == done
  }

  lemma DoesFirst(sender: Sender, event: Event, events: seq<Event>, chunkSize: nat, sent: seq<byte>, done: seq<Delivery>)
    requires chunkSize > 0 && SenderValid(sender, chunkSize) && Legal(sender, event)
    requires Does(After(sender, event, chunkSize), events, chunkSize, sent, done)
    requires Subject(sender, event).i <= |Subject(sender, event).message|
    ensures Does(sender, [event] + events, chunkSize, ChunkOf(Subject(sender, event), chunkSize) + sent,
                 CompletedBy(sender, event, chunkSize) + done)
  {
    hide After, ChunkOf, CompletedBy, Legal, SenderValid;
    var all := [event] + events;
    assert all[0] == event && all[1..] == events;
    FirstSent(sender, all, chunkSize);
  }

  /** The divider's chunks, one at a time. */
  lemma ChunksFirst(s: Sending, chunkSize: nat)
    requires chunkSize > 0 && s.i < |s.message|
    ensures
      var prev := if s.i == 0 then None else Some(s.header);
      Chunks(s.message, s.i, s.header, prev, chunkSize)
        == ChunkOf(s, chunkSize) + Chunks(s.message, End(s, chunkSize), s.header, Some(s.header), chunkSize)
  {
    hide CalcHeader;
  }

  lemma {:induction false} RestDoes(s: Sending, events: seq<Event>, chunkSize: nat, sent: seq<byte>, done: seq<Delivery>)
    requires Underway(s.header.csid, s, chunkSize) && Does(IDLE, events, chunkSize, sent, done)
    ensures Does(Only(s), Rest(s.header.csid, |s.message|, s.i, chunkSize) + events, chunkSize,
                 Chunks(s.message, s.i, s.header, Some(s.header), chunkSize) + sent,
                 [Delivery(s.header, s.message)] + done)
    decreases |s.message| - s.i
  {
    hide *;
    var csid, end := s.header.csid, End(s, chunkSize);
    var event, sender := Continue(csid), Only(s);
    var d := [Delivery(s.header, s.message)];
    RestFirst(s, events, chunkSize, sent, done);
    var more := Rest(csid, |s.message|, s.i + chunkSize, chunkSize);
    ChunksFirst(s, chunkSize);
    if end == |s.message| {
      NoChunks(s.message, s.header, Some(s.header), chunkSize);
      assert more + events == events by {
        NoRest(csid, |s.message|, s.i + chunkSize, chunkSize);
      }
      DoesFirst(sender, event, events, chunkSize, sent, done);
      var none: seq<byte> := [];
      assert ChunkOf(s, chunkSize) + none == ChunkOf(s, chunkSize);
    } else {
      RestDoes(s.(i := end), events, chunkSize, sent, done);
      var tail := Chunks(s.message, end, s.header, Some(s.header), chunkSize);
      DoesFirst(sender, event, more + events, chunkSize, tail + sent, d + done);
      ConcatAssociative(ChunkOf(s, chunkSize), tail, sent);
      assert [] + (d + done) == d + done;
    }
  }

  lemma NoRest(csid: int, length: nat, i: nat, chunkSize: nat)
    requires chunkSize > 0 && i >= length
    ensures Rest(csid, length, i, chunkSize) == []
  {
  }

  /** The next event of a message in progress, and where it leaves the sender. */
  lemma RestFirst(s: Sending, events: seq<Event>, chunkSize: nat, sent: seq<byte>, done: seq<Delivery>)
    requires Underway(s.header.csid, s, chunkSize) && Does(IDLE, events, chunkSize, sent, done)
    ensures
      var csid, sender, event, end := s.header.csid, Only(s), Continue(s.header.csid), End(s, chunkSize);
      chunkSize > 0 && 0 < s.i < |s.message|
      && SenderValid(sender, chunkSize) && Legal(sender, event) && Subject(sender, event) == s
      && Rest(csid, |s.message|, s.i, chunkSize) + events
        == [event] + (Rest(csid, |s.message|, s.i + chunkSize, chunkSize) + events)
      && if end == |s.message| then
          s.i + chunkSize >= |s.message|
          && After(sender, event, chunkSize) == IDLE
          && CompletedBy(sender, event, chunkSize) == [Delivery(s.header, s.message)]
        else
          end == s.i + chunkSize && Underway(csid, s.(i := end), chunkSize)
          && After(sender, event, chunkSize) == Only(s.(i := end)) && CompletedBy(sender, event, chunkSize) == []
  {
    hide Sendable;
    var csid, sender, end := s.header.csid, Only(s), End(s, chunkSize);
    assert sender.open - {csid} == map[];
    assert sender.open[csid := s.(i := end)] == map[csid := s.(i := end)];
  }

  predicate AllSendable(messages: seq<Message>) {
    forall k | 0 <= k < |messages| :: Sendable(messages[k].header, messages[k].payload)
  }

  /** A first chunk, and the rest of its message. */
  lemma MessageDoes(m: Message, events: seq<Event>, chunkSize: nat, sent: seq<byte>, done: seq<Delivery>)
    requires Sendable(m.header, m.payload) && Does(IDLE, events, chunkSize, sent, done)
    ensures Does(IDLE, [Begin(m.header, m.payload)] + (Rest(m.header.csid, |m.payload|, chunkSize, chunkSize) + events),
                 chunkSize, Chunks(m.payload, 0, m.header, None, chunkSize) + sent,
                 [Delivery(m.header, m.payload)] + done)
  {
    var h, s := m.header, Sending(m.header, m.payload, 0);
    var event, end := Begin(h, m.payload), End(s, chunkSize);
    var rest := Rest(h.csid, |m.payload|, chunkSize, chunkSize);
    var d := [Delivery(h, m.payload)];
    hide Does, ChunkOf, Chunks;
    ChunksFirst(s, chunkSize);
    if end == |m.payload| {
      assert After(IDLE, event, chunkSize) == IDLE by {
        assert IDLE.open - {h.csid} == IDLE.open;
      }
      NoChunks(m.payload, h, Some(h), chunkSize);
      assert rest + events == events;
      DoesFirst(IDLE, event, events, chunkSize, sent, done);
      var none: seq<byte> := [];
      assert ChunkOf(s, chunkSize) + none == ChunkOf(s, chunkSize);
    } else {
      var t := s.(i := end);
      assert After(IDLE, event, chunkSize) == Only(t);
      RestDoes(t, events, chunkSize, sent, done);
      var tail := Chunks(m.payload, end, h, Some(h), chunkSize);
      DoesFirst(IDLE, event, rest + events, chunkSize, tail + sent, d + done);
      ConcatAssociative(ChunkOf(s, chunkSize), tail, sent);
      assert [] + (d + done) == d + done;
    }
  }

  lemma {:induction false} InTurnDoes(messages: seq<Message>, chunkSize: nat)
    requires AllSendable(messages) && chunkSize > 0
    ensures Does(IDLE, InTurn(messages, chunkSize), chunkSize, AllChunks(messages, chunkSize), AllDelivered(messages))
  {
    if messages == [] {
    } else {
      hide Does, Sendable, Chunks;
      InTurnDoes(messages[1..], chunkSize);
      var m, events := messages[0], InTurn(messages[1..], chunkSize);
      MessageDoes(m, events, chunkSize, AllChunks(messages[1..], chunkSize), AllDelivered(messages[1..]));
      ConcatAssociative([Begin(m.header, m.payload)], Rest(m.header.csid, |m.payload|, chunkSize, chunkSize), events);
    }
  }

  /** The composer undoes the divider on whole streams: any list of messages, cut into chunks one
      after the other, comes back with payloads, headers and timestamps, at every chunk size. */
  lemma StreamRoundTrip(messages: seq<Message>, chunkSize: uint32)
    requires AllSendable(messages) && chunkSize > 0
    ensures Run(Receiver(chunkSize), AllChunks(messages, chunkSize), 0) == (AllDelivered(messages), EndOfInput)
  {
    InTurnDoes(messages, chunkSize);
    Interleaving(InTurn(messages, chunkSize), chunkSize);
  }
}
