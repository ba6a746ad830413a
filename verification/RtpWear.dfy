/** What is left of a container whose counter has been worn down by fragmented AAC units: nothing waits in
    it any more, it passes frames of one packet on and loses all others. */
module RtpWear {
  import opened Bytes
  import opened SeqNumber
  import opened RtpPackets
  import opened RtpUnpacking
  import opened RtpLocality
  import opened RtpReassembly
  import opened RtpReference
  import opened RtpRefinement
  import opened RtpReordering
  import opened RtpCapacity
  import opened RtpAac

  /** Nothing is waiting, but the counter stands at its limit. */
  predicate WornOut(maxSize: int, st: State) {
    st.list == [] && st.size == maxSize
  }

  /** A packet by itself: if it is not stale and is a frame, it is delivered. */
  function Alone(cfg: Config, st: State, pkt: RtpPacket): State
    requires cfg.Valid() && Parseable(cfg.codec, pkt.payload)
  {
    if IsStale(st, pkt.header.seqNo) then st
    else
      match TryRun(cfg, [Place(cfg.codec, pkt)])
      case NoFrame => st
      case Unpacked(frames, _, _) =>
        st.(unpackedFlag := true, unpackedSeq := pkt.header.seqNo, delivered := st.delivered + frames)
  }

  function AllAlone(cfg: Config, st: State, pkts: seq<RtpPacket>): State
    requires cfg.Valid() && forall i | 0 <= i < |pkts| :: Parseable(cfg.codec, pkts[i].payload)
  {
    if pkts == [] then st
    else
      var n := |pkts| - 1;
      Alone(cfg, AllAlone(cfg, st, pkts[..n]), pkts[n])
  }

  lemma OnePlaced(codec: Codec, pkt: RtpPacket)
    requires Parseable(codec, pkt.payload)
    ensures AllPlaced(codec, [Place(codec, pkt)])
    ensures Place(codec, pkt).header == pkt.header
  {
  }

  /** An attempt on a list of one packet takes it, or fails. */
  lemma AttemptOne(cfg: Config, st: State, p: RtpPacket)
    requires cfg.Valid() && AllPlaced(cfg.codec, [p]) && st.list == [p]
    ensures AllPlaced(cfg.codec, st.list)
    ensures UnpackOne(cfg, st)
      == match TryRun(cfg, [p])
         case NoFrame => (st, false)
         case Unpacked(frames, _, _) =>
           (State([], st.size - 1, true, p.header.seqNo, st.delivered + frames), true)
  {
    hide TryRun, Placed;
    assert [p][..RunLength([p])] == [p];
  }

  lemma DrainNothing(cfg: Config, st: State)
    requires cfg.Valid() && st.list == [] && st.unpackedFlag
    ensures AllPlaced(cfg.codec, st.list) && Drain(cfg, st) == st
  {
    hide TryUnpack;
  }

  /** What `Settle` makes of a buffer that is over its limit by its only packet. */
  lemma SettleOne(cfg: Config, maxSize: int, st: State, p: RtpPacket)
    requires cfg.Valid() && AllPlaced(cfg.codec, [p]) && st.list == [p] && st.size == maxSize + 1
    ensures AllPlaced(cfg.codec, st.list)
    ensures Settle(cfg, maxSize, st)
      == match TryRun(cfg, [p])
         case NoFrame => st.(list := [], size := maxSize)
         case Unpacked(frames, _, _) =>
           State([], maxSize, true, p.header.seqNo, st.delivered + frames)
  {
    AttemptOne(cfg, st, p);
    hide TryRun, UnpackOne, Drain, Placed, AllPlaced, FollowsOn;
    var r := UnpackOne(cfg, st);
    if r.1 {
      DrainNothing(cfg, r.0);
    }
  }

  /** Whatever packet comes next, it is treated alone, and the container stays worn out. */
  lemma WornFeed(cfg: Config, maxSize: int, st: State, pkt: RtpPacket)
    requires cfg.Valid() && Parseable(cfg.codec, pkt.payload) && WornOut(maxSize, st)
    ensures AllPlaced(cfg.codec, st.list)
    ensures Feed(cfg, maxSize, st, pkt) == Alone(cfg, st, pkt) && WornOut(maxSize, Alone(cfg, st, pkt))
  {
    hide Settle, TryRun, IsStale, Parseable, Place, Placed;
    if !IsStale(st, pkt.header.seqNo) {
      var p := Place(cfg.codec, pkt);
      OnePlaced(cfg.codec, pkt);
      SettleOne(cfg, maxSize, st.(list := [p], size := maxSize + 1), p);
    }
  }

  /** So over every further run of packets: delivered is what is a frame in one packet and comes after
      the last one delivered; everything else is lost. */
  lemma {:induction false} WornRun(cfg: Config, maxSize: int, st: State, pkts: seq<RtpPacket>)
    requires cfg.Valid() && WornOut(maxSize, st)
    requires forall i | 0 <= i < |pkts| :: Parseable(cfg.codec, pkts[i].payload)
    ensures AllPlaced(cfg.codec, st.list)
    ensures FeedAll(cfg, maxSize, st, pkts) == AllAlone(cfg, st, pkts) && WornOut(maxSize, AllAlone(cfg, st, pkts))
  {
    hide Feed, Alone, Parseable, Placed;
    if pkts != [] {
      var n := |pkts| - 1;
      WornRun(cfg, maxSize, st, pkts[..n]);
      WornFeed(cfg, maxSize, AllAlone(cfg, st, pkts[..n]), pkts[n]);
    }
  }

  // Fragmented units

  /** A part of a unit by itself is no frame. */
  lemma PartAlone(cfg: Config, run: seq<RtpPacket>, parts: seq<seq<byte>>, total: nat, i: nat)
    requires cfg.Valid() && cfg.codec == Aac && CarryParts(run, parts, total) && i < |run| && |parts[i]| < total
    ensures Parseable(Aac, run[i].payload) && Place(Aac, run[i]) == run[i] && AllPlaced(Aac, [run[i]])
    ensures TryRun(cfg, [run[i]]) == NoFrame
  {
    PartReads(run, parts, total, i);
    hide OneAu, AuRest, AuSize, AuCount, Parseable;
  }

  /** Every part is shorter than the whole. */
  predicate Parted(parts: seq<seq<byte>>, total: nat) {
    forall i | 0 <= i < |parts| :: |parts[i]| < total
  }

  /** A worn-out container loses every unit that comes in parts. */
  lemma {:induction false} FragmentsLost(
      cfg: Config, st: State, run: seq<RtpPacket>, parts: seq<seq<byte>>, total: nat, n: nat)
    requires cfg.Valid() && cfg.codec == Aac && CarryParts(run, parts, total) && Parted(parts, total) && n <= |run|
    ensures forall i | 0 <= i < |run| :: Parseable(Aac, run[i].payload)
    ensures AllAlone(cfg, st, run[..n]) == st
  {
    hide CarryParts, TryRun, Parseable, Place, IsStale, Placed;
    CarryLength(run, parts, total);
    forall i | 0 <= i < |run| ensures Parseable(Aac, run[i].payload) {
      PartAlone(cfg, run, parts, total, i);
    }
    if n > 0 {
      FragmentsLost(cfg, st, run, parts, total, n - 1);
      PartAlone(cfg, run, parts, total, n - 1);
      assert run[..n][..n - 1] == run[..n - 1];
    }
  }

  lemma CarryLength(run: seq<RtpPacket>, parts: seq<seq<byte>>, total: nat)
    requires CarryParts(run, parts, total)
    ensures |run| == |parts|
  {
  }

  // How a container gets there

  /** A stream in order with room for each frame: at its end nothing waits, and the counter stands at the
      number of units that came in fragments. */
  lemma WearsDown(cfg: Config, maxSize: nat, stream: seq<RtpPacket>, first: int, plan: seq<Span>)
    requires Tiling(cfg, stream, plan) && Numbered(stream, first) && RoomForEach(cfg.codec, maxSize, plan)
    requires forall f | 0 <= f < |plan| :: plan[f].n < 16384
    ensures var st := FeedAll(cfg, maxSize, EMPTY, stream);
      st.list == [] && st.size == Undercounted(cfg.codec, plan)
  {
    hide *;
    var arrivals := Iota(|stream|);
    IotaAll(stream);
    RoomFits(cfg, maxSize, stream, plan);
    InOrderIsTimely(cfg, stream, plan);
    Reordering(cfg, maxSize, stream, first, plan, arrivals);
    AllDelivered(cfg, maxSize, stream, first, plan, arrivals);
    IotaDistinct(|stream|);
    OccupancyExact(cfg, stream, plan, arrivals);
    PlanSteps(cfg, stream, plan);
    TilingEnd(cfg, stream, plan);
    CompleteAll(stream, plan, Arrived(arrivals), 0);
    DoneIs(plan, Arrived(arrivals));
    FullSlice(plan);
  }

  lemma IotaAll(stream: seq<RtpPacket>)
    ensures
      var arrivals := Iota(|stream|);
      |arrivals| == |stream| && ValidArrivals(stream, arrivals) && (arrivals != [] ==> arrivals[0] == 0)
      && Pick(stream, arrivals) == stream
      && (forall k: nat | k < |stream| :: k in arrivals) && forall k: nat | k < |stream| :: k in Arrived(arrivals)
  {
    var arrivals := Iota(|stream|);
    forall k: nat | k < |stream| ensures k in arrivals {
      assert arrivals[k] == k;
    }
  }

  lemma IotaDistinct(n: nat)
    ensures Distinct(Iota(n))
  {
  }

  // A stream that does it, for every limit

  /** Units of two bytes, each in two packets. */
  function HalfUnit(i: nat): RtpPacket {
    RtpPacket(RtpHeader(2, 0, 0, 0, 0, 97, Wrap(i), 0, 0), OneAu(2, [i % 2]), Unplaced)
  }

  function Halves(n: nat): (s: seq<RtpPacket>)
    ensures |s| == 2 * n && forall i | 0 <= i < 2 * n :: s[i] == HalfUnit(i)
  {
    seq(2 * n, i requires 0 <= i => HalfUnit(i))
  }

  function Pairs(n: nat): (plan: seq<Span>)
    ensures |plan| == n && forall f | 0 <= f < n :: plan[f] == Span(2 * f, 2)
  {
    seq(n, f requires 0 <= f => Span(2 * f, 2))
  }

  const PARTS: seq<seq<byte>> := [[0], [1]]

  /** Any two consecutive packets, the first with an even number, are such a unit. */
  lemma PairCarries(n: nat, f: nat)
    requires f < n
    ensures InBounds(Halves(n), Pairs(n)[f]) && CarryParts(Cut(Halves(n), Pairs(n)[f]), PARTS, 2)
  {
    hide HalfUnit, OneAu, Halves, Pairs, Cut;
    HalfCarries(2 * f, 0);
    HalfCarries(2 * f + 1, 1);
    var run := Cut(Halves(n), Pairs(n)[f]);
    assert run[0] == HalfUnit(2 * f) && run[1] == HalfUnit(2 * f + 1);
  }

  lemma HalfCarries(i: nat, b: byte)
    requires i % 2 == b
    ensures HalfUnit(i).payload == OneAu(2, [b]) && HalfUnit(i).position == Unplaced
    ensures HalfUnit(i).header.timestamp == 0
  {
    hide OneAu, Wrap;
  }

  lemma PartsAddUp()
    ensures AddUp(PARTS, 2) && Parted(PARTS, 2)
  {
    assert Flatten(PARTS) == [0, 1];
    assert PARTS[..0] == [] && PARTS[..1] == [PARTS[0]];
    FlattenSnoc([], PARTS[0]);
    assert [] + [PARTS[0]] == [PARTS[0]];
  }

  lemma PairIsFrame(cfg: Config, n: nat, f: nat)
    requires cfg.Valid() && cfg.codec == Aac && f < n
    ensures InBounds(Halves(n), Pairs(n)[f]) && IsFrame(cfg, Cut(Halves(n), Pairs(n)[f]))
    ensures Placed(Aac, HalfUnit(2 * f)) && Placed(Aac, HalfUnit(2 * f + 1))
  {
    PairCarries(n, f);
    PartsAddUp();
    hide CarryParts, AddUp, OneAu, TryRun, Wrap;
    var run := Cut(Halves(n), Pairs(n)[f]);
    FragmentsRoundTrip(cfg, run, PARTS, 2);
    assert run[0] == HalfUnit(2 * f) && run[1] == HalfUnit(2 * f + 1);
    assert Placed(Aac, run[0]) && Placed(Aac, run[1]);
  }

  lemma HalvesTile(cfg: Config, n: nat)
    requires cfg.Valid() && cfg.codec == Aac
    ensures Tiling(cfg, Halves(n), Pairs(n)) && Numbered(Halves(n), 0)
  {
    hide IsFrame, HalfUnit, Placed, Cut;
    var stream, plan := Halves(n), Pairs(n);
    forall i | 0 <= i < |stream| ensures Placed(Aac, stream[i]) {
      PairIsFrame(cfg, n, i / 2);
      assert i == 2 * (i / 2) || i == 2 * (i / 2) + 1;
    }
    forall f | 0 <= f < n
      ensures InBounds(stream, plan[f]) && plan[f].lo == Next(plan[..f]) && IsFrame(cfg, Cut(stream, plan[f]))
    {
      PairIsFrame(cfg, n, f);
    }
    HalvesNumbered(n);
  }

  lemma HalvesNumbered(n: nat)
    ensures Numbered(Halves(n), 0)
  {
    hide OneAu, Wrap;
  }

  lemma {:induction false} PairsCounted(n: nat)
    ensures Undercounted(Aac, Pairs(n)) == n
  {
    if n > 0 {
      PairsCounted(n - 1);
      assert Pairs(n)[..n - 1] == Pairs(n - 1);
    }
  }

  lemma PairsRoom(maxSize: int, n: nat)
    ensures RoomForEach(Aac, maxSize, Pairs(n)) <==> n <= maxSize || n == 0
  {
    forall f | 0 <= f < n ensures Undercounted(Aac, Pairs(n)[..f]) == f {
      PairsCounted(f);
      assert Pairs(n)[..f] == Pairs(f);
    }
    hide Undercounted;
    if n > 0 && RoomForEach(Aac, maxSize, Pairs(n)) {
      assert Undercounted(Aac, Pairs(n)[..n - 1]) + Pairs(n)[n - 1].n - 1 <= maxSize;
    }
  }

  /** Of units in two packets each, in order and none lost, all come out if and only if there are no more
      of them than the limit. */
  lemma HalvesExact(cfg: Config, maxSize: nat, n: nat)
    requires cfg.Valid() && cfg.codec == Aac
    ensures Tiling(cfg, Halves(n), Pairs(n))
    ensures RefRun(cfg, maxSize, Halves(n), Iota(2 * n)).spans == Pairs(n) <==> n <= maxSize
  {
    hide *;
    HalvesTile(cfg, n);
    HalvesSize(n);
    InOrderExact(cfg, maxSize, Halves(n), Pairs(n));
    PairsRoom(maxSize, n);
  }

  lemma HalvesSize(n: nat)
    ensures |Halves(n)| == 2 * n && |Pairs(n)| == n && forall f | 0 <= f < n :: Pairs(n)[f].n == 2
  {
  }

  /** After as many of them as the limit the container is worn out: of whatever comes next, every frame in
      one packet still comes out, and no unit in parts. */
  lemma HalvesWearOut(cfg: Config, maxSize: nat)
    requires cfg.Valid() && cfg.codec == Aac
    ensures forall i | 0 <= i < |Halves(maxSize)| :: Parseable(cfg.codec, Halves(maxSize)[i].payload)
    ensures WornOut(maxSize, FeedAll(cfg, maxSize, EMPTY, Halves(maxSize)))
  {
    hide *;
    HalvesTile(cfg, maxSize);
    HalvesSize(maxSize);
    HalvesParse(cfg, maxSize);
    PairsRoom(maxSize, maxSize);
    PairsCounted(maxSize);
    WearsDown(cfg, maxSize, Halves(maxSize), 0, Pairs(maxSize));
    EmptyPlaced(cfg.codec);
    WornOutIs(maxSize, FeedAll(cfg, maxSize, EMPTY, Halves(maxSize)));
  }

  lemma HalvesParse(cfg: Config, n: nat)
    requires Tiling(cfg, Halves(n), Pairs(n)) && cfg.codec == Aac
    ensures forall i | 0 <= i < |Halves(n)| :: Parseable(cfg.codec, Halves(n)[i].payload)
  {
    hide Parseable, HalfUnit;
    forall i | 0 <= i < |Halves(n)| ensures Parseable(cfg.codec, Halves(n)[i].payload) {
      assert Placed(Aac, Halves(n)[i]);
    }
  }

  lemma EmptyPlaced(codec: Codec)
    ensures AllPlaced(codec, EMPTY.list)
  {
  }

  lemma WornOutIs(maxSize: int, st: State)
    ensures WornOut(maxSize, st) <==> st.list == [] && st.size == maxSize
  {
  }
}
