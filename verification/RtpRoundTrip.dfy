/** Packing, any reordering on the way, and unpacking give back the NAL units. */
module RtpRoundTrip {
  import opened Bytes
  import opened SeqNumber
  import opened RtpPackets
  import opened RtpUnpacking
  import opened RtpLocality
  import opened RtpReassembly
  import opened RtpReference
  import opened RtpRefinement
  import opened RtpReordering
  import opened RtpCapacity
  import opened AvcNals
  import opened RtpPacking

  /** These packets carry these payloads, in order, placed as the receiver places them. */
  ghost predicate Carries(codec: Codec, run: seq<RtpPacket>, payloads: seq<seq<byte>>) {
    && AllPlaced(codec, run) && |run| == |payloads|
    && forall i | 0 <= i < |run| :: run[i].payload == payloads[i]
  }

  /** The unit comes back: whole units need a type the receiver takes as a single unit; of fragmented
      units the header bits that fragments do not carry must have their fixed values. */
  predicate Survives(codec: Codec, nal: seq<byte>, maxSize: int)
    requires nal != [] && Packable(codec, nal, maxSize)
  {
    match codec
    case Avc => if |nal| <= maxSize then AvcNaluType(nal[0]) <= AVC_SINGLE_MAX else nal[0] < 0x80
    case Hevc =>
      if |nal| <= maxSize then HevcNaluType(nal[0]) in HEVC_SINGLE
      else nal[0] / 0x80 == 0 && nal[0] % 2 == 0 && |nal| > 1 && nal[1] == 1
    case Aac => false
  }

  /** What fragments give back. */
  function Restored(codec: Codec, nal: seq<byte>): seq<byte>
    requires |nal| >= NalHeaderLength(codec)
  {
    if codec == Avc then [nal[0] % 0x80] + nal[1..]
    else [nal[0] / 2 % 0x40 * 2, 1] + nal[2..]
  }

  lemma RestoredExact(codec: Codec, nal: seq<byte>, maxSize: int)
    requires codec != Aac && maxSize > FuHeaderLength(codec) && |nal| > maxSize
    ensures Restored(codec, nal) == nal <==> Survives(codec, nal, maxSize)
  {
    if codec == Avc {
      assert nal == [nal[0]] + nal[1..];
      assert Restored(codec, nal)[0] == nal[0] % 0x80;
    } else {
      assert nal == [nal[0], nal[1]] + nal[2..];
      assert Restored(codec, nal)[0] == nal[0] / 2 % 0x40 * 2 && Restored(codec, nal)[1] == 1;
    }
  }

  lemma PlacedByHeader(codec: Codec, nal: seq<byte>, b: seq<byte>, flag: int)
    requires codec != Aac && nal != [] && flag in {FU_START, FU_END, 0}
    requires |b| >= FuHeaderLength(codec) && b[..FuHeaderLength(codec)] == FuHeader(codec, nal, flag)
    ensures Parseable(codec, b)
    ensures CalcPosition(codec, b) == if flag == FU_START then FuaStart else if flag == FU_END then FuaEnd else FuaMiddle
  {
    var h := FuHeader(codec, nal, flag);
    if codec == Avc {
      HeadBytes(b, h, 2);
      FlagPlaced(nal[0] % 0x20, flag);
      AvcFuType(nal[0]);
      hide FuHeader, FuaPosition;
    } else {
      HeadBytes(b, h, 3);
      FlagPlaced(nal[0] / 2 % 0x40, flag);
      hide FuHeader, FuaPosition;
    }
  }

  lemma HeadBytes(b: seq<byte>, h: seq<byte>, n: nat)
    requires 2 <= n <= 3 && |h| == n <= |b| && b[..n] == h
    ensures b[0] == h[0] && b[1] == h[1] && (n == 3 ==> b[2] == h[2])
  {
  }

  lemma AvcFuType(x: byte)
    ensures AvcNaluType(AVC_FUA + x % 0x80 / 0x20 * 0x20) == AVC_FUA
  {
  }

  lemma FlagPlaced(t: byte, flag: int)
    requires t < 0x40 && flag in {FU_START, FU_END, 0}
    ensures FuaPosition(t + flag) == if flag == FU_START then FuaStart else if flag == FU_END then FuaEnd else FuaMiddle
  {
  }

  lemma HeaderRestored(codec: Codec, nal: seq<byte>, b: seq<byte>)
    requires codec != Aac && |nal| >= NalHeaderLength(codec) && nal != []
    requires |b| >= FuHeaderLength(codec) && b[..FuHeaderLength(codec)] == FuHeader(codec, nal, FU_START)
    ensures FuNalHeader(codec, b) + nal[NalHeaderLength(codec)..] == Restored(codec, nal)
  {
    var h := FuHeader(codec, nal, FU_START);
    if codec == Avc {
      assert b[0] == h[0] && b[1] == h[1];
      AvcByte(nal[0]);
    } else {
      assert b[0] == h[0] && b[1] == h[1] && b[2] == h[2];
      HevcByte(nal[0]);
    }
  }

  lemma AvcByte(x: byte)
    ensures (AVC_FUA + x % 0x80 / 0x20 * 0x20) / 32 * 32 + (x % 0x20 + FU_START) % 32 == x % 0x80
  {
  }

  lemma HevcByte(x: byte)
    ensures (HEVC_FUA * 2) / 128 * 128 + 2 * ((x / 2 % 0x40 + FU_START) % 64) + HEVC_FUA * 2 % 2 == x / 2 % 0x40 * 2
  {
  }

  lemma {:induction false} BodiesAreTails(
      base: seq<byte>, run: seq<RtpPacket>, payloads: seq<seq<byte>>, n: nat, skip: nat)
    requires |run| == |payloads| && (forall i | 0 <= i < |run| :: run[i].payload == payloads[i])
    requires AllAtLeast(payloads, skip) && n <= |run|
    ensures Bodies(base, run, n, skip) + Tails(payloads, n, skip) == base + Tails(payloads, 0, skip)
  {
    if n > 0 {
      BodiesAreTails(base, run, payloads, n - 1, skip);
      ConcatAssociative(Bodies(base, run, n - 1, skip), payloads[n - 1][skip..], Tails(payloads, n, skip));
    }
  }

  /** The fragments of a unit unpack to one frame, the restored unit. */
  lemma FragmentsUnpack(cfg: Config, run: seq<RtpPacket>, nal: seq<byte>, maxSize: nat)
    requires cfg.Valid() && cfg.codec != Aac && maxSize > FuHeaderLength(cfg.codec) && |nal| > maxSize
    requires Carries(cfg.codec, run, PackNal(cfg.codec, nal, maxSize))
    ensures run != [] && TryRun(cfg, run) == Unpacked(
      [AvPacket(cfg.codec, cfg.Millis(run[|run| - 1].header.timestamp), Avcc(Restored(cfg.codec, nal)))], |run|, |run|)
  {
    hide *;
    SeveralFragments(cfg.codec, nal, maxSize);
    CarriesParts(cfg.codec, run, PackNal(cfg.codec, nal, maxSize));
    forall i | 0 <= i < |run|
      ensures PositionIs(cfg.codec, run[i], FlagAt(i, |run|, FU_START))
      ensures |run[i].payload| >= FuHeaderLength(cfg.codec)
    {
      FragmentPlaced(cfg.codec, run, nal, maxSize, i);
    }
    FragmentsRestore(cfg.codec, run, nal, maxSize);
    FragmentsAttempt(cfg, run);
  }

  lemma CarriesParts(codec: Codec, run: seq<RtpPacket>, payloads: seq<seq<byte>>)
    requires Carries(codec, run, payloads)
    ensures AllPlaced(codec, run) && |run| == |payloads| && forall i | 0 <= i < |run| :: run[i].payload == payloads[i]
  {
    hide Placed;
  }

  lemma SeveralFragments(codec: Codec, nal: seq<byte>, maxSize: nat)
    requires codec != Aac && maxSize > FuHeaderLength(codec) && |nal| > maxSize
    ensures Packable(codec, nal, maxSize) && |PackNal(codec, nal, maxSize)| >= 2 && |nal| >= NalHeaderLength(codec)
    ensures PackNal(codec, nal, maxSize) == Fragments(codec, nal, NalHeaderLength(codec), FU_START, maxSize)
  {
    PayloadsFit(codec, nal, maxSize);
    hide Fragments;
  }

  lemma FragmentPlaced(codec: Codec, run: seq<RtpPacket>, nal: seq<byte>, maxSize: nat, i: nat)
    requires codec != Aac && maxSize > FuHeaderLength(codec) && |nal| > maxSize && i < |run|
    requires Carries(codec, run, PackNal(codec, nal, maxSize))
    ensures PositionIs(codec, run[i], FlagAt(i, |run|, FU_START)) && |run[i].payload| >= FuHeaderLength(codec)
  {
    SeveralFragments(codec, nal, maxSize);
    FragmentHeads(codec, nal, NalHeaderLength(codec), FU_START, maxSize, i);
    hide PackNal, Fragments, FuHeader, CalcPosition, Parseable, FuHeaderLength, NalHeaderLength;
    assert Placed(codec, run[i]);
    PlacedByHeader(codec, nal, PackNal(codec, nal, maxSize)[i], FlagAt(i, |run|, FU_START));
  }

  /** The bodies of the fragments, behind the rebuilt header, are the restored unit. */
  lemma FragmentsRestore(codec: Codec, run: seq<RtpPacket>, nal: seq<byte>, maxSize: nat)
    requires codec != Aac && maxSize > FuHeaderLength(codec) && |nal| > maxSize && run != []
    requires Carries(codec, run, PackNal(codec, nal, maxSize))
    requires forall i | 0 <= i < |run| :: |run[i].payload| >= FuHeaderLength(codec)
    ensures FuNal(codec, run, |run|) == Restored(codec, nal)
  {
    hide *;
    SeveralFragments(codec, nal, maxSize);
    var out, start, skip := PackNal(codec, nal, maxSize), NalHeaderLength(codec), FuHeaderLength(codec);
    CarriesParts(codec, run, out);
    FragmentHeads(codec, nal, start, FU_START, maxSize, 0);
    FirstHeaded(codec, nal, out, maxSize);
    HeaderRestored(codec, nal, out[0]);
    FragmentsCarryAll(codec, nal, start, FU_START, maxSize);
    BodiesAreTails(FuNalHeader(codec, run[0].payload), run, out, |run|, skip);
    NoTail(out, skip);
    assert Bodies(FuNalHeader(codec, run[0].payload), run, |run|, skip) + []
      == Bodies(FuNalHeader(codec, run[0].payload), run, |run|, skip);
    FuNalIs(codec, run);
  }

  lemma FirstHeaded(codec: Codec, nal: seq<byte>, out: seq<seq<byte>>, maxSize: nat)
    requires nal != [] && |out| >= 2 && HeadedAt(codec, nal, out, FU_START, maxSize, 0)
    ensures |out[0]| >= FuHeaderLength(codec) && out[0][..FuHeaderLength(codec)] == FuHeader(codec, nal, FU_START)
  {
    hide FuHeader, FuHeaderLength;
  }

  lemma NoTail(out: seq<seq<byte>>, skip: nat)
    requires AllAtLeast(out, skip)
    ensures Tails(out, |out|, skip) == []
  {
  }

  lemma FuNalIs(codec: Codec, run: seq<RtpPacket>)
    requires run != [] && forall i | 0 <= i < |run| :: |run[i].payload| >= FuHeaderLength(codec)
    ensures FuNal(codec, run, |run|)
      == Bodies(FuNalHeader(codec, run[0].payload), run, |run|, FuHeaderLength(codec))
  {
    hide FuNalHeader, FuHeaderLength, Bodies;
  }

  /** Packets placed like fragments are one frame. */
  lemma FragmentsAttempt(cfg: Config, run: seq<RtpPacket>)
    requires cfg.Valid() && cfg.codec != Aac && AllPlaced(cfg.codec, run) && |run| >= 2
    requires forall i | 0 <= i < |run| :: PositionIs(cfg.codec, run[i], FlagAt(i, |run|, FU_START))
    requires forall i | 0 <= i < |run| :: |run[i].payload| >= FuHeaderLength(cfg.codec)
    ensures TryRun(cfg, run) == Unpacked(
      [AvPacket(cfg.codec, cfg.Millis(run[|run| - 1].header.timestamp), Avcc(FuNal(cfg.codec, run, |run|)))], |run|, |run|)
  {
    var n := |run|;
    hide Placed, FuHeaderLength, FuNal, Avcc, FuaLast;
    assert PositionIs(cfg.codec, run[0], FU_START) && PositionIs(cfg.codec, run[n - 1], FU_END);
    assert forall i | 1 <= i < n - 1 :: PositionIs(cfg.codec, run[i], FlagAt(i, n, FU_START));
    FuaLastExact(run, 1);
  }

  ghost predicate PositionIs(codec: Codec, p: RtpPacket, flag: int) {
    && |p.payload| >= FuHeaderLength(codec)
    && p.position == if flag == FU_START then FuaStart else if flag == FU_END then FuaEnd else FuaMiddle
  }

  lemma {:induction false} StapaLength(b: seq<byte>, i: nat)
    requires i <= |b| && StapaUnits(b, i).Some?
    ensures |AvccAll(StapaUnits(b, i).value)| == |b| - i + 2 * |StapaUnits(b, i).value|
    decreases |b| - i
  {
    if i < |b| {
      var next := i + 2 + StapaSize(b, i);
      StapaLength(b, next);
      assert StapaUnits(b, i).value[1..] == StapaUnits(b, next).value;
    }
  }

  /** One packet holding a whole unit gives the unit back only if its type is a single unit's: an
      aggregation packet never reads back as itself, its lengths cannot come out even. */
  lemma WholeUnit(cfg: Config, run: seq<RtpPacket>, nal: seq<byte>)
    requires cfg.Valid() && cfg.codec != Aac && nal != [] && Carries(cfg.codec, run, [nal])
    ensures TryRun(cfg, run) == Unpacked([AvPacket(cfg.codec, cfg.Millis(run[0].header.timestamp), Avcc(nal))], 1, 1)
      <==> run[0].position == Single
  {
    assert Placed(cfg.codec, run[0]);
    if run[0].position == Stapa {
      var b := nal[1..];
      if StapaUnits(b, 0).Some? {
        StapaLength(b, 0);
        assert |Avcc(nal)| == |nal| + 4;
      }
    }
  }

  /** One unit through packer and unpacker, exactly. */
  lemma UnitRoundTrip(cfg: Config, run: seq<RtpPacket>, nal: seq<byte>, maxSize: nat)
    requires cfg.Valid() && cfg.codec != Aac && nal != [] && maxSize > 0 && Packable(cfg.codec, nal, maxSize)
    requires Carries(cfg.codec, run, PackNal(cfg.codec, nal, maxSize))
    ensures TryRun(cfg, run) == Unpacked(
        [AvPacket(cfg.codec, cfg.Millis(run[|run| - 1].header.timestamp), Avcc(nal))], |run|, |run|)
      <==> Survives(cfg.codec, nal, maxSize)
  {
    if |nal| <= maxSize {
      WholeUnit(cfg, run, nal);
      assert Placed(cfg.codec, run[0]);
    } else {
      FragmentsUnpack(cfg, run, nal, maxSize);
      RestoredExact(cfg.codec, nal, maxSize);
      AvccInjective(Restored(cfg.codec, nal), nal);
    }
  }

  lemma AvccInjective(a: seq<byte>, b: seq<byte>)
    ensures Avcc(a) == Avcc(b) ==> a == b
  {
    assert Avcc(a)[4..] == a && Avcc(b)[4..] == b;
  }

  // ---- whole streams

  /** A unit on its way, with the RTP timestamp of its packets. */
  datatype Item = Item(timestamp: uint32, nal: seq<byte>)

  ghost predicate GoodItem(codec: Codec, it: Item, maxSize: nat) {
    && it.nal != [] && maxSize > 0 && Packable(codec, it.nal, maxSize) && Survives(codec, it.nal, maxSize)
  }

  ghost predicate GoodItems(codec: Codec, items: seq<Item>, maxSize: nat) {
    codec != Aac && forall i | 0 <= i < |items| :: GoodItem(codec, items[i], maxSize)
  }

  /** The packets are those of the items, one unit after another. */
  ghost predicate StreamOf(codec: Codec, stream: seq<RtpPacket>, items: seq<Item>, maxSize: nat)
    requires GoodItems(codec, items, maxSize)
    decreases |items|
  {
    if items == [] then stream == []
    else
      var it := items[|items| - 1];
      var out := PackNal(codec, it.nal, maxSize);
      && |stream| >= |out|
      && Carries(codec, stream[|stream| - |out|..], out)
      && (forall i | |stream| - |out| <= i < |stream| :: stream[i].header.timestamp == it.timestamp)
      && StreamOf(codec, stream[..|stream| - |out|], items[..|items| - 1], maxSize)
  }

  /** The receiver's frames for these units. */
  ghost function ItemFrames(cfg: Config, items: seq<Item>): seq<AvPacket>
    requires cfg.Valid()
  {
    if items == [] then []
    else
      var it := items[|items| - 1];
      ItemFrames(cfg, items[..|items| - 1]) + [AvPacket(cfg.codec, cfg.Millis(it.timestamp), Avcc(it.nal))]
  }

  /** One stretch for each unit. */
  ghost function PlanOf(codec: Codec, items: seq<Item>, maxSize: nat): (plan: seq<Span>)
    requires GoodItems(codec, items, maxSize)
    ensures |plan| == |items|
  {
    if items == [] then []
    else
      var it := items[|items| - 1];
      var plan := PlanOf(codec, items[..|items| - 1], maxSize);
      plan + [Span(Next(plan), |PackNal(codec, it.nal, maxSize)|)]
  }

  lemma LastItemFrame(cfg: Config, run: seq<RtpPacket>, it: Item, maxSize: nat)
    requires cfg.Valid() && cfg.codec != Aac && GoodItem(cfg.codec, it, maxSize)
    requires Carries(cfg.codec, run, PackNal(cfg.codec, it.nal, maxSize))
    requires forall i | 0 <= i < |run| :: run[i].header.timestamp == it.timestamp
    ensures IsFrame(cfg, run)
    ensures TryRun(cfg, run).frames == [AvPacket(cfg.codec, cfg.Millis(it.timestamp), Avcc(it.nal))]
  {
    hide TryRun, PackNal, Survives;
    UnitRoundTrip(cfg, run, it.nal, maxSize);
  }

  lemma CutOfPrefix(stream: seq<RtpPacket>, m: nat, s: Span)
    requires m <= |stream| && InBounds(stream[..m], s)
    ensures InBounds(stream, s) && Cut(stream, s) == Cut(stream[..m], s)
  {
  }

  ghost predicate TiledAt(cfg: Config, stream: seq<RtpPacket>, plan: seq<Span>, f: nat)
    requires f < |plan|
  {
    InBounds(stream, plan[f]) && plan[f].lo == Next(plan[..f]) && IsFrame(cfg, Cut(stream, plan[f]))
  }

  lemma TilingSnocAt(cfg: Config, stream: seq<RtpPacket>, m: nat, plan: seq<Span>, f: nat)
    requires cfg.Valid() && AllPlaced(cfg.codec, stream) && m <= |stream| && f <= |plan|
    requires Tiling(cfg, stream[..m], plan) && IsFrame(cfg, stream[m..])
    ensures TiledAt(cfg, stream, plan + [Span(m, |stream| - m)], f)
  {
    hide TryRun, IsFrame, Placed;
    var s := Span(m, |stream| - m);
    assert (plan + [s])[..f] == plan[..f];
    if f < |plan| {
      assert InBounds(stream[..m], plan[f]);
      CutOfPrefix(stream, m, plan[f]);
    } else {
      assert plan[..f] == plan;
      assert Cut(stream, s) == stream[m..];
    }
  }

  lemma TilingSnoc(cfg: Config, stream: seq<RtpPacket>, m: nat, plan: seq<Span>)
    requires cfg.Valid() && AllPlaced(cfg.codec, stream) && m <= |stream|
    requires Tiling(cfg, stream[..m], plan) && IsFrame(cfg, stream[m..])
    ensures Tiling(cfg, stream, plan + [Span(m, |stream| - m)])
  {
    hide TryRun, IsFrame, Placed, Cut, TiledAt, AllPlaced;
    var s := Span(m, |stream| - m);
    var plan' := plan + [s];
    forall f | 0 <= f < |plan'| ensures TiledAt(cfg, stream, plan', f) {
      TilingSnocAt(cfg, stream, m, plan, f);
    }
    NextSnoc(plan, s);
    TiledAll(cfg, stream, plan');
  }

  lemma NextSnoc(plan: seq<Span>, s: Span)
    ensures Next(plan + [s]) == s.lo + s.n
  {
  }

  lemma TiledAll(cfg: Config, stream: seq<RtpPacket>, plan: seq<Span>)
    requires cfg.Valid() && AllPlaced(cfg.codec, stream) && Next(plan) == |stream|
    requires forall f | 0 <= f < |plan| :: TiledAt(cfg, stream, plan, f)
    ensures Tiling(cfg, stream, plan)
  {
    hide TryRun, IsFrame, Placed, Cut, Next, AllPlaced;
    forall f | 0 <= f < |plan| ensures InBounds(stream, plan[f]) {
      assert TiledAt(cfg, stream, plan, f);
    }
    forall f | 0 <= f < |plan| ensures plan[f].lo == Next(plan[..f]) && IsFrame(cfg, Cut(stream, plan[f])) {
      assert TiledAt(cfg, stream, plan, f);
    }
  }

  lemma TilingSnocDelivers(cfg: Config, stream: seq<RtpPacket>, m: nat, plan: seq<Span>)
    requires cfg.Valid() && AllPlaced(cfg.codec, stream) && m <= |stream|
    requires Tiling(cfg, stream[..m], plan) && IsFrame(cfg, stream[m..])
    ensures var plan' := plan + [Span(m, |stream| - m)];
      && AllInBounds(stream, plan')
      && Delivered(cfg, stream, plan') == Delivered(cfg, stream[..m], plan) + TryRun(cfg, stream[m..]).frames
  {
    var s := Span(m, |stream| - m);
    assert Cut(stream, s) == stream[m..];
    hide TryRun, IsFrame, Placed, Tiling, Delivered;
    DeliveredOfPrefix(cfg, stream, m, plan);
    DeliveredSnoc(cfg, stream, plan, s);
    FramesKnown(cfg, stream, s);
  }

  lemma FramesKnown(cfg: Config, stream: seq<RtpPacket>, s: Span)
    requires cfg.Valid() && AllPlaced(cfg.codec, stream) && InBounds(stream, s) && IsFrame(cfg, Cut(stream, s))
    ensures FramesOf(cfg, stream, s) == TryRun(cfg, Cut(stream, s)).frames
  {
  }

  lemma {:induction false} DeliveredOfPrefix(cfg: Config, stream: seq<RtpPacket>, m: nat, plan: seq<Span>)
    requires cfg.Valid() && AllPlaced(cfg.codec, stream) && m <= |stream| && AllInBounds(stream[..m], plan)
    ensures AllInBounds(stream, plan) && Delivered(cfg, stream, plan) == Delivered(cfg, stream[..m], plan)
  {
    hide TryRun, Placed;
    assert forall i | 0 <= i < |plan| :: InBounds(stream[..m], plan[i]);
    if plan != [] {
      var n := |plan| - 1;
      DeliveredOfPrefix(cfg, stream, m, plan[..n]);
      assert Cut(stream, plan[n]) == Cut(stream[..m], plan[n]);
    }
  }

  /** The stream of some units is a stream of frames, and its frames are the units. */
  lemma {:induction false} ItemsAreFrames(cfg: Config, stream: seq<RtpPacket>, items: seq<Item>, maxSize: nat)
    requires cfg.Valid() && GoodItems(cfg.codec, items, maxSize) && StreamOf(cfg.codec, stream, items, maxSize)
    ensures Tiling(cfg, stream, PlanOf(cfg.codec, items, maxSize))
    ensures Delivered(cfg, stream, PlanOf(cfg.codec, items, maxSize)) == ItemFrames(cfg, items)
    decreases |items|
  {
    if items != [] {
      var it := items[|items| - 1];
      var before := items[..|items| - 1];
      var m: nat := |stream| - |PackNal(cfg.codec, it.nal, maxSize)|;
      ItemsAreFrames(cfg, stream[..m], before, maxSize);
      LastItemFrame(cfg, stream[m..], it, maxSize);
      AppendPlaced(cfg.codec, stream, m);
      TilingSnoc(cfg, stream, m, PlanOf(cfg.codec, before, maxSize));
      TilingSnocDelivers(cfg, stream, m, PlanOf(cfg.codec, before, maxSize));
      hide TryRun, PackNal, IsFrame, Placed, Delivered, Survives;
      assert Next(PlanOf(cfg.codec, before, maxSize)) == m;
    }
  }

  lemma AppendPlaced(codec: Codec, stream: seq<RtpPacket>, m: nat)
    requires m <= |stream| && AllPlaced(codec, stream[..m]) && AllPlaced(codec, stream[m..])
    ensures AllPlaced(codec, stream)
  {
    forall i | 0 <= i < |stream| ensures Placed(codec, stream[i]) {
      if i < m {
        assert stream[..m][i] == stream[i];
      } else {
        assert stream[m..][i - m] == stream[i];
      }
    }
  }

  // ---- the sender

  /** The items of the first `n` units of an access unit. */
  ghost function ItemsOf(codec: Codec, timestamp: uint32, nals: seq<seq<byte>>, n: nat): seq<Item>
    requires n <= |nals| && forall i | 0 <= i < |nals| :: nals[i] != []
  {
    if n == 0 then []
    else
      ItemsOf(codec, timestamp, nals, n - 1) + ItemOf(codec, timestamp, nals[n - 1])
  }

  ghost function ItemOf(codec: Codec, timestamp: uint32, nal: seq<byte>): seq<Item>
    requires nal != []
  {
    if IsAud(codec, nal) then [] else [Item(timestamp, nal)]
  }

  ghost predicate GoodUnits(codec: Codec, nals: seq<seq<byte>>, maxSize: nat) {
    && codec != Aac && maxSize > 0 && AllPackable(codec, nals, maxSize)
    && forall i | 0 <= i < |nals| :: IsAud(codec, nals[i]) || Survives(codec, nals[i], maxSize)
  }

  /** Packets with these payloads and this timestamp. */
  ghost predicate SentWith(codec: Codec, run: seq<RtpPacket>, payloads: seq<seq<byte>>, timestamp: uint32) {
    Carries(codec, run, payloads) && forall i | 0 <= i < |run| :: run[i].header.timestamp == timestamp
  }

  lemma StreamSnoc(codec: Codec, s: seq<RtpPacket>, items: seq<Item>, t: seq<RtpPacket>, it: Item, maxSize: nat)
    requires GoodItems(codec, items, maxSize) && GoodItem(codec, it, maxSize) && StreamOf(codec, s, items, maxSize)
    requires SentWith(codec, t, PackNal(codec, it.nal, maxSize), it.timestamp)
    ensures GoodItems(codec, items + [it], maxSize) && StreamOf(codec, s + t, items + [it], maxSize)
  {
    hide PackNal, Survives, Placed, GoodItem, AllPlaced;
    var all, more := s + t, items + [it];
    assert all[|s|..] == t && all[..|s|] == s;
    assert more[..|items|] == items && more[|items|] == it;
    LaterTimes(s, t, it.timestamp);
    LastOfStream(codec, all, more, |s|, maxSize);
  }

  lemma LaterTimes(s: seq<RtpPacket>, t: seq<RtpPacket>, timestamp: uint32)
    requires forall i | 0 <= i < |t| :: t[i].header.timestamp == timestamp
    ensures forall i | |s| <= i < |s + t| :: (s + t)[i].header.timestamp == timestamp
  {
  }

  lemma LastOfStream(codec: Codec, stream: seq<RtpPacket>, items: seq<Item>, m: nat, maxSize: nat)
    requires GoodItems(codec, items, maxSize) && items != [] && m <= |stream|
    requires
      var it := items[|items| - 1];
      var out := PackNal(codec, it.nal, maxSize);
      |stream| == m + |out| && Carries(codec, stream[m..], out)
      && forall i | m <= i < |stream| :: stream[i].header.timestamp == it.timestamp
    requires StreamOf(codec, stream[..m], items[..|items| - 1], maxSize)
    ensures StreamOf(codec, stream, items, maxSize)
  {
    hide PackNal, Survives, Placed, Carries;
  }

  lemma {:induction false} UnitsAppend(codec: Codec, s: seq<RtpPacket>, items: seq<Item>, t: seq<RtpPacket>,
                                       timestamp: uint32, nals: seq<seq<byte>>, n: nat, maxSize: nat)
    requires GoodItems(codec, items, maxSize) && StreamOf(codec, s, items, maxSize)
    requires GoodUnits(codec, nals, maxSize) && n <= |nals|
    requires SentWith(codec, t, PackUnits(codec, nals, n, maxSize), timestamp)
    ensures var all := items + ItemsOf(codec, timestamp, nals, n);
      GoodItems(codec, all, maxSize) && StreamOf(codec, s + t, all, maxSize)
    decreases n
  {
    hide *;
    if n == 0 {
      UnitsNone(codec, s, items, t, timestamp, nals, maxSize);
    } else {
      UnitsStep(codec, nals, n, timestamp, maxSize);
      var out, last := PackUnits(codec, nals, n - 1, maxSize), PackUnit(codec, nals[n - 1], maxSize);
      SplitSent(codec, t, out, last, timestamp);
      var t1, t2 := t[..|out|], t[|out|..];
      UnitsAppend(codec, s, items, t1, timestamp, nals, n - 1, maxSize);
      var all, more := ItemsOf(codec, timestamp, nals, n - 1), ItemOf(codec, timestamp, nals[n - 1]);
      UnitAppend(codec, s + t1, items + all, t2, timestamp, nals[n - 1], maxSize);
      ConcatAssociative(s, t1, t2);
      ConcatAssociative(items, all, more);
    }
  }

  lemma UnitsNone(codec: Codec, s: seq<RtpPacket>, items: seq<Item>, t: seq<RtpPacket>,
                  timestamp: uint32, nals: seq<seq<byte>>, maxSize: nat)
    requires GoodUnits(codec, nals, maxSize) && SentWith(codec, t, PackUnits(codec, nals, 0, maxSize), timestamp)
    ensures s + t == s && items + ItemsOf(codec, timestamp, nals, 0) == items
  {
    assert t == [];
  }

  lemma UnitsStep(codec: Codec, nals: seq<seq<byte>>, n: nat, timestamp: uint32, maxSize: nat)
    requires GoodUnits(codec, nals, maxSize) && 1 <= n <= |nals|
    ensures PackUnits(codec, nals, n, maxSize)
      == PackUnits(codec, nals, n - 1, maxSize) + PackUnit(codec, nals[n - 1], maxSize)
    ensures ItemsOf(codec, timestamp, nals, n) == ItemsOf(codec, timestamp, nals, n - 1) + ItemOf(codec, timestamp, nals[n - 1])
    ensures nals[n - 1] != [] && Packable(codec, nals[n - 1], maxSize) && maxSize > 0
    ensures IsAud(codec, nals[n - 1]) || Survives(codec, nals[n - 1], maxSize)
    ensures AllPackable(codec, nals, maxSize) && forall i | 0 <= i < |nals| :: nals[i] != []
  {
  }

  lemma UnitAppend(codec: Codec, s: seq<RtpPacket>, items: seq<Item>, t: seq<RtpPacket>,
                   timestamp: uint32, nal: seq<byte>, maxSize: nat)
    requires GoodItems(codec, items, maxSize) && StreamOf(codec, s, items, maxSize)
    requires nal != [] && maxSize > 0 && Packable(codec, nal, maxSize)
    requires IsAud(codec, nal) || Survives(codec, nal, maxSize)
    requires SentWith(codec, t, PackUnit(codec, nal, maxSize), timestamp)
    ensures var all := items + ItemOf(codec, timestamp, nal);
      GoodItems(codec, all, maxSize) && StreamOf(codec, s + t, all, maxSize)
  {
    if IsAud(codec, nal) {
      assert t == [] && s + t == s && items + [] == items;
    } else {
      StreamSnoc(codec, s, items, t, Item(timestamp, nal), maxSize);
    }
  }

  lemma SplitSent(codec: Codec, t: seq<RtpPacket>, out: seq<seq<byte>>, last: seq<seq<byte>>, timestamp: uint32)
    requires SentWith(codec, t, out + last, timestamp)
    ensures |out| <= |t|
    ensures SentWith(codec, t[..|out|], out, timestamp) && SentWith(codec, t[|out|..], last, timestamp)
    ensures t == t[..|out|] + t[|out|..]
  {
    hide Placed;
    assert forall i | |out| <= i < |t| :: t[i].payload == last[i - |out|];
  }

  /** Access units, as lists of NAL units with a presentation time. */
  datatype AccessUnit = AccessUnit(millis: uint32, nals: seq<seq<byte>>)

  /** How a sender is set up. */
  datatype Sender = Sender(codec: Codec, clockRate: nat, maxPayloadSize: nat, ssrc: uint32, firstSeq: uint16)

  /** What a call needs for its units to come back: the units are in AVCC framing and split again, the
      receiver can read each of them, the clock counts whole milliseconds and does not overflow. */
  ghost predicate GoodCall(s: Sender, au: AccessUnit) {
    && GoodUnits(s.codec, au.nals, s.maxPayloadSize)
    && (forall i | 0 <= i < |au.nals| :: |au.nals[i]| < 0x1_0000_0000) && au.nals != []
    && s.clockRate >= 1000 && s.clockRate % 1000 == 0 && RtpTime(s.clockRate, au.millis) < 0x1_0000_0000
  }

  lemma GoodCallPacks(s: Sender, au: AccessUnit)
    requires GoodCall(s, au)
    ensures CanPack(s.codec, AvccFraming, AvccAll(au.nals), s.maxPayloadSize)
    ensures PackPayloads(s.codec, AvccFraming, AvccAll(au.nals), s.maxPayloadSize)
      == PackUnits(s.codec, au.nals, |au.nals|, s.maxPayloadSize)
  {
    SplitAvccExact(au.nals);
  }

  ghost predicate GoodCalls(s: Sender, aus: seq<AccessUnit>) {
    forall i | 0 <= i < |aus| :: GoodCall(s, aus[i])
  }

  /** The packets of the first `n` calls: what `RtpPacker.Pack` returns for one access unit after another. */
  ghost function Sent(s: Sender, aus: seq<AccessUnit>, n: nat): seq<RtpPacket>
    requires n <= |aus| && GoodCalls(s, aus)
  {
    if n == 0 then []
    else
      var before := Sent(s, aus, n - 1);
      before + SentBy(s, aus[n - 1], s.firstSeq + |before|)
  }

  ghost function SentBy(s: Sender, au: AccessUnit, seqNo: int): seq<RtpPacket>
    requires GoodCall(s, au)
  {
    GoodCallPacks(s, au);
    var payloads := PackPayloads(s.codec, AvccFraming, AvccAll(au.nals), s.maxPayloadSize);
    Packets(s.codec, payloads, |payloads|, seqNo, RtpTime(s.clockRate, au.millis), s.ssrc)
  }

  /** The NAL units a receiver should see. */
  ghost function Wanted(s: Sender, aus: seq<AccessUnit>, n: nat): seq<AvPacket>
    requires n <= |aus| && GoodCalls(s, aus)
  {
    if n == 0 then [] else Wanted(s, aus, n - 1) + WantedOf(s.codec, aus[n - 1].millis, aus[n - 1].nals, |aus[n - 1].nals|)
  }

  ghost function WantedOf(codec: Codec, millis: uint32, nals: seq<seq<byte>>, n: nat): seq<AvPacket>
    requires n <= |nals| && forall i | 0 <= i < |nals| :: nals[i] != []
  {
    if n == 0 then []
    else
      WantedOf(codec, millis, nals, n - 1)
      + (if IsAud(codec, nals[n - 1]) then [] else [AvPacket(codec, millis, Avcc(nals[n - 1]))])
  }

  ghost function AllItems(s: Sender, aus: seq<AccessUnit>, n: nat): seq<Item>
    requires n <= |aus| && GoodCalls(s, aus)
  {
    if n == 0 then []
    else
      var au := aus[n - 1];
      AllItems(s, aus, n - 1) + ItemsOf(s.codec, RtpTime(s.clockRate, au.millis), au.nals, |au.nals|)
  }

  ghost predicate CanPlaceAll(codec: Codec, sent: seq<RtpPacket>) {
    forall i | 0 <= i < |sent| :: Parseable(codec, sent[i].payload)
  }

  /** Every packet as the receiver stores it. */
  ghost function PlaceAll(codec: Codec, sent: seq<RtpPacket>): (stream: seq<RtpPacket>)
    requires CanPlaceAll(codec, sent)
    ensures |stream| == |sent| && AllPlaced(codec, stream)
    ensures forall i | 0 <= i < |sent| :: stream[i] == Place(codec, sent[i])
  {
    seq(|sent|, i requires 0 <= i < |sent| => Place(codec, sent[i]))
  }

  lemma UnitParseable(codec: Codec, nal: seq<byte>, maxSize: nat, i: nat)
    requires codec != Aac && nal != [] && maxSize > 0 && Packable(codec, nal, maxSize) && Survives(codec, nal, maxSize)
    requires i < |PackNal(codec, nal, maxSize)|
    ensures Parseable(codec, PackNal(codec, nal, maxSize)[i])
  {
    if |nal| > maxSize {
      var n := |PackNal(codec, nal, maxSize)|;
      FragmentHeads(codec, nal, NalHeaderLength(codec), FU_START, maxSize, i);
      PlacedByHeader(codec, nal, PackNal(codec, nal, maxSize)[i], FlagAt(i, n, FU_START));
    }
  }

  ghost predicate AllParseable(codec: Codec, payloads: seq<seq<byte>>) {
    forall i | 0 <= i < |payloads| :: Parseable(codec, payloads[i])
  }

  lemma {:induction false} PayloadsParseable(codec: Codec, nals: seq<seq<byte>>, n: nat, maxSize: nat)
    requires GoodUnits(codec, nals, maxSize) && n <= |nals|
    ensures AllParseable(codec, PackUnits(codec, nals, n, maxSize))
  {
    if n > 0 {
      PayloadsParseable(codec, nals, n - 1, maxSize);
      var last := PackUnit(codec, nals[n - 1], maxSize);
      forall i | 0 <= i < |last| ensures Parseable(codec, last[i]) {
        UnitParseable(codec, nals[n - 1], maxSize, i);
      }
      hide PackNal, Parseable, Survives;
    }
  }

  /** The packets one call adds. */
  lemma CallIsSent(s: Sender, au: AccessUnit, seqNo: int)
    requires GoodCall(s, au)
    ensures CanPlaceAll(s.codec, SentBy(s, au, seqNo))
    ensures SentWith(s.codec, PlaceAll(s.codec, SentBy(s, au, seqNo)),
                     PackUnits(s.codec, au.nals, |au.nals|, s.maxPayloadSize), RtpTime(s.clockRate, au.millis))
    ensures var t := SentBy(s, au, seqNo);
      forall i | 0 <= i < |t| :: t[i].header.seqNo == Wrap(seqNo + i)
  {
    GoodCallPacks(s, au);
    PayloadsParseable(s.codec, au.nals, |au.nals|, s.maxPayloadSize);
    hide RtpTime, PackUnits, PackPayloads, Packets, Parseable, CalcPosition, GoodUnits, Wrap, SplitBy;
    var payloads := PackPayloads(s.codec, AvccFraming, AvccAll(au.nals), s.maxPayloadSize);
    var t := SentBy(s, au, seqNo);
    forall i | 0 <= i < |t| ensures Parseable(s.codec, t[i].payload) {
      assert t[i].payload == payloads[i];
    }
    forall i | 0 <= i < |t| ensures Placed(s.codec, PlaceAll(s.codec, t)[i]) {
    }
  }

  lemma PlaceAllAppend(codec: Codec, a: seq<RtpPacket>, b: seq<RtpPacket>)
    requires CanPlaceAll(codec, a) && CanPlaceAll(codec, b)
    ensures CanPlaceAll(codec, a + b) && PlaceAll(codec, a + b) == PlaceAll(codec, a) + PlaceAll(codec, b)
  {
    hide Parseable, CalcPosition;
  }

  lemma {:induction false} SentIsStream(s: Sender, aus: seq<AccessUnit>, n: nat)
    requires n <= |aus| && GoodCalls(s, aus) && s.codec != Aac
    ensures CanPlaceAll(s.codec, Sent(s, aus, n)) && GoodItems(s.codec, AllItems(s, aus, n), s.maxPayloadSize)
    ensures StreamOf(s.codec, PlaceAll(s.codec, Sent(s, aus, n)), AllItems(s, aus, n), s.maxPayloadSize)
    ensures Numbered(PlaceAll(s.codec, Sent(s, aus, n)), s.firstSeq)
  {
    hide *;
    if n == 0 {
      NothingSent(s, aus);
    } else {
      SentIsStream(s, aus, n - 1);
      SentIsStreamStep(s, aus, n);
    }
  }

  lemma NothingSent(s: Sender, aus: seq<AccessUnit>)
    requires GoodCalls(s, aus) && s.codec != Aac
    ensures CanPlaceAll(s.codec, Sent(s, aus, 0)) && GoodItems(s.codec, AllItems(s, aus, 0), s.maxPayloadSize)
    ensures StreamOf(s.codec, PlaceAll(s.codec, Sent(s, aus, 0)), AllItems(s, aus, 0), s.maxPayloadSize)
    ensures Numbered(PlaceAll(s.codec, Sent(s, aus, 0)), s.firstSeq)
  {
    assert PlaceAll(s.codec, []) == [];
  }

  lemma SentIsStreamStep(s: Sender, aus: seq<AccessUnit>, n: nat)
    requires 1 <= n <= |aus| && GoodCalls(s, aus) && s.codec != Aac
    requires CanPlaceAll(s.codec, Sent(s, aus, n - 1)) && GoodItems(s.codec, AllItems(s, aus, n - 1), s.maxPayloadSize)
    requires StreamOf(s.codec, PlaceAll(s.codec, Sent(s, aus, n - 1)), AllItems(s, aus, n - 1), s.maxPayloadSize)
    requires Numbered(PlaceAll(s.codec, Sent(s, aus, n - 1)), s.firstSeq)
    ensures CanPlaceAll(s.codec, Sent(s, aus, n)) && GoodItems(s.codec, AllItems(s, aus, n), s.maxPayloadSize)
    ensures StreamOf(s.codec, PlaceAll(s.codec, Sent(s, aus, n)), AllItems(s, aus, n), s.maxPayloadSize)
    ensures Numbered(PlaceAll(s.codec, Sent(s, aus, n)), s.firstSeq)
  {
    hide *;
    SentStep(s, aus, n);
    var au, before := aus[n - 1], Sent(s, aus, n - 1);
    var more := SentBy(s, au, s.firstSeq + |before|);
    CallIsSent(s, au, s.firstSeq + |before|);
    PlaceAllAppend(s.codec, before, more);
    NumberedAppend(s.codec, before, more, s.firstSeq);
    UnitsAppend(s.codec, PlaceAll(s.codec, before), AllItems(s, aus, n - 1), PlaceAll(s.codec, more),
                RtpTime(s.clockRate, au.millis), au.nals, |au.nals|, s.maxPayloadSize);
  }

  lemma SentStep(s: Sender, aus: seq<AccessUnit>, n: nat)
    requires 1 <= n <= |aus| && GoodCalls(s, aus)
    ensures var au, before := aus[n - 1], Sent(s, aus, n - 1);
      && GoodCall(s, au) && GoodUnits(s.codec, au.nals, s.maxPayloadSize)
      && AllPackable(s.codec, au.nals, s.maxPayloadSize) && s.maxPayloadSize > 0
      && (forall i | 0 <= i < |au.nals| :: au.nals[i] != []) && RtpTime(s.clockRate, au.millis) < 0x1_0000_0000
      && Sent(s, aus, n) == before + SentBy(s, au, s.firstSeq + |before|)
      && AllItems(s, aus, n)
         == AllItems(s, aus, n - 1) + ItemsOf(s.codec, RtpTime(s.clockRate, au.millis), au.nals, |au.nals|)
  {
    hide SentBy, ItemsOf, Survives, RtpTime;
  }

  lemma NumberedAppend(codec: Codec, a: seq<RtpPacket>, b: seq<RtpPacket>, first: int)
    requires CanPlaceAll(codec, a) && CanPlaceAll(codec, b) && Numbered(PlaceAll(codec, a), first)
    requires forall i | 0 <= i < |b| :: b[i].header.seqNo == Wrap(first + |a| + i)
    ensures CanPlaceAll(codec, a + b) && Numbered(PlaceAll(codec, a + b), first)
  {
    hide Parseable, CalcPosition, Wrap;
    PlaceAllAppend(codec, a, b);
    var all := PlaceAll(codec, a + b);
    forall i | 0 <= i < |all| ensures all[i].header.seqNo == Wrap(first + i) {
      if i < |a| {
        assert all[i] == PlaceAll(codec, a)[i];
      } else {
        assert all[i] == PlaceAll(codec, b)[i - |a|];
        assert b[i - |a|].header.seqNo == Wrap(first + |a| + (i - |a|));
      }
    }
  }

  lemma MillisBack(cfg: Config, millis: uint32)
    requires cfg.Valid() && cfg.clockRate % 1000 == 0 && RtpTime(cfg.clockRate, millis) < 0x1_0000_0000
    ensures cfg.Millis(RtpTime(cfg.clockRate, millis)) == millis
  {
    var c := cfg.clockRate / 1000;
    Scale(millis, c);
    ExactDivision(millis * c, millis, c);
  }

  lemma Scale(millis: nat, c: nat)
    ensures millis * (1000 * c) / 1000 == millis * c
  {
    assert millis * (1000 * c) == 1000 * (millis * c);
  }

  lemma {:induction false} ExactDivision(x: nat, q: nat, c: nat)
    requires c > 0 && x == q * c
    ensures x / c == q
  {
    if q > 0 {
      assert x - c == (q - 1) * c;
      ExactDivision(x - c, q - 1, c);
      assert (x - c) / c == x / c - 1;
    }
  }

  lemma CallFrames(cfg: Config, items: seq<Item>, millis: uint32, nals: seq<seq<byte>>, n: nat)
    requires cfg.Valid() && cfg.clockRate % 1000 == 0 && RtpTime(cfg.clockRate, millis) < 0x1_0000_0000
    requires n <= |nals| && forall i | 0 <= i < |nals| :: nals[i] != []
    ensures ItemFrames(cfg, items + ItemsOf(cfg.codec, RtpTime(cfg.clockRate, millis), nals, n))
      == ItemFrames(cfg, items) + WantedOf(cfg.codec, millis, nals, n)
  {
    MillisBack(cfg, millis);
    StampedFrames(cfg, items, RtpTime(cfg.clockRate, millis), millis, nals, n);
  }

  lemma {:induction false} StampedFrames(
      cfg: Config, items: seq<Item>, timestamp: uint32, millis: uint32, nals: seq<seq<byte>>, n: nat)
    requires cfg.Valid() && cfg.Millis(timestamp) == millis
    requires n <= |nals| && forall i | 0 <= i < |nals| :: nals[i] != []
    ensures ItemFrames(cfg, items + ItemsOf(cfg.codec, timestamp, nals, n))
      == ItemFrames(cfg, items) + WantedOf(cfg.codec, millis, nals, n)
  {
    hide *;
    if n == 0 {
      NoItems(cfg.codec, timestamp, millis, nals);
      assert items + [] == items;
      assert ItemFrames(cfg, items) + [] == ItemFrames(cfg, items);
    } else {
      StampedFrames(cfg, items, timestamp, millis, nals, n - 1);
      ItemsStep(cfg.codec, timestamp, millis, nals, n);
      if !IsAud(cfg.codec, nals[n - 1]) {
        var before, it := items + ItemsOf(cfg.codec, timestamp, nals, n - 1), Item(timestamp, nals[n - 1]);
        ConcatAssociative(items, ItemsOf(cfg.codec, timestamp, nals, n - 1), [it]);
        FrameStep(cfg, before, it);
        ConcatAssociative(ItemFrames(cfg, items), WantedOf(cfg.codec, millis, nals, n - 1),
                          [AvPacket(cfg.codec, millis, Avcc(nals[n - 1]))]);
      }
    }
  }

  lemma NoItems(codec: Codec, timestamp: uint32, millis: uint32, nals: seq<seq<byte>>)
    requires forall i | 0 <= i < |nals| :: nals[i] != []
    ensures ItemsOf(codec, timestamp, nals, 0) == [] && WantedOf(codec, millis, nals, 0) == []
  {
  }

  lemma ItemsStep(codec: Codec, timestamp: uint32, millis: uint32, nals: seq<seq<byte>>, n: nat)
    requires 0 < n <= |nals| && forall i | 0 <= i < |nals| :: nals[i] != []
    ensures
      var items, wanted := ItemsOf(codec, timestamp, nals, n - 1), WantedOf(codec, millis, nals, n - 1);
      if IsAud(codec, nals[n - 1]) then
        ItemsOf(codec, timestamp, nals, n) == items && WantedOf(codec, millis, nals, n) == wanted
      else
        ItemsOf(codec, timestamp, nals, n) == items + [Item(timestamp, nals[n - 1])]
        && WantedOf(codec, millis, nals, n) == wanted + [AvPacket(codec, millis, Avcc(nals[n - 1]))]
  {
    hide IsAud, Avcc;
    var items, wanted := ItemsOf(codec, timestamp, nals, n - 1), WantedOf(codec, millis, nals, n - 1);
    assert items + [] == items && wanted + [] == wanted;
  }

  lemma FrameStep(cfg: Config, items: seq<Item>, it: Item)
    requires cfg.Valid()
    ensures ItemFrames(cfg, items + [it])
      == ItemFrames(cfg, items) + [AvPacket(cfg.codec, cfg.Millis(it.timestamp), Avcc(it.nal))]
  {
    hide Avcc;
    var all := items + [it];
    assert all[..|all| - 1] == items;
  }

  lemma {:induction false} FramesAreWanted(cfg: Config, s: Sender, aus: seq<AccessUnit>, n: nat)
    requires cfg.Valid() && n <= |aus| && GoodCalls(s, aus) && cfg == Config(s.codec, s.clockRate)
    ensures ItemFrames(cfg, AllItems(s, aus, n)) == Wanted(s, aus, n)
  {
    hide *;
    if n == 0 {
      NothingWanted(cfg, s, aus);
    } else {
      var au := aus[n - 1];
      FramesAreWanted(cfg, s, aus, n - 1);
      SentStep(s, aus, n);
      WantedStep(s, aus, n);
      CallFrames(cfg, AllItems(s, aus, n - 1), au.millis, au.nals, |au.nals|);
    }
  }

  lemma NothingWanted(cfg: Config, s: Sender, aus: seq<AccessUnit>)
    requires cfg.Valid() && GoodCalls(s, aus)
    ensures ItemFrames(cfg, AllItems(s, aus, 0)) == Wanted(s, aus, 0)
  {
    hide GoodCall;
  }

  lemma WantedStep(s: Sender, aus: seq<AccessUnit>, n: nat)
    requires 1 <= n <= |aus| && GoodCalls(s, aus)
    ensures var au := aus[n - 1];
      s.clockRate % 1000 == 0 && (forall i | 0 <= i < |au.nals| :: au.nals[i] != [])
      && Wanted(s, aus, n) == Wanted(s, aus, n - 1) + WantedOf(s.codec, au.millis, au.nals, |au.nals|)
  {
    hide WantedOf, Survives, RtpTime;
    assert GoodCall(s, aus[n - 1]);
  }

  // ---- through the buffer

  lemma PlaceFirst(cfg: Config, maxSize: int, st: State, p: RtpPacket)
    requires cfg.Valid() && AllPlaced(cfg.codec, st.list) && Parseable(cfg.codec, p.payload)
    ensures Feed(cfg, maxSize, st, Place(cfg.codec, p)) == Feed(cfg, maxSize, st, p)
  {
    hide Parseable, CalcPosition, Settle, Insert, IsStale;
  }

  /** Feeding a packet or its placed copy makes no difference. */
  lemma {:induction false} FeedPlaced(cfg: Config, maxSize: int, sent: seq<RtpPacket>, arrivals: seq<nat>)
    requires cfg.Valid() && CanPlaceAll(cfg.codec, sent) && ValidArrivals(sent, arrivals)
    ensures CanPlaceAll(cfg.codec, Pick(sent, arrivals))
    ensures FeedAll(cfg, maxSize, EMPTY, Pick(sent, arrivals))
      == FeedAll(cfg, maxSize, EMPTY, Pick(PlaceAll(cfg.codec, sent), arrivals))
  {
    hide Parseable, CalcPosition, Feed;
    if arrivals != [] {
      var n := |arrivals| - 1;
      FeedPlaced(cfg, maxSize, sent, arrivals[..n]);
      var stream := PlaceAll(cfg.codec, sent);
      assert Pick(sent, arrivals)[..n] == Pick(sent, arrivals[..n]);
      assert Pick(stream, arrivals)[..n] == Pick(stream, arrivals[..n]);
      PlaceFirst(cfg, maxSize, FeedAll(cfg, maxSize, EMPTY, Pick(sent, arrivals[..n])), sent[arrivals[n]]);
    }
  }

  /** How the sender's packets fall into frames. */
  ghost function SentPlan(s: Sender, aus: seq<AccessUnit>): seq<Span>
    requires GoodCalls(s, aus) && s.codec != Aac
  {
    SentIsStream(s, aus, |aus|);
    PlanOf(s.codec, AllItems(s, aus, |aus|), s.maxPayloadSize)
  }

  lemma SentTiling(cfg: Config, s: Sender, aus: seq<AccessUnit>)
    requires GoodCalls(s, aus) && s.codec != Aac && cfg.Valid() && cfg == Config(s.codec, s.clockRate)
    ensures var sent := Sent(s, aus, |aus|);
      && CanPlaceAll(s.codec, sent)
      && var stream := PlaceAll(s.codec, sent);
        && Tiling(cfg, stream, SentPlan(s, aus)) && Numbered(stream, s.firstSeq)
        && Delivered(cfg, stream, SentPlan(s, aus)) == Wanted(s, aus, |aus|)
  {
    hide *;
    SentPlanIs(s, aus);
    SentIsStream(s, aus, |aus|);
    ItemsAreFrames(cfg, PlaceAll(s.codec, Sent(s, aus, |aus|)), AllItems(s, aus, |aus|), s.maxPayloadSize);
    FramesAreWanted(cfg, s, aus, |aus|);
  }

  lemma SentPlanIs(s: Sender, aus: seq<AccessUnit>)
    requires GoodCalls(s, aus) && s.codec != Aac
    ensures GoodItems(s.codec, AllItems(s, aus, |aus|), s.maxPayloadSize)
    ensures SentPlan(s, aus) == PlanOf(s.codec, AllItems(s, aus, |aus|), s.maxPayloadSize)
  {
    hide Sent, GoodItems, StreamOf;
    SentIsStream(s, aus, |aus|);
  }

  ghost predicate SentFits(cfg: Config, s: Sender, aus: seq<AccessUnit>, maxSize: int, arrivals: seq<nat>)
    requires GoodCalls(s, aus) && s.codec != Aac && cfg.Valid() && cfg == Config(s.codec, s.clockRate)
  {
    SentTiling(cfg, s, aus);
    Fits(cfg, maxSize, PlaceAll(s.codec, Sent(s, aus, |aus|)), SentPlan(s, aus), arrivals)
  }

  /** Video over RTP, from NAL units to NAL units: whatever the packets' order on the way and however
      often each is repeated, if the first comes first, none is lost, none strays 16384 from the
      delivery point and the buffer has room, the receiver delivers every NAL unit of every access
      unit except delimiters, whole, in order, with its time. */
  lemma VideoRoundTrip(cfg: Config, s: Sender, aus: seq<AccessUnit>, maxSize: int, arrivals: seq<nat>)
    requires GoodCalls(s, aus) && s.codec != Aac && cfg.Valid() && cfg == Config(s.codec, s.clockRate)
    requires ValidArrivals(Sent(s, aus, |aus|), arrivals)
    requires forall k: nat | k < |Sent(s, aus, |aus|)| :: k in arrivals
    requires arrivals != [] ==> arrivals[0] == 0
    requires Timely(SentPlan(s, aus), arrivals) && SentFits(cfg, s, aus, maxSize, arrivals)
    ensures var sent := Sent(s, aus, |aus|);
      && CanPlaceAll(s.codec, Pick(sent, arrivals))
      && FeedAll(cfg, maxSize, EMPTY, Pick(sent, arrivals)).delivered == Wanted(s, aus, |aus|)
      && FeedAll(cfg, maxSize, EMPTY, Pick(sent, arrivals)).list == []
  {
    var sent := Sent(s, aus, |aus|);
    SentTiling(cfg, s, aus);
    var stream := PlaceAll(s.codec, sent);
    assert ValidArrivals(stream, arrivals);
    assert Fits(cfg, maxSize, stream, SentPlan(s, aus), arrivals);
    hide *;
    FeedPlaced(cfg, maxSize, sent, arrivals);
    AllDelivered(cfg, maxSize, stream, s.firstSeq, SentPlan(s, aus), arrivals);
  }

  /** In order and without loss, it is enough that the buffer can hold the fragments of the longest
      unit but one, and that no unit has as many fragments as the window is wide. */
  lemma VideoInOrder(cfg: Config, s: Sender, aus: seq<AccessUnit>, maxSize: nat)
    requires GoodCalls(s, aus) && s.codec != Aac && cfg.Valid() && cfg == Config(s.codec, s.clockRate)
    requires forall f | 0 <= f < |SentPlan(s, aus)| :: SentPlan(s, aus)[f].n <= maxSize + 1 && SentPlan(s, aus)[f].n < 16384
    ensures CanPlaceAll(s.codec, Sent(s, aus, |aus|))
    ensures FeedAll(cfg, maxSize, EMPTY, Sent(s, aus, |aus|)).delivered == Wanted(s, aus, |aus|)
  {
    var sent := Sent(s, aus, |aus|);
    SentTiling(cfg, s, aus);
    var stream := PlaceAll(s.codec, sent);
    var arrivals := Iota(|sent|);
    assert Pick(sent, arrivals) == sent && Pick(stream, arrivals) == stream;
    InOrderExact(cfg, maxSize, stream, SentPlan(s, aus));
    hide *;
    FeedPlaced(cfg, maxSize, sent, arrivals);
    InOrderDelivery(cfg, maxSize, stream, s.firstSeq, SentPlan(s, aus));
  }
}
