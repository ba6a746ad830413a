/** From the bytes of payloads to frames, by the type numbers of RFC 6184 and RFC 7798. */
module RtpLayouts {
  import opened Bytes
  import opened RtpPackets
  import opened RtpUnpacking
  import opened RtpReassembly
  import opened AvcNals
  import opened RtpPacking
  import opened RtpRoundTrip

  /** The type of the unit or of the packet, in the bits of its first byte. */
  function TypeBits(codec: Codec, x: byte): nat {
    if codec == Avc then x % 32 else x / 2 % 64
  }

  function Time(cfg: Config, timestamp: uint32): uint32
    requires cfg.Valid()
  {
    timestamp / (cfg.clockRate / 1000)
  }

  // One packet

  /** The first packet of a container, when it is a frame of its own: out at once, and nothing waits. */
  lemma FedAlone(cfg: Config, maxSize: int, h: RtpHeader, b: seq<byte>)
    requires cfg.Valid() && Parseable(cfg.codec, b)
    ensures AllPlaced(cfg.codec, [Place(cfg.codec, MakeRtpPacket(h, b))])
    ensures
      var r := TryRun(cfg, [Place(cfg.codec, MakeRtpPacket(h, b))]);
      r.Unpacked? && r.counted == 1 ==>
        Feed(cfg, maxSize, EMPTY, MakeRtpPacket(h, b)) == State([], 0, true, h.seqNo, r.frames)
  {
    hide CalcPosition, Parseable, TryRun, Drain, UnpackNext, AllPlaced;
    OnePlaced(cfg.codec, MakeRtpPacket(h, b));
    var pkt := MakeRtpPacket(h, b);
    var p := Place(cfg.codec, pkt);
    var r := TryRun(cfg, [p]);
    if r.Unpacked? && r.counted == 1 {
      var st := EMPTY.(list := [p], size := 1);
      assert Insert([], p) == [p];
      LoneAttempt(cfg, p);
      assert UnpackNext(cfg, st) == (State([], 0, true, h.seqNo, r.frames), true);
      DrainedTwice(cfg, st);
    }
  }

  lemma OnePlaced(codec: Codec, pkt: RtpPacket)
    requires Parseable(codec, pkt.payload)
    ensures AllPlaced(codec, [Place(codec, pkt)]) && AllPlaced(codec, [])
  {
    hide Parseable, CalcPosition;
  }

  lemma LoneAttempt(cfg: Config, p: RtpPacket)
    requires cfg.Valid() && AllPlaced(cfg.codec, [p])
    ensures TryUnpack(cfg, [p]) == TryRun(cfg, [p])
    ensures
      var r, st := TryRun(cfg, [p]), EMPTY.(list := [p], size := 1);
      r.Unpacked? && r.counted == 1 ==>
        UnpackNext(cfg, st) == (State([], 0, true, p.header.seqNo, r.frames), true)
  {
    hide TryRun, AllPlaced;
    assert [p][..1] == [p] && [p][1..] == [];
    var none: seq<AvPacket> := [];
    assert TryRun(cfg, [p]).Unpacked? ==> none + TryRun(cfg, [p]).frames == TryRun(cfg, [p]).frames;
  }

  /** Nothing comes after a list that is used up. */
  lemma DrainedTwice(cfg: Config, st: State)
    requires cfg.Valid() && AllPlaced(cfg.codec, st.list)
    requires UnpackNext(cfg, st).1 && UnpackNext(cfg, st).0.list == [] && UnpackNext(cfg, st).0.unpackedFlag
    ensures Drain(cfg, st) == UnpackNext(cfg, st).0
  {
    hide AllPlaced, UnpackOne;
    var t := UnpackNext(cfg, st).0;
    assert UnpackNext(cfg, t) == (t, false);
    assert Drain(cfg, t) == t;
  }

  /** A payload of a unit's own type is the unit, and of no other type but an aggregation's is anything. */
  lemma LonePacket(cfg: Config, maxSize: int, h: RtpHeader, b: seq<byte>)
    requires cfg.Valid() && cfg.codec != Aac && Parseable(cfg.codec, b)
    ensures AllPlaced(cfg.codec, [Place(cfg.codec, MakeRtpPacket(h, b))])
    ensures
      var t := TypeBits(cfg.codec, b[0]);
      var frame := AvPacket(cfg.codec, Time(cfg, h.timestamp), Avcc(b));
      var r := TryRun(cfg, [Place(cfg.codec, MakeRtpPacket(h, b))]);
      if (if cfg.codec == Avc then t <= 23 else t in {0, 1, 19, 20, 21, 32, 33, 34, 39}) then
        r == Unpacked([frame], 1, 1)
        && Feed(cfg, maxSize, EMPTY, MakeRtpPacket(h, b)) == State([], 0, true, h.seqNo, [frame])
      else r.Unpacked? ==> cfg.codec == Avc && t == 24
  {
    hide *;
    FedAlone(cfg, maxSize, h, b);
    TypePlaced(cfg.codec, b);
    PlacedTaken(cfg, h, b);
  }

  lemma TypePlaced(codec: Codec, b: seq<byte>)
    requires codec != Aac && Parseable(codec, b)
    ensures |b| >= 1
    ensures
      var t, position := TypeBits(codec, b[0]), CalcPosition(codec, b);
      if (if codec == Avc then t <= 23 else t in {0, 1, 19, 20, 21, 32, 33, 34, 39}) then position == Single
      else position != Single && (position == Stapa ==> codec == Avc && t == 24)
  {
    HevcBits(b[0]);
  }

  lemma HevcBits(x: byte)
    ensures HevcNaluType(x) == x / 2 % 64
  {
  }

  lemma PlacedTaken(cfg: Config, h: RtpHeader, b: seq<byte>)
    requires cfg.Valid() && cfg.codec != Aac && Parseable(cfg.codec, b)
    requires AllPlaced(cfg.codec, [Place(cfg.codec, MakeRtpPacket(h, b))])
    ensures
      var r := TryRun(cfg, [Place(cfg.codec, MakeRtpPacket(h, b))]);
      match CalcPosition(cfg.codec, b)
      case Single => r == Unpacked([AvPacket(cfg.codec, Time(cfg, h.timestamp), Avcc(b))], 1, 1)
      case Stapa => true
      case _ => r == NoFrame
  {
    hide CalcPosition, Parseable, AllPlaced, Avcc, StapaUnits;
  }

  /** An aggregation packet of any units is one frame that holds them all. */
  lemma AggregatedUnits(cfg: Config, maxSize: int, h: RtpHeader, x: byte, nals: seq<seq<byte>>)
    requires cfg.Valid() && cfg.codec == Avc && x % 32 == 24 && AllShort(nals)
    ensures Parseable(Avc, [x] + JoinStapa(nals))
    ensures
      var pkt := MakeRtpPacket(h, [x] + JoinStapa(nals));
      var frame := AvPacket(Avc, Time(cfg, h.timestamp), AvccAll(nals));
      AllPlaced(Avc, [Place(Avc, pkt)]) && TryRun(cfg, [Place(Avc, pkt)]) == Unpacked([frame], 1, 1)
      && Feed(cfg, maxSize, EMPTY, pkt) == State([], 0, true, h.seqNo, [frame])
  {
    var b := [x] + JoinStapa(nals);
    assert b[1..] == JoinStapa(nals) && b[1..][0..] == JoinStapa(nals);
    StapaAt(b[1..], 0, nals);
    FedAlone(cfg, maxSize, h, b);
    hide Feed, AvccAll, StapaUnits, JoinStapa;
  }

  // Fragments

  /** The start and the end bit of fragment `k` of `n`. */
  function StartEnd(k: nat, n: nat): nat {
    if k == 0 then 0x80 else if k + 1 == n then 0x40 else 0
  }

  /** A fragment: the packet's own header of one or two bytes, the bits and the type of the unit, its part. */
  function Fragment(codec: Codec, x: byte, y: byte, t: byte, parts: seq<seq<byte>>, k: nat): seq<byte>
    requires k < |parts| && t < 64
  {
    (if codec == Avc then [x] else [x, y]) + [StartEnd(k, |parts|) + t] + parts[k]
  }

  predicate IsFragment(codec: Codec, x: byte) {
    if codec == Avc then TypeBits(codec, x) == 28 else TypeBits(codec, x) == 49
  }

  /** The header of the unit: forbidden and importance bits of the packet's, or the outermost bits and the
      second byte of it, around the type. */
  function Rebuilt(codec: Codec, x: byte, y: byte, t: byte): seq<byte>
    requires t < 64
  {
    if codec == Avc then [x / 32 * 32 + t % 32] else [x / 128 * 128 + 2 * t + x % 2, y]
  }

  ghost predicate Fragmented(codec: Codec, run: seq<RtpPacket>, x: byte, y: byte, t: byte, parts: seq<seq<byte>>) {
    codec != Aac && AllPlaced(codec, run) && |run| == |parts| && |parts| >= 2 && IsFragment(codec, x) && t < 64
    && forall k | 0 <= k < |run| :: run[k].payload == Fragment(codec, x, y, t, parts, k)
  }

  lemma FragmentIs(codec: Codec, run: seq<RtpPacket>, x: byte, y: byte, t: byte, parts: seq<seq<byte>>, k: nat)
    requires Fragmented(codec, run, x, y, t, parts) && k < |run|
    ensures PositionIs(codec, run[k], FlagAt(k, |run|, FU_START))
    ensures |run[k].payload| >= FuHeaderLength(codec) && run[k].payload[FuHeaderLength(codec)..] == parts[k]
    ensures k == 0 ==> FuNalHeader(codec, run[k].payload) == Rebuilt(codec, x, y, t)
  {
    var b := run[k].payload;
    assert Placed(codec, run[k]);
    assert b[0] == x && (codec == Hevc ==> b[1] == y);
    assert b[FuHeaderLength(codec) - 1] == StartEnd(k, |parts|) + t;
    Bits(StartEnd(k, |parts|), t);
  }

  lemma Bits(flag: nat, t: byte)
    requires flag in {0x80, 0x40, 0} && t < 64
    ensures (flag + t) / 0x80 == flag / 0x80 && (flag + t) % 0x80 == flag % 0x80 + t
    ensures (flag + t) % 32 == t % 32 && (flag + t) % 64 == t
  {
  }

  lemma {:induction false} BodiesArePartsOf(base: seq<byte>, run: seq<RtpPacket>, parts: seq<seq<byte>>, n: nat,
    skip: nat)
    requires n <= |run| == |parts|
    requires forall k | 0 <= k < |run| :: |run[k].payload| >= skip && run[k].payload[skip..] == parts[k]
    ensures Bodies(base, run, n, skip) == base + Flatten(parts[..n])
  {
    if n == 0 {
      assert parts[..0] == [] && base + [] == base;
    } else {
      BodiesArePartsOf(base, run, parts, n - 1, skip);
      FlattenSnoc(parts[..n - 1], parts[n - 1]);
      assert parts[..n] == parts[..n - 1] + [parts[n - 1]];
      ConcatAssociative(base, Flatten(parts[..n - 1]), parts[n - 1]);
    }
  }

  /** Fragments of any sizes make one frame: the rebuilt header and all parts, at the time of the last. */
  lemma FragmentedUnit(cfg: Config, run: seq<RtpPacket>, x: byte, y: byte, t: byte, parts: seq<seq<byte>>)
    requires cfg.Valid() && Fragmented(cfg.codec, run, x, y, t, parts)
    ensures
      var nal := Rebuilt(cfg.codec, x, y, t) + Flatten(parts);
      TryRun(cfg, run)
        == Unpacked([AvPacket(cfg.codec, Time(cfg, run[|run| - 1].header.timestamp), Avcc(nal))], |run|, |run|)
  {
    hide *;
    FragmentedParts(cfg.codec, run, x, y, t, parts);
    forall k | 0 <= k < |run|
      ensures PositionIs(cfg.codec, run[k], FlagAt(k, |run|, FU_START))
      ensures |run[k].payload| >= FuHeaderLength(cfg.codec) && run[k].payload[FuHeaderLength(cfg.codec)..] == parts[k]
    {
      FragmentIs(cfg.codec, run, x, y, t, parts, k);
    }
    FragmentIs(cfg.codec, run, x, y, t, parts, 0);
    FragmentsAttempt(cfg, run);
    FuNalIs(cfg.codec, run);
    BodiesArePartsOf(Rebuilt(cfg.codec, x, y, t), run, parts, |run|, FuHeaderLength(cfg.codec));
    FullSlice(parts);
    TimeIs(cfg, run[|run| - 1].header.timestamp);
  }

  lemma FragmentedParts(codec: Codec, run: seq<RtpPacket>, x: byte, y: byte, t: byte, parts: seq<seq<byte>>)
    requires Fragmented(codec, run, x, y, t, parts)
    ensures codec != Aac && AllPlaced(codec, run) && |run| == |parts| && |parts| >= 2 && t < 64
  {
    hide AllPlaced, Fragment;
  }

  lemma TimeIs(cfg: Config, timestamp: uint32)
    requires cfg.Valid()
    ensures cfg.Millis(timestamp) == Time(cfg, timestamp)
  {
  }

  // What is not sent

  /** Exactly the access unit delimiters are left out. */
  lemma DelimiterExact(codec: Codec, nal: seq<byte>, maxSize: int)
    requires maxSize > 0 && nal != [] && Packable(codec, nal, maxSize)
    ensures PackUnit(codec, nal, maxSize) == [] <==> TypeBits(codec, nal[0]) == if codec == Avc then 9 else 35
    ensures PackUnit(codec, nal, maxSize) != [] ==> PackUnit(codec, nal, maxSize) == PackNal(codec, nal, maxSize)
  {
    HevcBits(nal[0]);
    hide PackNal, Packable, HevcNaluType;
  }
}
