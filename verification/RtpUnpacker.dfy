/** What the two unpackers take from the front of the buffered packets:
    `rtprtcp/rtp_unpacker_avc_hevc.go` and `rtprtcp/rtp_unpacker_aac.go`. */
module RtpUnpacking {
  import opened Bytes
  import opened SeqNumber
  import opened RtpPackets

  datatype Codec = Avc | Hevc | Aac

  datatype Config = Config(codec: Codec, clockRate: int)
  {
    /** The source divides by `uint32(clockRate/1000)`. */
    predicate Valid() {
      1000 <= clockRate < 1000 * 0x1_0000_0000
    }

    function Millis(timestamp: uint32): uint32
      requires Valid()
    {
      timestamp / (clockRate / 1000)
    }
  }

  datatype AvPacket = AvPacket(payloadType: Codec, timestamp: uint32, payload: seq<byte>)

  // ---- position of a packet inside its frame

  function AvcNaluType(b: byte): int {
    b % 32
  }

  function HevcNaluType(b: byte): int {
    b % 128 / 2
  }

  const AVC_SINGLE_MAX := 23
  const AVC_STAPA := 24
  const AVC_FUA := 28
  const HEVC_FUA := 49

  /** vps, sps, pps, sei, trail_n, trail_r, idr_w_radl, idr_n_lp, cra */
  const HEVC_SINGLE: set<int> := {32, 33, 34, 39, 0, 1, 19, 20, 21}

  function FuaPosition(fuHeader: byte): Position {
    if fuHeader >= 0x80 then FuaStart else if fuHeader % 0x80 >= 0x40 then FuaEnd else FuaMiddle
  }

  /** The bytes the unpackers read without looking at the length first are there. */
  predicate Parseable(codec: Codec, b: seq<byte>) {
    match codec
    case Avc => |b| >= 1 && (AvcNaluType(b[0]) == AVC_FUA ==> |b| >= 2)
    case Hevc => |b| >= 1 && (HevcNaluType(b[0]) == HEVC_FUA ==> |b| >= 3)
    case Aac =>
      && |b| >= 2
      && 2 + 2 * AuCount(b) <= |b|
      && (AuCount(b) == 1 ==> AuPos(b, 0) <= |b|)
      && (AuCount(b) > 1 ==> AuPos(b, AuCount(b)) <= |b|)
  }

  function CalcPosition(codec: Codec, b: seq<byte>): Position
    requires Parseable(codec, b)
  {
    match codec
    case Avc =>
      var t := AvcNaluType(b[0]);
      if t <= AVC_SINGLE_MAX then Single
      else if t == AVC_FUA then FuaPosition(b[1])
      else if t == AVC_STAPA then Stapa
      else Unplaced
    case Hevc =>
      var t := HevcNaluType(b[0]);
      if t in HEVC_SINGLE then Single
      else if t == HEVC_FUA then FuaPosition(b[2])
      else Unplaced
    case Aac => Unplaced
  }

  /** A packet as it stands in the buffer: parseable, and placed by `CalcPosition`. */
  ghost predicate Placed(codec: Codec, p: RtpPacket) {
    Parseable(codec, p.payload) && p.position == CalcPosition(codec, p.payload)
  }

  ghost predicate AllPlaced(codec: Codec, list: seq<RtpPacket>) {
    forall i | 0 <= i < |list| :: Placed(codec, list[i])
  }

  // ---- AVC and HEVC

  function Avcc(nal: seq<byte>): seq<byte> {
    BePut32(|nal| % 0x1_0000_0000) + nal
  }

  function AvccAll(nals: seq<seq<byte>>): seq<byte> {
    if nals == [] then [] else Avcc(nals[0]) + AvccAll(nals[1..])
  }

  /** The NAL units of an aggregation packet from byte `i` on; None if a length field is cut off. */
  function StapaUnits(b: seq<byte>, i: nat): Option<seq<seq<byte>>>
    requires i <= |b|
    decreases |b| - i
  {
    if i == |b| then Some([])
    else if |b| - i < 2 || i + 2 + StapaSize(b, i) > |b| then None
    else
      var next := i + 2 + StapaSize(b, i);
      match StapaUnits(b, next)
      case None => None
      case Some(rest) => Some([b[i + 2..next]] + rest)
  }

  function StapaSize(b: seq<byte>, i: nat): nat
    requires i + 2 <= |b|
  {
    b[i] as int * 0x100 + b[i + 1]
  }

  function FuHeaderLength(codec: Codec): nat {
    if codec == Avc then 2 else 3
  }

  /** The NAL header rebuilt from the first fragment. */
  function FuNalHeader(codec: Codec, b: seq<byte>): seq<byte>
    requires |b| >= FuHeaderLength(codec)
  {
    if codec == Avc then [b[0] / 32 * 32 + b[1] % 32]
    else [b[0] / 128 * 128 + 2 * (b[2] % 64) + b[0] % 2, b[1]]
  }

  /** `base`, and after it the payload bytes behind `skip` header bytes of the first `n` packets. */
  function Bodies(base: seq<byte>, run: seq<RtpPacket>, n: nat, skip: nat): (r: seq<byte>)
    requires n <= |run| && forall i | 0 <= i < n :: |run[i].payload| >= skip
  {
    if n == 0 then base else Bodies(base, run, n - 1, skip) + run[n - 1].payload[skip..]
  }

  /** Index of the last fragment, looking from index `i` on: fragments must be middle ones up to it. */
  function FuaLast(run: seq<RtpPacket>, i: nat): (r: Option<nat>)
    ensures r.Some? ==> i <= r.value < |run| && run[r.value].position == FuaEnd
    ensures r.Some? ==> forall k | i <= k < r.value :: run[k].position == FuaMiddle
    decreases |run| - i
  {
    if i >= |run| then None
    else if run[i].position == FuaMiddle then FuaLast(run, i + 1)
    else if run[i].position == FuaEnd then Some(i)
    else None
  }

  // ---- AAC (mode high bit-rate)

  /** Bytes in the AU header section after its 2-byte length field, which counts bits. */
  function AuHeadersLength(b: seq<byte>): (n: nat)
    requires |b| >= 2
    ensures 8 * n - 8 < b[0] as int * 0x100 + b[1] <= 8 * n
  {
    (Be16(b) + 7) / 8
  }

  function AuCount(b: seq<byte>): nat
    requires |b| >= 2
  {
    AuHeadersLength(b) / 2
  }

  function AuSize(b: seq<byte>, i: nat): nat
    requires |b| >= 2 && i < AuCount(b) && 2 + 2 * AuCount(b) <= |b|
  {
    AuSizeField(b[2 + 2 * i], b[3 + 2 * i])
  }

  /** The upper 13 of 16 bits. */
  function AuSizeField(hi: byte, lo: byte): nat {
    (hi as int * 0x100 + lo / 8 * 8) / 8
  }

  function AuPos(b: seq<byte>, i: nat): nat
    requires |b| >= 2 && i <= AuCount(b) && 2 + 2 * AuCount(b) <= |b|
  {
    if i == 0 then 2 + AuHeadersLength(b) else AuPos(b, i - 1) + AuSize(b, i - 1)
  }

  datatype Au = Au(size: nat, pos: nat)

  function AuAt(b: seq<byte>, i: nat): Au
    requires |b| >= 2 && i < AuCount(b) && 2 + 2 * AuCount(b) <= |b|
  {
    Au(AuSize(b, i), AuPos(b, i))
  }

  lemma {:induction false} AuPosMonotone(b: seq<byte>, i: nat, j: nat)
    requires |b| >= 2 && i <= j <= AuCount(b) && 2 + 2 * AuCount(b) <= |b|
    ensures AuPos(b, i) <= AuPos(b, j)
  {
    if i < j {
      AuPosMonotone(b, i, j - 1);
    }
  }

  /** What a lone access unit leaves of its packet: a whole unit or a fragment of one. */
  function AuRest(b: seq<byte>): seq<byte>
    requires Parseable(Aac, b) && AuCount(b) == 1
  {
    b[AuPos(b, 0)..]
  }

  /** Each further access unit of a packet is 1024 samples later. */
  function AuMillis(cfg: Config, timestamp: uint32, i: nat): uint32
    requires cfg.Valid()
  {
    (cfg.Millis(timestamp) + i * (1024 * 1000) / cfg.clockRate) % 0x1_0000_0000
  }

  function AuFrame(cfg: Config, p: RtpPacket, i: nat): AvPacket
    requires cfg.Valid() && Parseable(Aac, p.payload) && i < AuCount(p.payload) != 1
  {
    var b := p.payload;
    AuPosMonotone(b, i + 1, AuCount(b));
    AvPacket(Aac, AuMillis(cfg, p.header.timestamp, i), b[AuPos(b, i)..AuPos(b, i) + AuSize(b, i)])
  }

  /** The first `n` frames of a packet holding several (or no) access units. */
  function AuFrames(cfg: Config, p: RtpPacket, n: nat): seq<AvPacket>
    requires cfg.Valid() && Parseable(Aac, p.payload) && n <= AuCount(p.payload) != 1
  {
    if n == 0 then [] else AuFrames(cfg, p, n - 1) + [AuFrame(cfg, p, n - 1)]
  }

  /** Index of the packet that completes the access unit begun in `run[0]`, when `cached` bytes of
      its `total` have been collected before packet `i`. */
  function AacLast(run: seq<RtpPacket>, i: nat, cached: nat, total: nat): (r: Option<nat>)
    requires AllPlaced(Aac, run)
    ensures r.Some? ==> i <= r.value < |run|
    ensures r.Some? ==> forall k | i <= k <= r.value :: AuCount(run[k].payload) == 1
    decreases |run| - i
  {
    if i >= |run| then None
    else if run[i].header.timestamp != run[0].header.timestamp then None
    else
      var b := run[i].payload;
      if AuCount(b) != 1 || AuSize(b, 0) != total then None
      else
        var cached' := cached + |AuRest(b)|;
        if cached' < total then AacLast(run, i + 1, cached', total)
        else if cached' == total then Some(i)
        else None
  }

  function AuRests(run: seq<RtpPacket>, n: nat): seq<byte>
    requires n <= |run| && AllPlaced(Aac, run) && forall i | 0 <= i < n :: AuCount(run[i].payload) == 1
  {
    if n == 0 then [] else AuRests(run, n - 1) + AuRest(run[n - 1].payload)
  }

  // ---- one attempt

  /** `taken` packets leave the list; the list's size counter goes down by `counted`. */
  datatype Attempt = NoFrame | Unpacked(frames: seq<AvPacket>, taken: nat, counted: nat)

  /** One attempt on packets that follow each other without a gap. */
  function TryRun(cfg: Config, run: seq<RtpPacket>): (r: Attempt)
    requires cfg.Valid() && AllPlaced(cfg.codec, run)
    ensures r.Unpacked? ==> 1 <= r.taken <= |run| && 1 <= r.counted <= r.taken
  {
    if run == [] then NoFrame
    else if cfg.codec == Aac then TryRunAac(cfg, run)
    else TryRunAvcHevc(cfg, run)
  }

  function TryRunAvcHevc(cfg: Config, run: seq<RtpPacket>): (r: Attempt)
    requires cfg.Valid() && cfg.codec != Aac && run != [] && AllPlaced(cfg.codec, run)
    ensures r.Unpacked? ==> 1 <= r.taken <= |run| && r.counted == r.taken
  {
    match run[0].position
    case Single =>
      Unpacked([AvPacket(cfg.codec, cfg.Millis(run[0].header.timestamp), Avcc(run[0].payload))], 1, 1)
    case Stapa =>
      (match StapaUnits(run[0].payload[1..], 0)
       case None => NoFrame
       case Some(nals) =>
         Unpacked([AvPacket(cfg.codec, cfg.Millis(run[0].header.timestamp), AvccAll(nals))], 1, 1))
    case FuaStart =>
      (match FuaLast(run, 1)
       case None => NoFrame
       case Some(e) =>
         Unpacked([AvPacket(cfg.codec, cfg.Millis(run[e].header.timestamp), Avcc(FuNal(cfg.codec, run, e + 1)))],
                  e + 1, e + 1))
    case _ => NoFrame
  }

  /** The NAL unit that `n` fragments carry. */
  function FuNal(codec: Codec, run: seq<RtpPacket>, n: nat): seq<byte>
    requires 1 <= n <= |run| && forall i | 0 <= i < n :: |run[i].payload| >= FuHeaderLength(codec)
  {
    Bodies(FuNalHeader(codec, run[0].payload), run, n, FuHeaderLength(codec))
  }

  function TryRunAac(cfg: Config, run: seq<RtpPacket>): (r: Attempt)
    requires cfg.Valid() && cfg.codec == Aac && run != [] && AllPlaced(Aac, run)
    ensures r.Unpacked? ==> 1 <= r.taken <= |run| && 1 <= r.counted <= r.taken
  {
    var b := run[0].payload;
    if AuCount(b) != 1 then
      Unpacked(AuFrames(cfg, run[0], AuCount(b)), 1, 1)
    else if AuSize(b, 0) <= |AuRest(b)| then
      Unpacked([AvPacket(Aac, cfg.Millis(run[0].header.timestamp), AuRest(b)[..AuSize(b, 0)])], 1, 1)
    else
      match AacLast(run, 1, |AuRest(b)|, AuSize(b, 0))
      case None => NoFrame
      case Some(e) =>
        Unpacked([AvPacket(Aac, cfg.Millis(run[e].header.timestamp), AuRests(run, e + 1))], e + 1, e)
  }

  /** Length of the part of the list, from its first packet, that has no gap. */
  function RunLength(list: seq<RtpPacket>): (n: nat)
    ensures n <= |list| && (list != [] ==> n >= 1)
  {
    if |list| <= 1 then |list|
    else if SubSeq(list[1].header.seqNo, list[0].header.seqNo) == 1 then 1 + RunLength(list[1..])
    else 1
  }

  function TryUnpack(cfg: Config, list: seq<RtpPacket>): (r: Attempt)
    requires cfg.Valid() && AllPlaced(cfg.codec, list)
    ensures r.Unpacked? ==> 1 <= r.taken <= |list| && 1 <= r.counted <= r.taken
  {
    TryRun(cfg, list[..RunLength(list)])
  }
}
