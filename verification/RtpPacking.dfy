/** Cutting NAL units into RTP payloads and numbering the packets:
    `rtprtcp/rtp_packer_payload_avc_hevc.go` and `rtprtcp/rtp_packer.go`. */
module RtpPacking {
  import opened Bytes
  import opened SeqNumber
  import opened RtpPackets
  import opened RtpUnpacking
  import opened AvcNals

  /** Bytes of the NAL header that fragments do not carry. */
  function NalHeaderLength(codec: Codec): nat {
    if codec == Avc then 1 else 2
  }

  const FU_START := 0x80
  const FU_END := 0x40

  /** The header of a fragment; `flag` is the start or end bit, or zero. */
  function FuHeader(codec: Codec, nal: seq<byte>, flag: int): (h: seq<byte>)
    requires nal != [] && flag in {FU_START, FU_END, 0}
    ensures |h| == FuHeaderLength(codec)
  {
    if codec == Avc then [AVC_FUA + nal[0] % 0x80 / 0x20 * 0x20, nal[0] % 0x20 + flag]
    else [HEVC_FUA * 2, 1, nal[0] / 2 % 0x40 + flag]
  }

  /** The fragments of a unit from byte `pos` on. */
  function Fragments(codec: Codec, nal: seq<byte>, pos: nat, flag: int, maxSize: nat): (out: seq<seq<byte>>)
    requires nal != [] && pos <= |nal| && maxSize > FuHeaderLength(codec) && flag in {FU_START, 0}
    ensures out != []
    decreases |nal| - pos
  {
    var room := maxSize - FuHeaderLength(codec);
    if |nal| - pos > room then
      [FuHeader(codec, nal, flag) + nal[pos..pos + room]] + Fragments(codec, nal, pos + room, 0, maxSize)
    else
      [FuHeader(codec, nal, FU_END) + nal[pos..]]
  }

  /** The source's loop makes no progress when a fragment has no room for payload. */
  predicate Packable(codec: Codec, nal: seq<byte>, maxSize: int) {
    |nal| <= maxSize || maxSize > FuHeaderLength(codec)
  }

  function PackNal(codec: Codec, nal: seq<byte>, maxSize: int): (out: seq<seq<byte>>)
    requires Packable(codec, nal, maxSize) && maxSize > 0
    ensures out != []
  {
    if |nal| <= maxSize then [nal]
    else Fragments(codec, nal, NalHeaderLength(codec), FU_START, maxSize)
  }

  datatype Framing = BareNalu | AvccFraming | AnnexbFraming

  const AVC_AUD := 9
  const HEVC_AUD := 35

  /** An access unit delimiter. */
  predicate IsAud(codec: Codec, nal: seq<byte>)
    requires nal != []
  {
    if codec == Avc then AvcNaluType(nal[0]) == AVC_AUD else HevcNaluType(nal[0]) == HEVC_AUD
  }

  /** The source reads the first byte of each unit, and cuts it. */
  predicate AllPackable(codec: Codec, nals: seq<seq<byte>>, maxSize: int) {
    forall i | 0 <= i < |nals| :: nals[i] != [] && Packable(codec, nals[i], maxSize)
  }

  /** The payloads of the first `n` units, delimiters left out. */
  function PackUnits(codec: Codec, nals: seq<seq<byte>>, n: nat, maxSize: int): seq<seq<byte>>
    requires maxSize > 0 && n <= |nals| && AllPackable(codec, nals, maxSize)
  {
    if n == 0 then []
    else
      PackUnits(codec, nals, n - 1, maxSize) + PackUnit(codec, nals[n - 1], maxSize)
  }

  function PackUnit(codec: Codec, nal: seq<byte>, maxSize: int): seq<seq<byte>>
    requires maxSize > 0 && nal != [] && Packable(codec, nal, maxSize)
  {
    if IsAud(codec, nal) then [] else PackNal(codec, nal, maxSize)
  }

  function SplitBy(framing: Framing, input: seq<byte>): Split {
    match framing
    case BareNalu => Split([input], true)
    case AvccFraming => SplitAvcc(input, 0)
    case AnnexbFraming => SplitAnnexb(input)
  }

  /** Calls that neither index an empty unit nor cut without end. */
  predicate CanPack(codec: Codec, framing: Framing, input: seq<byte>, maxSize: int) {
    maxSize <= 0
    || (framing == BareNalu && Packable(codec, input, maxSize))
    || (framing != BareNalu && (SplitBy(framing, input).ok ==> AllPackable(codec, SplitBy(framing, input).nals, maxSize)))
  }

  function PackPayloads(codec: Codec, framing: Framing, input: seq<byte>, maxSize: int): seq<seq<byte>>
    requires CanPack(codec, framing, input, maxSize)
  {
    if maxSize <= 0 then []
    else if framing == BareNalu then PackNal(codec, input, maxSize)
    else
      var s := SplitBy(framing, input);
      if s.ok then PackUnits(codec, s.nals, |s.nals|, maxSize) else []
  }

  class RtpPackerPayloadAvcHevc {
    const payloadType: Codec
    const framing: Framing

    constructor (payloadType: Codec, framing: Framing)
      ensures this.payloadType == payloadType && this.framing == framing
    {
      this.payloadType, this.framing := payloadType, framing;
    }

    method Pack(input: seq<byte>, maxSize: int) returns (out: seq<seq<byte>>)
      requires CanPack(payloadType, framing, input, maxSize)
      ensures out == PackPayloads(payloadType, framing, input, maxSize)
    {
      hide SplitAvcc, SplitAnnexb, PackNal, IsAud, Packable;
      if maxSize <= 0 {
        return [];
      }
      var s: Split;
      match framing {
        case BareNalu =>
          out := DoPackNal(input, maxSize);
          return;
        case AvccFraming =>
          s := IterateNaluAvcc(input);
        case AnnexbFraming =>
          s := IterateNaluAnnexb(input);
      }
      if !s.ok {
        return [];
      }
      out := [];
      for i := 0 to |s.nals|
        invariant out == PackUnits(payloadType, s.nals, i, maxSize)
      {
        if !IsAud(payloadType, s.nals[i]) {
          var items := DoPackNal(s.nals[i], maxSize);
          out := out + items;
        }
      }
    }

    method DoPackNal(nal: seq<byte>, maxSize: int) returns (out: seq<seq<byte>>)
      requires Packable(payloadType, nal, maxSize) && maxSize > 0
      ensures out == PackNal(payloadType, nal, maxSize)
    {
      if |nal| <= maxSize {
        return [nal];
      }
      out := CutFragments(nal, maxSize);
    }

    /** The fragment loop. */
    method CutFragments(nal: seq<byte>, maxSize: nat) returns (out: seq<seq<byte>>)
      requires maxSize > FuHeaderLength(payloadType) && |nal| > maxSize
      ensures out == PackNal(payloadType, nal, maxSize)
    {
      hide PackNal, Fragments, FuHeader, FragmentsLeft;
      out := [];
      var bpos, headerSize := 2, 3;
      if payloadType == Avc {
        bpos, headerSize := 1, 2;
      }
      var room := maxSize - headerSize;
      var isFirstFlag := true;
      ghost var all := PackNal(payloadType, nal, maxSize);
      ghost var flag := FU_START;
      FragmentsStart(payloadType, nal, maxSize);
      while |nal| - bpos > room
        invariant 0 <= bpos <= |nal| && flag == if isFirstFlag then FU_START else 0
        invariant FragmentsLeft(payloadType, nal, bpos, flag, maxSize, out, all)
        decreases |nal| - bpos
      {
        FragmentsStep(payloadType, nal, bpos, flag, maxSize, out, all);
        var header := FuHeader(payloadType, nal, if isFirstFlag then FU_START else 0);
        out := out + [header + nal[bpos..bpos + room]];
        isFirstFlag, flag := false, 0;
        bpos := bpos + room;
      }
      FragmentsStep(payloadType, nal, bpos, flag, maxSize, out, all);
      out := out + [FuHeader(payloadType, nal, FU_END) + nal[bpos..]];
    }
  }

  /** The fragments in `out` and those from `pos` on are `all`. */
  ghost predicate FragmentsLeft(codec: Codec, nal: seq<byte>, pos: nat, flag: int, maxSize: nat,
    out: seq<seq<byte>>, all: seq<seq<byte>>)
    requires nal != [] && pos <= |nal| && maxSize > FuHeaderLength(codec) && flag in {FU_START, 0}
  {
    all == out + Fragments(codec, nal, pos, flag, maxSize)
  }

  lemma FragmentsStart(codec: Codec, nal: seq<byte>, maxSize: nat)
    requires maxSize > FuHeaderLength(codec) && |nal| > maxSize
    ensures FragmentsLeft(codec, nal, NalHeaderLength(codec), FU_START, maxSize, [], PackNal(codec, nal, maxSize))
  {
    hide Fragments;
    var none: seq<seq<byte>> := [];
    assert none + PackNal(codec, nal, maxSize) == PackNal(codec, nal, maxSize);
  }

  lemma FragmentsStep(codec: Codec, nal: seq<byte>, pos: nat, flag: int, maxSize: nat,
    out: seq<seq<byte>>, all: seq<seq<byte>>)
    requires nal != [] && pos <= |nal| && maxSize > FuHeaderLength(codec) && flag in {FU_START, 0}
    requires FragmentsLeft(codec, nal, pos, flag, maxSize, out, all)
    ensures
      var room := maxSize - FuHeaderLength(codec);
      if |nal| - pos > room then
        FragmentsLeft(codec, nal, pos + room, 0, maxSize,
                      out + [FuHeader(codec, nal, flag) + nal[pos..pos + room]], all)
      else all == out + [FuHeader(codec, nal, FU_END) + nal[pos..]]
  {
    hide FuHeader;
    var room := maxSize - FuHeaderLength(codec);
    if |nal| - pos > room {
      ConcatAssociative(out, [FuHeader(codec, nal, flag) + nal[pos..pos + room]],
                        Fragments(codec, nal, pos + room, 0, maxSize));
    }
  }

  // ---- what the fragments are

  /** The flag of fragment `i` of `n`. */
  function FlagAt(i: nat, n: nat, first: int): int {
    if i == n - 1 then FU_END else if i == 0 then first else 0
  }

  /** Fragment `i` fits, and begins with the header it should. */
  ghost predicate HeadedAt(codec: Codec, nal: seq<byte>, out: seq<seq<byte>>, flag: int, maxSize: nat, i: nat)
    requires nal != [] && i < |out| && flag in {FU_START, 0}
  {
    && FuHeaderLength(codec) <= |out[i]| <= maxSize
    && out[i][..FuHeaderLength(codec)] == FuHeader(codec, nal, FlagAt(i, |out|, flag))
  }

  lemma {:induction false} FragmentHeads(codec: Codec, nal: seq<byte>, pos: nat, flag: int, maxSize: nat, i: nat)
    requires nal != [] && pos <= |nal| && maxSize > FuHeaderLength(codec) && flag in {FU_START, 0}
    requires i < |Fragments(codec, nal, pos, flag, maxSize)|
    ensures HeadedAt(codec, nal, Fragments(codec, nal, pos, flag, maxSize), flag, maxSize, i)
    decreases |nal| - pos
  {
    var room := maxSize - FuHeaderLength(codec);
    hide FuHeader;
    if |nal| - pos > room && i > 0 {
      FragmentHeads(codec, nal, pos + room, 0, maxSize, i - 1);
    }
  }

  ghost predicate AllAtLeast(out: seq<seq<byte>>, size: nat) {
    forall i | 0 <= i < |out| :: |out[i]| >= size
  }

  /** What the payloads from number `k` on carry behind `skip` header bytes. */
  function Tails(out: seq<seq<byte>>, k: nat, skip: nat): seq<byte>
    requires k <= |out| && forall i | k <= i < |out| :: |out[i]| >= skip
    decreases |out| - k
  {
    if k == |out| then [] else out[k][skip..] + Tails(out, k + 1, skip)
  }

  lemma {:induction false} TailsShift(x: seq<byte>, rest: seq<seq<byte>>, k: nat, skip: nat)
    requires k <= |rest| && forall i | k <= i < |rest| :: |rest[i]| >= skip
    ensures Tails([x] + rest, k + 1, skip) == Tails(rest, k, skip)
    decreases |rest| - k
  {
    var all := [x] + rest;
    assert forall i | k <= i < |rest| :: all[i + 1] == rest[i];
    if k < |rest| {
      TailsShift(x, rest, k + 1, skip);
      TailsUnfold(rest, k, skip);
      TailsUnfold(all, k + 1, skip);
    } else {
      TailsNone(rest, skip);
      TailsNone(all, skip);
    }
    hide Tails;
  }

  lemma TailsUnfold(out: seq<seq<byte>>, k: nat, skip: nat)
    requires k < |out| && forall i | k <= i < |out| :: |out[i]| >= skip
    ensures Tails(out, k, skip) == out[k][skip..] + Tails(out, k + 1, skip)
  {
  }

  lemma TailsNone(out: seq<seq<byte>>, skip: nat)
    ensures Tails(out, |out|, skip) == []
  {
  }

  /** No byte is lost, repeated or moved. */
  lemma {:induction false} FragmentsCarryAll(codec: Codec, nal: seq<byte>, pos: nat, flag: int, maxSize: nat)
    requires nal != [] && pos <= |nal| && maxSize > FuHeaderLength(codec) && flag in {FU_START, 0}
    ensures AllAtLeast(Fragments(codec, nal, pos, flag, maxSize), FuHeaderLength(codec))
    ensures Tails(Fragments(codec, nal, pos, flag, maxSize), 0, FuHeaderLength(codec)) == nal[pos..]
    decreases |nal| - pos
  {
    hide Fragments, FuHeader, Tails, AllAtLeast;
    var skip := FuHeaderLength(codec);
    var room := maxSize - skip;
    FragmentsUnfold(codec, nal, pos, flag, maxSize);
    if |nal| - pos > room {
      FragmentsCarryAll(codec, nal, pos + room, 0, maxSize);
      TailsFirst(FuHeader(codec, nal, flag), nal[pos..pos + room], Fragments(codec, nal, pos + room, 0, maxSize));
      assert nal[pos..] == nal[pos..pos + room] + nal[pos + room..];
    } else {
      TailsOnly(FuHeader(codec, nal, FU_END), nal[pos..]);
    }
  }

  lemma FragmentsUnfold(codec: Codec, nal: seq<byte>, pos: nat, flag: int, maxSize: nat)
    requires nal != [] && pos <= |nal| && maxSize > FuHeaderLength(codec) && flag in {FU_START, 0}
    ensures
      var room := maxSize - FuHeaderLength(codec);
      Fragments(codec, nal, pos, flag, maxSize)
        == if |nal| - pos > room then
            [FuHeader(codec, nal, flag) + nal[pos..pos + room]] + Fragments(codec, nal, pos + room, 0, maxSize)
          else [FuHeader(codec, nal, FU_END) + nal[pos..]]
  {
    hide FuHeader;
  }

  lemma TailsFirst(head: seq<byte>, body: seq<byte>, rest: seq<seq<byte>>)
    requires AllAtLeast(rest, |head|)
    ensures AllAtLeast([head + body] + rest, |head|)
    ensures Tails([head + body] + rest, 0, |head|) == body + Tails(rest, 0, |head|)
  {
    TailsShift(head + body, rest, 0, |head|);
    assert (head + body)[|head|..] == body;
  }

  lemma TailsOnly(head: seq<byte>, body: seq<byte>)
    ensures AllAtLeast([head + body], |head|) && Tails([head + body], 0, |head|) == body
  {
    assert (head + body)[|head|..] == body;
  }

  /** Every payload fits; a unit that does not fit is cut into at least two fragments, so that none
      is both a start and an end. */
  lemma PayloadsFit(codec: Codec, nal: seq<byte>, maxSize: nat)
    requires maxSize > 0 && Packable(codec, nal, maxSize)
    ensures var out := PackNal(codec, nal, maxSize);
      forall i | 0 <= i < |out| :: |out[i]| <= maxSize
    ensures |nal| > maxSize ==> |PackNal(codec, nal, maxSize)| >= 2
  {
    if |nal| > maxSize {
      var out := PackNal(codec, nal, maxSize);
      forall i | 0 <= i < |out| ensures |out[i]| <= maxSize {
        FragmentHeads(codec, nal, NalHeaderLength(codec), FU_START, maxSize, i);
      }
      hide FuHeader;
    }
  }

  // ---- numbering

  function PayloadType(codec: Codec): int {
    match codec
    case Avc => 96
    case Hevc => 98
    case Aac => 97
  }

  /** The packets of one call: consecutive numbers, one timestamp, the marker on the last. */
  function Packets(codec: Codec, payloads: seq<seq<byte>>, n: nat, seqNo: int, timestamp: uint32, ssrc: uint32): (out: seq<RtpPacket>)
    requires n <= |payloads|
    ensures |out| == n
    ensures forall i | 0 <= i < n ::
      && out[i].payload == payloads[i] && out[i].header.seqNo == Wrap(seqNo + i)
      && out[i].header.timestamp == timestamp && out[i].header.FitsWire()
      && (out[i].header.mark == 1 <==> i == |payloads| - 1)
  {
    if n == 0 then []
    else
      Packets(codec, payloads, n - 1, seqNo, timestamp, ssrc)
      + [MakeRtpPacket(
           RtpHeader(2, 0, 0, 0, if n == |payloads| then 1 else 0, PayloadType(codec), Wrap(seqNo + n - 1), timestamp, ssrc),
           payloads[n - 1])]
  }

  /** Milliseconds in clock ticks; the source computes this in floating point and truncates. */
  function RtpTime(clockRate: nat, millis: uint32): nat {
    millis * clockRate / 1000
  }

  class RtpPacker {
    const payloadPacker: RtpPackerPayloadAvcHevc
    const clockRate: nat
    const ssrc: uint32
    const maxPayloadSize: int
    var seqNo: uint16

    constructor (payloadPacker: RtpPackerPayloadAvcHevc, clockRate: nat, ssrc: uint32, maxPayloadSize: int, firstSeq: uint16)
      ensures this.payloadPacker == payloadPacker && this.clockRate == clockRate && this.ssrc == ssrc
      ensures this.maxPayloadSize == maxPayloadSize && seqNo == firstSeq
    {
      this.payloadPacker, this.clockRate, this.ssrc, this.maxPayloadSize := payloadPacker, clockRate, ssrc, maxPayloadSize;
      seqNo := firstSeq;
    }

    method GenSeq() returns (ret: uint16)
      modifies this
      ensures ret == old(seqNo) && seqNo == Wrap(old(seqNo) + 1)
    {
      ret := seqNo;
      seqNo := (seqNo + 1) % 0x1_0000;
    }

    method Pack(millis: uint32, input: seq<byte>) returns (out: seq<RtpPacket>)
      requires CanPack(payloadPacker.payloadType, payloadPacker.framing, input, maxPayloadSize)
      requires RtpTime(clockRate, millis) < 0x1_0000_0000
      modifies this
      ensures var payloads := PackPayloads(payloadPacker.payloadType, payloadPacker.framing, input, maxPayloadSize);
        out == Packets(payloadPacker.payloadType, payloads, |payloads|, old(seqNo), RtpTime(clockRate, millis), ssrc)
      ensures seqNo == Wrap(old(seqNo) + |out|)
    {
      var payloads := payloadPacker.Pack(input, maxPayloadSize);
      var timestamp: uint32 := RtpTime(clockRate, millis);
      hide PackPayloads, CanPack, Wrap, RtpTime;
      out := [];
      WrapAgain(seqNo, 0);
      for i := 0 to |payloads|
        invariant out == Packets(payloadPacker.payloadType, payloads, i, old(seqNo), timestamp, ssrc)
        invariant seqNo == Wrap(old(seqNo) + i)
      {
        hide *;
        WrapAgain(old(seqNo), i);
        PacketsStep(payloadPacker.payloadType, payloads, i, old(seqNo), timestamp, ssrc);
        var mark := if i == |payloads| - 1 then 1 else 0;
        var number := GenSeq();
        out := out + [MakeRtpPacket(
          RtpHeader(2, 0, 0, 0, mark, PayloadType(payloadPacker.payloadType), number, timestamp, ssrc), payloads[i])];
      }
    }
  }

  lemma PacketsStep(codec: Codec, payloads: seq<seq<byte>>, i: nat, seqNo: int, timestamp: uint32, ssrc: uint32)
    requires i < |payloads|
    ensures Packets(codec, payloads, i + 1, seqNo, timestamp, ssrc)
      == Packets(codec, payloads, i, seqNo, timestamp, ssrc)
        + [MakeRtpPacket(
             RtpHeader(2, 0, 0, 0, if i == |payloads| - 1 then 1 else 0, PayloadType(codec), Wrap(seqNo + i),
                       timestamp, ssrc),
             payloads[i])]
  {
    hide Wrap, PayloadType, MakeRtpPacket;
  }

  lemma WrapAgain(seqNo: uint16, i: nat)
    ensures Wrap(seqNo + 0) == seqNo && Wrap(Wrap(seqNo + i) + 1) == Wrap(seqNo + i + 1)
  {
  }
}
