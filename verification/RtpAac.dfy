/** AAC frames through RTP payloads and back: `rtprtcp/rtp_packer_payload_aac.go` and the AAC unpacker,
    in the three layouts of section 3.2.3 of RFC 3640. */
module RtpAac {
  import opened Bytes
  import opened RtpPackets
  import opened RtpUnpacking

  /** The 16-bit AU header: a 13-bit size. */
  function AuHeader(size: nat): (s: seq<byte>)
    ensures |s| == 2
  {
    [size / 0x20 % 0x100, size % 0x20 * 8]
  }

  lemma HeaderSize(size: nat)
    ensures AuSizeField(AuHeader(size)[0], AuHeader(size)[1]) == size % 0x2000
  {
    var hi, lo := size / 0x20, size % 0x20;
    assert size == hi * 0x20 + lo;
    Low13(hi, lo);
  }

  lemma Low13(hi: nat, lo: nat)
    requires lo < 0x20
    ensures (hi * 0x20 + lo) % 0x2000 == hi % 0x100 * 0x20 + lo
  {
    var q, r := hi / 0x100, hi % 0x100;
    assert hi == q * 0x100 + r;
    Mod13(q, r * 0x20 + lo);
  }

  lemma Mod13(q: nat, r: nat)
    requires r < 0x2000
    ensures (q * 0x2000 + r) % 0x2000 == r
  {
  }

  /** One AU header, and behind it a frame or a part of one. */
  function OneAu(size: nat, part: seq<byte>): seq<byte> {
    [0, 16] + AuHeader(size) + part
  }

  lemma OneAuReads(size: nat, part: seq<byte>)
    ensures var b := OneAu(size, part);
      Parseable(Aac, b) && AuCount(b) == 1 && AuSize(b, 0) == size % 0x2000 && AuRest(b) == part
  {
    var b := OneAu(size, part);
    assert b[0] == 0 && b[1] == 16 && b[2] == AuHeader(size)[0] && b[3] == AuHeader(size)[1];
    HeaderSize(size);
    assert Be16(b) == 16 && AuHeadersLength(b) == 2;
    assert AuPos(b, 0) == 4;
  }

  /** What `RtpPackerPayloadAac.Pack` makes of a frame. */
  method Pack(frame: seq<byte>, maxSize: int) returns (out: seq<seq<byte>>)
    ensures out == if maxSize <= 0 then [] else [OneAu(|frame|, frame)]
  {
    if maxSize <= 0 {
      return [];
    }
    var auHeadersLength := 2;
    var item: seq<byte> := [0, auHeadersLength * 8, |frame| / 0x20 % 0x100, |frame| % 0x20 * 8] + frame;
    assert item == OneAu(|frame|, frame);
    return [item];
  }

  /** A frame through packer and unpacker comes back exactly when its length fits 13 bits. */
  lemma FrameRoundTrip(cfg: Config, p: RtpPacket, frame: seq<byte>)
    requires cfg.Valid() && cfg.codec == Aac && p.payload == OneAu(|frame|, frame) && p.position == Unplaced
    ensures AllPlaced(Aac, [p])
    ensures TryRun(cfg, [p]) == Unpacked([AvPacket(Aac, cfg.Millis(p.header.timestamp), frame)], 1, 1)
      <==> |frame| < 0x2000
  {
    hide *;
    OneAuReads(|frame|, frame);
    OnePlaced(p);
    WholeAttempt(cfg, p, |frame| % 0x2000);
    FitsExact(frame);
  }

  lemma OnePlaced(p: RtpPacket)
    requires Parseable(Aac, p.payload) && p.position == Unplaced
    ensures AllPlaced(Aac, [p])
  {
    hide Parseable;
  }

  /** One AU header whose size the packet holds: that many bytes are the frame. */
  lemma WholeAttempt(cfg: Config, p: RtpPacket, size: nat)
    requires cfg.Valid() && cfg.codec == Aac && AllPlaced(Aac, [p]) && Parseable(Aac, p.payload)
    requires AuCount(p.payload) == 1 && AuSize(p.payload, 0) == size <= |AuRest(p.payload)|
    ensures TryRun(cfg, [p])
      == Unpacked([AvPacket(Aac, cfg.Millis(p.header.timestamp), AuRest(p.payload)[..size])], 1, 1)
  {
    hide AuCount, AuSize, AuRest, Parseable, Placed;
  }

  lemma FitsExact(frame: seq<byte>)
    ensures |frame| % 0x2000 <= |frame|
    ensures frame[..|frame| % 0x2000] == frame <==> |frame| < 0x2000
  {
    if |frame| < 0x2000 {
      assert |frame| % 0x2000 == |frame|;
    } else {
      assert |frame[..|frame| % 0x2000]| < |frame|;
    }
  }

  // Fragments

  /** Packets that carry the parts of one frame. */
  ghost predicate CarryParts(run: seq<RtpPacket>, parts: seq<seq<byte>>, total: nat) {
    |run| == |parts| && total < 0x2000
    && forall i | 0 <= i < |run| ::
      run[i].payload == OneAu(total, parts[i]) && run[i].position == Unplaced
      && run[i].header.timestamp == run[0].header.timestamp
  }

  lemma PartReads(run: seq<RtpPacket>, parts: seq<seq<byte>>, total: nat, i: nat)
    requires CarryParts(run, parts, total) && i < |run|
    ensures var b := run[i].payload;
      Parseable(Aac, b) && AuCount(b) == 1 && AuSize(b, 0) == total && AuRest(b) == parts[i] && Placed(Aac, run[i])
  {
    OneAuReads(total, parts[i]);
  }

  lemma PartsPlaced(run: seq<RtpPacket>, parts: seq<seq<byte>>, total: nat)
    requires CarryParts(run, parts, total)
    ensures AllPlaced(Aac, run) && forall i | 0 <= i < |run| :: AuCount(run[i].payload) == 1
  {
    forall i | 0 <= i < |run|
      ensures Placed(Aac, run[i]) && AuCount(run[i].payload) == 1
    {
      PartReads(run, parts, total, i);
    }
  }

  /** Only all parts together have the announced size. */
  predicate AddUp(parts: seq<seq<byte>>, total: nat) {
    |Flatten(parts)| == total && forall n | 0 <= n < |parts| :: |Flatten(parts[..n])| < total
  }

  lemma {:induction false} RestsAreParts(run: seq<RtpPacket>, parts: seq<seq<byte>>, total: nat, n: nat)
    requires CarryParts(run, parts, total) && n <= |run|
    requires AllPlaced(Aac, run) && forall i | 0 <= i < |run| :: AuCount(run[i].payload) == 1
    ensures AuRests(run, n) == Flatten(parts[..n])
  {
    if n > 0 {
      RestsAreParts(run, parts, total, n - 1);
      PartReads(run, parts, total, n - 1);
      FlattenSnoc(parts[..n - 1], parts[n - 1]);
      assert parts[..n] == parts[..n - 1] + [parts[n - 1]];
    }
  }

  lemma {:induction false} LastPart(run: seq<RtpPacket>, parts: seq<seq<byte>>, total: nat, i: nat)
    requires CarryParts(run, parts, total) && AllPlaced(Aac, run) && AddUp(parts, total) && i < |run|
    ensures AacLast(run, i, |Flatten(parts[..i])|, total) == Some((|run| - 1) as nat)
    decreases |run| - i
  {
    PartReads(run, parts, total, i);
    FlattenSnoc(parts[..i], parts[i]);
    assert parts[..i + 1] == parts[..i] + [parts[i]];
    hide OneAu, AuRest, AuSize, AuCount, Parseable, Flatten;
    if i + 1 < |run| {
      LastPart(run, parts, total, i + 1);
    } else {
      assert parts[..i + 1] == parts;
    }
  }

  /** A frame sent in several packets comes back whole; the size counter goes down by one too few. */
  lemma FragmentsRoundTrip(cfg: Config, run: seq<RtpPacket>, parts: seq<seq<byte>>, total: nat)
    requires cfg.Valid() && cfg.codec == Aac && CarryParts(run, parts, total) && AddUp(parts, total) && |run| >= 2
    ensures AllPlaced(Aac, run)
    ensures TryRun(cfg, run)
      == Unpacked([AvPacket(Aac, cfg.Millis(run[0].header.timestamp), Flatten(parts))], |run|, |run| - 1)
  {
    PartsPlaced(run, parts, total);
    PartReads(run, parts, total, 0);
    assert parts[..1] == [parts[0]] && |Flatten(parts[..1])| < total;
    FlattenSnoc([], parts[0]);
    assert [] + [parts[0]] == [parts[0]];
    LastPart(run, parts, total, 1);
    RestsAreParts(run, parts, total, |run|);
    assert parts[..|run|] == parts;
    hide OneAu, AuRest, AuSize, AuCount, Parseable, AacLast, AuRests;
  }

  // Which packets make a frame

  /** Several packets are one frame exactly when each has one AU header with the same size and timestamp, and
      their parts reach that size with the last one, neither before nor beyond. */
  ghost predicate AacShape(run: seq<RtpPacket>)
    requires AllPlaced(Aac, run) && run != []
  {
    AllOneAu(run)
    && (forall i | 0 <= i < |run| ::
      AuSize(run[i].payload, 0) == AuSize(run[0].payload, 0) && run[i].header.timestamp == run[0].header.timestamp)
    && (forall n | 0 < n < |run| :: |AuRests(run, n)| < AuSize(run[0].payload, 0))
    && |AuRests(run, |run|)| == AuSize(run[0].payload, 0)
  }

  ghost predicate AllOneAu(run: seq<RtpPacket>)
    requires AllPlaced(Aac, run)
  {
    forall i | 0 <= i < |run| :: AuCount(run[i].payload) == 1
  }

  /** The same from packet `i` on, when the parts before it have been collected. */
  ghost predicate RestShape(run: seq<RtpPacket>, i: nat, total: nat)
    requires AllPlaced(Aac, run) && AllOneAu(run) && run != []
  {
    (forall k | i <= k < |run| ::
      AuSize(run[k].payload, 0) == total && run[k].header.timestamp == run[0].header.timestamp)
    && (forall n | i < n < |run| :: |AuRests(run, n)| < total)
    && |AuRests(run, |run|)| == total
  }

  lemma {:induction false} AacLastExact(run: seq<RtpPacket>, i: nat, total: nat)
    requires AllPlaced(Aac, run) && 0 < i < |run| && AllOneAu(run)
    ensures AacLast(run, i, |AuRests(run, i)|, total) == Some((|run| - 1) as nat) <==> RestShape(run, i, total)
    decreases |run| - i
  {
    hide *;
    LastUnfold(run, i, total);
    ShapeUnfold(run, i, total);
    if i + 1 < |run| {
      AacLastExact(run, i + 1, total);
    }
  }

  lemma OneAuAt(run: seq<RtpPacket>, i: nat)
    requires AllPlaced(Aac, run) && AllOneAu(run) && i < |run|
    ensures
      var b := run[i].payload;
      AuCount(b) == 1 && Parseable(Aac, b) && |b| >= 2 + 2 * AuCount(b) && run != []
      && |AuRests(run, i + 1)| == |AuRests(run, i)| + |AuRest(b)|
  {
    assert Placed(Aac, run[i]);
    hide AuCount, AuSize, AuRest;
  }

  /** Packet `i` fits, and the parts up to it reach the size with the last packet or do not reach it before. */
  ghost predicate FitsAt(run: seq<RtpPacket>, i: nat, total: nat)
    requires AllPlaced(Aac, run) && AllOneAu(run) && i < |run|
  {
    OneAuAt(run, i);
    AuSize(run[i].payload, 0) == total && run[i].header.timestamp == run[0].header.timestamp
    && if i + 1 < |run| then |AuRests(run, i + 1)| < total else |AuRests(run, i + 1)| == total
  }

  lemma LastUnfold(run: seq<RtpPacket>, i: nat, total: nat)
    requires AllPlaced(Aac, run) && AllOneAu(run) && 0 < i < |run|
    ensures
      AacLast(run, i, |AuRests(run, i)|, total) == Some((|run| - 1) as nat) <==>
        FitsAt(run, i, total)
        && (i + 1 < |run| ==> AacLast(run, i + 1, |AuRests(run, i + 1)|, total) == Some((|run| - 1) as nat))
  {
    OneAuAt(run, i);
    hide AuCount, AuSize, AuRest, AuRests, Placed, Parseable;
  }

  lemma ShapeUnfold(run: seq<RtpPacket>, i: nat, total: nat)
    requires AllPlaced(Aac, run) && AllOneAu(run) && i < |run|
    ensures RestShape(run, i, total) <==> FitsAt(run, i, total) && (i + 1 < |run| ==> RestShape(run, i + 1, total))
  {
    hide AuCount, AuSize, AuRest, AuRests, Placed, Parseable;
  }

  lemma {:induction false} AacLastOneAu(run: seq<RtpPacket>, i: nat, cached: nat, total: nat)
    requires AllPlaced(Aac, run) && run != []
    requires AacLast(run, i, cached, total) == Some((|run| - 1) as nat)
    ensures forall k | i <= k < |run| :: AuCount(run[k].payload) == 1
  {
    hide AuCount, AuSize, AuRest, Placed;
  }

  lemma AacShapeExact(cfg: Config, run: seq<RtpPacket>)
    requires cfg.Valid() && cfg.codec == Aac && AllPlaced(Aac, run) && |run| >= 2
    ensures (TryRun(cfg, run).Unpacked? && TryRun(cfg, run).taken == |run|) <==> AacShape(run)
  {
    hide *;
    FirstPart(cfg, run);
    var b := run[0].payload;
    if AuCount(b) == 1 && |AuRest(b)| < AuSize(b, 0) {
      if AllOneAu(run) {
        OneRest(run);
        AacLastExact(run, 1, AuSize(b, 0));
        ShapeFrom(run);
      } else {
        NotAllOneAu(run);
        if AacLast(run, 1, |AuRest(b)|, AuSize(b, 0)) == Some((|run| - 1) as nat) {
          AacLastOneAu(run, 1, |AuRest(b)|, AuSize(b, 0));
        }
      }
    } else {
      ShapeFirst(run);
    }
  }

  lemma FirstPart(cfg: Config, run: seq<RtpPacket>)
    requires cfg.Valid() && cfg.codec == Aac && AllPlaced(Aac, run) && |run| >= 2
    ensures Parseable(Aac, run[0].payload) && |run[0].payload| >= 2 + 2 * AuCount(run[0].payload)
    ensures
      var b := run[0].payload;
      (TryRun(cfg, run).Unpacked? && TryRun(cfg, run).taken == |run|) <==>
        AuCount(b) == 1 && |AuRest(b)| < AuSize(b, 0)
        && AacLast(run, 1, |AuRest(b)|, AuSize(b, 0)) == Some((|run| - 1) as nat)
  {
    assert Placed(Aac, run[0]);
    hide AuCount, AuSize, AuRest, Placed, AacLast, AuFrames, AuRests;
  }

  lemma OneRest(run: seq<RtpPacket>)
    requires AllPlaced(Aac, run) && run != [] && AllOneAu(run)
    ensures AuCount(run[0].payload) == 1 && Parseable(Aac, run[0].payload)
    ensures AuRests(run, 1) == AuRest(run[0].payload)
  {
    assert Placed(Aac, run[0]);
    hide AuCount, AuRest, Parseable;
    assert AuRests(run, 1) == AuRests(run, 0) + AuRest(run[0].payload);
  }

  lemma NotAllOneAu(run: seq<RtpPacket>)
    requires AllPlaced(Aac, run) && run != [] && !AllOneAu(run) && AuCount(run[0].payload) == 1
    ensures !AacShape(run) && exists k :: 1 <= k < |run| && AuCount(run[k].payload) != 1
  {
    hide AuCount, AuSize, AuRests;
  }

  lemma ShapeFrom(run: seq<RtpPacket>)
    requires AllPlaced(Aac, run) && |run| >= 2 && AllOneAu(run) && Parseable(Aac, run[0].payload)
    requires AuRests(run, 1) == AuRest(run[0].payload) && |AuRest(run[0].payload)| < AuSize(run[0].payload, 0)
    ensures AacShape(run) <==> RestShape(run, 1, AuSize(run[0].payload, 0))
  {
    hide AuCount, AuSize, AuRests, AuRest, Placed;
  }

  lemma ShapeFirst(run: seq<RtpPacket>)
    requires AllPlaced(Aac, run) && |run| >= 2
    ensures AacShape(run) ==>
      AuCount(run[0].payload) == 1 && Parseable(Aac, run[0].payload)
      && |AuRest(run[0].payload)| < AuSize(run[0].payload, 0)
  {
    if AacShape(run) {
      OneRest(run);
    }
    hide AuCount, AuSize, AuRests, AuRest, Parseable;
  }

  // Several frames in one packet

  function AuHeaders(frames: seq<seq<byte>>): (s: seq<byte>)
    ensures |s| == 2 * |frames|
  {
    if frames == [] then [] else AuHeaders(frames[..|frames| - 1]) + AuHeader(|frames[|frames| - 1]|)
  }

  /** All AU headers, and behind them all frames. */
  function Several(frames: seq<seq<byte>>): seq<byte>
    requires 16 * |frames| < 0x1_0000
  {
    BePut16(16 * |frames|) + AuHeaders(frames) + Flatten(frames)
  }

  lemma {:induction false} HeadersAt(frames: seq<seq<byte>>, i: nat)
    requires i < |frames|
    ensures AuHeaders(frames)[2 * i] == AuHeader(|frames[i]|)[0]
    ensures AuHeaders(frames)[2 * i + 1] == AuHeader(|frames[i]|)[1]
    decreases |frames|
  {
    if i < |frames| - 1 {
      HeadersAt(frames[..|frames| - 1], i);
    }
  }

  lemma SeveralCount(frames: seq<seq<byte>>)
    requires 16 * |frames| < 0x1_0000
    ensures var b := Several(frames);
      |b| == 2 + 2 * |frames| + |Flatten(frames)| && AuHeadersLength(b) == 2 * |frames| && AuCount(b) == |frames|
  {
    var b := Several(frames);
    assert b[0] == BePut16(16 * |frames|)[0] && b[1] == BePut16(16 * |frames|)[1];
    assert Be16(b) == 16 * |frames|;
  }

  lemma SeveralSize(frames: seq<seq<byte>>, i: nat)
    requires 16 * |frames| < 0x1_0000 && i < |frames| && |frames[i]| < 0x2000
    ensures var b := Several(frames);
      AuCount(b) == |frames| && 2 + 2 * AuCount(b) <= |b| && AuSize(b, i) == |frames[i]|
  {
    var b := Several(frames);
    SeveralCount(frames);
    HeadersAt(frames, i);
    HeaderSize(|frames[i]|);
    assert b[2 + 2 * i] == AuHeaders(frames)[2 * i] && b[3 + 2 * i] == AuHeaders(frames)[2 * i + 1];
  }

  predicate AllShort(frames: seq<seq<byte>>) {
    forall i | 0 <= i < |frames| :: |frames[i]| < 0x2000
  }

  lemma {:induction false} SeveralPos(frames: seq<seq<byte>>, i: nat)
    requires 16 * |frames| < 0x1_0000 && i <= |frames| && AllShort(frames)
    ensures var b := Several(frames);
      AuCount(b) == |frames| && 2 + 2 * AuCount(b) <= |b|
      && AuPos(b, i) == 2 + 2 * |frames| + |Flatten(frames[..i])|
  {
    SeveralCount(frames);
    if i > 0 {
      SeveralPos(frames, i - 1);
      SeveralSize(frames, i - 1);
      FlattenSnoc(frames[..i - 1], frames[i - 1]);
      assert frames[..i] == frames[..i - 1] + [frames[i - 1]];
      hide Several, AuCount, AuSize, Flatten;
    } else {
      assert frames[..0] == [];
    }
  }

  lemma SeveralFrame(frames: seq<seq<byte>>, i: nat)
    requires 16 * |frames| < 0x1_0000 && i < |frames| && AllShort(frames)
    ensures var b := Several(frames);
      AuCount(b) == |frames| && 2 + 2 * AuCount(b) <= |b| && AuPos(b, i) + AuSize(b, i) <= |b|
      && b[AuPos(b, i)..AuPos(b, i) + AuSize(b, i)] == frames[i]
  {
    hide *;
    var before, after := Flatten(frames[..i]), Flatten(frames[i + 1..]);
    SeveralParts(frames, i);
    SeveralPos(frames, i);
    AllShortAt(frames, i);
    SeveralSize(frames, i);
    Middle(BePut16(16 * |frames|) + AuHeaders(frames), before, frames[i], after);
  }

  lemma AllShortAt(frames: seq<seq<byte>>, i: nat)
    requires AllShort(frames) && i < |frames|
    ensures |frames[i]| < 0x2000
  {
  }

  lemma SeveralParts(frames: seq<seq<byte>>, i: nat)
    requires 16 * |frames| < 0x1_0000 && i < |frames|
    ensures Several(frames)
      == BePut16(16 * |frames|) + AuHeaders(frames) + (Flatten(frames[..i]) + (frames[i] + Flatten(frames[i + 1..])))
  {
    FlattenAppend(frames[..i], frames[i..]);
    assert frames == frames[..i] + frames[i..];
    assert Flatten(frames[i..]) == frames[i] + Flatten(frames[i + 1..]) by {
      assert frames[i..][1..] == frames[i + 1..];
    }
  }

  lemma Middle(head: seq<byte>, a: seq<byte>, m: seq<byte>, c: seq<byte>)
    ensures var b := head + (a + (m + c)); b[|head| + |a|..|head| + |a| + |m|] == m
  {
  }

  function Timed(cfg: Config, timestamp: uint32, frames: seq<seq<byte>>, n: nat): seq<AvPacket>
    requires cfg.Valid() && n <= |frames|
  {
    if n == 0 then []
    else Timed(cfg, timestamp, frames, n - 1) + [AvPacket(Aac, AuMillis(cfg, timestamp, n - 1), frames[n - 1])]
  }

  lemma SeveralParse(frames: seq<seq<byte>>)
    requires 16 * |frames| < 0x1_0000 && AllShort(frames) && |frames| != 1
    ensures Parseable(Aac, Several(frames)) && AuCount(Several(frames)) == |frames|
  {
    SeveralCount(frames);
    SeveralPos(frames, |frames|);
    assert frames[..|frames|] == frames;
  }

  lemma {:induction false} SeveralFrames(cfg: Config, p: RtpPacket, frames: seq<seq<byte>>, n: nat)
    requires cfg.Valid() && 16 * |frames| < 0x1_0000 && AllShort(frames) && n <= |frames| != 1
    requires p.payload == Several(frames) && Parseable(Aac, p.payload) && AuCount(p.payload) == |frames|
    ensures AuFrames(cfg, p, n) == Timed(cfg, p.header.timestamp, frames, n)
  {
    hide *;
    FramesStep(cfg, p, frames, n);
    if n > 0 {
      SeveralFrames(cfg, p, frames, n - 1);
      FrameAt(cfg, p, frames, n - 1);
    }
  }

  lemma FramesStep(cfg: Config, p: RtpPacket, frames: seq<seq<byte>>, n: nat)
    requires cfg.Valid() && n <= |frames| != 1 && Parseable(Aac, p.payload) && AuCount(p.payload) == |frames|
    ensures AuFrames(cfg, p, n) == if n == 0 then [] else AuFrames(cfg, p, n - 1) + [AuFrame(cfg, p, n - 1)]
    ensures
      var ts := p.header.timestamp;
      Timed(cfg, ts, frames, n)
        == if n == 0 then []
           else Timed(cfg, ts, frames, n - 1) + [AvPacket(Aac, AuMillis(cfg, ts, n - 1), frames[n - 1])]
  {
    hide AuCount, AuMillis, Parseable, AuFrame;
  }

  lemma FrameAt(cfg: Config, p: RtpPacket, frames: seq<seq<byte>>, i: nat)
    requires cfg.Valid() && 16 * |frames| < 0x1_0000 && AllShort(frames) && i < |frames| != 1
    requires p.payload == Several(frames) && Parseable(Aac, p.payload) && AuCount(p.payload) == |frames|
    ensures AuFrame(cfg, p, i) == AvPacket(Aac, AuMillis(cfg, p.header.timestamp, i), frames[i])
  {
    hide Several, AuCount, AuSize, AuPos, AuMillis, Parseable;
    SeveralFrame(frames, i);
  }

  /** Several frames in one packet come back in order, each 1024 samples after the one before. */
  lemma SeveralRoundTrip(cfg: Config, p: RtpPacket, frames: seq<seq<byte>>)
    requires cfg.Valid() && cfg.codec == Aac && 16 * |frames| < 0x1_0000 && AllShort(frames) && |frames| != 1
    requires p.payload == Several(frames) && p.position == Unplaced
    ensures AllPlaced(Aac, [p])
    ensures TryRun(cfg, [p]) == Unpacked(Timed(cfg, p.header.timestamp, frames, |frames|), 1, 1)
  {
    SeveralParse(frames);
    hide Several, AuCount, Parseable, AuFrames, Timed;
    SeveralFrames(cfg, p, frames, |frames|);
  }

  lemma {:induction false} TimedAt(cfg: Config, timestamp: uint32, frames: seq<seq<byte>>, n: nat, i: nat)
    requires cfg.Valid() && i < n <= |frames|
    ensures |Timed(cfg, timestamp, frames, n)| == n
    ensures Timed(cfg, timestamp, frames, n)[i] == AvPacket(Aac, AuMillis(cfg, timestamp, i), frames[i])
  {
    hide AuMillis;
    if n > 1 {
      TimedAt(cfg, timestamp, frames, n - 1, if i < n - 1 then i else 0);
    }
  }

  /** `k` is the whole part of `a / rate`. */
  predicate WholePart(k: nat, a: nat, rate: nat) {
    k * rate <= a < (k + 1) * rate
  }

  lemma DividesDown(a: nat, rate: nat) returns (k: nat)
    requires rate > 0
    ensures WholePart(k, a, rate) && k == a / rate
  {
    k := a / rate;
    assert a == k * rate + a % rate;
  }

  /** The time of frame `i` is that of the packet and the whole milliseconds that `i` frames of 1024 samples
      last, in 32 bits. */
  lemma FrameTime(cfg: Config, p: RtpPacket, frames: seq<seq<byte>>, i: nat) returns (k: nat)
    requires cfg.Valid() && cfg.codec == Aac && 16 * |frames| < 0x1_0000 && AllShort(frames) && i < |frames| != 1
    requires p.payload == Several(frames) && p.position == Unplaced
    ensures WholePart(k, 1024000 * i, cfg.clockRate)
    ensures AllPlaced(Aac, [p])
    ensures
      var r := TryRun(cfg, [p]);
      r.Unpacked? && |r.frames| == |frames|
      && r.frames[i]
        == AvPacket(Aac, (p.header.timestamp / (cfg.clockRate / 1000) + k) % 0x1_0000_0000, frames[i])
  {
    hide *;
    SeveralRoundTrip(cfg, p, frames);
    TimedAt(cfg, p.header.timestamp, frames, |frames|, i);
    RateIs(cfg);
    k := DividesDown(1024000 * i, cfg.clockRate);
    MillisAt(cfg, p.header.timestamp, i, k);
  }

  lemma RateIs(cfg: Config)
    requires cfg.Valid()
    ensures cfg.clockRate >= 1000
  {
  }

  lemma MillisAt(cfg: Config, timestamp: uint32, i: nat, k: nat)
    requires cfg.Valid() && k == 1024000 * i / cfg.clockRate
    ensures cfg.clockRate / 1000 > 0
    ensures AuMillis(cfg, timestamp, i) == (timestamp / (cfg.clockRate / 1000) + k) % 0x1_0000_0000
  {
    assert i * (1024 * 1000) == 1024000 * i;
  }

  /** From one frame to the next it is 1024 samples, in milliseconds rounded down or up. */
  lemma FrameDistance(cfg: Config, p: RtpPacket, frames: seq<seq<byte>>, i: nat) returns (d: nat)
    requires cfg.Valid() && cfg.codec == Aac && 16 * |frames| < 0x1_0000 && AllShort(frames) && i + 1 < |frames|
    requires p.payload == Several(frames) && p.position == Unplaced
    ensures Rounded(d, 1024000, cfg.clockRate)
    ensures AllPlaced(Aac, [p])
    ensures
      var r := TryRun(cfg, [p]);
      r.Unpacked? && |r.frames| == |frames|
      && r.frames[i + 1].timestamp == (r.frames[i].timestamp + d) % 0x1_0000_0000
  {
    hide *;
    var k := FrameTime(cfg, p, frames, i);
    var l := FrameTime(cfg, p, frames, i + 1);
    RateIs(cfg);
    d := Apart(k, l, 1024000 * i, 1024000, cfg.clockRate);
    WrapsOn(p.header.timestamp / (cfg.clockRate / 1000), k, d);
  }

  /** `d` is less than 1 away from `b / rate`. */
  predicate Rounded(d: nat, b: nat, rate: nat) {
    d * rate < b + rate && b < (d + 1) * rate
  }

  lemma Apart(k: nat, l: nat, a: nat, b: nat, rate: nat) returns (d: nat)
    requires rate > 0 && WholePart(k, a, rate) && WholePart(l, a + b, rate)
    ensures l == k + d && Rounded(d, b, rate)
  {
    Scaled(l + 1, k, rate);
    d := l - k;
    assert l * rate == k * rate + d * rate;
    assert (l + 1) * rate == k * rate + (d + 1) * rate;
    assert (k + 1) * rate == k * rate + rate;
  }

  lemma Scaled(x: nat, y: nat, rate: nat)
    ensures x <= y ==> x * rate <= y * rate
  {
  }

  lemma WrapsOn(t: nat, k: nat, d: nat)
    ensures (t + (k + d)) % 0x1_0000_0000 == ((t + k) % 0x1_0000_0000 + d) % 0x1_0000_0000
  {
  }
}
