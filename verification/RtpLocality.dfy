/** An attempt looks at no packet after the last one it takes. */
module RtpLocality {
  import opened Bytes
  import opened RtpPackets
  import opened RtpUnpacking

  /** Packets that unpack as one step, all of them. */
  ghost predicate IsFrame(cfg: Config, pkts: seq<RtpPacket>) {
    && cfg.Valid() && AllPlaced(cfg.codec, pkts)
    && TryRun(cfg, pkts).Unpacked? && TryRun(cfg, pkts).taken == |pkts|
  }

  lemma {:induction false} FuaLastPrefix(run: seq<RtpPacket>, m: nat, i: nat)
    requires m <= |run|
    ensures FuaLast(run[..m], i).Some? ==> FuaLast(run, i) == FuaLast(run[..m], i)
    ensures FuaLast(run, i).Some? && FuaLast(run, i).value < m ==> FuaLast(run[..m], i) == FuaLast(run, i)
    decreases |run| - i
  {
    if i < |run| && run[i].position == FuaMiddle {
      FuaLastPrefix(run, m, i + 1);
    }
  }

  lemma {:induction false} AacLastPrefix(run: seq<RtpPacket>, m: nat, i: nat, cached: nat, total: nat)
    requires 1 <= m <= |run| && AllPlaced(Aac, run)
    ensures AacLast(run[..m], i, cached, total).Some? ==>
      AacLast(run, i, cached, total) == AacLast(run[..m], i, cached, total)
    ensures AacLast(run, i, cached, total).Some? && AacLast(run, i, cached, total).value < m ==>
      AacLast(run[..m], i, cached, total) == AacLast(run, i, cached, total)
    decreases |run| - i
  {
    hide AuSize, AuRest, AuHeadersLength;
    if i < m {
      var b := run[i].payload;
      assert run[..m][i] == run[i] && run[..m][0] == run[0];
      if run[i].header.timestamp == run[0].header.timestamp && AuCount(b) == 1 && AuSize(b, 0) == total
        && cached + |AuRest(b)| < total {
        AacLastPrefix(run, m, i + 1, cached + |AuRest(b)|, total);
      }
    }
  }

  lemma {:induction false} BodiesOfPrefix(base: seq<byte>, list: seq<RtpPacket>, m: nat, n: nat, skip: nat)
    requires n <= m <= |list| && forall i | 0 <= i < n :: |list[i].payload| >= skip
    ensures Bodies(base, list[..m], n, skip) == Bodies(base, list, n, skip)
  {
    if n > 0 {
      BodiesOfPrefix(base, list, m, n - 1, skip);
    }
  }

  lemma {:induction false} AuRestsOfPrefix(list: seq<RtpPacket>, m: nat, n: nat)
    requires n <= m <= |list| && AllPlaced(Aac, list)
    requires forall i | 0 <= i < n :: AuCount(list[i].payload) == 1
    ensures AuRests(list[..m], n) == AuRests(list, n)
  {
    if n > 0 {
      AuRestsOfPrefix(list, m, n - 1);
    }
  }

  lemma FuaHeadersFit(codec: Codec, run: seq<RtpPacket>, e: nat)
    requires codec != Aac && AllPlaced(codec, run) && run != [] && run[0].position == FuaStart
    requires FuaLast(run, 1) == Some(e)
    ensures forall i | 0 <= i <= e :: |run[i].payload| >= FuHeaderLength(codec)
  {
    forall i | 0 <= i <= e ensures |run[i].payload| >= FuHeaderLength(codec) {
      assert Placed(codec, run[i]);
    }
  }

  /** Both ways: what a prefix unpacks to the whole unpacks to, and what the whole unpacks to any
      prefix holding the taken packets unpacks to. */
  lemma TryRunPrefix(cfg: Config, run: seq<RtpPacket>, m: nat)
    requires cfg.Valid() && AllPlaced(cfg.codec, run) && m <= |run|
    ensures TryRun(cfg, run[..m]).Unpacked? ==> TryRun(cfg, run) == TryRun(cfg, run[..m])
    ensures TryRun(cfg, run).Unpacked? && TryRun(cfg, run).taken <= m ==> TryRun(cfg, run[..m]) == TryRun(cfg, run)
  {
    if m > 0 {
      assert run[..m][0] == run[0];
      if cfg.codec == Aac {
        TryAacPrefix(cfg, run, m);
      } else {
        TryAvcHevcPrefix(cfg, run, m);
      }
    }
  }

  lemma TryAvcHevcPrefix(cfg: Config, run: seq<RtpPacket>, m: nat)
    requires cfg.Valid() && cfg.codec != Aac && AllPlaced(cfg.codec, run) && 1 <= m <= |run|
    ensures TryRun(cfg, run[..m]).Unpacked? ==> TryRun(cfg, run) == TryRun(cfg, run[..m])
    ensures TryRun(cfg, run).Unpacked? && TryRun(cfg, run).taken <= m ==> TryRun(cfg, run[..m]) == TryRun(cfg, run)
  {
    hide CalcPosition, Parseable;
    if run[0].position == FuaStart {
      FuaLastPrefix(run, m, 1);
      match FuaLast(run, 1)
      case None =>
      case Some(e) =>
        if e < m {
          FuaHeadersFit(cfg.codec, run, e);
          BodiesOfPrefix(FuNalHeader(cfg.codec, run[0].payload), run, m, e + 1, FuHeaderLength(cfg.codec));
        }
    }
  }

  lemma TryAacPrefix(cfg: Config, run: seq<RtpPacket>, m: nat)
    requires cfg.Valid() && cfg.codec == Aac && AllPlaced(Aac, run) && 1 <= m <= |run|
    ensures TryRun(cfg, run[..m]).Unpacked? ==> TryRun(cfg, run) == TryRun(cfg, run[..m])
    ensures TryRun(cfg, run).Unpacked? && TryRun(cfg, run).taken <= m ==> TryRun(cfg, run[..m]) == TryRun(cfg, run)
  {
    hide AuSize, AuHeadersLength, AuFrames, AuRest;
    var b := run[0].payload;
    if AuCount(b) == 1 && AuSize(b, 0) > |AuRest(b)| {
      AacLastPrefix(run, m, 1, |AuRest(b)|, AuSize(b, 0));
      match AacLast(run, 1, |AuRest(b)|, AuSize(b, 0))
      case None =>
      case Some(e) =>
        if e < m {
          forall i | 0 <= i <= e ensures AuCount(run[i].payload) == 1 {
            assert i > 0 ==> AuCount(run[i].payload) == 1;
          }
          AuRestsOfPrefix(run, m, e + 1);
        }
    }
  }

  /** No proper part of a frame, cut off at the end, unpacks. */
  lemma PartOfFrame(cfg: Config, pkts: seq<RtpPacket>, m: nat)
    requires IsFrame(cfg, pkts) && m < |pkts|
    ensures TryRun(cfg, pkts[..m]) == NoFrame
  {
    TryRunPrefix(cfg, pkts, m);
  }

  /** A frame unpacks the same whatever follows it. */
  lemma FrameAhead(cfg: Config, pkts: seq<RtpPacket>, m: nat)
    requires cfg.Valid() && AllPlaced(cfg.codec, pkts) && m <= |pkts| && IsFrame(cfg, pkts[..m])
    ensures TryRun(cfg, pkts) == TryRun(cfg, pkts[..m])
  {
    TryRunPrefix(cfg, pkts, m);
  }

  /** What a frame looks like in an AVC or HEVC stream, said without the unpacker. */
  ghost predicate FrameShape(codec: Codec, pkts: seq<RtpPacket>) {
    if |pkts| == 1 then
      || pkts[0].position == Single
      || (pkts[0].position == Stapa && pkts[0].payload != [] && StapaUnits(pkts[0].payload[1..], 0).Some?)
    else
      && |pkts| > 1 && pkts[0].position == FuaStart && pkts[|pkts| - 1].position == FuaEnd
      && forall i | 1 <= i < |pkts| - 1 :: pkts[i].position == FuaMiddle
  }

  lemma FrameShapeExact(cfg: Config, pkts: seq<RtpPacket>)
    requires cfg.Valid() && cfg.codec != Aac && AllPlaced(cfg.codec, pkts)
    ensures IsFrame(cfg, pkts) <==> FrameShape(cfg.codec, pkts)
  {
    if |pkts| > 1 && pkts[0].position == FuaStart {
      FuaLastExact(pkts, 1);
    }
  }

  lemma {:induction false} FuaLastExact(run: seq<RtpPacket>, i: nat)
    requires i < |run|
    ensures FuaLast(run, i) == Some((|run| - 1) as nat)
      <==> run[|run| - 1].position == FuaEnd && forall k | i <= k < |run| - 1 :: run[k].position == FuaMiddle
    decreases |run| - i
  {
    if i + 1 < |run| && run[i].position == FuaMiddle {
      FuaLastExact(run, i + 1);
    }
  }
}
