/** The unpackers as the source runs them, on the linked list and with byte loops:
    `rtprtcp/rtp_unpacker_avc_hevc.go` and `rtprtcp/rtp_unpacker_aac.go`. */
module RtpUnpackers {
  import opened Bytes
  import opened SeqNumber
  import opened RtpPackets
  import opened RtpUnpacking
  import opened RtpLocality
  import opened RtpPacketLists

  /** Where the gap-free front of the list ends. */
  lemma {:induction false} RunLengthAt(list: seq<RtpPacket>, i: nat)
    requires 1 <= i < |list| && i <= RunLength(list)
    ensures i < RunLength(list) <==> SubSeq(list[i].header.seqNo, list[i - 1].header.seqNo) == 1
  {
    if i > 1 {
      RunLengthAt(list[1..], i - 1);
    }
  }

  lemma AvccAllCons(nal: seq<byte>, rest: seq<seq<byte>>)
    ensures AvccAll([nal] + rest) == Avcc(nal) + AvccAll(rest)
  {
    assert ([nal] + rest)[1..] == rest;
  }

  /** One turn of the STAP-A loops at index `i`. */
  lemma StapaStep(buf: seq<byte>, i: nat, next: int)
    requires i + 2 <= |buf| && next == i + 2 + StapaSize(buf, i)
    ensures next > |buf| ==> StapaUnits(buf, i).None?
    ensures next <= |buf| ==> (StapaUnits(buf, i).Some? <==> StapaUnits(buf, next).Some?)
    ensures next <= |buf| && StapaUnits(buf, i).Some? ==>
      AvccAll(StapaUnits(buf, i).value) == Avcc(buf[i + 2..next]) + AvccAll(StapaUnits(buf, next).value)
  {
    if next <= |buf| && StapaUnits(buf, i).Some? {
      AvccAllCons(buf[i + 2..next], StapaUnits(buf, next).value);
    }
  }

  /** `done` and the units from `i` on are all units. */
  ghost predicate StapaLeft(buf: seq<byte>, i: nat, done: seq<byte>, all: seq<byte>) {
    i <= |buf| && StapaUnits(buf, i).Some? && all == done + AvccAll(StapaUnits(buf, i).value)
  }

  lemma StapaStart(buf: seq<byte>)
    requires StapaUnits(buf, 0).Some?
    ensures StapaLeft(buf, 0, [], AvccAll(StapaUnits(buf, 0).value))
  {
    hide StapaUnits, AvccAll;
    var none: seq<byte> := [];
    var all := AvccAll(StapaUnits(buf, 0).value);
    assert none + all == all;
  }

  lemma StapaTurn(buf: seq<byte>, i: nat, done: seq<byte>, all: seq<byte>)
    requires i < |buf| && StapaLeft(buf, i, done, all)
    ensures
      i + 2 <= |buf|
      && var size := Be16(buf[i..]);
        var next := i + 2 + size;
        next <= |buf| && |done| + 4 + size <= |all|
        && StapaLeft(buf, next, done + BePut32(size) + buf[i + 2..next], all)
  {
    StapaFits(buf, i);
    var size := Be16(buf[i..]);
    var next := i + 2 + size;
    var nal := buf[i + 2..next];
    hide StapaUnits, AvccAll;
    StapaStep(buf, i, next);
    AvccSmall(nal);
    hide *;
    Joined(done, BePut32(size), nal, AvccAll(StapaUnits(buf, next).value));
    LeftAt(buf, i, done, all);
    LeftIs(buf, next, done + BePut32(size) + nal, all);
  }

  lemma StapaFits(buf: seq<byte>, i: nat)
    requires i < |buf| && StapaUnits(buf, i).Some?
    ensures i + 2 <= |buf| && i + 2 + StapaSize(buf, i) <= |buf| && StapaSize(buf, i) == Be16(buf[i..])
  {
  }

  lemma Joined(a: seq<byte>, b: seq<byte>, c: seq<byte>, d: seq<byte>)
    ensures a + (b + c + d) == a + b + c + d
  {
  }

  lemma LeftAt(buf: seq<byte>, i: nat, done: seq<byte>, all: seq<byte>)
    requires StapaLeft(buf, i, done, all)
    ensures i <= |buf| && StapaUnits(buf, i).Some? && all == done + AvccAll(StapaUnits(buf, i).value)
  {
  }

  lemma LeftIs(buf: seq<byte>, i: nat, done: seq<byte>, all: seq<byte>)
    requires i <= |buf| && StapaUnits(buf, i).Some? && all == done + AvccAll(StapaUnits(buf, i).value)
    ensures StapaLeft(buf, i, done, all)
  {
  }

  lemma StapaEnd(buf: seq<byte>, done: seq<byte>, all: seq<byte>)
    requires StapaLeft(buf, |buf|, done, all)
    ensures all == done
  {
  }

  lemma AvccSmall(nal: seq<byte>)
    requires |nal| < 0x1_0000_0000
    ensures Avcc(nal) == BePut32(|nal|) + nal
  {
  }

  // ---- what an attempt comes to, said of the whole list

  lemma AttemptOne(cfg: Config, list: seq<RtpPacket>)
    requires cfg.Valid() && cfg.codec != Aac && AllPlaced(cfg.codec, list) && list != []
    ensures var p := list[0];
      var millis := cfg.Millis(p.header.timestamp);
      match p.position
      case Single => TryUnpack(cfg, list) == Unpacked([AvPacket(cfg.codec, millis, Avcc(p.payload))], 1, 1)
      case Stapa =>
        (match StapaUnits(p.payload[1..], 0)
         case None => TryUnpack(cfg, list) == NoFrame
         case Some(nals) =>
           TryUnpack(cfg, list) == Unpacked([AvPacket(cfg.codec, millis, AvccAll(nals))], 1, 1))
      case FuaStart => true
      case _ => TryUnpack(cfg, list) == NoFrame
  {
  }

  lemma AttemptAus(cfg: Config, list: seq<RtpPacket>)
    requires cfg.Valid() && cfg.codec == Aac && AllPlaced(Aac, list) && list != []
    ensures var b := list[0].payload;
      if AuCount(b) != 1 then TryUnpack(cfg, list) == Unpacked(AuFrames(cfg, list[0], AuCount(b)), 1, 1)
      else AuSize(b, 0) <= |AuRest(b)| ==>
        TryUnpack(cfg, list)
        == Unpacked([AvPacket(Aac, cfg.Millis(list[0].header.timestamp), AuRest(b)[..AuSize(b, 0)])], 1, 1)
  {
  }

  lemma AttemptFua(cfg: Config, list: seq<RtpPacket>)
    requires cfg.Valid() && cfg.codec != Aac && AllPlaced(cfg.codec, list)
    requires list != [] && list[0].position == FuaStart
    ensures match FuaLast(list[..RunLength(list)], 1)
      case None => TryUnpack(cfg, list) == NoFrame
      case Some(e) =>
        && (forall i | 0 <= i <= e :: |list[i].payload| >= FuHeaderLength(cfg.codec))
        && TryUnpack(cfg, list) == Unpacked(
             [AvPacket(cfg.codec, cfg.Millis(list[e].header.timestamp), Avcc(FuNal(cfg.codec, list, e + 1)))],
             e + 1, e + 1)
  {
    hide *;
    var n := RunLength(list);
    RunBounds(list);
    AllPlacedPrefix(cfg.codec, list, n);
    AttemptRun(cfg, list);
    FuaAttempt(cfg, list[..n]);
    match FuaLast(list[..n], 1)
    case None =>
    case Some(e) =>
      FuaHeadersFit(cfg.codec, list[..n], e);
      FuNalPrefix(cfg.codec, list, n, e + 1);
  }

  lemma RunBounds(list: seq<RtpPacket>)
    ensures RunLength(list) <= |list| && (list != [] ==> RunLength(list) >= 1)
  {
  }

  lemma AllPlacedPrefix(codec: Codec, list: seq<RtpPacket>, n: nat)
    requires AllPlaced(codec, list) && n <= |list|
    ensures AllPlaced(codec, list[..n])
  {
    hide Placed;
  }

  lemma AttemptRun(cfg: Config, list: seq<RtpPacket>)
    requires cfg.Valid() && AllPlaced(cfg.codec, list) && AllPlaced(cfg.codec, list[..RunLength(list)])
    ensures TryUnpack(cfg, list) == TryRun(cfg, list[..RunLength(list)])
  {
    hide TryRun, RunLength, Placed;
  }

  lemma FuaAttempt(cfg: Config, run: seq<RtpPacket>)
    requires cfg.Valid() && cfg.codec != Aac && AllPlaced(cfg.codec, run) && run != [] && run[0].position == FuaStart
    ensures match FuaLast(run, 1)
      case None => TryRun(cfg, run) == NoFrame
      case Some(e) =>
        && (forall i | 0 <= i <= e :: |run[i].payload| >= FuHeaderLength(cfg.codec))
        && TryRun(cfg, run) == Unpacked(
             [AvPacket(cfg.codec, cfg.Millis(run[e].header.timestamp), Avcc(FuNal(cfg.codec, run, e + 1)))],
             e + 1, e + 1)
  {
    hide Placed, FuHeaderLength, FuNal, Avcc, FuaLast;
    if FuaLast(run, 1).Some? {
      FuaHeadersFit(cfg.codec, run, FuaLast(run, 1).value);
    }
  }

  lemma FuNalPrefix(codec: Codec, list: seq<RtpPacket>, n: nat, m: nat)
    requires 1 <= m <= n <= |list| && forall i | 0 <= i < m :: |list[..n][i].payload| >= FuHeaderLength(codec)
    ensures forall i | 0 <= i < m :: |list[i].payload| >= FuHeaderLength(codec)
    ensures FuNal(codec, list[..n], m) == FuNal(codec, list, m)
  {
    hide FuNalHeader, FuHeaderLength, Bodies;
    assert forall i | 0 <= i < m :: list[..n][i] == list[i];
    BodiesOfPrefix(FuNalHeader(codec, list[0].payload), list, n, m, FuHeaderLength(codec));
  }

  lemma FirstRest(packets: seq<RtpPacket>)
    requires AllPlaced(Aac, packets) && packets != [] && AuCount(packets[0].payload) == 1
    ensures RunLength(packets) > 0 && Flatten([AuRest(packets[0].payload)]) == AuRests(packets, 1)
  {
    hide AuRest;
    FlattenSnoc([], AuRest(packets[0].payload));
    assert [] + [AuRest(packets[0].payload)] == [AuRest(packets[0].payload)];
  }

  /** What the next packet does to the search for the last fragment. */
  lemma AacStep(packets: seq<RtpPacket>, i: nat, cached: nat, total: nat)
    requires AllPlaced(Aac, packets) && i < |packets| && i <= RunLength(packets)
    requires forall k | 0 <= k < i :: AuCount(packets[k].payload) == 1
    ensures
      var run, b := packets[..RunLength(packets)], packets[i].payload;
      var last := AacLast(run, i, cached, total);
      if i == |run| || packets[i].header.timestamp != packets[0].header.timestamp then last == None
      else if AuCount(b) != 1 || AuSize(b, 0) != total then last == None
      else
        AuRests(packets, i + 1) == AuRests(packets, i) + AuRest(b)
        && if cached + |AuRest(b)| < total then last == AacLast(run, i + 1, cached + |AuRest(b)|, total)
          else if cached + |AuRest(b)| == total then last == Some(i)
          else last == None
  {
    hide RunLength, AuRest, AuSize;
  }

  lemma AttemptFragments(cfg: Config, list: seq<RtpPacket>)
    requires cfg.Valid() && cfg.codec == Aac && AllPlaced(Aac, list) && list != []
    requires AuCount(list[0].payload) == 1 && AuSize(list[0].payload, 0) > |AuRest(list[0].payload)|
    ensures var b := list[0].payload;
      match AacLast(list[..RunLength(list)], 1, |AuRest(b)|, AuSize(b, 0))
      case None => TryUnpack(cfg, list) == NoFrame
      case Some(e) =>
        && (forall i | 0 <= i <= e :: AuCount(list[i].payload) == 1)
        && TryUnpack(cfg, list) == Unpacked(
             [AvPacket(Aac, cfg.Millis(list[e].header.timestamp), AuRests(list, e + 1))], e + 1, e)
  {
    var n := RunLength(list);
    match AacLast(list[..n], 1, |AuRest(list[0].payload)|, AuSize(list[0].payload, 0))
    case None =>
    case Some(e) =>
      forall i | 0 <= i <= e ensures AuCount(list[i].payload) == 1 {
        assert list[..n][i] == list[i];
      }
      AuRestsOfPrefix(list, n, e + 1);
  }

  class RtpUnpacker {
    const cfg: Config
    var delivered: seq<AvPacket>  // what the callback has been given

    constructor (cfg: Config)
      ensures this.cfg == cfg && delivered == []
    {
      this.cfg := cfg;
      delivered := [];
    }

    /** The effect an attempt has on the callback, the list and its counter. */
    twostate predicate Did(list: RtpPacketList, a: Attempt, flag: bool, seqNo: uint16)
      reads this, list
    {
      match a
      case NoFrame =>
        !flag && seqNo == 0 && unchanged(this) && unchanged(list)
      case Unpacked(frames, taken, counted) =>
        && flag && 1 <= taken <= |old(list.packets)| && seqNo == old(list.packets)[taken - 1].header.seqNo
        && list.packets == old(list.packets)[taken..] && list.size == old(list.size) - counted
        && delivered == old(delivered) + frames
    }

    method TryUnpackOne(list: RtpPacketList) returns (unpackedFlag: bool, unpackedSeq: uint16)
      requires cfg.Valid() && list.Valid() && AllPlaced(cfg.codec, list.packets)
      modifies this, list, list.head
      ensures list.Valid() && list.owned == old(list.owned)
      ensures Did(list, TryUnpack(cfg, old(list.packets)), unpackedFlag, unpackedSeq)
    {
      if list.head.next == null {
        return false, 0;
      }
      if cfg.codec == Aac {
        unpackedFlag, unpackedSeq := TryUnpackOneAac(list);
      } else {
        unpackedFlag, unpackedSeq := TryUnpackOneAvcHevc(list);
      }
    }

    /** The payload behind its length. */
    static method Prefixed(body: seq<byte>) returns (payload: seq<byte>)
      ensures payload == Avcc(body)
    {
      var out := new byte[|body| + 4];
      var size := BePut32(|body| % 0x1_0000_0000);
      var index := Append(out, 0, size, []);
      index := Append(out, index, body, size);
      return out[..index];
    }

    method TryUnpackOneAvcHevc(list: RtpPacketList) returns (unpackedFlag: bool, unpackedSeq: uint16)
      requires cfg.Valid() && list.Valid() && AllPlaced(cfg.codec, list.packets)
      requires cfg.codec != Aac && list.packets != []
      modifies this, list, list.head
      ensures list.Valid() && list.owned == old(list.owned)
      ensures Did(list, TryUnpack(cfg, old(list.packets)), unpackedFlag, unpackedSeq)
    {
      AttemptOne(cfg, list.packets);
      hide TryUnpack, CalcPosition, StapaUnits, AvccAll, Parseable;
      var first := list.head.next;
      assert first == list.nodes[1] && first.packet == list.packets[0];
      var packet := first.packet;
      match packet.position {
        case Single =>
          var body := packet.payload;
          var payload := Prefixed(body);
          unpackedFlag, unpackedSeq := Deliver(list, first, 0, 1, packet, payload);
        case Stapa =>
          var ok, payload := ConvertStapa(packet.payload[1..]);
          if !ok {
            return false, 0;
          }
          unpackedFlag, unpackedSeq := Deliver(list, first, 0, 1, packet, payload);
        case FuaStart =>
          unpackedFlag, unpackedSeq := TryFua(list, first);
        case _ =>
          return false, 0;
      }
    }

    method TryFua(list: RtpPacketList, first: RtpPacketListItem) returns (unpackedFlag: bool, unpackedSeq: uint16)
      requires cfg.Valid() && list.Valid() && AllPlaced(cfg.codec, list.packets)
      requires cfg.codec != Aac && list.packets != [] && list.packets[0].position == FuaStart
      requires first == list.nodes[1]
      modifies this, list, list.head
      ensures list.Valid() && list.owned == old(list.owned)
      ensures Did(list, TryUnpack(cfg, old(list.packets)), unpackedFlag, unpackedSeq)
    {
      AttemptFua(cfg, list.packets);
      hide TryUnpack, CalcPosition, FuaLast, RunLength, FuNal;
      var p, e := FindFuaEnd(list, first);
      if p == null {
        return false, 0;
      }
      var payload, packetCount := AssembleFua(list, first, p, e);
      unpackedFlag, unpackedSeq := Deliver(list, p, e, packetCount, p.packet, payload);
    }

    /** Hands one frame to the callback and cuts its packets off the list. */
    method Deliver(list: RtpPacketList, last: RtpPacketListItem, ghost n: nat, counted: nat,
        packet: RtpPacket, payload: seq<byte>)
      returns (unpackedFlag: bool, unpackedSeq: uint16)
      requires cfg.Valid() && list.Valid() && n < |list.packets| && last == list.nodes[n + 1]
      requires packet == list.packets[n]
      modifies this, list, list.head
      ensures list.Valid() && list.owned == old(list.owned)
      ensures Did(list, Unpacked([AvPacket(cfg.codec, cfg.Millis(packet.header.timestamp), payload)], n + 1, counted),
                  unpackedFlag, unpackedSeq)
    {
      list.CutAfter(last, n);
      list.size := list.size - counted;
      delivered := delivered + [AvPacket(cfg.codec, cfg.Millis(packet.header.timestamp), payload)];
      return true, packet.header.seqNo;
    }

    /** 2-byte lengths become 4-byte lengths; one pass to check and measure, one to copy. */
    static method ConvertStapa(buf: seq<byte>) returns (ok: bool, payload: seq<byte>)
      ensures ok <==> StapaUnits(buf, 0).Some?
      ensures ok ==> payload == AvccAll(StapaUnits(buf, 0).value)
    {
      var totalSize, i := 0, 0;
      while i != |buf|
        invariant 0 <= i && 0 <= totalSize
        invariant i > |buf| ==> StapaUnits(buf, 0).None?
        invariant i <= |buf| ==> (StapaUnits(buf, 0).Some? <==> StapaUnits(buf, i).Some?)
        invariant i <= |buf| && StapaUnits(buf, 0).Some? ==>
          |AvccAll(StapaUnits(buf, 0).value)| == totalSize + |AvccAll(StapaUnits(buf, i).value)|
        decreases |buf| - i
      {
        if |buf| - i < 2 {
          return false, [];
        }
        var naluSize := Be16(buf[i..]);
        StapaStep(buf, i, i + 2 + naluSize);
        totalSize := totalSize + 4 + naluSize;
        i := i + 2 + naluSize;
      }
      payload := CopyStapa(buf, totalSize);
      return true, payload;
    }

    static method CopyStapa(buf: seq<byte>, totalSize: nat) returns (payload: seq<byte>)
      requires StapaUnits(buf, 0).Some? && totalSize == |AvccAll(StapaUnits(buf, 0).value)|
      ensures payload == AvccAll(StapaUnits(buf, 0).value)
    {
      hide *;
      var out := new byte[totalSize];
      var i, j: nat := 0, 0;
      ghost var all := AvccAll(StapaUnits(buf, 0).value);
      ghost var done: seq<byte> := [];
      StapaStart(buf);
      while i != |buf|
        invariant i <= |buf| && out.Length == |all| && StapaLeft(buf, i, done, all)
        invariant j <= out.Length && out[..j] == done
        decreases |buf| - i
      {
        StapaTurn(buf, i, done, all);
        var naluSize := Be16(buf[i..]);
        var next := i + 2 + naluSize;
        var nal := buf[i + 2..next];
        ghost var size := BePut32(naluSize);
        j := Append(out, j, BePut32(naluSize), done);
        j := Append(out, j, nal, done + size);
        done := done + size + nal;
        i := next;
      }
      StapaEnd(buf, done, all);
      return out[..j];
    }

    method FindFuaEnd(list: RtpPacketList, first: RtpPacketListItem)
      returns (p: RtpPacketListItem?, ghost e: nat)
      requires list.Valid() && list.packets != [] && first == list.nodes[1]
      ensures var run := list.packets[..RunLength(list.packets)];
        match FuaLast(run, 1)
        case None => p == null
        case Some(last) => e == last && p == list.nodes[last + 1]
    {
      ghost var packets := list.packets;
      ghost var run := packets[..RunLength(packets)];
      var prev := first;
      p := first.next;
      e := 1;
      while true
        invariant 1 <= e <= |run|
        invariant prev == list.nodes[e]
        invariant p == if e < |packets| then list.nodes[e + 1] else null
        invariant FuaLast(run, 1) == FuaLast(run, e)
        decreases |packets| - e
      {
        if p == null {
          return;
        }
        assert p.packet == packets[e] && prev.packet == packets[e - 1];
        RunLengthAt(packets, e);
        if SubSeq(p.packet.header.seqNo, prev.packet.header.seqNo) != 1 {
          return null, e;
        }
        if p.packet.position == FuaMiddle {
          prev, p := p, p.next;
          e := e + 1;
        } else if p.packet.position == FuaEnd {
          return;
        } else {
          return null, e;
        }
      }
    }

    method TryUnpackOneAac(list: RtpPacketList) returns (unpackedFlag: bool, unpackedSeq: uint16)
      requires cfg.Valid() && list.Valid() && AllPlaced(cfg.codec, list.packets)
      requires cfg.codec == Aac && list.packets != []
      modifies this, list, list.head
      ensures list.Valid() && list.owned == old(list.owned)
      ensures Did(list, TryUnpack(cfg, old(list.packets)), unpackedFlag, unpackedSeq)
    {
      AttemptAus(cfg, list.packets);
      hide TryUnpack, AuSize, AuHeadersLength, AuFrames, AuRests, AacLast, RunLength;
      var p := list.head.next;
      assert p == list.nodes[1] && p.packet == list.packets[0];
      var packet := p.packet;
      var b := packet.payload;
      var aus := ParseAu(b);
      if |aus| == 1 {
        if aus[0].size <= |b[aus[0].pos..]| {
          var payload := b[aus[0].pos..aus[0].pos + aus[0].size];
          assert payload == AuRest(b)[..AuSize(b, 0)];
          unpackedFlag, unpackedSeq := Deliver(list, p, 0, 1, packet, payload);
          return;
        }
        unpackedFlag, unpackedSeq := TryFragments(list, p, aus[0].size);
        return;
      }
      unpackedFlag, unpackedSeq := DeliverAll(list, p, aus);
    }

    method TryFragments(list: RtpPacketList, first: RtpPacketListItem, totalSize: nat)
      returns (unpackedFlag: bool, unpackedSeq: uint16)
      requires cfg.Valid() && list.Valid() && AllPlaced(cfg.codec, list.packets)
      requires cfg.codec == Aac && list.packets != [] && first == list.nodes[1]
      requires var b := list.packets[0].payload; AuCount(b) == 1 && totalSize == AuSize(b, 0) > |AuRest(b)|
      modifies this, list, list.head
      ensures list.Valid() && list.owned == old(list.owned)
      ensures Did(list, TryUnpack(cfg, old(list.packets)), unpackedFlag, unpackedSeq)
    {
      AttemptFragments(cfg, list.packets);
      hide TryUnpack, AuSize, AuHeadersLength, AuRests, AacLast, RunLength, AuRest, AuCount, AllPlaced, Flatten;
      var last, parts, packetCount := CollectFragments(list, first, totalSize);
      if last == null {
        return false, 0;
      }
      var payload := Join(parts);
      unpackedFlag, unpackedSeq := Deliver(list, last, packetCount, packetCount, last.packet, payload);
    }

    /** Hands every access unit of the first packet to the callback and cuts the packet off. */
    method DeliverAll(list: RtpPacketList, p: RtpPacketListItem, aus: seq<Au>)
      returns (unpackedFlag: bool, unpackedSeq: uint16)
      requires cfg.Valid() && cfg.codec == Aac && list.Valid() && list.packets != [] && p == list.nodes[1]
      requires Parseable(Aac, list.packets[0].payload) && AuCount(list.packets[0].payload) == |aus| != 1
      requires forall i {:trigger aus[i]} | 0 <= i < |aus| :: aus[i] == AuAt(list.packets[0].payload, i)
      modifies this, list, list.head
      ensures list.Valid() && list.owned == old(list.owned)
      ensures Did(list, Unpacked(AuFrames(cfg, old(list.packets)[0], |aus|), 1, 1), unpackedFlag, unpackedSeq)
    {
      hide AuAt, AuFrames, AuHeadersLength, AuPos;
      var packet := p.packet;
      EmitAll(packet, aus);
      list.CutAfter(p, 0);
      list.size := list.size - 1;
      return true, packet.header.seqNo;
    }

    method EmitAll(packet: RtpPacket, aus: seq<Au>)
      requires cfg.Valid() && cfg.codec == Aac && Parseable(Aac, packet.payload)
      requires AuCount(packet.payload) == |aus| != 1
      requires forall i {:trigger aus[i]} | 0 <= i < |aus| :: aus[i] == AuAt(packet.payload, i)
      modifies this
      ensures delivered == old(delivered) + AuFrames(cfg, packet, |aus|)
    {
      hide AuSize, AuHeadersLength, AuMillis;
      for i := 0 to |aus|
        invariant delivered == old(delivered) + AuFrames(cfg, packet, i)
      {
        AuPosMonotone(packet.payload, i + 1, |aus|);
        var frame := AvPacket(Aac, AuMillis(cfg, packet.header.timestamp, i),
                              packet.payload[aus[i].pos..aus[i].pos + aus[i].size]);
        assert frame == AuFrame(cfg, packet, i);
        delivered := delivered + [frame];
      }
    }

    static method ParseAu(b: seq<byte>) returns (ret: seq<Au>)
      requires |b| >= 2 && 2 + 2 * AuCount(b) <= |b|
      ensures |ret| == AuCount(b)
      ensures forall i {:trigger ret[i]} | 0 <= i < |ret| :: ret[i] == AuAt(b, i)
    {
      var auHeadersLength := (Be16(b) + 7) / 8;
      var nbAuHeaders := auHeadersLength / 2;
      var pauh, pau := 2, 2 + auHeadersLength;
      ret := [];
      for i := 0 to nbAuHeaders
        invariant pauh == 2 + 2 * i && pau == AuPos(b, i) && |ret| == i
        invariant forall k {:trigger ret[k]} | 0 <= k < i :: ret[k] == AuAt(b, k)
      {
        var auSize := AuSizeField(b[pauh], b[pauh + 1]);
        ghost var was := ret;
        ret := ret + [Au(auSize, pau)];
        assert ret[..i] == was;
        pauh := pauh + 2;
        pau := pau + auSize;
      }
    }

    /** Collects fragments until they add up to the announced size; counts the packets after the first. */
    method CollectFragments(list: RtpPacketList, first: RtpPacketListItem, totalSize: nat)
      returns (p: RtpPacketListItem?, parts: seq<seq<byte>>, packetCount: nat)
      requires list.Valid() && AllPlaced(Aac, list.packets) && list.packets != [] && first == list.nodes[1]
      requires AuCount(list.packets[0].payload) == 1
      ensures match AacLast(list.packets[..RunLength(list.packets)], 1, |AuRest(list.packets[0].payload)|, totalSize)
        case None => p == null
        case Some(last) =>
          && packetCount == last && p == list.nodes[last + 1]
          && (forall k | 0 <= k <= last :: AuCount(list.packets[k].payload) == 1)
          && Flatten(parts) == AuRests(list.packets, last + 1)
    {
      hide AuSize, AuRest, AuCount, SubSeq, AacLast, AuRests, RunLength, Flatten;
      ghost var packets := list.packets;
      ghost var run := packets[..RunLength(packets)];
      assert first.packet == packets[0];
      var timestamp := first.packet.header.timestamp;
      var au := OnlyAu(first.packet.payload);
      var cacheSize: nat := |au.value.1|;
      ghost var goal := AacLast(run, 1, cacheSize, totalSize);
      parts := [au.value.1];
      FirstRest(packets);
      var seqNo := first.packet.header.seqNo;
      p := first.next;
      packetCount := 0;
      while true
        invariant packetCount < |run|
        invariant p == if packetCount + 1 < |packets| then list.nodes[packetCount + 2] else null
        invariant seqNo == packets[packetCount].header.seqNo
        invariant forall k | 0 <= k <= packetCount :: AuCount(packets[k].payload) == 1
        invariant Flatten(parts) == AuRests(packets, packetCount + 1)
        invariant goal == AacLast(run, packetCount + 1, cacheSize, totalSize)
        decreases |packets| - packetCount
      {
        packetCount := packetCount + 1;
        if p == null {
          return;
        }
        assert p.packet == packets[packetCount];
        RunLengthAt(packets, packetCount);
        AacStep(packets, packetCount, cacheSize, totalSize);
        if SubSeq(p.packet.header.seqNo, seqNo) != 1 {
          return null, [], packetCount;
        }
        if p.packet.header.timestamp != timestamp {
          return null, [], packetCount;
        }
        au := OnlyAu(p.packet.payload);
        if au.None? {
          return null, [], packetCount;
        }
        if au.value.0 != totalSize {
          return null, [], packetCount;
        }
        cacheSize := cacheSize + |au.value.1|;
        seqNo := p.packet.header.seqNo;
        FlattenSnoc(parts, au.value.1);
        parts := parts + [au.value.1];
        if cacheSize < totalSize {
          p := p.next;
        } else if cacheSize == totalSize {
          return;
        } else {
          return null, [], packetCount;
        }
      }
    }

    /** The announced size and the data of a packet with exactly one AU header. */
    static method OnlyAu(b: seq<byte>) returns (au: Option<(nat, seq<byte>)>)
      requires Parseable(Aac, b)
      ensures au.Some? <==> AuCount(b) == 1
      ensures au.Some? ==> au.value == (AuSize(b, 0), AuRest(b))
    {
      var aus := ParseAu(b);
      if |aus| != 1 {
        return None;
      }
      return Some((aus[0].size, b[aus[0].pos..]));
    }

    static method Join(parts: seq<seq<byte>>) returns (payload: seq<byte>)
      ensures payload == Flatten(parts)
    {
      payload := [];
      for i := 0 to |parts|
        invariant payload == Flatten(parts[..i])
      {
        FlattenSnoc(parts[..i], parts[i]);
        assert parts[..i + 1] == parts[..i] + [parts[i]];
        payload := payload + parts[i];
      }
      assert parts[..|parts|] == parts;
    }

    /** The fragments from `first` to `last`, packet `e` of the list, as one length-prefixed unit. */
    method AssembleFua(list: RtpPacketList, first: RtpPacketListItem, last: RtpPacketListItem, ghost e: nat)
      returns (payload: seq<byte>, packetCount: nat)
      requires list.Valid() && cfg.codec != Aac && e < |list.packets|
      requires first == list.nodes[1] && last == list.nodes[e + 1]
      requires forall i | 0 <= i <= e :: |list.packets[i].payload| >= FuHeaderLength(cfg.codec)
      ensures payload == Avcc(FuNal(cfg.codec, list.packets, e + 1)) && packetCount == e + 1
    {
      hide Bodies, FuNalHeader;
      var skip := FuHeaderLength(cfg.codec);
      assert first.packet == list.packets[0];
      var naluType := FuNalHeader(cfg.codec, first.packet.payload);
      var totalSize := MeasureBodies(list, first, last, e, skip);
      var size := BePut32((totalSize + |naluType|) % 0x1_0000_0000);
      BodiesOnBase([], naluType, list.packets, e + 1, skip);
      BodiesOnBase(size, naluType, list.packets, e + 1, skip);
      var out := new byte[totalSize + 4 + |naluType|];
      var index := Append(out, 0, size, []);
      index := Append(out, index, naluType, size);
      packetCount := CopyBodies(list, first, last, e, skip, out, index, size + naluType);
      payload := out[..];
    }

    static method MeasureBodies(list: RtpPacketList, first: RtpPacketListItem, last: RtpPacketListItem,
        ghost e: nat, skip: nat)
      returns (totalSize: nat)
      requires list.Valid() && e < |list.packets|
      requires first == list.nodes[1] && last == list.nodes[e + 1]
      requires forall i | 0 <= i <= e :: |list.packets[i].payload| >= skip
      ensures totalSize == |Bodies([], list.packets, e + 1, skip)|
    {
      totalSize := 0;
      var pp := first;
      ghost var k := 0;
      while true
        invariant 0 <= k <= e && pp == list.nodes[k + 1]
        invariant totalSize == |Bodies([], list.packets, k, skip)|
        decreases e - k
      {
        assert pp.packet == list.packets[k];
        totalSize := totalSize + |pp.packet.payload| - skip;
        if pp == last {
          return;
        }
        pp := pp.next;
        k := k + 1;
      }
    }

    static method CopyBodies(list: RtpPacketList, first: RtpPacketListItem, last: RtpPacketListItem,
        ghost e: nat, skip: nat, out: array<byte>, start: nat, ghost base: seq<byte>)
      returns (packetCount: nat)
      requires list.Valid() && e < |list.packets|
      requires first == list.nodes[1] && last == list.nodes[e + 1]
      requires forall i | 0 <= i <= e :: |list.packets[i].payload| >= skip
      requires start <= out.Length == |Bodies(base, list.packets, e + 1, skip)| && out[..start] == base
      modifies out
      ensures out[..] == Bodies(base, list.packets, e + 1, skip) && packetCount == e + 1
    {
      hide Bodies;
      ghost var packets := list.packets;
      var index: nat := start;
      packetCount := 0;
      ghost var done := base;
      NoBodies(base, packets, skip);
      var pp := first;
      while true
        invariant 0 <= packetCount <= e && pp == list.nodes[packetCount + 1]
        invariant done == Bodies(base, packets, packetCount, skip)
        invariant index == |done| <= out.Length && out[..index] == done
        decreases e - packetCount
      {
        assert pp.packet == packets[packetCount];
        BodiesGrow(base, packets, packetCount + 1, e + 1, skip);
        BodiesStep(base, packets, packetCount, skip);
        index := Append(out, index, pp.packet.payload[skip..], done);
        done := done + pp.packet.payload[skip..];
        packetCount := packetCount + 1;
        if pp == last {
          assert out[..index] == out[..];
          return;
        }
        pp := pp.next;
      }
    }
  }

  lemma NoBodies(base: seq<byte>, run: seq<RtpPacket>, skip: nat)
    ensures Bodies(base, run, 0, skip) == base
  {
  }

  lemma BodiesStep(base: seq<byte>, run: seq<RtpPacket>, n: nat, skip: nat)
    requires n < |run| && forall i | 0 <= i <= n :: |run[i].payload| >= skip
    ensures Bodies(base, run, n + 1, skip) == Bodies(base, run, n, skip) + run[n].payload[skip..]
  {
  }

  lemma {:induction false} BodiesGrow(base: seq<byte>, run: seq<RtpPacket>, k: nat, n: nat, skip: nat)
    requires k <= n <= |run| && forall i | 0 <= i < n :: |run[i].payload| >= skip
    ensures |Bodies(base, run, k, skip)| <= |Bodies(base, run, n, skip)|
  {
    if k < n {
      BodiesGrow(base, run, k, n - 1, skip);
    }
  }

  lemma {:induction false} BodiesOnBase(a: seq<byte>, b: seq<byte>, run: seq<RtpPacket>, n: nat, skip: nat)
    requires n <= |run| && forall i | 0 <= i < n :: |run[i].payload| >= skip
    ensures Bodies(a + b, run, n, skip) == a + Bodies(b, run, n, skip)
    ensures |Bodies(b, run, n, skip)| == |b| + |Bodies([], run, n, skip)|
  {
    if n > 0 {
      BodiesOnBase(a, b, run, n - 1, skip);
      ConcatAssociative(a, Bodies(b, run, n - 1, skip), run[n - 1].payload[skip..]);
    }
  }
}
