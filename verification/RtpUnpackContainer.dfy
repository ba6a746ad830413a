/** The reordering buffer over the linked list: `rtprtcp/rtp_unpack_container.go`. */
module RtpUnpackContainers {
  import opened Bytes
  import opened SeqNumber
  import opened RtpPackets
  import opened RtpUnpacking
  import opened RtpReassembly
  import opened RtpPacketLists
  import opened RtpUnpackers

  lemma PlaceIs(codec: Codec, pkt: RtpPacket)
    requires Parseable(codec, pkt.payload)
    ensures Placed(codec, Place(codec, pkt)) && Place(codec, pkt).header == pkt.header
  {
  }

  class RtpUnpackContainer {
    const maxSize: int
    const unpackerProtocol: RtpUnpacker
    const list: RtpPacketList
    var unpackedFlag: bool
    var unpackedSeq: uint16

    ghost predicate Valid()
      reads this, list, list.owned
    {
      unpackerProtocol.cfg.Valid() && list.Valid() && AllPlaced(unpackerProtocol.cfg.codec, list.packets)
    }

    ghost function Abs(): State
      reads this, list, unpackerProtocol
    {
      State(list.packets, list.size, unpackedFlag, unpackedSeq, unpackerProtocol.delivered)
    }

    constructor (maxSize: int, cfg: Config, sentinel: RtpPacket)
      requires cfg.Valid()
      ensures Valid() && Abs() == EMPTY && unpackerProtocol.cfg == cfg && this.maxSize == maxSize
      ensures fresh(list) && fresh(unpackerProtocol) && fresh(list.owned)
    {
      this.maxSize := maxSize;
      unpackerProtocol := new RtpUnpacker(cfg);
      list := new RtpPacketList(sentinel);
      unpackedFlag, unpackedSeq := false, 0;
    }

    method TryUnpackOne() returns (unpacked: bool)
      requires Valid()
      modifies this, unpackerProtocol, list, list.head
      ensures Valid() && list.owned == old(list.owned)
      ensures (Abs(), unpacked) == UnpackOne(unpackerProtocol.cfg, old(Abs()))
    {
      hide TryUnpack;
      var flag, seqNo := unpackerProtocol.TryUnpackOne(list);
      if flag {
        unpackedFlag, unpackedSeq := flag, seqNo;
      }
      return flag;
    }

    method TryUnpackOneSequential() returns (unpacked: bool)
      requires Valid()
      modifies this, unpackerProtocol, list, list.head
      ensures Valid() && list.owned == old(list.owned)
      ensures (Abs(), unpacked) == UnpackNext(unpackerProtocol.cfg, old(Abs()))
    {
      hide UnpackOne, SubSeq;
      if unpackedFlag {
        var first := list.head.next;
        if first == null {
          return false;
        }
        assert first == list.nodes[1] && first.packet == list.packets[0];
        if SubSeq(first.packet.header.seqNo, unpackedSeq) != 1 {
          return false;
        }
      }
      unpacked := TryUnpackOne();
    }

    /** The two greedy loops of `Feed`. */
    method UnpackSequential() returns (count: nat)
      requires Valid()
      modifies this, unpackerProtocol, list, list.head
      ensures Valid() && list.owned == old(list.owned)
      ensures Abs() == Drain(unpackerProtocol.cfg, old(Abs()))
      ensures count > 0 <==> UnpackNext(unpackerProtocol.cfg, old(Abs())).1
      ensures count == 0 ==> Abs() == old(Abs())
    {
      hide UnpackNext;
      count := 0;
      while true
        invariant Valid() && list.owned == old(list.owned)
        invariant Drain(unpackerProtocol.cfg, Abs()) == Drain(unpackerProtocol.cfg, old(Abs()))
        invariant count == 0 ==> Abs() == old(Abs())
        invariant count > 0 ==> UnpackNext(unpackerProtocol.cfg, old(Abs())).1
        decreases |list.packets|
      {
        var more := TryUnpackOneSequential();
        if !more {
          break;
        }
        count := count + 1;
      }
    }

    method Feed(pkt: RtpPacket)
      requires Valid() && Parseable(unpackerProtocol.cfg.codec, pkt.payload)
      modifies this, unpackerProtocol, list, list.owned
      ensures Valid() && fresh(list.owned - old(list.owned))
      ensures Abs() == RtpReassembly.Feed(unpackerProtocol.cfg, maxSize, old(Abs()), pkt)
    {
      hide CompareSeq, UnpackNext, UnpackOne, Insert, Drain, Overflow, AllPlaced, Parseable, Place;
      if unpackedFlag && CompareSeq(pkt.header.seqNo, unpackedSeq) <= 0 {
        return;
      }
      var placed := Place(unpackerProtocol.cfg.codec, pkt);
      PlaceIs(unpackerProtocol.cfg.codec, pkt);
      InsertPlaced(unpackerProtocol.cfg.codec, list.packets, placed);
      list.InsertSorted(placed);
      var count := UnpackSequential();
      if count > 0 {
        return;
      }
      Limit();
    }

    /** Over the limit a gap is skipped, or the oldest packet dropped. */
    method Limit()
      requires Valid() && list.packets != []
      modifies this, unpackerProtocol, list, list.head
      ensures Valid() && list.owned == old(list.owned)
      ensures Abs() == Overflow(unpackerProtocol.cfg, maxSize, old(Abs()))
    {
      hide UnpackNext, UnpackOne, Drain, AllPlaced;
      if list.size > maxSize {
        var packed := TryUnpackOne();
        if !packed {
          DropFirst();
        } else {
          var count := UnpackSequential();
        }
      }
    }

    method DropFirst()
      requires Valid() && list.packets != []
      modifies list, list.head
      ensures Valid() && list.owned == old(list.owned)
      ensures list.packets == old(list.packets)[1..] && list.size == old(list.size) - 1
    {
      assert list.head.next == list.nodes[1];
      list.CutAfter(list.head.next, 0);
      list.size := list.size - 1;
    }
  }
}
