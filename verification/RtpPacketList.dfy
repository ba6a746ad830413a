/** The sentinel-headed linked list of `rtprtcp/rtp_unpack_container.go`. */
module RtpPacketLists {
  import opened SeqNumber
  import opened RtpPackets
  import opened RtpReassembly

  /** The walk's stopping point is where the packet belongs. */
  lemma {:induction false} InsertPoint(list: seq<RtpPacket>, pkt: RtpPacket, i: nat)
    requires i <= |list|
    requires forall k | 0 <= k < i :: CompareSeq(pkt.header.seqNo, list[k].header.seqNo) == 1
    requires i < |list| ==> CompareSeq(pkt.header.seqNo, list[i].header.seqNo) != 1
    ensures Insert(list, pkt) ==
      if i < |list| && CompareSeq(pkt.header.seqNo, list[i].header.seqNo) == 0 then list
      else list[..i] + [pkt] + list[i..]
  {
    hide CompareSeq;
    if i > 0 {
      InsertPoint(list[1..], pkt, i - 1);
      assert list == [list[0]] + list[1..];
      assert list[..i] == [list[0]] + list[1..][..i - 1];
    }
  }

  class RtpPacketListItem {
    var packet: RtpPacket
    var next: RtpPacketListItem?

    constructor (packet: RtpPacket, next: RtpPacketListItem?)
      ensures this.packet == packet && this.next == next
    {
      this.packet, this.next := packet, next;
    }
  }

  class RtpPacketList {
    const head: RtpPacketListItem  // sentinel, holds no packet
    var size: int

    ghost var nodes: seq<RtpPacketListItem>  // the sentinel and then the items, in order
    ghost var packets: seq<RtpPacket>        // what the items hold
    ghost var owned: set<RtpPacketListItem>  // every item that was ever linked in

    ghost predicate Valid()
      reads this, owned
    {
      && |nodes| == |packets| + 1 && nodes[0] == head
      && (forall i | 0 <= i < |nodes| :: nodes[i] in owned)
      && (forall i {:trigger nodes[i].next} | 0 <= i < |packets| :: nodes[i].next == nodes[i + 1])
      && nodes[|packets|].next == null
      && (forall i, j | 0 <= i < j < |nodes| :: nodes[i] != nodes[j])
      && (forall i {:trigger nodes[i].packet} | 1 <= i < |nodes| :: nodes[i].packet == packets[i - 1])
    }

    constructor (sentinel: RtpPacket)
      ensures Valid() && packets == [] && size == 0 && fresh(owned)
    {
      head := new RtpPacketListItem(sentinel, null);
      size := 0;
      packets := [];
      new;
      nodes, owned := [head], {head};
    }

    /** Counts the packet, and links it in unless its number is already there. */
    method InsertSorted(pkt: RtpPacket)
      requires Valid()
      modifies this, owned
      ensures Valid() && fresh(owned - old(owned))
      ensures packets == Insert(old(packets), pkt) && size == old(size) + 1
    {
      size := size + 1;
      var p := head;
      ghost var i := 0;
      while p.next != null
        invariant 0 <= i <= |packets| && p == nodes[i]
        invariant unchanged(this`nodes, this`packets, this`owned) && unchanged(owned)
        invariant forall k | 0 <= k < i :: CompareSeq(pkt.header.seqNo, packets[k].header.seqNo) == 1
        decreases |packets| - i
      {
        assert nodes[i + 1].packet == packets[i];
        var res := CompareSeq(pkt.header.seqNo, p.next.packet.header.seqNo);
        if res == 0 {
          InsertPoint(packets, pkt, i);
          return;
        } else if res == -1 {
          InsertPoint(packets, pkt, i);
          LinkAfter(p, i, pkt);
          return;
        }
        p := p.next;
        i := i + 1;
      }
      InsertPoint(packets, pkt, i);
      LinkAfter(p, i, pkt);
    }

    method LinkAfter(p: RtpPacketListItem, ghost i: nat, pkt: RtpPacket)
      requires Valid() && i < |nodes| && p == nodes[i]
      modifies this`nodes, this`packets, this`owned, p`next
      ensures Valid() && fresh(owned - old(owned))
      ensures packets == old(packets)[..i] + [pkt] + old(packets)[i..]
    {
      var item := new RtpPacketListItem(pkt, p.next);
      p.next := item;
      nodes, owned := nodes[..i + 1] + [item] + nodes[i + 1..], owned + {item};
      packets := packets[..i] + [pkt] + packets[i..];
    }

    /** `Head.Next = item.Next`, where `item` holds packet `n`: the first `n + 1` packets are gone. */
    method CutAfter(item: RtpPacketListItem, ghost n: nat)
      requires Valid() && n < |packets| && item == nodes[n + 1]
      modifies this`nodes, this`packets, head`next
      ensures Valid()
      ensures packets == old(packets)[n + 1..]
    {
      head.next := item.next;
      nodes := [head] + nodes[n + 2..];
      packets := packets[n + 1..];
    }
  }
}
