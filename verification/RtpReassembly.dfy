/** The reordering buffer as a function on values: `rtprtcp/rtp_unpack_container.go`. */
module RtpReassembly {
  import opened Bytes
  import opened SeqNumber
  import opened RtpPackets
  import opened RtpUnpacking

  /** `size` is the source's `list.Size`, which is not always the length of the list. */
  datatype State = State(
    list: seq<RtpPacket>, size: int, unpackedFlag: bool, unpackedSeq: uint16,
    delivered: seq<AvPacket>)

  const EMPTY := State([], 0, false, 0, [])

  predicate IsStale(st: State, seqNo: uint16) {
    st.unpackedFlag && CompareSeq(seqNo, st.unpackedSeq) <= 0
  }

  /** Insertion in front of the first packet that compares later; a duplicate is dropped. */
  function Insert(list: seq<RtpPacket>, pkt: RtpPacket): (r: seq<RtpPacket>)
    ensures 1 <= |r| && |list| <= |r| <= |list| + 1
    ensures forall p <- r :: p == pkt || p in list
  {
    if list == [] then [pkt]
    else
      var c := CompareSeq(pkt.header.seqNo, list[0].header.seqNo);
      if c == 0 then list
      else if c == 1 then [list[0]] + Insert(list[1..], pkt)
      else [pkt] + list
  }

  /** `tryUnpackOne`. */
  function UnpackOne(cfg: Config, st: State): (r: (State, bool))
    requires cfg.Valid() && AllPlaced(cfg.codec, st.list)
    ensures AllPlaced(cfg.codec, r.0.list)
    ensures r.1 ==> |r.0.list| < |st.list| && r.0.size < st.size
    ensures st.size - |st.list| <= r.0.size - |r.0.list|
    ensures !r.1 ==> r.0 == st
  {
    match TryUnpack(cfg, st.list)
    case NoFrame => (st, false)
    case Unpacked(frames, taken, counted) =>
      (State(st.list[taken..], st.size - counted, true, st.list[taken - 1].header.seqNo,
             st.delivered + frames), true)
  }

  predicate FollowsOn(st: State) {
    st.unpackedFlag ==> st.list != [] && SubSeq(st.list[0].header.seqNo, st.unpackedSeq) == 1
  }

  /** `tryUnpackOneSequential`. */
  function UnpackNext(cfg: Config, st: State): (r: (State, bool))
    requires cfg.Valid() && AllPlaced(cfg.codec, st.list)
    ensures AllPlaced(cfg.codec, r.0.list)
    ensures r.1 ==> |r.0.list| < |st.list| && r.0.size < st.size
    ensures st.size - |st.list| <= r.0.size - |r.0.list|
    ensures !r.1 ==> r.0 == st
  {
    if FollowsOn(st) then UnpackOne(cfg, st) else (st, false)
  }

  /** The greedy loop: unpack until an attempt fails. */
  function Drain(cfg: Config, st: State): (r: State)
    requires cfg.Valid() && AllPlaced(cfg.codec, st.list)
    ensures AllPlaced(cfg.codec, r.list)
    ensures |r.list| <= |st.list| && r.size <= st.size
    ensures st.size - |st.list| <= r.size - |r.list|
    ensures UnpackNext(cfg, st).1 ==> r.size < st.size
    decreases |st.list|
  {
    var (st', ok) := UnpackNext(cfg, st);
    if ok then Drain(cfg, st') else st
  }

  function Place(codec: Codec, pkt: RtpPacket): RtpPacket
    requires Parseable(codec, pkt.payload)
  {
    pkt.(position := CalcPosition(codec, pkt.payload))
  }

  /** Nothing comes next: over the limit, skip a gap or drop the oldest. */
  function Overflow(cfg: Config, maxSize: int, st: State): (r: State)
    requires cfg.Valid() && AllPlaced(cfg.codec, st.list) && st.list != []
    ensures AllPlaced(cfg.codec, r.list)
  {
    if st.size > maxSize then
      var (st', packed) := UnpackOne(cfg, st);
      if packed then Drain(cfg, st') else st.(list := st.list[1..], size := st.size - 1)
    else st
  }

  /** Drain; if nothing came out, see to the limit. */
  function Settle(cfg: Config, maxSize: int, st: State): (r: State)
    requires cfg.Valid() && AllPlaced(cfg.codec, st.list) && st.list != []
    ensures AllPlaced(cfg.codec, r.list)
  {
    if UnpackNext(cfg, st).1 then Drain(cfg, st) else Overflow(cfg, maxSize, st)
  }

  function Feed(cfg: Config, maxSize: int, st: State, pkt: RtpPacket): (r: State)
    requires cfg.Valid() && AllPlaced(cfg.codec, st.list) && Parseable(cfg.codec, pkt.payload)
    ensures AllPlaced(cfg.codec, r.list)
  {
    if IsStale(st, pkt.header.seqNo) then st
    else
      var p := Place(cfg.codec, pkt);
      InsertPlaced(cfg.codec, st.list, p);
      Settle(cfg, maxSize, st.(list := Insert(st.list, p), size := st.size + 1))
  }

  lemma InsertPlaced(codec: Codec, list: seq<RtpPacket>, p: RtpPacket)
    requires AllPlaced(codec, list) && Placed(codec, p)
    ensures AllPlaced(codec, Insert(list, p))
  {
    var r := Insert(list, p);
    forall i | 0 <= i < |r| ensures Placed(codec, r[i]) {
      assert r[i] in r;
    }
  }

  /** A whole run of the buffer. */
  function FeedAll(cfg: Config, maxSize: int, st: State, pkts: seq<RtpPacket>): (r: State)
    requires cfg.Valid() && AllPlaced(cfg.codec, st.list)
    requires forall i | 0 <= i < |pkts| :: Parseable(cfg.codec, pkts[i].payload)
    ensures AllPlaced(cfg.codec, r.list)
  {
    if pkts == [] then st
    else
      var k := |pkts| - 1;
      Feed(cfg, maxSize, FeedAll(cfg, maxSize, st, pkts[..k]), pkts[k])
  }

  // ---- the buffer bound, over every run of parseable packets

  ghost predicate Bounded(maxSize: int, st: State) {
    |st.list| <= st.size <= maxSize
  }

  lemma SettleKeepsBound(cfg: Config, maxSize: int, st: State)
    requires cfg.Valid() && AllPlaced(cfg.codec, st.list) && st.list != []
    requires |st.list| <= st.size <= maxSize + 1
    ensures Bounded(maxSize, Settle(cfg, maxSize, st))
  {
  }

  lemma FeedKeepsBound(cfg: Config, maxSize: int, st: State, pkt: RtpPacket)
    requires cfg.Valid() && AllPlaced(cfg.codec, st.list) && Parseable(cfg.codec, pkt.payload)
    requires Bounded(maxSize, st)
    ensures Bounded(maxSize, Feed(cfg, maxSize, st, pkt))
  {
    if !IsStale(st, pkt.header.seqNo) {
      var p := Place(cfg.codec, pkt);
      InsertPlaced(cfg.codec, st.list, p);
      SettleKeepsBound(cfg, maxSize, st.(list := Insert(st.list, p), size := st.size + 1));
    }
  }

  /** Any packets in any order, lost or repeated, under any of the codecs: after every packet the
      number of buffered packets is at most the counter, and the counter at most the limit. */
  lemma {:induction false} BufferBound(cfg: Config, maxSize: nat, pkts: seq<RtpPacket>)
    requires cfg.Valid()
    requires forall i | 0 <= i < |pkts| :: Parseable(cfg.codec, pkts[i].payload)
    ensures Bounded(maxSize, FeedAll(cfg, maxSize, EMPTY, pkts))
  {
    if pkts != [] {
      var k := |pkts| - 1;
      BufferBound(cfg, maxSize, pkts[..k]);
      FeedKeepsBound(cfg, maxSize, FeedAll(cfg, maxSize, EMPTY, pkts[..k]), pkts[k]);
    }
  }
}
