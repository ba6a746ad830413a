/** The reordering buffer as one would write it if packet numbers did not wrap: packets are known by
    their index in the sender's stream. It is the specification that the wrapping buffer of
    `RtpReassembly` is shown to refine. */
module RtpReference {
  import opened RtpPackets
  import opened RtpUnpacking

  /** `n` consecutive packets from `lo` on. */
  datatype Span = Span(lo: nat, n: nat)

  /** Indices buffered, the size counter, and the stretches of the stream unpacked so far. */
  datatype Ref = Ref(buffered: seq<nat>, size: int, spans: seq<Span>)

  const START := Ref([], 0, [])

  ghost predicate Increasing(s: seq<nat>) {
    forall i, j | 0 <= i < j < |s| :: s[i] < s[j]
  }

  /** The index after the last unpacked packet. */
  function Next(spans: seq<Span>): nat {
    if spans == [] then 0 else spans[|spans| - 1].lo + spans[|spans| - 1].n
  }

  function RefInsert(b: seq<nat>, k: nat): (r: seq<nat>)
    ensures r != [] && r[0] == if b == [] || k < b[0] then k else b[0]
  {
    if b == [] then [k]
    else if k == b[0] then b
    else if k > b[0] then [b[0]] + RefInsert(b[1..], k)
    else [k] + b
  }

  lemma {:induction false} InsertIncreasing(b: seq<nat>, k: nat)
    requires Increasing(b)
    ensures Increasing(RefInsert(b, k))
  {
    if b != [] && k > b[0] {
      InsertIncreasing(b[1..], k);
    }
  }

  lemma {:induction false} InsertBounds(b: seq<nat>, k: nat, lo: nat, hi: nat)
    requires lo <= k < hi && forall i | 0 <= i < |b| :: lo <= b[i] < hi
    ensures forall i | 0 <= i < |RefInsert(b, k)| :: lo <= RefInsert(b, k)[i] < hi
  {
    if b != [] && k > b[0] {
      InsertBounds(b[1..], k, lo, hi);
    }
  }

  lemma {:induction false} InsertMembers(b: seq<nat>, k: nat)
    ensures forall x :: x in RefInsert(b, k) <==> x == k || x in b
    ensures Increasing(b) ==> |RefInsert(b, k)| == if k in b then |b| else |b| + 1
  {
    if b != [] && k > b[0] {
      InsertMembers(b[1..], k);
      assert b == [b[0]] + b[1..];
    }
  }

  /** How far the buffered indices run on without a gap. */
  function RefRunLength(b: seq<nat>): (n: nat)
    ensures n <= |b| && (b != [] ==> n >= 1)
    ensures forall i | 0 <= i < n :: b[i] == b[0] + i
    ensures n < |b| ==> b[n] != b[0] + n
  {
    if |b| <= 1 then |b|
    else if b[1] == b[0] + 1 then
      var n := 1 + RefRunLength(b[1..]);
      assert forall i | 1 <= i < n :: b[i] == b[1..][i - 1];
      n
    else 1
  }

  ghost predicate InStream(stream: seq<RtpPacket>, r: Ref) {
    && (forall i | 0 <= i < |r.buffered| :: Next(r.spans) <= r.buffered[i] < |stream|)
    && Increasing(r.buffered)
  }

  /** The gap-free front of the buffer, as a stretch of the stream. */
  function Front(stream: seq<RtpPacket>, b: seq<nat>): (run: seq<RtpPacket>)
    requires b != [] && b[0] + RefRunLength(b) <= |stream|
    ensures |run| == RefRunLength(b) && forall i | 0 <= i < |run| :: run[i] == stream[b[0] + i]
  {
    stream[b[0]..b[0] + RefRunLength(b)]
  }

  lemma FrontFits(stream: seq<RtpPacket>, r: Ref)
    requires InStream(stream, r) && r.buffered != []
    ensures r.buffered[0] + RefRunLength(r.buffered) <= |stream|
  {
    assert r.buffered[RefRunLength(r.buffered) - 1] < |stream|;
  }

  lemma TakeFront(stream: seq<RtpPacket>, r: Ref, n: nat)
    requires InStream(stream, r) && r.buffered != [] && 1 <= n <= RefRunLength(r.buffered)
    ensures forall size :: InStream(stream, Ref(r.buffered[n..], size, r.spans + [Span(r.buffered[0], n)]))
  {
    var b := r.buffered;
    assert b[n - 1] == b[0] + (n - 1);
    forall size ensures InStream(stream, Ref(b[n..], size, r.spans + [Span(b[0], n)])) {
      var o := Ref(b[n..], size, r.spans + [Span(b[0], n)]);
      assert forall i | 0 <= i < |o.buffered| :: o.buffered[i] == b[n + i];
    }
  }

  function RefUnpackOne(cfg: Config, stream: seq<RtpPacket>, r: Ref): (o: (Ref, bool))
    requires cfg.Valid() && AllPlaced(cfg.codec, stream) && InStream(stream, r)
    ensures InStream(stream, o.0)
    ensures o.1 ==> |o.0.buffered| < |r.buffered|
    ensures !o.1 ==> o.0 == r
  {
    if r.buffered == [] then (r, false)
    else
      FrontFits(stream, r);
      hide TryRun;
      match TryRun(cfg, Front(stream, r.buffered))
      case NoFrame => (r, false)
      case Unpacked(_, taken, counted) =>
        TakeFront(stream, r, taken);
        (Ref(r.buffered[taken..], r.size - counted, r.spans + [Span(r.buffered[0], taken)]), true)
  }

  function RefUnpackNext(cfg: Config, stream: seq<RtpPacket>, r: Ref): (o: (Ref, bool))
    requires cfg.Valid() && AllPlaced(cfg.codec, stream) && InStream(stream, r)
    ensures InStream(stream, o.0)
    ensures o.1 ==> |o.0.buffered| < |r.buffered|
    ensures !o.1 ==> o.0 == r
  {
    if r.spans == [] || (r.buffered != [] && r.buffered[0] == Next(r.spans)) then RefUnpackOne(cfg, stream, r)
    else (r, false)
  }

  function RefDrain(cfg: Config, stream: seq<RtpPacket>, r: Ref): (o: Ref)
    requires cfg.Valid() && AllPlaced(cfg.codec, stream) && InStream(stream, r)
    ensures InStream(stream, o)
    decreases |r.buffered|
  {
    var (r', ok) := RefUnpackNext(cfg, stream, r);
    if ok then RefDrain(cfg, stream, r') else r
  }

  function RefSettle(cfg: Config, maxSize: int, stream: seq<RtpPacket>, r: Ref): (o: Ref)
    requires cfg.Valid() && AllPlaced(cfg.codec, stream) && InStream(stream, r) && r.buffered != []
    ensures InStream(stream, o)
  {
    if RefUnpackNext(cfg, stream, r).1 then RefDrain(cfg, stream, r)
    else if r.size > maxSize then
      var (r', packed) := RefUnpackOne(cfg, stream, r);
      if packed then RefDrain(cfg, stream, r') else r.(buffered := r.buffered[1..], size := r.size - 1)
    else r
  }

  function RefArrive(stream: seq<RtpPacket>, r: Ref, k: nat): (o: Ref)
    requires InStream(stream, r) && Next(r.spans) <= k < |stream|
    ensures InStream(stream, o) && o.buffered != []
  {
    InsertIncreasing(r.buffered, k);
    InsertBounds(r.buffered, k, Next(r.spans), |stream|);
    r.(buffered := RefInsert(r.buffered, k), size := r.size + 1)
  }

  /** Packet `k` of the stream arrives. */
  function RefFeed(cfg: Config, maxSize: int, stream: seq<RtpPacket>, r: Ref, k: nat): (o: Ref)
    requires cfg.Valid() && AllPlaced(cfg.codec, stream) && InStream(stream, r) && k < |stream|
    ensures InStream(stream, o)
  {
    if k < Next(r.spans) then r
    else RefSettle(cfg, maxSize, stream, RefArrive(stream, r, k))
  }

  ghost predicate ValidArrivals(stream: seq<RtpPacket>, arrivals: seq<nat>) {
    forall i | 0 <= i < |arrivals| :: arrivals[i] < |stream|
  }

  function RefRun(cfg: Config, maxSize: int, stream: seq<RtpPacket>, arrivals: seq<nat>): (o: Ref)
    requires cfg.Valid() && AllPlaced(cfg.codec, stream) && ValidArrivals(stream, arrivals)
    ensures InStream(stream, o)
  {
    if arrivals == [] then START
    else
      var n := |arrivals| - 1;
      RefFeed(cfg, maxSize, stream, RefRun(cfg, maxSize, stream, arrivals[..n]), arrivals[n])
  }
}
