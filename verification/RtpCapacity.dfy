/** When the buffer is large enough, exactly. */
module RtpCapacity {
  import opened Bytes
  import opened RtpPackets
  import opened RtpUnpacking
  import opened RtpLocality
  import opened RtpReassembly
  import opened RtpReference
  import opened RtpRefinement
  import opened RtpReordering

  ghost predicate Distinct(arrivals: seq<nat>) {
    forall i, j | 0 <= i < j < |arrivals| :: arrivals[i] != arrivals[j]
  }

  /** Frames of several packets that an AAC unpacker counts one packet short. */
  ghost function Undercounted(codec: Codec, plan: seq<Span>): nat {
    if plan == [] then 0
    else
      var n := |plan| - 1;
      Undercounted(codec, plan[..n]) + if codec == Aac && plan[n].n > 1 then 1 else 0
  }

  lemma FrameCount(cfg: Config, pkts: seq<RtpPacket>)
    requires IsFrame(cfg, pkts)
    ensures |pkts| >= 1
    ensures TryRun(cfg, pkts).counted == if cfg.codec == Aac && |pkts| > 1 then |pkts| - 1 else |pkts|
  {
  }

  lemma {:induction false} ReleasedExact(cfg: Config, stream: seq<RtpPacket>, plan: seq<Span>, f: nat, g: nat)
    requires Tiling(cfg, stream, plan) && f <= g <= |plan|
    ensures Released(cfg, stream, plan, f, g) + Undercounted(cfg.codec, plan[..g]) - Undercounted(cfg.codec, plan[..f])
      == Next(plan[..g]) - Next(plan[..f])
    decreases g - f
  {
    if f < g {
      ReleasedExact(cfg, stream, plan, f + 1, g);
      FrameCount(cfg, Cut(stream, plan[f]));
      hide TryRun, IsFrame, Placed;
      assert plan[..f + 1][..f] == plan[..f] && plan[..f + 1][f] == plan[f];
    }
  }

  /** The counter, when no packet arrives twice: the packets that wait, and one for every AAC unit
      that came in fragments, for ever. */
  lemma {:induction false} OccupancyExact(cfg: Config, stream: seq<RtpPacket>, plan: seq<Span>, arrivals: seq<nat>)
    requires Tiling(cfg, stream, plan) && Distinct(arrivals)
    ensures var c := Complete(plan, Arrived(arrivals), 0);
      Occupancy(cfg, stream, plan, arrivals)
      == |arrivals| - Done(plan, Arrived(arrivals)) + Undercounted(cfg.codec, plan[..c])
  {
    if arrivals == [] {
      StartSynced(cfg, stream, plan);
      assert Arrived([]) == {};
    } else {
      var n := |arrivals| - 1;
      OccupancyExact(cfg, stream, plan, arrivals[..n]);
      ArrivedSnoc(arrivals, n);
      FullSlice(arrivals);
      PlanSteps(cfg, stream, plan);
      NewIsNotArrived(arrivals);
      var before, after := Arrived(arrivals[..n]), Arrived(arrivals);
      CompleteGrows(plan, before, after, 0);
      ReleasedExact(cfg, stream, plan, Complete(plan, before, 0), Complete(plan, after, 0));
      hide Tiling, Arrived, Complete, Released, Undercounted;
      if arrivals[n] < Done(plan, before) {
        HaveArrived(plan, before, 0, arrivals[n]);
      }
    }
  }

  lemma NewIsNotArrived(arrivals: seq<nat>)
    requires Distinct(arrivals) && arrivals != []
    ensures arrivals[|arrivals| - 1] !in Arrived(arrivals[..|arrivals| - 1])
  {
  }

  // ---- the condition is necessary: a packet that is dropped or passed over stays lost

  ghost predicate Covers(s: Span, p: nat) {
    s.lo <= p < s.lo + s.n
  }

  ghost predicate Lost(r: Ref, p: nat) {
    p !in r.buffered && forall i | 0 <= i < |r.spans| :: !Covers(r.spans[i], p)
  }

  lemma LostInStep(cfg: Config, stream: seq<RtpPacket>, r: Ref, p: nat)
    requires cfg.Valid() && AllPlaced(cfg.codec, stream) && InStream(stream, r) && Lost(r, p)
    ensures Lost(RefUnpackOne(cfg, stream, r).0, p)
  {
    hide TryRun, Placed;
    if RefUnpackOne(cfg, stream, r).1 {
      FrontFits(stream, r);
      RunIsBuffered(r.buffered);
    }
  }

  lemma RunIsBuffered(b: seq<nat>)
    requires b != []
    ensures forall k | b[0] <= k < b[0] + RefRunLength(b) :: k in b
  {
    forall k | b[0] <= k < b[0] + RefRunLength(b) ensures k in b {
      RunMembers(b, k);
    }
  }

  lemma {:induction false} LostInDrain(cfg: Config, stream: seq<RtpPacket>, r: Ref, p: nat)
    requires cfg.Valid() && AllPlaced(cfg.codec, stream) && InStream(stream, r) && Lost(r, p)
    ensures Lost(RefDrain(cfg, stream, r), p)
    decreases |r.buffered|
  {
    LostInStep(cfg, stream, r, p);
    hide RefUnpackOne, Lost, InStream;
    if RefUnpackNext(cfg, stream, r).1 {
      LostInDrain(cfg, stream, RefUnpackNext(cfg, stream, r).0, p);
    }
  }

  lemma LostInFeed(cfg: Config, maxSize: int, stream: seq<RtpPacket>, r: Ref, k: nat, p: nat)
    requires cfg.Valid() && AllPlaced(cfg.codec, stream) && InStream(stream, r) && Lost(r, p) && k < |stream| && k != p
    ensures Lost(RefFeed(cfg, maxSize, stream, r, k), p)
  {
    hide *;
    if Next(r.spans) <= k {
      var r1 := RefArrive(stream, r, k);
      LostInArrival(stream, r, k, p);
      LostInDrain(cfg, stream, r1, p);
      LostInStep(cfg, stream, r1, p);
      LostInDrain(cfg, stream, RefUnpackOne(cfg, stream, r1).0, p);
      LostInDrop(r1, p);
      RefFeedNew(cfg, maxSize, stream, r, k);
      SettleIs(cfg, maxSize, stream, r1);
    } else {
      StaleFeed(cfg, maxSize, stream, r, k);
    }
  }

  lemma LostInArrival(stream: seq<RtpPacket>, r: Ref, k: nat, p: nat)
    requires InStream(stream, r) && Next(r.spans) <= k < |stream| && Lost(r, p) && k != p
    ensures Lost(RefArrive(stream, r, k), p)
  {
    hide InStream, RefInsert, Next;
    InsertMembers(r.buffered, k);
  }

  lemma LostInDrop(r: Ref, p: nat)
    requires r.buffered != [] && Lost(r, p)
    ensures Lost(r.(buffered := r.buffered[1..], size := r.size - 1), p)
  {
    hide Covers;
  }

  lemma SettleIs(cfg: Config, maxSize: int, stream: seq<RtpPacket>, r: Ref)
    requires cfg.Valid() && AllPlaced(cfg.codec, stream) && InStream(stream, r) && r.buffered != []
    ensures RefSettle(cfg, maxSize, stream, r)
      == if RefUnpackNext(cfg, stream, r).1 then RefDrain(cfg, stream, r)
         else if r.size <= maxSize then r
         else if RefUnpackOne(cfg, stream, r).1 then RefDrain(cfg, stream, RefUnpackOne(cfg, stream, r).0)
         else r.(buffered := r.buffered[1..], size := r.size - 1)
  {
    hide RefDrain, RefUnpackOne, RefUnpackNext, InStream, Placed;
  }

  lemma ButLast(arrivals: seq<nat>, n: nat)
    requires n < |arrivals|
    ensures var m := |arrivals| - 1;
      arrivals[..m][..n] == arrivals[..n] && arrivals[m] in arrivals[n..]
      && forall p <- arrivals[..m][n..] :: p in arrivals[n..]
  {
    var m := |arrivals| - 1;
    assert arrivals[n..] == arrivals[..m][n..] + [arrivals[m]];
  }

  lemma {:induction false} LostForGood(
      cfg: Config, maxSize: int, stream: seq<RtpPacket>, arrivals: seq<nat>, n: nat, p: nat)
    requires cfg.Valid() && AllPlaced(cfg.codec, stream) && ValidArrivals(stream, arrivals) && n <= |arrivals|
    requires Lost(RefRun(cfg, maxSize, stream, arrivals[..n]), p) && p !in arrivals[n..]
    ensures Lost(RefRun(cfg, maxSize, stream, arrivals), p)
    decreases |arrivals|
  {
    if n == |arrivals| {
      FullSlice(arrivals);
    } else {
      var m := |arrivals| - 1;
      hide *;
      ButLast(arrivals, n);
      RunStep(cfg, maxSize, stream, arrivals);
      LostForGood(cfg, maxSize, stream, arrivals[..m], n, p);
      LostInFeed(cfg, maxSize, stream, RefRun(cfg, maxSize, stream, arrivals[..m]), arrivals[m], p);
    }
  }

  lemma {:induction false} PlanCovers(plan: seq<Span>, f: nat, p: nat) returns (i: nat)
    requires f <= |plan| && (forall i | 0 <= i < |plan| :: plan[i].lo == Next(plan[..i])) && p < Next(plan[..f])
    ensures i < |plan| && Covers(plan[i], p)
  {
    assert plan[..f][f - 1] == plan[f - 1];
    if plan[f - 1].lo <= p {
      i := f - 1;
    } else {
      i := PlanCovers(plan, f - 1, p);
    }
  }

  /** A packet that has to wait when the buffer is full: the oldest packet is dropped, or a gap is
      passed over and the next frame is not the stream's next frame. */
  lemma OverflowLoses(cfg: Config, maxSize: int, stream: seq<RtpPacket>, plan: seq<Span>,
                      before: set<nat>, after: set<nat>, k: nat, r: Ref)
    requires Tiling(cfg, stream, plan) && after == before + {k} && 0 in after && k < |stream|
    requires var f := Complete(plan, before, 0);
      && Synced(stream, plan, before, f, r) && Next(plan[..f]) <= k
      && Complete(plan, after, f) == f && r.size + 1 > maxSize
    ensures InStream(stream, r)
    ensures var r' := RefFeed(cfg, maxSize, stream, r, k);
      !(r'.spans <= plan) || exists p <- after :: Lost(r', p)
  {
    hide *;
    var f := Complete(plan, before, 0);
    PlanSteps(cfg, stream, plan);
    TilingParts(cfg, stream, plan);
    SyncedSpans(stream, plan, before, f, r);
    ArriveSize(stream, r, k);
    ArriveSynced(cfg, stream, plan, before, f, r, k);
    var r1 := RefArrive(stream, r, k);
    DrainDelivers(cfg, stream, plan, after, f, r1);
    SyncedSpans(stream, plan, after, f, r1);
    OverflowFeed(cfg, maxSize, stream, r, k);
    if RefUnpackOne(cfg, stream, r1).1 {
      var r2 := RefUnpackOne(cfg, stream, r1).0;
      SpansGrow(cfg, stream, r2);
      PassesOver(cfg, stream, plan, f, r1, RefDrain(cfg, stream, r2));
    } else {
      BufferedArrived(stream, plan, after, f, r1);
      FirstIsLost(stream, plan, f, r1);
    }
  }

  /** The buffer is over its bound after an arrival that completes nothing. */
  lemma OverflowFeed(cfg: Config, maxSize: int, stream: seq<RtpPacket>, r: Ref, k: nat)
    requires cfg.Valid() && AllPlaced(cfg.codec, stream) && InStream(stream, r) && Next(r.spans) <= k < |stream|
    requires !RefUnpackNext(cfg, stream, RefArrive(stream, r, k)).1 && RefArrive(stream, r, k).size > maxSize
    ensures
      var r1 := RefArrive(stream, r, k);
      RefFeed(cfg, maxSize, stream, r, k)
        == if RefUnpackOne(cfg, stream, r1).1 then RefDrain(cfg, stream, RefUnpackOne(cfg, stream, r1).0)
          else r1.(buffered := r1.buffered[1..], size := r1.size - 1)
  {
    hide RefDrain, RefUnpackOne, RefUnpackNext, RefArrive;
  }

  /** A frame taken behind a gap is not the plan's next frame. */
  lemma PassesOver(cfg: Config, stream: seq<RtpPacket>, plan: seq<Span>, f: nat, r1: Ref, r3: Ref)
    requires cfg.Valid() && AllPlaced(cfg.codec, stream) && InStream(stream, r1) && f <= |plan| && r1.spans == plan[..f]
    requires forall i | 0 <= i < |plan| :: plan[i].lo == Next(plan[..i]) && plan[i].n > 0
    requires RefUnpackOne(cfg, stream, r1).1 && !RefUnpackNext(cfg, stream, r1).1
    requires RefUnpackOne(cfg, stream, r1).0.spans <= r3.spans
    ensures !(r3.spans <= plan)
  {
    BehindGap(cfg, stream, r1);
    hide *;
    NotNext(RefUnpackOne(cfg, stream, r1).0.spans, r3.spans, plan, f);
  }

  lemma NotNext(spans: seq<Span>, more: seq<Span>, plan: seq<Span>, f: nat)
    requires spans <= more && |spans| == f + 1 && f <= |plan| && spans[f].lo != Next(plan[..f])
    requires forall i | 0 <= i < |plan| :: plan[i].lo == Next(plan[..i]) && plan[i].n > 0
    ensures !(more <= plan)
  {
    hide Next;
    if more <= plan {
      PrefixAt(spans, more, plan, f);
    }
  }

  lemma PrefixAt<T>(a: seq<T>, b: seq<T>, c: seq<T>, i: nat)
    requires a <= b && b <= c && i < |a|
    ensures i < |c| && c[i] == a[i]
  {
  }

  lemma BehindGap(cfg: Config, stream: seq<RtpPacket>, r: Ref)
    requires cfg.Valid() && AllPlaced(cfg.codec, stream) && InStream(stream, r)
    requires RefUnpackOne(cfg, stream, r).1 && !RefUnpackNext(cfg, stream, r).1
    ensures
      var spans := RefUnpackOne(cfg, stream, r).0.spans;
      |spans| == |r.spans| + 1 && spans[|r.spans|].lo != Next(r.spans)
  {
    hide TryRun;
  }

  lemma BufferedArrived(stream: seq<RtpPacket>, plan: seq<Span>, arrived: set<nat>, f: nat, r: Ref)
    requires f <= |plan| && Synced(stream, plan, arrived, f, r) && r.buffered != []
    ensures r.buffered[0] in arrived
  {
    assert r.buffered[0] in r.buffered;
  }

  lemma FirstIsLost(stream: seq<RtpPacket>, plan: seq<Span>, f: nat, r: Ref)
    requires InStream(stream, r) && r.buffered != [] && f <= |plan| && r.spans == plan[..f]
    requires forall i | 0 <= i < |plan| :: plan[i].lo == Next(plan[..i]) && plan[i].n > 0
    ensures Lost(r.(buffered := r.buffered[1..], size := r.size - 1), r.buffered[0])
  {
    forall i | 0 <= i < f ensures !Covers(plan[i], r.buffered[0]) {
      NextGrows(plan, i + 1, f);
      assert plan[..i + 1][i] == plan[i];
    }
  }

  lemma {:induction false} SpansGrow(cfg: Config, stream: seq<RtpPacket>, r: Ref)
    requires cfg.Valid() && AllPlaced(cfg.codec, stream) && InStream(stream, r)
    ensures r.spans <= RefDrain(cfg, stream, r).spans
    decreases |r.buffered|
  {
    hide TryRun, InStream, Placed;
    if RefUnpackNext(cfg, stream, r).1 {
      SpansGrow(cfg, stream, RefUnpackNext(cfg, stream, r).0);
    }
  }

  lemma FitsSnoc(cfg: Config, maxSize: nat, stream: seq<RtpPacket>, plan: seq<Span>, arrivals: seq<nat>)
    requires Tiling(cfg, stream, plan) && arrivals != []
    requires Fits(cfg, maxSize, stream, plan, arrivals[..|arrivals| - 1])
    requires Occupancy(cfg, stream, plan, arrivals) <= maxSize
    ensures Fits(cfg, maxSize, stream, plan, arrivals)
  {
    hide Occupancy, Tiling;
    FullSlice(arrivals);
    var m := |arrivals| - 1;
    forall n | 0 <= n <= |arrivals| ensures FitsAt(cfg, maxSize, stream, plan, arrivals, n) {
      if n <= m {
        assert FitsAt(cfg, maxSize, stream, plan, arrivals[..m], n);
        assert arrivals[..m][..n] == arrivals[..n];
      }
    }
  }

  lemma FitsNothing(cfg: Config, maxSize: nat, stream: seq<RtpPacket>, plan: seq<Span>)
    requires Tiling(cfg, stream, plan)
    ensures Fits(cfg, maxSize, stream, plan, [])
  {
    hide Tiling;
  }

  lemma {:induction false} FirstOverflow(
      cfg: Config, maxSize: nat, stream: seq<RtpPacket>, plan: seq<Span>, arrivals: seq<nat>)
    returns (n: nat)
    requires Tiling(cfg, stream, plan) && !Fits(cfg, maxSize, stream, plan, arrivals)
    ensures n < |arrivals| && Fits(cfg, maxSize, stream, plan, arrivals[..n])
    ensures Occupancy(cfg, stream, plan, arrivals[..n + 1]) > maxSize
    decreases |arrivals|
  {
    hide *;
    FitsNothing(cfg, maxSize, stream, plan);
    FullSlice(arrivals);
    var m := |arrivals| - 1;
    if Fits(cfg, maxSize, stream, plan, arrivals[..m]) {
      if Occupancy(cfg, stream, plan, arrivals) <= maxSize {
        FitsSnoc(cfg, maxSize, stream, plan, arrivals);
      }
      n := m;
    } else {
      n := FirstOverflow(cfg, maxSize, stream, plan, arrivals[..m]);
      assert arrivals[..m][..n] == arrivals[..n] && arrivals[..m][..n + 1] == arrivals[..n + 1];
    }
  }

  /** At the first overflow something is lost. */
  lemma OverflowAt(cfg: Config, maxSize: nat, stream: seq<RtpPacket>, plan: seq<Span>, arrivals: seq<nat>)
    requires Tiling(cfg, stream, plan) && ValidArrivals(stream, arrivals) && Distinct(arrivals)
    requires arrivals != [] && arrivals[0] == 0
    requires Fits(cfg, maxSize, stream, plan, arrivals[..|arrivals| - 1])
    requires Occupancy(cfg, stream, plan, arrivals) > maxSize
    ensures var r := RefRun(cfg, maxSize, stream, arrivals);
      !(r.spans <= plan) || exists p <- Arrived(arrivals) :: Lost(r, p)
  {
    var n := |arrivals| - 1;
    var before, after := Arrived(arrivals[..n]), Arrived(arrivals);
    var f := Complete(plan, before, 0);
    RunStep(cfg, maxSize, stream, arrivals);
    InOrderRun(cfg, maxSize, stream, plan, arrivals[..n]);
    FitsPrefix(cfg, maxSize, stream, plan, arrivals[..n], n);
    ArrivedSnoc(arrivals, n);
    FullSlice(arrivals);
    assert arrivals[0] in after;
    CompleteGrows(plan, before, after, 0);
    ReleasedSome(cfg, stream, plan, f, Complete(plan, after, 0));
    hide Synced, RefFeed, Tiling, Complete, Released, Arrived, InStream, Placed;
    OverflowLoses(cfg, maxSize, stream, plan, before, after, arrivals[n], RefRun(cfg, maxSize, stream, arrivals[..n]));
  }

  lemma ReleasedSome(cfg: Config, stream: seq<RtpPacket>, plan: seq<Span>, f: nat, g: nat)
    requires Tiling(cfg, stream, plan) && f <= g <= |plan|
    ensures f < g ==> Released(cfg, stream, plan, f, g) >= 1
  {
    hide TryRun;
    if f < g {
      assert IsFrame(cfg, Cut(stream, plan[f]));
    }
  }

  /** Every packet of the stream arrives once, in any order, the first one first: the buffer takes
      exactly the stream's own frames, all of them, if and only if the counter never passes the limit
      while a packet has to wait. */
  lemma CapacityExact(cfg: Config, maxSize: nat, stream: seq<RtpPacket>, plan: seq<Span>, arrivals: seq<nat>)
    requires Tiling(cfg, stream, plan) && ValidArrivals(stream, arrivals) && Distinct(arrivals)
    requires arrivals != [] ==> arrivals[0] == 0
    requires forall k: nat | k < |stream| :: k in arrivals
    ensures RefRun(cfg, maxSize, stream, arrivals).spans == plan <==> Fits(cfg, maxSize, stream, plan, arrivals)
  {
    if Fits(cfg, maxSize, stream, plan, arrivals) {
      InOrderRun(cfg, maxSize, stream, plan, arrivals);
      CompleteAll(stream, plan, Arrived(arrivals), 0);
      FullSlice(plan);
    } else {
      var n := FirstOverflow(cfg, maxSize, stream, plan, arrivals);
      OverflowBreaks(cfg, maxSize, stream, plan, arrivals, n);
    }
  }

  lemma OverflowBreaks(cfg: Config, maxSize: nat, stream: seq<RtpPacket>, plan: seq<Span>, arrivals: seq<nat>, n: nat)
    requires Tiling(cfg, stream, plan) && ValidArrivals(stream, arrivals) && Distinct(arrivals)
    requires n < |arrivals| && arrivals[0] == 0
    requires Fits(cfg, maxSize, stream, plan, arrivals[..n])
    requires Occupancy(cfg, stream, plan, arrivals[..n + 1]) > maxSize
    ensures RefRun(cfg, maxSize, stream, arrivals).spans != plan
  {
    var upTo := arrivals[..n + 1];
    assert upTo[..n] == arrivals[..n];
    PlanSteps(cfg, stream, plan);
    OverflowAt(cfg, maxSize, stream, plan, upTo);
    RunExplained(cfg, maxSize, stream, arrivals);
    var r := RefRun(cfg, maxSize, stream, upTo);
    hide Fits, Occupancy, Explained, Placed, IsFrame, RefRun, InStream;
    if r.spans <= plan {
      var p :| p in Arrived(upTo) && Lost(r, p);
      ArrivedBefore(arrivals, n + 1, p);
      LostForGood(cfg, maxSize, stream, arrivals, n + 1, p);
      FullSlice(plan);
      var i := PlanCovers(plan, |plan|, p);
    }
  }

  lemma ArrivedBefore(arrivals: seq<nat>, n: nat, p: nat)
    requires Distinct(arrivals) && n <= |arrivals| && p in Arrived(arrivals[..n])
    ensures p !in arrivals[n..] && p in arrivals
  {
  }

  // ---- packets that arrive in order

  ghost function Iota(n: nat): (s: seq<nat>)
    ensures |s| == n && forall i | 0 <= i < n :: s[i] == i
  {
    seq(n, i requires 0 <= i < n => i)
  }

  lemma IotaArrived(n: nat, k: nat)
    ensures k in Arrived(Iota(n)) <==> k < n
  {
    if k < n {
      assert Iota(n)[k] == k;
    }
  }

  lemma {:induction false} CompleteInOrder(plan: seq<Span>, n: nat, f: nat) returns (c: nat)
    requires f <= |plan| && Next(plan[..f]) <= n
    requires forall i | 0 <= i < |plan| :: plan[i].lo == Next(plan[..i]) && plan[i].n > 0
    ensures c == Complete(plan, Arrived(Iota(n)), f) && f <= c <= |plan| && Next(plan[..c]) <= n
    ensures c < |plan| ==> n < plan[c].lo + plan[c].n
    decreases |plan| - f
  {
    hide Arrived, Iota;
    if f == |plan| {
      c := f;
    } else if plan[f].lo + plan[f].n <= n {
      assert plan[..f + 1][f] == plan[f];
      forall i | plan[f].lo <= i < plan[f].lo + plan[f].n ensures i in Arrived(Iota(n)) {
        IotaArrived(n, i);
      }
      c := CompleteInOrder(plan, n, f + 1);
    } else {
      IotaArrived(n, plan[f].lo + plan[f].n - 1);
      c := f;
    }
  }

  /** The limit leaves room for each frame but its last packet, on top of what undercounting has used up. */
  ghost predicate RoomForEach(codec: Codec, maxSize: int, plan: seq<Span>) {
    forall f | 0 <= f < |plan| :: Undercounted(codec, plan[..f]) + plan[f].n - 1 <= maxSize
  }

  lemma {:induction false} UndercountedBound(codec: Codec, maxSize: nat, plan: seq<Span>, c: nat)
    requires c <= |plan| && RoomForEach(codec, maxSize, plan)
    ensures Undercounted(codec, plan[..c]) <= maxSize
  {
    if c > 0 {
      UndercountedBound(codec, maxSize, plan, c - 1);
      assert plan[..c][..c - 1] == plan[..c - 1];
    }
  }

  lemma InOrderOccupancy(cfg: Config, stream: seq<RtpPacket>, plan: seq<Span>, n: nat) returns (c: nat)
    requires Tiling(cfg, stream, plan)
    ensures c <= |plan| && Next(plan[..c]) <= n && (c < |plan| ==> n < plan[c].lo + plan[c].n)
    ensures Occupancy(cfg, stream, plan, Iota(n)) == n - Next(plan[..c]) + Undercounted(cfg.codec, plan[..c])
  {
    PlanSteps(cfg, stream, plan);
    OccupancyExact(cfg, stream, plan, Iota(n));
    hide Tiling, Undercounted, Complete, Arrived, Iota, Occupancy;
    c := CompleteInOrder(plan, n, 0);
  }

  lemma RoomFits(cfg: Config, maxSize: nat, stream: seq<RtpPacket>, plan: seq<Span>)
    requires Tiling(cfg, stream, plan) && RoomForEach(cfg.codec, maxSize, plan)
    ensures Fits(cfg, maxSize, stream, plan, Iota(|stream|))
  {
    var N := |stream|;
    assert forall n | 0 <= n <= N :: Iota(N)[..n] == Iota(n);
    FullSlice(plan);
    assert Next(plan) == |stream|;
    forall n | 0 <= n <= N ensures FitsAt(cfg, maxSize, stream, plan, Iota(N), n) {
      hide Tiling, Iota, Occupancy, Undercounted;
      var c := InOrderOccupancy(cfg, stream, plan, n);
      UndercountedBound(cfg.codec, maxSize, plan, c);
    }
  }

  lemma FitsRoom(cfg: Config, maxSize: nat, stream: seq<RtpPacket>, plan: seq<Span>)
    requires Tiling(cfg, stream, plan) && Fits(cfg, maxSize, stream, plan, Iota(|stream|))
    ensures RoomForEach(cfg.codec, maxSize, plan)
  {
    PlanSteps(cfg, stream, plan);
    var N := |stream|;
    assert forall n | 0 <= n <= N :: Iota(N)[..n] == Iota(n);
    FullSlice(plan);
    assert Next(plan) == |stream|;
    hide Tiling, Iota, Occupancy, Undercounted;
    forall f | 0 <= f < |plan| ensures Undercounted(cfg.codec, plan[..f]) + plan[f].n - 1 <= maxSize {
      var n := plan[f].lo + plan[f].n - 1;
      NextGrows(plan, f + 1, |plan|);
      assert plan[..f + 1][f] == plan[f];
      assert FitsAt(cfg, maxSize, stream, plan, Iota(N), n);
      var c := InOrderOccupancy(cfg, stream, plan, n);
      OneFrameAt(plan, n, c, f);
    }
  }

  /** Only one frame holds packet `n`. */
  lemma OneFrameAt(plan: seq<Span>, n: nat, c: nat, f: nat)
    requires forall i | 0 <= i < |plan| :: plan[i].lo == Next(plan[..i]) && plan[i].n > 0
    requires c <= |plan| && Next(plan[..c]) <= n && (c < |plan| ==> n < plan[c].lo + plan[c].n)
    requires f < |plan| && Covers(plan[f], n)
    ensures c == f
  {
    assert plan[..f + 1][f] == plan[f];
    if c < f {
      assert plan[..c + 1][c] == plan[c];
      NextGrows(plan, c + 1, f);
    } else if c > f {
      NextGrows(plan, f + 1, c);
    }
  }

  /** Packets in order, none lost: all frames come out if and only if the limit leaves this room. For
      AVC and HEVC that is one slot per packet of the largest frame but one; for AAC every fragmented
      unit takes one slot away for good, and when all are gone nothing can wait any more (`RtpWear`). */
  lemma InOrderExact(cfg: Config, maxSize: nat, stream: seq<RtpPacket>, plan: seq<Span>)
    requires Tiling(cfg, stream, plan)
    ensures RefRun(cfg, maxSize, stream, Iota(|stream|)).spans == plan <==> RoomForEach(cfg.codec, maxSize, plan)
    ensures cfg.codec != Aac ==>
      (RoomForEach(cfg.codec, maxSize, plan) <==> forall f | 0 <= f < |plan| :: plan[f].n <= maxSize + 1)
    ensures cfg.codec == Aac && RoomForEach(cfg.codec, maxSize, plan) ==> Undercounted(Aac, plan) <= maxSize
  {
    var arrivals := Iota(|stream|);
    if RoomForEach(cfg.codec, maxSize, plan) {
      RoomFits(cfg, maxSize, stream, plan);
    }
    if Fits(cfg, maxSize, stream, plan, arrivals) {
      FitsRoom(cfg, maxSize, stream, plan);
    }
    forall k: nat | k < |stream| ensures k in arrivals {
      assert arrivals[k] == k;
    }
    CapacityExact(cfg, maxSize, stream, plan, arrivals);
    if cfg.codec != Aac {
      forall f | 0 <= f < |plan| ensures Undercounted(cfg.codec, plan[..f]) == 0 {
        NothingUndercounted(cfg.codec, plan[..f]);
      }
    } else if RoomForEach(cfg.codec, maxSize, plan) {
      UndercountedBound(Aac, maxSize, plan, |plan|);
      FullSlice(plan);
    }
  }

  lemma {:induction false} NothingUndercounted(codec: Codec, plan: seq<Span>)
    requires codec != Aac
    ensures Undercounted(codec, plan) == 0
  {
    if plan != [] {
      NothingUndercounted(codec, plan[..|plan| - 1]);
    }
  }

  /** And then the wrapping buffer delivers it all, if no frame is as long as the window. */
  lemma InOrderDelivery(cfg: Config, maxSize: nat, stream: seq<RtpPacket>, first: int, plan: seq<Span>)
    requires Tiling(cfg, stream, plan) && Numbered(stream, first) && RoomForEach(cfg.codec, maxSize, plan)
    requires forall f | 0 <= f < |plan| :: plan[f].n < 16384
    ensures AllInBounds(stream, plan)
    ensures FeedAll(cfg, maxSize, EMPTY, stream).delivered == Delivered(cfg, stream, plan)
    ensures FeedAll(cfg, maxSize, EMPTY, stream).list == []
  {
    var arrivals := Iota(|stream|);
    assert Pick(stream, arrivals) == stream;
    RoomFits(cfg, maxSize, stream, plan);
    forall k: nat | k < |stream| ensures k in arrivals {
      assert arrivals[k] == k;
    }
    InOrderIsTimely(cfg, stream, plan);
    hide Fits, Timely, Iota, FeedAll, Tiling, Numbered;
    AllDelivered(cfg, maxSize, stream, first, plan, arrivals);
  }

  lemma InOrderIsTimely(cfg: Config, stream: seq<RtpPacket>, plan: seq<Span>)
    requires Tiling(cfg, stream, plan) && forall f | 0 <= f < |plan| :: plan[f].n < 16384
    ensures Timely(plan, Iota(|stream|))
  {
    PlanSteps(cfg, stream, plan);
    var N := |stream|;
    FullSlice(plan);
    assert Next(plan) == |stream|;
    forall n | 0 <= n < N ensures TimelyAt(Done(plan, Arrived(Iota(N)[..n])), Iota(N)[n]) {
      assert Iota(N)[..n] == Iota(n);
      hide Tiling, Iota, Arrived, Complete;
      var c := CompleteInOrder(plan, n, 0);
    }
  }
}
