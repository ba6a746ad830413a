/** What the reordering buffer promises over whole runs. */
module RtpReordering {
  import opened Bytes
  import opened SeqNumber
  import opened RtpPackets
  import opened RtpUnpacking
  import opened RtpLocality
  import opened RtpReassembly
  import opened RtpReference
  import opened RtpRefinement

  // ---- any stream, any run: order is kept

  lemma UnpackOneExplained(cfg: Config, stream: seq<RtpPacket>, r: Ref)
    requires cfg.Valid() && AllPlaced(cfg.codec, stream) && InStream(stream, r) && Explained(cfg, stream, r.spans)
    ensures Explained(cfg, stream, RefUnpackOne(cfg, stream, r).0.spans)
    ensures r.spans <= RefUnpackOne(cfg, stream, r).0.spans
  {
    hide TryRun, IsFrame, Front;
    if RefUnpackOne(cfg, stream, r).1 {
      FrontFits(stream, r);
      StepIsFrame(cfg, stream, r.buffered);
      SpansEnd(cfg, stream, r.spans);
    }
  }

  lemma SpansEnd(cfg: Config, stream: seq<RtpPacket>, spans: seq<Span>)
    requires Explained(cfg, stream, spans)
    ensures forall i | 0 <= i < |spans| :: spans[i].lo + spans[i].n <= Next(spans)
  {
    hide IsFrame;
    forall i | 0 <= i < |spans| ensures spans[i].lo + spans[i].n <= Next(spans) {
      var last := |spans| - 1;
      assert i < last ==> spans[i].lo + spans[i].n <= spans[last].lo;
    }
  }

  lemma {:induction false} DrainExplained(cfg: Config, stream: seq<RtpPacket>, r: Ref)
    requires cfg.Valid() && AllPlaced(cfg.codec, stream) && InStream(stream, r) && Explained(cfg, stream, r.spans)
    ensures Explained(cfg, stream, RefDrain(cfg, stream, r).spans)
    ensures r.spans <= RefDrain(cfg, stream, r).spans
    decreases |r.buffered|
  {
    UnpackOneExplained(cfg, stream, r);
    hide RefUnpackOne, Explained, InStream;
    if RefUnpackNext(cfg, stream, r).1 {
      DrainExplained(cfg, stream, RefUnpackNext(cfg, stream, r).0);
    }
  }

  lemma FeedExplained(cfg: Config, maxSize: int, stream: seq<RtpPacket>, r: Ref, k: nat)
    requires cfg.Valid() && AllPlaced(cfg.codec, stream) && InStream(stream, r) && Explained(cfg, stream, r.spans)
    requires k < |stream|
    ensures Explained(cfg, stream, RefFeed(cfg, maxSize, stream, r, k).spans)
    ensures r.spans <= RefFeed(cfg, maxSize, stream, r, k).spans
  {
    hide RefUnpackOne, Explained, InStream, RefDrain;
    if Next(r.spans) <= k {
      var r1 := RefArrive(stream, r, k);
      DrainExplained(cfg, stream, r1);
      UnpackOneExplained(cfg, stream, r1);
      if RefUnpackOne(cfg, stream, r1).1 {
        DrainExplained(cfg, stream, RefUnpackOne(cfg, stream, r1).0);
      }
    }
  }

  lemma {:induction false} RunExplained(cfg: Config, maxSize: int, stream: seq<RtpPacket>, arrivals: seq<nat>)
    requires cfg.Valid() && AllPlaced(cfg.codec, stream) && ValidArrivals(stream, arrivals)
    ensures Explained(cfg, stream, RefRun(cfg, maxSize, stream, arrivals).spans)
    ensures forall n | 0 <= n <= |arrivals| ::
      ValidArrivals(stream, arrivals[..n])
      && RefRun(cfg, maxSize, stream, arrivals[..n]).spans <= RefRun(cfg, maxSize, stream, arrivals).spans
  {
    hide *;
    if arrivals == [] {
      NothingExplained(cfg, maxSize, stream);
      FullSlice(arrivals);
    } else {
      var m := |arrivals| - 1;
      RunStep(cfg, maxSize, stream, arrivals);
      RunExplained(cfg, maxSize, stream, arrivals[..m]);
      FeedExplained(cfg, maxSize, stream, RefRun(cfg, maxSize, stream, arrivals[..m]), arrivals[m]);
      FullSlice(arrivals);
      forall n | 0 <= n <= |arrivals|
        ensures ValidArrivals(stream, arrivals[..n])
          && RefRun(cfg, maxSize, stream, arrivals[..n]).spans <= RefRun(cfg, maxSize, stream, arrivals).spans
      {
        if n < |arrivals| {
          assert arrivals[..n] == arrivals[..m][..n];
          PrefixOf(RefRun(cfg, maxSize, stream, arrivals[..n]).spans, RefRun(cfg, maxSize, stream, arrivals[..m]).spans,
                   RefRun(cfg, maxSize, stream, arrivals).spans);
        } else {
          assert arrivals[..n] == arrivals;
        }
      }
    }
  }

  lemma PrefixOf<T>(a: seq<T>, b: seq<T>, c: seq<T>)
    requires a <= b <= c
    ensures a <= c
  {
  }

  lemma NothingExplained(cfg: Config, maxSize: int, stream: seq<RtpPacket>)
    requires cfg.Valid() && AllPlaced(cfg.codec, stream)
    ensures ValidArrivals(stream, []) && RefRun(cfg, maxSize, stream, []).spans == [] && Explained(cfg, stream, [])
  {
    hide Placed, IsFrame;
  }

  /** Over every run, with losses, duplicates, evictions and rollovers, as long as what is live stays
      in one window: what has been delivered is a list of whole frames of the stream, each beginning
      after the end of the one before, so no packet is in two of them; what is buffered is later than
      all of that, sorted and without duplicates; and the point reached only moves forward. */
  lemma DeliveryOrder(cfg: Config, maxSize: int, stream: seq<RtpPacket>, first: int, arrivals: seq<nat>)
    requires cfg.Valid() && AllPlaced(cfg.codec, stream) && Numbered(stream, first)
    requires ValidArrivals(stream, arrivals) && AllLive(cfg, maxSize, stream, arrivals)
    ensures var st := FeedAll(cfg, maxSize, EMPTY, Pick(stream, arrivals));
      var r := RefRun(cfg, maxSize, stream, arrivals);
      && Explained(cfg, stream, r.spans) && st.delivered == Delivered(cfg, stream, r.spans)
      && Increasing(r.buffered) && (forall i | 0 <= i < |r.buffered| :: Next(r.spans) <= r.buffered[i] < |stream|)
      && st.list == Pick(stream, r.buffered)
      && st.unpackedFlag == (r.spans != [])
      && (r.spans != [] ==> st.unpackedSeq == Wrap(first + Next(r.spans) - 1))
      && (forall n | 0 <= n <= |arrivals| :: RefRun(cfg, maxSize, stream, arrivals[..n]).spans <= r.spans)
  {
    hide Feed, RefFeed, IsFrame, Wrap, Delivered, Pick, FeedAll, RefRun, Placed, Live, AllLive, Explained;
    WrappingRefinesUnbounded(cfg, maxSize, stream, first, arrivals);
    RunExplained(cfg, maxSize, stream, arrivals);
  }

  // ---- a stream of frames: everything is delivered as soon as it can be

  /** The stream is cut into frames, without gaps. */
  ghost predicate Tiling(cfg: Config, stream: seq<RtpPacket>, plan: seq<Span>) {
    && cfg.Valid() && AllPlaced(cfg.codec, stream) && AllInBounds(stream, plan)
    && (forall f | 0 <= f < |plan| :: plan[f].lo == Next(plan[..f]) && IsFrame(cfg, Cut(stream, plan[f])))
    && Next(plan) == |stream|
  }

  ghost predicate HasArrived(s: Span, arrived: set<nat>) {
    forall i | s.lo <= i < s.lo + s.n :: i in arrived
  }

  /** How many frames, from the first on, have all their packets; the first `f` are known to. */
  ghost function Complete(plan: seq<Span>, arrived: set<nat>, f: nat): (c: nat)
    requires f <= |plan|
    ensures f <= c <= |plan|
    decreases |plan| - f
  {
    if f < |plan| && HasArrived(plan[f], arrived) then Complete(plan, arrived, f + 1) else f
  }

  ghost function Arrived(arrivals: seq<nat>): set<nat> {
    set k <- arrivals
  }

  /** The index up to which everything has been delivered when these packets have arrived. */
  ghost function Done(plan: seq<Span>, arrived: set<nat>): nat {
    Next(plan[..Complete(plan, arrived, 0)])
  }

  /** What the frames from number `f` up to `g` take off the size counter. */
  ghost function Released(cfg: Config, stream: seq<RtpPacket>, plan: seq<Span>, f: nat, g: nat): nat
    requires Tiling(cfg, stream, plan) && f <= g <= |plan|
    decreases g - f
  {
    if f == g then 0 else TryRun(cfg, Cut(stream, plan[f])).counted + Released(cfg, stream, plan, f + 1, g)
  }

  /** The size counter: one up for every packet that is not stale, duplicates included. */
  ghost function Occupancy(cfg: Config, stream: seq<RtpPacket>, plan: seq<Span>, arrivals: seq<nat>): int
    requires Tiling(cfg, stream, plan)
  {
    if arrivals == [] then 0
    else
      var n := |arrivals| - 1;
      ArrivedSnoc(arrivals, n);
      FullSlice(arrivals);
      SizeAfter(cfg, stream, plan, Arrived(arrivals[..n]), Arrived(arrivals), arrivals[n],
                Occupancy(cfg, stream, plan, arrivals[..n]))
  }

  lemma {:induction false} CompleteGrows(plan: seq<Span>, arrived: set<nat>, more: set<nat>, f: nat)
    requires f <= |plan| && arrived <= more
    ensures Complete(plan, arrived, f) <= Complete(plan, more, f)
    ensures Complete(plan, more, f) == Complete(plan, more, Complete(plan, arrived, f))
    decreases |plan| - f
  {
    if f < |plan| && HasArrived(plan[f], arrived) {
      CompleteGrows(plan, arrived, more, f + 1);
    }
  }

  ghost predicate Synced(stream: seq<RtpPacket>, plan: seq<Span>, arrived: set<nat>, f: nat, r: Ref)
    requires f <= |plan|
  {
    && InStream(stream, r) && r.spans == plan[..f]
    && (forall k :: k in r.buffered <==> k in arrived && Next(plan[..f]) <= k)
    && (forall k <- arrived :: k < |stream|)
  }

  /** A sorted list that holds all numbers from its lower bound on begins with them. */
  lemma {:induction false} ContiguousFront(b: seq<nat>, lo: nat, n: nat)
    requires Increasing(b) && forall i | 0 <= i < |b| :: lo <= b[i]
    requires forall k | lo <= k < lo + n :: k in b
    requires n > 0
    ensures |b| >= n && b[0] == lo && RefRunLength(b) >= n
    ensures forall k | k in b && lo + n <= k :: k in b[n..]
  {
    hide *;
    FrontRuns(b, lo, n);
    RunsAtLeast(b, n);
    forall k | k in b && lo + n <= k ensures k in b[n..] {
      StaysBehind(b, lo, n, k);
    }
  }

  ghost predicate Runs(b: seq<nat>, lo: nat, n: nat) {
    |b| >= n && forall x | 0 <= x < n :: b[x] == lo + x
  }

  lemma {:induction false} FrontRuns(b: seq<nat>, lo: nat, n: nat)
    requires Increasing(b) && (forall i | 0 <= i < |b| :: lo <= b[i]) && forall k | lo <= k < lo + n :: k in b
    ensures Runs(b, lo, n)
  {
    if n > 0 {
      FrontRuns(b, lo, n - 1);
      NextRuns(b, lo, n);
    }
  }

  lemma NextRuns(b: seq<nat>, lo: nat, n: nat)
    requires Increasing(b) && n > 0 && Runs(b, lo, n - 1) && lo + (n - 1) in b && forall i | 0 <= i < |b| :: lo <= b[i]
    ensures Runs(b, lo, n)
  {
    var i :| 0 <= i < |b| && b[i] == lo + (n - 1);
    assert i >= n - 1;
    NotAfter(b, n - 1, i);
    assert n > 1 ==> b[n - 2] < b[n - 1];
  }

  lemma NotAfter(b: seq<nat>, i: nat, j: nat)
    requires Increasing(b) && i <= j < |b|
    ensures b[i] <= b[j]
  {
  }

  lemma {:induction false} RunsAtLeast(b: seq<nat>, n: nat)
    requires n > 0 && |b| >= n && Runs(b, b[0], n)
    ensures RefRunLength(b) >= n
  {
  }

  lemma StaysBehind(b: seq<nat>, lo: nat, n: nat, k: nat)
    requires Runs(b, lo, n) && k in b && lo + n <= k
    ensures k in b[n..]
  {
    var j :| 0 <= j < |b| && b[j] == k;
    assert b[n..][j - n] == k;
  }

  lemma PlanSteps(cfg: Config, stream: seq<RtpPacket>, plan: seq<Span>)
    requires Tiling(cfg, stream, plan)
    ensures forall i | 0 <= i < |plan| :: plan[i].lo == Next(plan[..i]) && plan[i].n > 0
  {
    hide TryRun;
    forall i | 0 <= i < |plan| ensures plan[i].n > 0 {
      assert IsFrame(cfg, Cut(stream, plan[i]));
    }
  }

  lemma FrontIsFrame(cfg: Config, stream: seq<RtpPacket>, plan: seq<Span>, arrived: set<nat>, f: nat, r: Ref)
    requires Tiling(cfg, stream, plan) && f < |plan| && Synced(stream, plan, arrived, f, r)
    requires HasArrived(plan[f], arrived)
    ensures r.buffered != [] && r.buffered[0] == plan[f].lo
    ensures plan[f].lo + RefRunLength(r.buffered) <= |stream|
    ensures TryRun(cfg, Front(stream, r.buffered)) == TryRun(cfg, Cut(stream, plan[f]))
  {
    hide *;
    TilingFrame(cfg, stream, plan, f);
    ArrivedFront(plan, arrived, f, r, stream);
    SyncedStream(stream, plan, arrived, f, r);
    FrontFits(stream, r);
    FrontCut(stream, r.buffered, plan[f]);
    FrontPlaced(cfg, stream, r.buffered);
    FrameAhead(cfg, Front(stream, r.buffered), plan[f].n);
  }

  lemma TilingParts(cfg: Config, stream: seq<RtpPacket>, plan: seq<Span>)
    requires Tiling(cfg, stream, plan)
    ensures cfg.Valid() && AllPlaced(cfg.codec, stream)
  {
  }

  lemma TilingFrame(cfg: Config, stream: seq<RtpPacket>, plan: seq<Span>, f: nat)
    requires Tiling(cfg, stream, plan) && f < |plan|
    ensures cfg.Valid() && AllPlaced(cfg.codec, stream) && InBounds(stream, plan[f])
    ensures plan[f].lo == Next(plan[..f]) && plan[f].n > 0 && IsFrame(cfg, Cut(stream, plan[f]))
  {
    PlanSteps(cfg, stream, plan);
    hide Next, IsFrame, Placed;
  }

  lemma FrontCut(stream: seq<RtpPacket>, b: seq<nat>, s: Span)
    requires b != [] && b[0] + RefRunLength(b) <= |stream| && b[0] == s.lo && s.n <= RefRunLength(b)
    ensures InBounds(stream, s) && Front(stream, b)[..s.n] == Cut(stream, s)
  {
    hide RefRunLength;
  }

  lemma SyncedStream(stream: seq<RtpPacket>, plan: seq<Span>, arrived: set<nat>, f: nat, r: Ref)
    requires f <= |plan| && Synced(stream, plan, arrived, f, r)
    ensures InStream(stream, r)
  {
  }

  lemma StepDelivers(cfg: Config, stream: seq<RtpPacket>, plan: seq<Span>, arrived: set<nat>, f: nat, r: Ref)
    requires Tiling(cfg, stream, plan) && f < |plan| && Synced(stream, plan, arrived, f, r)
    requires HasArrived(plan[f], arrived)
    ensures var a := TryRun(cfg, Cut(stream, plan[f]));
      var (r', ok) := RefUnpackNext(cfg, stream, r);
      && ok && Synced(stream, plan, arrived, f + 1, r') && a.Unpacked? && r'.size == r.size - a.counted
  {
    PlanSteps(cfg, stream, plan);
    FrontIsFrame(cfg, stream, plan, arrived, f, r);
    FrameStep(cfg, Cut(stream, plan[f]));
    var a := TryRun(cfg, Cut(stream, plan[f]));
    SyncedNext(stream, plan, arrived, f, r, r.size - a.counted);
    hide TryRun, HasArrived, RefRunLength, IsFrame, Placed, Front, Cut, Tiling, AllPlaced;
  }

  lemma SyncedNext(stream: seq<RtpPacket>, plan: seq<Span>, arrived: set<nat>, f: nat, r: Ref, size: int)
    requires f < |plan| && Synced(stream, plan, arrived, f, r) && HasArrived(plan[f], arrived)
    requires plan[f].lo == Next(plan[..f]) && plan[f].n > 0
    ensures |r.buffered| >= plan[f].n
    ensures Synced(stream, plan, arrived, f + 1, Ref(r.buffered[plan[f].n..], size, r.spans + [Span(plan[f].lo, plan[f].n)]))
  {
    ArrivedFront(plan, arrived, f, r, stream);
    TakeFront(stream, r, plan[f].n);
    hide HasArrived, RefRunLength;
    assert plan[..f + 1] == plan[..f] + [Span(plan[f].lo, plan[f].n)];
  }

  lemma FrameStep(cfg: Config, pkts: seq<RtpPacket>)
    requires IsFrame(cfg, pkts)
    ensures TryRun(cfg, pkts).Unpacked? && TryRun(cfg, pkts).taken == |pkts|
  {
  }

  lemma ArrivedFront(plan: seq<Span>, arrived: set<nat>, f: nat, r: Ref, stream: seq<RtpPacket>)
    requires f < |plan| && Synced(stream, plan, arrived, f, r) && HasArrived(plan[f], arrived)
    requires plan[f].lo == Next(plan[..f]) && plan[f].n > 0
    ensures var b, lo, n := r.buffered, plan[f].lo, plan[f].n;
      && |b| >= n && b[0] == lo && RefRunLength(b) >= n
      && forall k :: k in b[n..] <==> k in arrived && lo + n <= k
  {
    var b, lo, n := r.buffered, plan[f].lo, plan[f].n;
    ContiguousFront(b, lo, n);
    hide RefRunLength, Next;
    forall k | k in b[n..] ensures k in b && lo + n <= k {
      BehindFront(b, lo, n, k);
    }
  }

  lemma BehindFront(b: seq<nat>, lo: nat, n: nat, k: nat)
    requires Increasing(b) && 0 < n <= |b| && b[0] == lo && RefRunLength(b) >= n && k in b[n..]
    ensures k in b && lo + n <= k
  {
    var j :| 0 <= j < |b| - n && b[n..][j] == k;
    assert b[n + j] == k && b[n - 1] < b[n + j];
    assert b[n - 1] == b[0] + (n - 1);
  }

  lemma NothingLeft(stream: seq<RtpPacket>, r: Ref)
    requires InStream(stream, r)
    ensures r.buffered != [] ==> Next(r.spans) < |stream|
  {
    assert r.buffered != [] ==> Next(r.spans) <= r.buffered[0] < |stream|;
  }

  lemma RunMembers(b: seq<nat>, m: nat)
    requires b != [] && b[0] <= m < b[0] + RefRunLength(b)
    ensures m in b
  {
    assert b[m - b[0]] == b[0] + (m - b[0]);
  }

  lemma RunStopsAtGap(b: seq<nat>, m: nat)
    requires b != [] && b[0] <= m && m !in b
    ensures b[0] + RefRunLength(b) <= m
  {
    if m < b[0] + RefRunLength(b) {
      RunMembers(b, m);
    }
  }

  lemma WaitsEmpty(cfg: Config, stream: seq<RtpPacket>, r: Ref)
    requires cfg.Valid() && AllPlaced(cfg.codec, stream) && InStream(stream, r) && r.buffered == []
    ensures !RefUnpackNext(cfg, stream, r).1
  {
    hide InStream, Placed;
  }

  lemma WaitsBehind(cfg: Config, stream: seq<RtpPacket>, r: Ref)
    requires cfg.Valid() && AllPlaced(cfg.codec, stream) && InStream(stream, r)
    requires r.spans != [] && r.buffered != [] && r.buffered[0] != Next(r.spans)
    ensures !RefUnpackNext(cfg, stream, r).1
  {
    hide RefUnpackOne, InStream, Placed;
  }

  lemma WaitsInFrame(cfg: Config, stream: seq<RtpPacket>, r: Ref)
    requires cfg.Valid() && AllPlaced(cfg.codec, stream) && InStream(stream, r)
    requires r.buffered != [] && r.buffered[0] + RefRunLength(r.buffered) <= |stream|
    requires AllPlaced(cfg.codec, Front(stream, r.buffered)) && TryRun(cfg, Front(stream, r.buffered)) == NoFrame
    ensures !RefUnpackNext(cfg, stream, r).1
  {
    hide TryRun, InStream, Placed, RefRunLength, Front;
  }

  lemma SyncedEnd(stream: seq<RtpPacket>, plan: seq<Span>, arrived: set<nat>, r: Ref)
    requires Synced(stream, plan, arrived, |plan|, r) && Next(plan) == |stream|
    ensures r.buffered == []
  {
    FullSlice(plan);
    NothingLeft(stream, r);
  }

  lemma SyncedStart(stream: seq<RtpPacket>, plan: seq<Span>, arrived: set<nat>, r: Ref)
    requires Synced(stream, plan, arrived, 0, r) && 0 in arrived
    ensures r.buffered != [] && r.buffered[0] == 0 && Next(plan[..0]) == 0
  {
    var b := r.buffered;
    assert plan[..0] == [];
    assert 0 in b;
    var j :| 0 <= j < |b| && b[j] == 0;
    NotAfter(b, 0, j);
  }

  lemma TilingEnd(cfg: Config, stream: seq<RtpPacket>, plan: seq<Span>)
    requires Tiling(cfg, stream, plan)
    ensures Next(plan) == |stream|
  {
    hide IsFrame, Placed, Next;
  }

  /** A packet of the frame is missing, and it is not buffered. */
  lemma MissingPart(stream: seq<RtpPacket>, plan: seq<Span>, arrived: set<nat>, f: nat, r: Ref) returns (m: nat)
    requires f < |plan| && Synced(stream, plan, arrived, f, r) && !HasArrived(plan[f], arrived)
    ensures plan[f].lo <= m < plan[f].lo + plan[f].n && m !in r.buffered
  {
    hide InStream, Next;
    m :| plan[f].lo <= m < plan[f].lo + plan[f].n && m !in arrived;
  }

  lemma FrontIncomplete(cfg: Config, stream: seq<RtpPacket>, plan: seq<Span>, arrived: set<nat>, f: nat, r: Ref)
    requires Tiling(cfg, stream, plan) && f < |plan| && Synced(stream, plan, arrived, f, r)
    requires !HasArrived(plan[f], arrived) && r.buffered != [] && r.buffered[0] == plan[f].lo
    ensures !RefUnpackNext(cfg, stream, r).1
  {
    hide *;
    var b, n := r.buffered, RefRunLength(r.buffered);
    TilingFrame(cfg, stream, plan, f);
    SyncedStream(stream, plan, arrived, f, r);
    FrontFits(stream, r);
    var m := MissingPart(stream, plan, arrived, f, r);
    RunStopsAtGap(b, m);
    FrontPlaced(cfg, stream, b);
    CutFront(stream, b, plan[f]);
    PartOfFrame(cfg, Cut(stream, plan[f]), n);
    WaitsInFrame(cfg, stream, r);
  }

  lemma CutFront(stream: seq<RtpPacket>, b: seq<nat>, s: Span)
    requires b != [] && b[0] == s.lo && RefRunLength(b) <= s.n && InBounds(stream, s)
    ensures b[0] + RefRunLength(b) <= |stream| && Front(stream, b) == Cut(stream, s)[..RefRunLength(b)]
  {
    hide RefRunLength;
  }

  lemma StepWaits(cfg: Config, stream: seq<RtpPacket>, plan: seq<Span>, arrived: set<nat>, f: nat, r: Ref)
    requires Tiling(cfg, stream, plan) && f <= |plan| && Synced(stream, plan, arrived, f, r)
    requires 0 in arrived && (f < |plan| ==> !HasArrived(plan[f], arrived))
    ensures !RefUnpackNext(cfg, stream, r).1
  {
    hide *;
    TilingParts(cfg, stream, plan);
    SyncedSpans(stream, plan, arrived, f, r);
    if f == |plan| {
      TilingEnd(cfg, stream, plan);
      SyncedEnd(stream, plan, arrived, r);
      WaitsEmpty(cfg, stream, r);
    } else if r.buffered == [] {
      WaitsEmpty(cfg, stream, r);
    } else {
      TilingFrame(cfg, stream, plan, f);
      if f == 0 {
        SyncedStart(stream, plan, arrived, r);
      }
      if r.buffered[0] == plan[f].lo {
        FrontIncomplete(cfg, stream, plan, arrived, f, r);
      } else {
        WaitsBehind(cfg, stream, r);
      }
    }
  }

  lemma {:induction false} DrainDelivers(
      cfg: Config, stream: seq<RtpPacket>, plan: seq<Span>, arrived: set<nat>, f: nat, r: Ref)
    requires Tiling(cfg, stream, plan) && f <= |plan| && Synced(stream, plan, arrived, f, r) && 0 in arrived
    ensures var g := Complete(plan, arrived, f);
      var r' := RefDrain(cfg, stream, r);
      && Synced(stream, plan, arrived, g, r') && r'.size == r.size - Released(cfg, stream, plan, f, g)
      && (RefUnpackNext(cfg, stream, r).1 <==> g > f)
    decreases |plan| - f
  {
    hide TryRun, HasArrived, RefUnpackNext;
    if f < |plan| && HasArrived(plan[f], arrived) {
      StepDelivers(cfg, stream, plan, arrived, f, r);
      hide Synced;
      DrainDelivers(cfg, stream, plan, arrived, f + 1, RefUnpackNext(cfg, stream, r).0);
    } else {
      StepWaits(cfg, stream, plan, arrived, f, r);
    }
  }

  /** At every arrival, the buffer has room even if the packet has to wait. */
  ghost predicate Fits(cfg: Config, maxSize: int, stream: seq<RtpPacket>, plan: seq<Span>, arrivals: seq<nat>)
    requires Tiling(cfg, stream, plan)
  {
    forall n | 0 <= n <= |arrivals| :: FitsAt(cfg, maxSize, stream, plan, arrivals, n)
  }

  ghost predicate FitsAt(
    cfg: Config, maxSize: int, stream: seq<RtpPacket>, plan: seq<Span>, arrivals: seq<nat>, n: nat)
    requires Tiling(cfg, stream, plan) && n <= |arrivals|
  {
    Occupancy(cfg, stream, plan, arrivals[..n]) <= maxSize
  }

  /** At every arrival, the packet is less than 16384 from the last one delivered before it. */
  ghost predicate Timely(plan: seq<Span>, arrivals: seq<nat>) {
    forall n | 0 <= n < |arrivals| :: TimelyAt(Done(plan, Arrived(arrivals[..n])), arrivals[n])
  }

  ghost predicate TimelyAt(done: nat, k: nat) {
    if done == 0 then k < 16384 else Near(k + 1, done)
  }

  lemma ArrivedSnoc(arrivals: seq<nat>, n: nat)
    requires n < |arrivals|
    ensures Arrived(arrivals[..n + 1]) == Arrived(arrivals[..n]) + {arrivals[n]}
  {
    assert arrivals[..n + 1] == arrivals[..n] + [arrivals[n]];
  }

  lemma {:induction false} HaveArrived(plan: seq<Span>, arrived: set<nat>, f: nat, k: nat)
    requires f <= |plan| && forall i | 0 <= i < |plan| :: plan[i].lo == Next(plan[..i])
    requires k < Next(plan[..Complete(plan, arrived, f)]) && Next(plan[..f]) <= k
    ensures k in arrived
    decreases |plan| - f
  {
    if f < |plan| && HasArrived(plan[f], arrived) {
      assert plan[..f + 1] == plan[..f] + [plan[f]];
      if k >= Next(plan[..f + 1]) {
        HaveArrived(plan, arrived, f + 1, k);
      }
    }
  }

  lemma ArriveSynced(cfg: Config, stream: seq<RtpPacket>, plan: seq<Span>, arrived: set<nat>, f: nat, r: Ref, k: nat)
    requires Tiling(cfg, stream, plan) && f <= |plan| && Next(plan[..f]) <= k < |stream|
    requires Synced(stream, plan, arrived, f, r)
    ensures Synced(stream, plan, arrived + {k}, f, RefArrive(stream, r, k))
  {
    hide TryRun, IsFrame;
    InsertMembers(r.buffered, k);
  }

  /** A packet that is new, at a buffer that goes on to unpack or has room: nothing is dropped. */
  lemma FeedRoom(cfg: Config, maxSize: int, stream: seq<RtpPacket>, r: Ref, k: nat)
    requires cfg.Valid() && AllPlaced(cfg.codec, stream) && InStream(stream, r) && Next(r.spans) <= k < |stream|
    requires RefUnpackNext(cfg, stream, RefArrive(stream, r, k)).1 || RefArrive(stream, r, k).size <= maxSize
    ensures RefFeed(cfg, maxSize, stream, r, k) == RefDrain(cfg, stream, RefArrive(stream, r, k))
  {
    hide RefUnpackNext, RefArrive, InStream, Placed, Next;
  }

  /** A new packet at a buffer with room for it. */
  lemma FeedNew(cfg: Config, maxSize: int, stream: seq<RtpPacket>, plan: seq<Span>,
                before: set<nat>, after: set<nat>, f: nat, k: nat, r: Ref)
    requires Tiling(cfg, stream, plan) && after == before + {k} && 0 in after
    requires f <= |plan| && Synced(stream, plan, before, f, r) && Next(plan[..f]) <= k < |stream|
    ensures InStream(stream, r)
    ensures var g := Complete(plan, after, f);
      var size := r.size + 1 - Released(cfg, stream, plan, f, g);
      size <= maxSize ==>
        var r' := RefFeed(cfg, maxSize, stream, r, k);
        Synced(stream, plan, after, g, r') && r'.size == size
  {
    hide *;
    TilingParts(cfg, stream, plan);
    SyncedSpans(stream, plan, before, f, r);
    ArriveSize(stream, r, k);
    ReleasedNone(cfg, stream, plan, f);
    ArriveSynced(cfg, stream, plan, before, f, r, k);
    DrainDelivers(cfg, stream, plan, after, f, RefArrive(stream, r, k));
    var g := Complete(plan, after, f);
    if r.size + 1 - Released(cfg, stream, plan, f, g) <= maxSize {
      FeedRoom(cfg, maxSize, stream, r, k);
    }
  }

  /** What the counter comes to after an arrival. */
  ghost function SizeAfter(cfg: Config, stream: seq<RtpPacket>, plan: seq<Span>,
                           before: set<nat>, after: set<nat>, k: nat, size: int): int
    requires Tiling(cfg, stream, plan) && before <= after
  {
    CompleteGrows(plan, before, after, 0);
    if k < Done(plan, before) then size
    else size + 1 - Released(cfg, stream, plan, Complete(plan, before, 0), Complete(plan, after, 0))
  }

  /** One arrival at a buffer with room for it. */
  lemma FeedInOrder(cfg: Config, maxSize: int, stream: seq<RtpPacket>, plan: seq<Span>,
                    before: set<nat>, after: set<nat>, k: nat, r: Ref)
    requires Tiling(cfg, stream, plan) && k < |stream| && after == before + {k} && 0 in after
    requires Synced(stream, plan, before, Complete(plan, before, 0), r)
    requires SizeAfter(cfg, stream, plan, before, after, k, r.size) <= maxSize
    ensures InStream(stream, r)
    ensures var r' := RefFeed(cfg, maxSize, stream, r, k);
      && Synced(stream, plan, after, Complete(plan, after, 0), r')
      && r'.size == SizeAfter(cfg, stream, plan, before, after, k, r.size)
  {
    hide *;
    var f := Complete(plan, before, 0);
    TilingParts(cfg, stream, plan);
    PlanSteps(cfg, stream, plan);
    SyncedSpans(stream, plan, before, f, r);
    CompleteGrows(plan, before, after, 0);
    DoneIs(plan, before);
    SizeAfterIs(cfg, stream, plan, before, after, k, r.size);
    if k < Done(plan, before) {
      NextOfNone(plan);
      HaveArrived(plan, before, 0, k);
      assert after == before;
      StaleFeed(cfg, maxSize, stream, r, k);
    } else {
      FeedNew(cfg, maxSize, stream, plan, before, after, f, k, r);
    }
  }

  lemma DoneIs(plan: seq<Span>, arrived: set<nat>)
    ensures Done(plan, arrived) == Next(plan[..Complete(plan, arrived, 0)])
  {
  }

  lemma NextOfNone(plan: seq<Span>)
    ensures Next(plan[..0]) == 0
  {
  }

  lemma SizeAfterIs(cfg: Config, stream: seq<RtpPacket>, plan: seq<Span>, before: set<nat>, after: set<nat>, k: nat,
                    size: int)
    requires Tiling(cfg, stream, plan) && before <= after
    ensures Complete(plan, before, 0) <= Complete(plan, after, 0)
    ensures SizeAfter(cfg, stream, plan, before, after, k, size)
      == if k < Done(plan, before) then size
         else size + 1 - Released(cfg, stream, plan, Complete(plan, before, 0), Complete(plan, after, 0))
  {
    CompleteGrows(plan, before, after, 0);
    hide Complete, Released, Done, Tiling;
  }

  lemma StaleFeed(cfg: Config, maxSize: int, stream: seq<RtpPacket>, r: Ref, k: nat)
    requires cfg.Valid() && AllPlaced(cfg.codec, stream) && InStream(stream, r) && k < |stream|
    requires k < Next(r.spans)
    ensures RefFeed(cfg, maxSize, stream, r, k) == r
  {
    hide RefSettle;
  }

  lemma SyncedSpans(stream: seq<RtpPacket>, plan: seq<Span>, arrived: set<nat>, f: nat, r: Ref)
    requires f <= |plan| && Synced(stream, plan, arrived, f, r)
    ensures InStream(stream, r) && r.spans == plan[..f]
  {
  }

  lemma ArriveSize(stream: seq<RtpPacket>, r: Ref, k: nat)
    requires InStream(stream, r) && Next(r.spans) <= k < |stream|
    ensures RefArrive(stream, r, k).size == r.size + 1
  {
  }

  lemma ReleasedNone(cfg: Config, stream: seq<RtpPacket>, plan: seq<Span>, f: nat)
    requires Tiling(cfg, stream, plan) && f <= |plan|
    ensures Released(cfg, stream, plan, f, f) == 0
  {
  }

  lemma InOrderStep(cfg: Config, maxSize: int, stream: seq<RtpPacket>, plan: seq<Span>, arrivals: seq<nat>, r: Ref)
    requires Tiling(cfg, stream, plan) && arrivals != [] && arrivals[0] == 0
    requires var n := |arrivals| - 1;
      && arrivals[n] < |stream|
      && Synced(stream, plan, Arrived(arrivals[..n]), Complete(plan, Arrived(arrivals[..n]), 0), r)
      && r.size == Occupancy(cfg, stream, plan, arrivals[..n])
    requires Occupancy(cfg, stream, plan, arrivals) <= maxSize
    ensures InStream(stream, r)
    ensures var r' := RefFeed(cfg, maxSize, stream, r, arrivals[|arrivals| - 1]);
      && Synced(stream, plan, Arrived(arrivals), Complete(plan, Arrived(arrivals), 0), r')
      && r'.size == Occupancy(cfg, stream, plan, arrivals)
  {
    var n := |arrivals| - 1;
    var before, after := Arrived(arrivals[..n]), Arrived(arrivals);
    ArrivedSnoc(arrivals, n);
    FullSlice(arrivals);
    assert arrivals[0] in after;
    hide Synced, RefFeed, Complete, Released, Done, Placed, InStream, IsFrame, Arrived;
    SyncedSpans(stream, plan, before, Complete(plan, before, 0), r);
    FeedInOrder(cfg, maxSize, stream, plan, before, after, arrivals[n], r);
  }

  lemma {:induction false} InOrderRun(
      cfg: Config, maxSize: int, stream: seq<RtpPacket>, plan: seq<Span>, arrivals: seq<nat>)
    requires Tiling(cfg, stream, plan) && ValidArrivals(stream, arrivals)
    requires arrivals != [] ==> arrivals[0] == 0
    requires Fits(cfg, maxSize, stream, plan, arrivals)
    ensures var r := RefRun(cfg, maxSize, stream, arrivals);
      && Synced(stream, plan, Arrived(arrivals), Complete(plan, Arrived(arrivals), 0), r)
      && r.size == Occupancy(cfg, stream, plan, arrivals)
    decreases |arrivals|
  {
    if arrivals == [] {
      NothingArrived(cfg, stream, plan);
    } else {
      var n := |arrivals| - 1;
      hide *;
      RunStep(cfg, maxSize, stream, arrivals);
      FitsPrefix(cfg, maxSize, stream, plan, arrivals, n);
      InOrderRun(cfg, maxSize, stream, plan, arrivals[..n]);
      InOrderStep(cfg, maxSize, stream, plan, arrivals, RefRun(cfg, maxSize, stream, arrivals[..n]));
    }
  }

  lemma NothingArrived(cfg: Config, stream: seq<RtpPacket>, plan: seq<Span>)
    requires Tiling(cfg, stream, plan)
    ensures Synced(stream, plan, Arrived([]), Complete(plan, Arrived([]), 0), START)
  {
    StartSynced(cfg, stream, plan);
    assert Arrived([]) == {};
  }

  lemma RunStep(cfg: Config, maxSize: int, stream: seq<RtpPacket>, arrivals: seq<nat>)
    requires cfg.Valid() && AllPlaced(cfg.codec, stream) && ValidArrivals(stream, arrivals) && arrivals != []
    ensures var n := |arrivals| - 1;
      && ValidArrivals(stream, arrivals[..n]) && arrivals[n] < |stream|
      && RefRun(cfg, maxSize, stream, arrivals)
         == RefFeed(cfg, maxSize, stream, RefRun(cfg, maxSize, stream, arrivals[..n]), arrivals[n])
  {
    hide RefFeed;
  }

  lemma FitsPrefix(cfg: Config, maxSize: int, stream: seq<RtpPacket>, plan: seq<Span>, arrivals: seq<nat>, n: nat)
    requires Tiling(cfg, stream, plan) && n <= |arrivals| && Fits(cfg, maxSize, stream, plan, arrivals)
    ensures Fits(cfg, maxSize, stream, plan, arrivals[..n])
    ensures Occupancy(cfg, stream, plan, arrivals) <= maxSize
  {
    hide Occupancy, Tiling;
    FullSlice(arrivals);
    assert FitsAt(cfg, maxSize, stream, plan, arrivals, |arrivals|);
    forall m | 0 <= m <= n ensures FitsAt(cfg, maxSize, stream, plan, arrivals[..n], m) {
      assert FitsAt(cfg, maxSize, stream, plan, arrivals, m);
      assert arrivals[..n][..m] == arrivals[..m];
    }
  }

  lemma StartSynced(cfg: Config, stream: seq<RtpPacket>, plan: seq<Span>)
    requires Tiling(cfg, stream, plan)
    ensures Complete(plan, {}, 0) == 0 && Synced(stream, plan, {}, 0, START)
  {
    hide TryRun;
    if plan != [] {
      assert IsFrame(cfg, Cut(stream, plan[0]));
      var i := plan[0].lo;
      var none: set<nat> := {};
      assert plan[0].lo <= i < plan[0].lo + plan[0].n && i !in none;
    }
  }

  // ---- the same for the wrapping buffer

  /** Everything that has arrived and waits is inside the window. */
  ghost predicate InReach(done: nat, arrived: set<nat>) {
    forall i <- arrived | done <= i :: if done == 0 then i < 16384 else i + 1 < done + 16384
  }

  lemma {:induction false} NextGrows(plan: seq<Span>, f: nat, g: nat)
    requires f <= g <= |plan| && forall i | 0 <= i < |plan| :: plan[i].lo == Next(plan[..i]) && plan[i].n > 0
    ensures Next(plan[..f]) <= Next(plan[..g])
    ensures g > 0 ==> Next(plan[..g]) > 0
  {
    if g > 0 {
      assert plan[..g][g - 1] == plan[g - 1];
    }
    if f < g {
      NextGrows(plan, f, g - 1);
    }
  }

  lemma {:induction false} ReachIsKept(cfg: Config, stream: seq<RtpPacket>, plan: seq<Span>, arrivals: seq<nat>)
    requires Tiling(cfg, stream, plan) && Timely(plan, arrivals)
    ensures InReach(Done(plan, Arrived(arrivals)), Arrived(arrivals))
  {
    hide *;
    if arrivals == [] {
      NothingInReach(plan);
    } else {
      var n := |arrivals| - 1;
      var before, after := Arrived(arrivals[..n]), Arrived(arrivals);
      TimelyPrefix(plan, arrivals, n);
      ReachIsKept(cfg, stream, plan, arrivals[..n]);
      ArrivedSnoc(arrivals, n);
      FullSlice(arrivals);
      PlanSteps(cfg, stream, plan);
      CompleteGrows(plan, before, after, 0);
      NextGrows(plan, Complete(plan, before, 0), Complete(plan, after, 0));
      DoneIs(plan, before);
      DoneIs(plan, after);
      ReachStep(Done(plan, before), Done(plan, after), before, after, arrivals[n]);
    }
  }

  lemma NothingInReach(plan: seq<Span>)
    ensures InReach(Done(plan, Arrived([])), Arrived([]))
  {
    assert Arrived([]) == {};
  }

  lemma ReachStep(done: nat, more: nat, before: set<nat>, after: set<nat>, k: nat)
    requires done <= more && InReach(done, before) && TimelyAt(done, k) && after == before + {k}
    ensures InReach(more, after)
  {
  }

  lemma TimelyIsLive(cfg: Config, stream: seq<RtpPacket>, plan: seq<Span>, arrived: set<nat>, r: Ref, k: nat)
    requires Tiling(cfg, stream, plan) && Synced(stream, plan, arrived, Complete(plan, arrived, 0), r)
    requires InReach(Done(plan, arrived), arrived) && TimelyAt(Done(plan, arrived), k)
    ensures Live(r, k)
  {
    PlanSteps(cfg, stream, plan);
    hide Tiling, Complete;
    NextGrows(plan, 0, Complete(plan, arrived, 0));
    assert forall i | 0 <= i < |r.buffered| :: r.buffered[i] in r.buffered;
  }

  lemma InOrderIsLive(cfg: Config, maxSize: int, stream: seq<RtpPacket>, plan: seq<Span>, arrivals: seq<nat>)
    requires Tiling(cfg, stream, plan) && ValidArrivals(stream, arrivals)
    requires arrivals != [] ==> arrivals[0] == 0
    requires Fits(cfg, maxSize, stream, plan, arrivals) && Timely(plan, arrivals)
    ensures AllLive(cfg, maxSize, stream, arrivals)
  {
    forall n | 0 <= n < |arrivals| ensures Live(RefRun(cfg, maxSize, stream, arrivals[..n]), arrivals[n]) {
      FitsPrefix(cfg, maxSize, stream, plan, arrivals, n);
      TimelyPrefix(plan, arrivals, n);
      hide Fits, Synced, Live, InReach, Done, Complete, Arrived, Tiling, Occupancy, RefRun, Timely;
      InOrderRun(cfg, maxSize, stream, plan, arrivals[..n]);
      ReachIsKept(cfg, stream, plan, arrivals[..n]);
      TimelyIsLive(cfg, stream, plan, Arrived(arrivals[..n]), RefRun(cfg, maxSize, stream, arrivals[..n]), arrivals[n]);
    }
  }

  lemma TimelyPrefix(plan: seq<Span>, arrivals: seq<nat>, n: nat)
    requires Timely(plan, arrivals) && n <= |arrivals|
    ensures Timely(plan, arrivals[..n])
    ensures n < |arrivals| ==> TimelyAt(Done(plan, Arrived(arrivals[..n])), arrivals[n])
  {
    assert forall m | 0 <= m < n :: arrivals[..n][..m] == arrivals[..m];
  }

  /** The buffer is a sorter: a stream of frames whose packets arrive in any order and any number of
      times, the first one first, each less than 16384 from the delivery point and with room to wait,
      is delivered in order and without delay. After any such arrivals, exactly the frames all of whose
      packets, and all earlier packets, have arrived are out, and the rest is waiting. */
  lemma Reordering(cfg: Config, maxSize: int, stream: seq<RtpPacket>, first: int, plan: seq<Span>, arrivals: seq<nat>)
    requires Tiling(cfg, stream, plan) && Numbered(stream, first) && ValidArrivals(stream, arrivals)
    requires arrivals != [] ==> arrivals[0] == 0
    requires Fits(cfg, maxSize, stream, plan, arrivals) && Timely(plan, arrivals)
    ensures var st := FeedAll(cfg, maxSize, EMPTY, Pick(stream, arrivals));
      var c := Complete(plan, Arrived(arrivals), 0);
      && AllInBounds(stream, plan[..c]) && st.delivered == Delivered(cfg, stream, plan[..c])
      && st.size == Occupancy(cfg, stream, plan, arrivals)
      && st.list == Pick(stream, Waiting(Arrived(arrivals), Next(plan[..c]), |stream|))
  {
    InOrderIsLive(cfg, maxSize, stream, plan, arrivals);
    WrappingRefinesUnbounded(cfg, maxSize, stream, first, arrivals);
    InOrderRun(cfg, maxSize, stream, plan, arrivals);
    var r := RefRun(cfg, maxSize, stream, arrivals);
    WaitingExact(r.buffered, Arrived(arrivals), Done(plan, Arrived(arrivals)), |stream|);
    hide Fits, Timely, AllLive, Complete, RefRun, FeedAll, Delivered, Pick, Occupancy, Arrived, IsFrame, Numbered, Waiting;
  }

  /** The indices from `lo` up to `hi` that have arrived, in order. */
  ghost function Waiting(arrived: set<nat>, lo: nat, hi: nat): (b: seq<nat>)
    ensures forall i | 0 <= i < |b| :: b[i] < hi
    decreases hi - lo
  {
    if lo >= hi then [] else (if lo in arrived then [lo] else []) + Waiting(arrived, lo + 1, hi)
  }

  lemma {:induction false} WaitingExact(b: seq<nat>, arrived: set<nat>, lo: nat, hi: nat)
    requires Increasing(b) && (forall k :: k in b <==> k in arrived && lo <= k) && forall k <- arrived :: k < hi
    ensures b == Waiting(arrived, lo, hi)
    decreases hi - lo
  {
    hide Waiting;
    WaitingFirst(arrived, lo, hi);
    if lo >= hi {
      if b != [] {
        HasMember(b);
      }
    } else if lo in arrived {
      StartsAt(b, lo);
      hide Increasing;
      WaitingExact(b[1..], arrived, lo + 1, hi);
    } else {
      hide Increasing;
      WaitingExact(b, arrived, lo + 1, hi);
    }
  }

  lemma WaitingFirst(arrived: set<nat>, lo: nat, hi: nat)
    ensures lo >= hi ==> Waiting(arrived, lo, hi) == []
    ensures lo < hi && lo in arrived ==> Waiting(arrived, lo, hi) == [lo] + Waiting(arrived, lo + 1, hi)
    ensures lo < hi && lo !in arrived ==> Waiting(arrived, lo, hi) == Waiting(arrived, lo + 1, hi)
  {
    assert [] + Waiting(arrived, lo + 1, hi) == Waiting(arrived, lo + 1, hi);
  }

  /** An increasing list without members below `lo` starts with `lo`, if it has it. */
  lemma StartsAt(b: seq<nat>, lo: nat)
    requires Increasing(b) && lo in b && forall k :: k in b ==> lo <= k
    ensures b == [lo] + b[1..] && Increasing(b[1..])
    ensures forall k :: k in b[1..] <==> k in b && lo + 1 <= k
  {
    var j :| 0 <= j < |b| && b[j] == lo;
    assert b[0] in b;
    assert j == 0;
    forall k
      ensures k in b[1..] <==> k in b && lo + 1 <= k
    {
      if k in b && lo + 1 <= k {
        var i :| 0 <= i < |b| && b[i] == k;
        assert b[1..][i - 1] == k;
      }
      if k in b[1..] {
        var i :| 0 <= i < |b[1..]| && b[1..][i] == k;
        assert b[i + 1] == k && b[0] < b[i + 1];
      }
    }
  }

  /** All packets have arrived: the output is the whole stream's, and nothing is left. */
  lemma AllDelivered(cfg: Config, maxSize: int, stream: seq<RtpPacket>, first: int, plan: seq<Span>, arrivals: seq<nat>)
    requires Tiling(cfg, stream, plan) && Numbered(stream, first) && ValidArrivals(stream, arrivals)
    requires arrivals != [] ==> arrivals[0] == 0
    requires Fits(cfg, maxSize, stream, plan, arrivals) && Timely(plan, arrivals)
    requires forall k: nat | k < |stream| :: k in arrivals
    ensures var st := FeedAll(cfg, maxSize, EMPTY, Pick(stream, arrivals));
      AllInBounds(stream, plan) && st.delivered == Delivered(cfg, stream, plan) && st.list == []
  {
    Reordering(cfg, maxSize, stream, first, plan, arrivals);
    PlanSteps(cfg, stream, plan);
    var c := Complete(plan, Arrived(arrivals), 0);
    CompleteAll(stream, plan, Arrived(arrivals), 0);
    assert plan[..c] == plan;
  }

  lemma HasMember(b: seq<nat>)
    requires b != []
    ensures exists k :: k in b
  {
    assert b[0] in b;
  }

  lemma {:induction false} CompleteAll(stream: seq<RtpPacket>, plan: seq<Span>, arrived: set<nat>, f: nat)
    requires f <= |plan| && AllInBounds(stream, plan) && forall k: nat | k < |stream| :: k in arrived
    ensures Complete(plan, arrived, f) == |plan|
    decreases |plan| - f
  {
    if f < |plan| {
      assert InBounds(stream, plan[f]);
      CompleteAll(stream, plan, arrived, f + 1);
    }
  }

  // ---- the window is necessary

  /** The comparison of the two packets' numbers is right. */
  ghost predicate InWindow(i: int, j: int) {
    if i / 0x1_0000 == j / 0x1_0000 then Near(i, j) else -49152 <= i - j <= 49152
  }

  /** Behind the delivery point by less than a cycle, a packet is taken for stale exactly when it is
      outside the window of the comparison. */
  lemma StaleExact(st: State, i: int, j: int)
    requires st.unpackedFlag && st.unpackedSeq == Wrap(j) && j < i < j + 0x1_0000
    ensures IsStale(st, Wrap(i)) <==> !InWindow(i, j)
  {
    CompareSeqExact(i, j);
    hide Wrap;
  }

  lemma UntimelyStep(cfg: Config, maxSize: int, stream: seq<RtpPacket>, first: int, plan: seq<Span>,
                     arrived: set<nat>, k: nat, st: State, r: Ref)
    requires Tiling(cfg, stream, plan) && Numbered(stream, first) && AllPlaced(cfg.codec, st.list)
    requires Synced(stream, plan, arrived, Complete(plan, arrived, 0), r)
    requires cfg.Valid() && AllPlaced(cfg.codec, stream) && InStream(stream, r) && Refines(cfg, stream, first, st, r)
    requires 0 < Done(plan, arrived) <= k < |stream| && k < Done(plan, arrived) + 0xFFFF
    ensures Parseable(cfg.codec, stream[k].payload)
    ensures IsStale(st, stream[k].header.seqNo) <==> !InWindow(first + k, first + Done(plan, arrived) - 1)
    ensures IsStale(st, stream[k].header.seqNo) ==> Feed(cfg, maxSize, st, stream[k]) == st
  {
    hide *;
    var done := Done(plan, arrived);
    SyncedSpans(stream, plan, arrived, Complete(plan, arrived, 0), r);
    DonePoint(plan, arrived);
    RefinesPoint(cfg, stream, first, st, r);
    NumberedAt(stream, first, k);
    StaleExact(st, first + k, first + done - 1);
    StreamPlaced(cfg, stream, plan, k);
    if IsStale(st, stream[k].header.seqNo) {
      StaleDropped(cfg, maxSize, st, stream[k]);
    }
  }

  /** After any arrivals that `Reordering` covers: of the packets still to come, less than a cycle away,
      the buffer drops those outside the window as if they had come before, and no others. */
  lemma UntimelyExact(cfg: Config, maxSize: int, stream: seq<RtpPacket>, first: int, plan: seq<Span>,
                      arrivals: seq<nat>, k: nat)
    requires Tiling(cfg, stream, plan) && Numbered(stream, first) && ValidArrivals(stream, arrivals)
    requires arrivals != [] ==> arrivals[0] == 0
    requires Fits(cfg, maxSize, stream, plan, arrivals) && Timely(plan, arrivals)
    requires var done := Done(plan, Arrived(arrivals)); 0 < done <= k < |stream| && k < done + 0xFFFF
    ensures var st, done := FeedAll(cfg, maxSize, EMPTY, Pick(stream, arrivals)), Done(plan, Arrived(arrivals));
      && (IsStale(st, stream[k].header.seqNo) <==> !InWindow(first + k, first + done - 1))
      && (!InWindow(first + k, first + done - 1) ==>
        AllPlaced(cfg.codec, st.list) && Parseable(cfg.codec, stream[k].payload)
        && Feed(cfg, maxSize, st, stream[k]) == st)
  {
    hide Fits, Timely, AllLive, Complete, RefRun, FeedAll, Feed, Delivered, Pick, Occupancy, Arrived, IsFrame, Numbered,
      Done, InWindow, IsStale, Refines, Synced, Compact, InStream;
    InOrderIsLive(cfg, maxSize, stream, plan, arrivals);
    WrappingRefinesUnbounded(cfg, maxSize, stream, first, arrivals);
    InOrderRun(cfg, maxSize, stream, plan, arrivals);
    UntimelyStep(cfg, maxSize, stream, first, plan, Arrived(arrivals), k,
                 FeedAll(cfg, maxSize, EMPTY, Pick(stream, arrivals)), RefRun(cfg, maxSize, stream, arrivals));
  }

  lemma DonePoint(plan: seq<Span>, arrived: set<nat>)
    ensures var c := Complete(plan, arrived, 0);
      Done(plan, arrived) == Next(plan[..c]) && (Next(plan[..c]) > 0 ==> plan[..c] != [])
  {
    hide Complete;
  }

  lemma RefinesPoint(cfg: Config, stream: seq<RtpPacket>, first: int, st: State, r: Ref)
    requires cfg.Valid() && AllPlaced(cfg.codec, stream) && InStream(stream, r) && Refines(cfg, stream, first, st, r)
    requires r.spans != []
    ensures st.unpackedFlag && st.unpackedSeq == Wrap(first + Next(r.spans) - 1)
  {
    hide Delivered, Pick, Wrap;
  }

  lemma NumberedAt(stream: seq<RtpPacket>, first: int, k: nat)
    requires Numbered(stream, first) && k < |stream|
    ensures stream[k].header.seqNo == Wrap(first + k)
  {
    hide Wrap;
  }

  lemma StreamPlaced(cfg: Config, stream: seq<RtpPacket>, plan: seq<Span>, k: nat)
    requires Tiling(cfg, stream, plan) && k < |stream|
    ensures Parseable(cfg.codec, stream[k].payload)
  {
    hide IsFrame, Parseable, CalcPosition;
    assert Placed(cfg.codec, stream[k]);
  }

  lemma StaleDropped(cfg: Config, maxSize: int, st: State, pkt: RtpPacket)
    requires cfg.Valid() && AllPlaced(cfg.codec, st.list) && Parseable(cfg.codec, pkt.payload)
    requires IsStale(st, pkt.header.seqNo)
    ensures Feed(cfg, maxSize, st, pkt) == st
  {
    hide Settle, Parseable, Placed;
  }
}
