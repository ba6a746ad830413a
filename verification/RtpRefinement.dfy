/** The wrapping buffer refines the reference buffer while every live number lies in one window. */
module RtpRefinement {
  import opened SeqNumber
  import opened RtpPackets
  import opened RtpUnpacking
  import opened RtpLocality
  import opened RtpReassembly
  import opened RtpReference

  /** The sender numbered its packets consecutively from `first`, wrapping at 16 bits. */
  ghost predicate Numbered(stream: seq<RtpPacket>, first: int) {
    forall i | 0 <= i < |stream| :: stream[i].header.seqNo == Wrap(first + i)
  }

  ghost function Pick(stream: seq<RtpPacket>, b: seq<nat>): (r: seq<RtpPacket>)
    requires forall i | 0 <= i < |b| :: b[i] < |stream|
    ensures |r| == |b| && forall i | 0 <= i < |b| :: r[i] == stream[b[i]]
  {
    seq(|b|, i requires 0 <= i < |b| => stream[b[i]])
  }

  ghost predicate InBounds(stream: seq<RtpPacket>, s: Span) {
    s.lo + s.n <= |stream|
  }

  ghost function Cut(stream: seq<RtpPacket>, s: Span): (run: seq<RtpPacket>)
    requires InBounds(stream, s)
    ensures |run| == s.n && forall i | 0 <= i < s.n :: run[i] == stream[s.lo + i]
  {
    stream[s.lo..s.lo + s.n]
  }

  ghost predicate AllInBounds(stream: seq<RtpPacket>, spans: seq<Span>) {
    forall i | 0 <= i < |spans| :: InBounds(stream, spans[i])
  }

  ghost function FramesOf(cfg: Config, stream: seq<RtpPacket>, s: Span): seq<AvPacket>
    requires cfg.Valid() && AllPlaced(cfg.codec, stream) && InBounds(stream, s)
  {
    var a := TryRun(cfg, Cut(stream, s));
    if a.Unpacked? then a.frames else []
  }

  /** The frames of a list of stretches, in order. */
  ghost function Delivered(cfg: Config, stream: seq<RtpPacket>, spans: seq<Span>): seq<AvPacket>
    requires cfg.Valid() && AllPlaced(cfg.codec, stream) && AllInBounds(stream, spans)
  {
    if spans == [] then []
    else
      var n := |spans| - 1;
      Delivered(cfg, stream, spans[..n]) + FramesOf(cfg, stream, spans[n])
  }

  lemma DeliveredSnoc(cfg: Config, stream: seq<RtpPacket>, spans: seq<Span>, s: Span)
    requires cfg.Valid() && AllPlaced(cfg.codec, stream) && AllInBounds(stream, spans) && InBounds(stream, s)
    ensures AllInBounds(stream, spans + [s])
    ensures Delivered(cfg, stream, spans + [s]) == Delivered(cfg, stream, spans) + FramesOf(cfg, stream, s)
  {
    hide FramesOf;
    assert (spans + [s])[..|spans|] == spans;
  }

  /** Each stretch is one frame of the stream, and each begins after the one before has ended. */
  ghost predicate Explained(cfg: Config, stream: seq<RtpPacket>, spans: seq<Span>) {
    && AllInBounds(stream, spans)
    && (forall i | 0 <= i < |spans| :: IsFrame(cfg, Cut(stream, spans[i])))
    && (forall i, j | 0 <= i < j < |spans| :: spans[i].lo + spans[i].n <= spans[j].lo)
  }

  /** Everything live, the last unpacked packet and the buffered ones, is inside one window. */
  ghost predicate Compact(r: Ref) {
    r.buffered != [] ==>
      && r.buffered[|r.buffered| - 1] < r.buffered[0] + 16384
      && (r.spans != [] ==> r.buffered[|r.buffered| - 1] + 1 < Next(r.spans) + 16384)
  }

  /** So is an arriving packet; one that is not new only has to be near the last unpacked one. */
  ghost predicate Live(r: Ref, k: nat) {
    && (r.spans != [] ==> Near(k + 1, Next(r.spans)))
    && (Next(r.spans) <= k ==> forall i | 0 <= i < |r.buffered| :: Near(k, r.buffered[i]))
  }

  ghost predicate Refines(cfg: Config, stream: seq<RtpPacket>, first: int, st: State, r: Ref)
    requires cfg.Valid() && AllPlaced(cfg.codec, stream) && InStream(stream, r)
  {
    && st.list == Pick(stream, r.buffered) && st.size == r.size
    && st.unpackedFlag == (r.spans != [])
    && (st.unpackedFlag ==> st.unpackedSeq == Wrap(first + Next(r.spans) - 1))
    && AllInBounds(stream, r.spans) && st.delivered == Delivered(cfg, stream, r.spans)
  }

  lemma {:induction false} RunLengthAgrees(stream: seq<RtpPacket>, first: int, b: seq<nat>)
    requires Numbered(stream, first) && Increasing(b) && forall i | 0 <= i < |b| :: b[i] < |stream|
    requires b != [] ==> b[|b| - 1] - b[0] < 16384
    ensures RunLength(Pick(stream, b)) == RefRunLength(b)
  {
    hide *;
    if |b| <= 1 {
      ShortRuns(stream, b);
    } else {
      RestIncreasing(b);
      RunLengthAgrees(stream, first, b[1..]);
      SecondFollows(stream, first, b);
      RunsUnfold(stream, b);
    }
  }

  lemma ShortRuns(stream: seq<RtpPacket>, b: seq<nat>)
    requires |b| <= 1 && forall i | 0 <= i < |b| :: b[i] < |stream|
    ensures RunLength(Pick(stream, b)) == |b| == RefRunLength(b)
  {
  }

  lemma RestIncreasing(b: seq<nat>)
    requires Increasing(b) && |b| > 1
    ensures Increasing(b[1..]) && b[0] < b[1] <= b[|b| - 1]
  {
  }

  lemma SecondFollows(stream: seq<RtpPacket>, first: int, b: seq<nat>)
    requires Numbered(stream, first) && |b| > 1 && b[0] < |stream| && b[1] < |stream| && b[0] <= b[1] <= b[0] + 16384
    ensures SubSeq(stream[b[1]].header.seqNo, stream[b[0]].header.seqNo) == 1 <==> b[1] == b[0] + 1
  {
    hide SubSeq, Wrap;
    SuccessorNear(first + b[1], first + b[0]);
  }

  lemma RunsUnfold(stream: seq<RtpPacket>, b: seq<nat>)
    requires |b| > 1 && forall i | 0 <= i < |b| :: b[i] < |stream|
    ensures RefRunLength(b) == if b[1] == b[0] + 1 then 1 + RefRunLength(b[1..]) else 1
    ensures RunLength(Pick(stream, b))
      == if SubSeq(stream[b[1]].header.seqNo, stream[b[0]].header.seqNo) == 1
         then 1 + RunLength(Pick(stream, b[1..])) else 1
  {
    hide SubSeq;
    assert Pick(stream, b)[1..] == Pick(stream, b[1..]);
  }

  lemma SuccessorNear(i: int, j: int)
    requires 0 <= i - j <= 16384
    ensures SubSeq(Wrap(i), Wrap(j)) == 1 <==> i == j + 1
  {
    SuccessorExact(Wrap(i), Wrap(j));
    assert i == i / 0x1_0000 * 0x1_0000 + Wrap(i) && j == j / 0x1_0000 * 0x1_0000 + Wrap(j);
  }

  lemma FrontAgrees(cfg: Config, stream: seq<RtpPacket>, first: int, r: Ref)
    requires cfg.Valid() && AllPlaced(cfg.codec, stream) && Numbered(stream, first)
    requires InStream(stream, r) && Compact(r) && r.buffered != []
    ensures r.buffered[0] + RefRunLength(r.buffered) <= |stream|
    ensures TryUnpack(cfg, Pick(stream, r.buffered)) == TryRun(cfg, Front(stream, r.buffered))
  {
    hide *;
    FrontFits(stream, r);
    BufferedSpread(stream, r);
    RunLengthAgrees(stream, first, r.buffered);
    PickFront(stream, r.buffered);
    PickPlaced(cfg.codec, stream, r.buffered);
    AttemptIs(cfg, Pick(stream, r.buffered));
  }

  lemma BufferedSpread(stream: seq<RtpPacket>, r: Ref)
    requires InStream(stream, r) && Compact(r) && r.buffered != []
    ensures Increasing(r.buffered) && r.buffered[|r.buffered| - 1] - r.buffered[0] < 16384
    ensures forall i | 0 <= i < |r.buffered| :: r.buffered[i] < |stream|
  {
  }

  lemma PickFront(stream: seq<RtpPacket>, b: seq<nat>)
    requires b != [] && b[0] + RefRunLength(b) <= |stream| && forall i | 0 <= i < |b| :: b[i] < |stream|
    ensures Pick(stream, b)[..RefRunLength(b)] == Front(stream, b)
  {
    hide *;
    var p, q := Pick(stream, b), Front(stream, b);
    forall k | 0 <= k < |q| ensures p[k] == q[k] {
      RunAt(b, k);
    }
    SamePrefix(p, q);
  }

  lemma RunAt(b: seq<nat>, k: nat)
    requires k < RefRunLength(b)
    ensures k < |b| && b[k] == b[0] + k
  {
  }

  lemma SamePrefix<T>(p: seq<T>, q: seq<T>)
    requires |q| <= |p| && forall k | 0 <= k < |q| :: p[k] == q[k]
    ensures p[..|q|] == q
  {
  }

  lemma PickPlaced(codec: Codec, stream: seq<RtpPacket>, b: seq<nat>)
    requires AllPlaced(codec, stream) && forall i | 0 <= i < |b| :: b[i] < |stream|
    ensures AllPlaced(codec, Pick(stream, b))
  {
    hide Placed;
  }

  lemma AttemptIs(cfg: Config, list: seq<RtpPacket>)
    requires cfg.Valid() && AllPlaced(cfg.codec, list)
    ensures AllPlaced(cfg.codec, list[..RunLength(list)])
    ensures TryUnpack(cfg, list) == TryRun(cfg, list[..RunLength(list)])
  {
    hide TryRun, RunLength, Placed;
  }

  /** One unpacking step of the reference: a whole frame, from the first buffered packet. */
  lemma StepIsFrame(cfg: Config, stream: seq<RtpPacket>, b: seq<nat>)
    requires cfg.Valid() && AllPlaced(cfg.codec, stream)
    requires b != [] && b[0] + RefRunLength(b) <= |stream|
    requires TryRun(cfg, Front(stream, b)).Unpacked?
    ensures var a := TryRun(cfg, Front(stream, b));
      var s := Span(b[0], a.taken);
      InBounds(stream, s) && IsFrame(cfg, Cut(stream, s)) && FramesOf(cfg, stream, s) == a.frames
  {
    hide TryRun;
    var run := Front(stream, b);
    var n := TryRun(cfg, run).taken;
    assert Cut(stream, Span(b[0], n)) == run[..n];
    TryRunPrefix(cfg, run, n);
  }

  lemma PickDrop(stream: seq<RtpPacket>, b: seq<nat>, n: nat)
    requires n <= |b| && forall i | 0 <= i < |b| :: b[i] < |stream|
    ensures forall i | 0 <= i < |b| - n :: b[n..][i] < |stream|
    ensures Pick(stream, b)[n..] == Pick(stream, b[n..])
  {
  }

  lemma CompactDrop(stream: seq<RtpPacket>, r: Ref, n: nat)
    requires InStream(stream, r) && Compact(r) && r.buffered != [] && 1 <= n <= RefRunLength(r.buffered)
    ensures forall size :: Compact(Ref(r.buffered[n..], size, r.spans + [Span(r.buffered[0], n)]))
  {
    hide RefRunLength, InStream;
    var b := r.buffered;
    DropFront(stream, r, n);
    forall size ensures Compact(Ref(b[n..], size, r.spans + [Span(b[0], n)])) {
    }
  }

  /** Behind the packets that are taken the buffer spreads no further. */
  lemma DropFront(stream: seq<RtpPacket>, r: Ref, n: nat)
    requires InStream(stream, r) && r.buffered != [] && 1 <= n <= RefRunLength(r.buffered)
    ensures
      var b := r.buffered;
      Next(r.spans + [Span(b[0], n)]) == b[0] + n
      && (n < |b| ==> b[n..][|b| - n - 1] == b[|b| - 1] && b[0] <= b[n..][0])
  {
    hide Placed;
  }

  lemma StepAgrees(cfg: Config, stream: seq<RtpPacket>, first: int, st: State, r: Ref)
    requires cfg.Valid() && AllPlaced(cfg.codec, stream) && Numbered(stream, first)
    requires InStream(stream, r) && Refines(cfg, stream, first, st, r) && r.buffered != []
    requires AllPlaced(cfg.codec, st.list) && r.buffered[0] + RefRunLength(r.buffered) <= |stream|
    requires TryUnpack(cfg, st.list) == TryRun(cfg, Front(stream, r.buffered))
    requires TryRun(cfg, Front(stream, r.buffered)).Unpacked?
    ensures Refines(cfg, stream, first, UnpackOne(cfg, st).0, RefUnpackOne(cfg, stream, r).0)
  {
    hide *;
    var b := r.buffered;
    FrontPlaced(cfg, stream, b);
    var a := TryRun(cfg, Front(stream, b));
    StepIsFrame(cfg, stream, b);
    InStreamAt(stream, r);
    UnpackedStep(cfg, st, a);
    RefUnpackedStep(cfg, stream, r, a);
    RefinesStep(cfg, stream, first, st, r, a.taken, a.counted, a.frames);
  }

  lemma FrontPlaced(cfg: Config, stream: seq<RtpPacket>, b: seq<nat>)
    requires AllPlaced(cfg.codec, stream) && b != [] && b[0] + RefRunLength(b) <= |stream|
    ensures AllPlaced(cfg.codec, Front(stream, b))
  {
    hide Placed, RefRunLength;
  }

  lemma InStreamAt(stream: seq<RtpPacket>, r: Ref)
    requires InStream(stream, r)
    ensures forall i | 0 <= i < |r.buffered| :: r.buffered[i] < |stream|
  {
  }

  lemma UnpackedStep(cfg: Config, st: State, a: Attempt)
    requires cfg.Valid() && AllPlaced(cfg.codec, st.list) && TryUnpack(cfg, st.list) == a && a.Unpacked?
    ensures 1 <= a.taken <= |st.list|
    ensures UnpackOne(cfg, st).0
      == State(st.list[a.taken..], st.size - a.counted, true, st.list[a.taken - 1].header.seqNo,
               st.delivered + a.frames)
  {
    hide TryUnpack, Placed;
  }

  lemma RefUnpackedStep(cfg: Config, stream: seq<RtpPacket>, r: Ref, a: Attempt)
    requires cfg.Valid() && AllPlaced(cfg.codec, stream) && InStream(stream, r) && r.buffered != []
    requires r.buffered[0] + RefRunLength(r.buffered) <= |stream|
    requires a == TryRun(cfg, Front(stream, r.buffered)) && a.Unpacked?
    ensures 1 <= a.taken <= RefRunLength(r.buffered) <= |r.buffered|
    ensures RefUnpackOne(cfg, stream, r).0
      == Ref(r.buffered[a.taken..], r.size - a.counted, r.spans + [Span(r.buffered[0], a.taken)])
  {
    hide TryRun, Placed, InStream, RefRunLength;
  }

  /** Taking the same packets from both keeps them in step. */
  lemma RefinesStep(cfg: Config, stream: seq<RtpPacket>, first: int, st: State, r: Ref, taken: nat, counted: nat,
                    frames: seq<AvPacket>)
    requires cfg.Valid() && AllPlaced(cfg.codec, stream) && Numbered(stream, first)
    requires InStream(stream, r) && Refines(cfg, stream, first, st, r) && r.buffered != []
    requires 1 <= taken <= RefRunLength(r.buffered) <= |r.buffered| && taken <= |st.list|
    requires
      var s := Span(r.buffered[0], taken);
      InBounds(stream, s) && FramesOf(cfg, stream, s) == frames
    requires forall i | 0 <= i < |r.buffered| :: r.buffered[i] < |stream|
    requires InStream(stream, Ref(r.buffered[taken..], r.size - counted, r.spans + [Span(r.buffered[0], taken)]))
    ensures Refines(cfg, stream, first,
                    State(st.list[taken..], st.size - counted, true, st.list[taken - 1].header.seqNo,
                          st.delivered + frames),
                    Ref(r.buffered[taken..], r.size - counted, r.spans + [Span(r.buffered[0], taken)]))
  {
    hide Wrap, Delivered, FramesOf, InStream, RefRunLength, Placed;
    DeliveredSnoc(cfg, stream, r.spans, Span(r.buffered[0], taken));
    PickDrop(stream, r.buffered, taken);
    RunAt(r.buffered, taken - 1);
  }

  lemma UnpackOneAgrees(cfg: Config, stream: seq<RtpPacket>, first: int, st: State, r: Ref)
    requires cfg.Valid() && AllPlaced(cfg.codec, stream) && Numbered(stream, first)
    requires InStream(stream, r) && Refines(cfg, stream, first, st, r) && Compact(r)
    ensures AllPlaced(cfg.codec, st.list) && UnpackOne(cfg, st).1 == RefUnpackOne(cfg, stream, r).1
    ensures Refines(cfg, stream, first, UnpackOne(cfg, st).0, RefUnpackOne(cfg, stream, r).0)
    ensures Compact(RefUnpackOne(cfg, stream, r).0)
  {
    hide TryRun, TryUnpack, Wrap, Delivered, Pick, Front, Compact;
    if r.buffered == [] {
      EmptyAttempt(cfg);
    } else {
      FrontAgrees(cfg, stream, first, r);
      if RefUnpackOne(cfg, stream, r).1 {
        StepAgrees(cfg, stream, first, st, r);
        CompactDrop(stream, r, TryRun(cfg, Front(stream, r.buffered)).taken);
      }
    }
  }

  lemma EmptyAttempt(cfg: Config)
    requires cfg.Valid()
    ensures TryUnpack(cfg, []) == NoFrame
  {
  }

  lemma FollowsAgrees(cfg: Config, stream: seq<RtpPacket>, first: int, st: State, r: Ref)
    requires cfg.Valid() && AllPlaced(cfg.codec, stream) && Numbered(stream, first)
    requires InStream(stream, r) && Refines(cfg, stream, first, st, r) && Compact(r)
    ensures FollowsOn(st) <==> r.spans == [] || (r.buffered != [] && r.buffered[0] == Next(r.spans))
  {
    hide SubSeq, Wrap, Delivered;
    if r.spans != [] && r.buffered != [] {
      SuccessorNear(first + r.buffered[0], first + Next(r.spans) - 1);
    }
  }

  lemma UnpackNextAgrees(cfg: Config, stream: seq<RtpPacket>, first: int, st: State, r: Ref)
    requires cfg.Valid() && AllPlaced(cfg.codec, stream) && Numbered(stream, first)
    requires InStream(stream, r) && Refines(cfg, stream, first, st, r) && Compact(r)
    ensures AllPlaced(cfg.codec, st.list) && UnpackNext(cfg, st).1 == RefUnpackNext(cfg, stream, r).1
    ensures Refines(cfg, stream, first, UnpackNext(cfg, st).0, RefUnpackNext(cfg, stream, r).0)
    ensures Compact(RefUnpackNext(cfg, stream, r).0)
  {
    UnpackOneAgrees(cfg, stream, first, st, r);
    FollowsAgrees(cfg, stream, first, st, r);
    hide UnpackOne, RefUnpackOne, Refines, Compact, FollowsOn;
  }

  lemma {:induction false} DrainAgrees(cfg: Config, stream: seq<RtpPacket>, first: int, st: State, r: Ref)
    requires cfg.Valid() && AllPlaced(cfg.codec, stream) && Numbered(stream, first)
    requires InStream(stream, r) && Refines(cfg, stream, first, st, r) && Compact(r)
    ensures AllPlaced(cfg.codec, st.list)
    ensures Refines(cfg, stream, first, Drain(cfg, st), RefDrain(cfg, stream, r))
    ensures Compact(RefDrain(cfg, stream, r))
    decreases |r.buffered|
  {
    UnpackNextAgrees(cfg, stream, first, st, r);
    hide UnpackNext, RefUnpackNext, Refines, Compact;
    if RefUnpackNext(cfg, stream, r).1 {
      DrainAgrees(cfg, stream, first, UnpackNext(cfg, st).0, RefUnpackNext(cfg, stream, r).0);
    }
  }

  lemma PickCons(stream: seq<RtpPacket>, x: nat, b: seq<nat>)
    requires x < |stream| && forall i | 0 <= i < |b| :: b[i] < |stream|
    ensures Pick(stream, [x] + b) == [stream[x]] + Pick(stream, b)
  {
  }

  /** Insertion into a picked list, by the comparison with its first packet. */
  lemma InsertFirst(stream: seq<RtpPacket>, b: seq<nat>, k: nat)
    requires k < |stream| && forall i | 0 <= i < |b| :: b[i] < |stream|
    ensures b == [] ==> Insert(Pick(stream, b), stream[k]) == [stream[k]] && Pick(stream, [k]) == [stream[k]]
    ensures b != [] ==>
      var c := CompareSeq(stream[k].header.seqNo, stream[b[0]].header.seqNo);
      var list := Pick(stream, b);
      Insert(list, stream[k])
        == if c == 0 then list else if c == 1 then [stream[b[0]]] + Insert(list[1..], stream[k]) else [stream[k]] + list
  {
    hide CompareSeq;
  }

  lemma {:induction false} InsertAgrees(stream: seq<RtpPacket>, first: int, b: seq<nat>, k: nat)
    requires Numbered(stream, first) && k < |stream| && forall i | 0 <= i < |b| :: b[i] < |stream| && Near(k, b[i])
    ensures forall i | 0 <= i < |RefInsert(b, k)| :: RefInsert(b, k)[i] < |stream|
    ensures Insert(Pick(stream, b), stream[k]) == Pick(stream, RefInsert(b, k))
  {
    hide *;
    InsertFirst(stream, b, k);
    RefInsertFirst(b, k);
    if b != [] {
      SameOrder(stream, first, k, b[0]);
      if k > b[0] {
        InsertAgrees(stream, first, b[1..], k);
        PickDrop(stream, b, 1);
        PickCons(stream, b[0], RefInsert(b[1..], k));
      } else if k < b[0] {
        PickCons(stream, k, b);
      }
    }
  }

  lemma RefInsertFirst(b: seq<nat>, k: nat)
    ensures RefInsert(b, k)
      == if b == [] then [k]
        else if k == b[0] then b
        else if k > b[0] then [b[0]] + RefInsert(b[1..], k)
        else [k] + b
  {
  }

  lemma SameOrder(stream: seq<RtpPacket>, first: int, k: nat, j: nat)
    requires Numbered(stream, first) && k < |stream| && j < |stream| && Near(k, j)
    ensures CompareSeq(stream[k].header.seqNo, stream[j].header.seqNo) == if k < j then -1 else if k == j then 0 else 1
  {
    NearOrder(first + k, first + j);
  }

  lemma SettleAgrees(cfg: Config, maxSize: int, stream: seq<RtpPacket>, first: int, st: State, r: Ref)
    requires cfg.Valid() && AllPlaced(cfg.codec, stream) && Numbered(stream, first)
    requires InStream(stream, r) && Refines(cfg, stream, first, st, r) && Compact(r) && r.buffered != []
    ensures AllPlaced(cfg.codec, st.list) && st.list != []
    ensures Refines(cfg, stream, first, Settle(cfg, maxSize, st), RefSettle(cfg, maxSize, stream, r))
    ensures Compact(RefSettle(cfg, maxSize, stream, r))
  {
    hide Drain, RefDrain, UnpackNext, RefUnpackNext, UnpackOne, RefUnpackOne, Compact, Refines, InStream;
    UnpackNextAgrees(cfg, stream, first, st, r);
    UnpackOneAgrees(cfg, stream, first, st, r);
    DropAgrees(cfg, stream, first, st, r);
    if RefUnpackNext(cfg, stream, r).1 {
      DrainAgrees(cfg, stream, first, st, r);
    } else if RefUnpackOne(cfg, stream, r).1 {
      DrainAgrees(cfg, stream, first, UnpackOne(cfg, st).0, RefUnpackOne(cfg, stream, r).0);
    }
  }

  lemma DropAgrees(cfg: Config, stream: seq<RtpPacket>, first: int, st: State, r: Ref)
    requires cfg.Valid() && AllPlaced(cfg.codec, stream) && Numbered(stream, first)
    requires InStream(stream, r) && Refines(cfg, stream, first, st, r) && Compact(r) && r.buffered != []
    ensures st.list != [] && st.size == r.size
    ensures var st', r' := st.(list := st.list[1..], size := st.size - 1), r.(buffered := r.buffered[1..], size := r.size - 1);
      InStream(stream, r') && Refines(cfg, stream, first, st', r') && Compact(r')
  {
    hide Pick, Delivered, Wrap;
    assert Pick(stream, r.buffered)[1..] == Pick(stream, r.buffered[1..]);
  }

  lemma ArriveAgrees(cfg: Config, stream: seq<RtpPacket>, first: int, st: State, r: Ref, k: nat)
    requires cfg.Valid() && AllPlaced(cfg.codec, stream) && Numbered(stream, first)
    requires InStream(stream, r) && Refines(cfg, stream, first, st, r) && Compact(r)
    requires Next(r.spans) <= k < |stream| && Live(r, k)
    ensures Refines(cfg, stream, first, st.(list := Insert(st.list, stream[k]), size := st.size + 1), RefArrive(stream, r, k))
    ensures Compact(RefArrive(stream, r, k))
  {
    hide Pick, Delivered, Wrap, Insert, RefInsert, Compact;
    CompactArrive(stream, r, k);
    InsertAgrees(stream, first, r.buffered, k);
  }

  lemma CompactArrive(stream: seq<RtpPacket>, r: Ref, k: nat)
    requires InStream(stream, r) && Compact(r) && Next(r.spans) <= k < |stream| && Live(r, k)
    ensures Compact(RefArrive(stream, r, k))
  {
    InsertMembers(r.buffered, k);
    InsertIncreasing(r.buffered, k);
    hide RefInsert;
    var b := RefInsert(r.buffered, k);
    assert b[|b| - 1] in b && b[0] in b;
    if r.buffered != [] {
      var n := |r.buffered| - 1;
      assert forall x <- r.buffered :: r.buffered[0] <= x <= r.buffered[n];
    }
  }

  /** One packet: the two buffers stay in step, whatever the packet is, as long as it is live. */
  lemma FeedAgrees(cfg: Config, maxSize: int, stream: seq<RtpPacket>, first: int, st: State, r: Ref, k: nat)
    requires cfg.Valid() && AllPlaced(cfg.codec, stream) && Numbered(stream, first)
    requires InStream(stream, r) && Refines(cfg, stream, first, st, r) && Compact(r)
    requires k < |stream| && Live(r, k)
    ensures AllPlaced(cfg.codec, st.list)
    ensures Refines(cfg, stream, first, Feed(cfg, maxSize, st, stream[k]), RefFeed(cfg, maxSize, stream, r, k))
    ensures Compact(RefFeed(cfg, maxSize, stream, r, k))
  {
    hide *;
    StaleAgrees(cfg, stream, first, st, r, k);
    PickedPlaced(cfg, stream, first, st, r);
    StreamPlaced(cfg.codec, stream, k);
    PlaceAgain(cfg.codec, stream[k]);
    if Next(r.spans) <= k {
      ArriveAgrees(cfg, stream, first, st, r, k);
      FeedFresh(cfg, maxSize, stream, st, r, k);
      SettleAgrees(cfg, maxSize, stream, first,
                   st.(list := Insert(st.list, stream[k]), size := st.size + 1), RefArrive(stream, r, k));
    } else {
      FeedOld(cfg, maxSize, stream, st, r, k);
    }
  }

  lemma PickedPlaced(cfg: Config, stream: seq<RtpPacket>, first: int, st: State, r: Ref)
    requires cfg.Valid() && AllPlaced(cfg.codec, stream) && InStream(stream, r) && Refines(cfg, stream, first, st, r)
    ensures AllPlaced(cfg.codec, st.list)
  {
    hide Placed, Delivered, Wrap;
    PickPlaced(cfg.codec, stream, r.buffered);
  }

  lemma StreamPlaced(codec: Codec, stream: seq<RtpPacket>, k: nat)
    requires AllPlaced(codec, stream) && k < |stream|
    ensures Placed(codec, stream[k]) && Parseable(codec, stream[k].payload)
  {
    hide Parseable, CalcPosition;
  }

  /** Both buffers take a packet that is new. */
  lemma FeedFresh(cfg: Config, maxSize: int, stream: seq<RtpPacket>, st: State, r: Ref, k: nat)
    requires cfg.Valid() && AllPlaced(cfg.codec, stream) && InStream(stream, r) && AllPlaced(cfg.codec, st.list)
    requires Next(r.spans) <= k < |stream| && Placed(cfg.codec, stream[k])
    requires Parseable(cfg.codec, stream[k].payload)
    requires !IsStale(st, stream[k].header.seqNo) && Place(cfg.codec, stream[k]) == stream[k]
    ensures RefFeed(cfg, maxSize, stream, r, k) == RefSettle(cfg, maxSize, stream, RefArrive(stream, r, k))
    ensures AllPlaced(cfg.codec, Insert(st.list, stream[k]))
    ensures Feed(cfg, maxSize, st, stream[k])
      == Settle(cfg, maxSize, st.(list := Insert(st.list, stream[k]), size := st.size + 1))
  {
    hide *;
    InsertPlaced(cfg.codec, st.list, stream[k]);
    RefFeedNew(cfg, maxSize, stream, r, k);
    FeedNewIs(cfg, maxSize, st, stream[k]);
  }

  lemma RefFeedNew(cfg: Config, maxSize: int, stream: seq<RtpPacket>, r: Ref, k: nat)
    requires cfg.Valid() && AllPlaced(cfg.codec, stream) && InStream(stream, r) && Next(r.spans) <= k < |stream|
    ensures RefFeed(cfg, maxSize, stream, r, k) == RefSettle(cfg, maxSize, stream, RefArrive(stream, r, k))
  {
    hide RefSettle, RefArrive, InStream, Next, Placed;
  }

  lemma FeedNewIs(cfg: Config, maxSize: int, st: State, p: RtpPacket)
    requires cfg.Valid() && AllPlaced(cfg.codec, st.list) && Parseable(cfg.codec, p.payload)
    requires !IsStale(st, p.header.seqNo) && Place(cfg.codec, p) == p && AllPlaced(cfg.codec, Insert(st.list, p))
    ensures Feed(cfg, maxSize, st, p) == Settle(cfg, maxSize, st.(list := Insert(st.list, p), size := st.size + 1))
  {
    hide Settle, IsStale, Insert, AllPlaced, Parseable, Place;
  }

  lemma FeedOld(cfg: Config, maxSize: int, stream: seq<RtpPacket>, st: State, r: Ref, k: nat)
    requires cfg.Valid() && AllPlaced(cfg.codec, stream) && InStream(stream, r) && AllPlaced(cfg.codec, st.list)
    requires k < Next(r.spans) && k < |stream| && Parseable(cfg.codec, stream[k].payload)
    requires IsStale(st, stream[k].header.seqNo)
    ensures RefFeed(cfg, maxSize, stream, r, k) == r && Feed(cfg, maxSize, st, stream[k]) == st
  {
    hide Settle, RefSettle, RefArrive, IsStale, AllPlaced, Parseable, Place, InStream;
  }

  lemma PlaceAgain(codec: Codec, p: RtpPacket)
    requires Placed(codec, p)
    ensures Place(codec, p) == p
  {
  }

  lemma StaleAgrees(cfg: Config, stream: seq<RtpPacket>, first: int, st: State, r: Ref, k: nat)
    requires cfg.Valid() && AllPlaced(cfg.codec, stream) && Numbered(stream, first)
    requires InStream(stream, r) && Refines(cfg, stream, first, st, r)
    requires k < |stream| && Live(r, k)
    ensures IsStale(st, stream[k].header.seqNo) <==> k < Next(r.spans)
  {
    hide Pick, Delivered, Wrap, CompareSeq, SubSeq;
    if r.spans != [] {
      NearOrder(first + k, first + Next(r.spans) - 1);
    }
  }

  /** At every arrival the packet is live in the state the earlier arrivals lead to. */
  ghost predicate AllLive(cfg: Config, maxSize: int, stream: seq<RtpPacket>, arrivals: seq<nat>)
    requires cfg.Valid() && AllPlaced(cfg.codec, stream) && ValidArrivals(stream, arrivals)
  {
    forall n | 0 <= n < |arrivals| :: Live(RefRun(cfg, maxSize, stream, arrivals[..n]), arrivals[n])
  }

  /** Every run: duplicates, losses, any order and any number of rollovers. */
  lemma {:induction false} WrappingRefinesUnbounded(
      cfg: Config, maxSize: int, stream: seq<RtpPacket>, first: int, arrivals: seq<nat>)
    requires cfg.Valid() && AllPlaced(cfg.codec, stream) && Numbered(stream, first)
    requires ValidArrivals(stream, arrivals) && AllLive(cfg, maxSize, stream, arrivals)
    ensures Refines(cfg, stream, first, FeedAll(cfg, maxSize, EMPTY, Pick(stream, arrivals)),
                    RefRun(cfg, maxSize, stream, arrivals))
    ensures Compact(RefRun(cfg, maxSize, stream, arrivals))
  {
    if arrivals != [] {
      var n := |arrivals| - 1;
      hide *;
      RunSteps(cfg, maxSize, stream, arrivals);
      WrappingRefinesUnbounded(cfg, maxSize, stream, first, arrivals[..n]);
      FeedAgrees(cfg, maxSize, stream, first, FeedAll(cfg, maxSize, EMPTY, Pick(stream, arrivals[..n])),
                 RefRun(cfg, maxSize, stream, arrivals[..n]), arrivals[n]);
    }
  }

  /** Both runs, and the condition on the arrivals, one packet back. */
  lemma RunSteps(cfg: Config, maxSize: int, stream: seq<RtpPacket>, arrivals: seq<nat>)
    requires cfg.Valid() && AllPlaced(cfg.codec, stream) && arrivals != []
    requires ValidArrivals(stream, arrivals) && AllLive(cfg, maxSize, stream, arrivals)
    ensures var n := |arrivals| - 1;
      var was := arrivals[..n];
      && ValidArrivals(stream, was) && arrivals[n] < |stream| && AllLive(cfg, maxSize, stream, was)
      && Live(RefRun(cfg, maxSize, stream, was), arrivals[n])
      && RefRun(cfg, maxSize, stream, arrivals) == RefFeed(cfg, maxSize, stream, RefRun(cfg, maxSize, stream, was), arrivals[n])
      && FeedAll(cfg, maxSize, EMPTY, Pick(stream, arrivals))
         == Feed(cfg, maxSize, FeedAll(cfg, maxSize, EMPTY, Pick(stream, was)), stream[arrivals[n]])
  {
    hide *;
    var n := |arrivals| - 1;
    LiveBefore(cfg, maxSize, stream, arrivals);
    RefRunStep(cfg, maxSize, stream, arrivals);
    PickSnoc(stream, arrivals);
    PickParseable(cfg, stream, arrivals);
    FeedAllStep(cfg, maxSize, Pick(stream, arrivals));
  }

  lemma LiveBefore(cfg: Config, maxSize: int, stream: seq<RtpPacket>, arrivals: seq<nat>)
    requires cfg.Valid() && AllPlaced(cfg.codec, stream) && arrivals != []
    requires ValidArrivals(stream, arrivals) && AllLive(cfg, maxSize, stream, arrivals)
    ensures var n := |arrivals| - 1;
      var was := arrivals[..n];
      && ValidArrivals(stream, was) && arrivals[n] < |stream| && AllLive(cfg, maxSize, stream, was)
      && Live(RefRun(cfg, maxSize, stream, was), arrivals[n])
    ensures forall i | 0 <= i < |arrivals| :: arrivals[i] < |stream|
  {
    hide Live, RefRun, Placed;
    var n := |arrivals| - 1;
    assert forall i | 0 <= i < n :: arrivals[..n][..i] == arrivals[..i];
  }

  lemma RefRunStep(cfg: Config, maxSize: int, stream: seq<RtpPacket>, arrivals: seq<nat>)
    requires cfg.Valid() && AllPlaced(cfg.codec, stream) && arrivals != [] && ValidArrivals(stream, arrivals)
    ensures var n := |arrivals| - 1;
      ValidArrivals(stream, arrivals[..n]) && arrivals[n] < |stream|
      && RefRun(cfg, maxSize, stream, arrivals)
        == RefFeed(cfg, maxSize, stream, RefRun(cfg, maxSize, stream, arrivals[..n]), arrivals[n])
  {
    hide RefFeed, Placed;
  }

  lemma PickSnoc(stream: seq<RtpPacket>, arrivals: seq<nat>)
    requires arrivals != [] && ValidArrivals(stream, arrivals)
    ensures var n := |arrivals| - 1;
      Pick(stream, arrivals)[..n] == Pick(stream, arrivals[..n]) && Pick(stream, arrivals)[n] == stream[arrivals[n]]
  {
  }

  lemma PickParseable(cfg: Config, stream: seq<RtpPacket>, arrivals: seq<nat>)
    requires AllPlaced(cfg.codec, stream) && ValidArrivals(stream, arrivals)
    ensures forall i | 0 <= i < |arrivals| :: Parseable(cfg.codec, Pick(stream, arrivals)[i].payload)
  {
    hide Parseable, CalcPosition;
    forall i | 0 <= i < |arrivals| ensures Parseable(cfg.codec, Pick(stream, arrivals)[i].payload) {
      assert Placed(cfg.codec, stream[arrivals[i]]);
    }
  }

  lemma FeedAllStep(cfg: Config, maxSize: int, pkts: seq<RtpPacket>)
    requires cfg.Valid() && pkts != [] && forall i | 0 <= i < |pkts| :: Parseable(cfg.codec, pkts[i].payload)
    ensures AllPlaced(cfg.codec, EMPTY.list)
    ensures var n := |pkts| - 1;
      FeedAll(cfg, maxSize, EMPTY, pkts) == Feed(cfg, maxSize, FeedAll(cfg, maxSize, EMPTY, pkts[..n]), pkts[n])
  {
    hide Feed, Parseable, Placed;
  }
}
