/** The receiver report statistics of `rtprtcp/rtcp_rr_producer.go`. */
module RrProducers {
  import opened Bytes
  import opened SeqNumber

  /** The counters; -1 in `maxSeq` and `baseSeq` stands for "no packet yet". */
  datatype Counters = Counters(
    maxSeq: int, baseSeq: int, cycles: uint32, received: uint32, extendedSeq: uint32,
    expectedPrior: uint32, receivedPrior: uint32)

  const START := Counters(-1, -1, 0, 0, 0, 0, 0)

  predicate Sound(c: Counters) {
    -1 <= c.maxSeq < 0x1_0000 && -1 <= c.baseSeq < 0x1_0000 && (c.maxSeq == -1 <==> c.baseSeq == -1)
  }

  function W32(x: int): uint32 {
    x % 0x1_0000_0000
  }

  /** `cycles << 16 | maxSeq` in 32 bits. */
  function Extend(cycles: uint32, maxSeq: uint16): uint32 {
    cycles % 0x1_0000 * 0x1_0000 + maxSeq
  }

  function Fed(c: Counters, seqno: uint16): (r: Counters)
    requires Sound(c)
    ensures Sound(r) && r.maxSeq >= 0
  {
    var base := if c.baseSeq == -1 then seqno as int else c.baseSeq;
    var ahead := c.maxSeq != -1 && CompareSeq(seqno, c.maxSeq) > 0;
    var cycles := if ahead && seqno < c.maxSeq then W32(c.cycles + 1) else c.cycles;
    var max := if c.maxSeq == -1 || ahead then seqno as int else c.maxSeq;
    c.(received := W32(c.received + 1), baseSeq := base, maxSeq := max, cycles := cycles,
       extendedSeq := Extend(cycles, max))
  }

  datatype Report = Report(fraction: byte, lost: uint32, cycles: uint16, extendedSeq: uint32)

  function Expected(c: Counters): uint32 {
    W32(c.extendedSeq - c.baseSeq + 1)
  }

  function Lost(c: Counters): uint32 {
    if Expected(c) < c.received then 0 else Expected(c) - c.received
  }

  /** The loss fraction of an interval, as computed in unsigned 32 bits. */
  function Fraction(expected: uint32, received: uint32): byte {
    var lost := W32(expected - received);
    if expected == 0 || lost == 0 then 0 else W32(lost * 0x100) / expected % 0x100
  }

  function Reported(c: Counters): Report {
    Report(Fraction(W32(Expected(c) - c.expectedPrior), W32(c.received - c.receivedPrior)), Lost(c),
           c.cycles % 0x1_0000, c.extendedSeq)
  }

  class RrProducer {
    var maxSeq: int
    var baseSeq: int
    var cycles: uint32
    var received: uint32
    var extendedSeq: uint32
    var expectedPrior: uint32
    var receivedPrior: uint32

    ghost function Value(): Counters
      reads this
    {
      Counters(maxSeq, baseSeq, cycles, received, extendedSeq, expectedPrior, receivedPrior)
    }

    ghost predicate Valid()
      reads this
    {
      Sound(Value())
    }

    constructor ()
      ensures Valid() && Value() == START
    {
      maxSeq, baseSeq := -1, -1;
      cycles, received, extendedSeq, expectedPrior, receivedPrior := 0, 0, 0, 0, 0;
    }

    method FeedRtpPacket(seqno: uint16)
      requires Valid()
      modifies this
      ensures Valid() && Value() == Fed(old(Value()), seqno)
    {
      received := W32(received + 1);
      if baseSeq == -1 {
        baseSeq := seqno;
      }
      if maxSeq == -1 {
        maxSeq := seqno;
      } else if CompareSeq(seqno, maxSeq) > 0 {
        if seqno < maxSeq {
          cycles := W32(cycles + 1);
        }
        maxSeq := seqno;
      }
      extendedSeq := Extend(cycles, maxSeq);
    }

    method Produce() returns (r: Option<Report>)
      requires Valid()
      modifies `expectedPrior, `receivedPrior
      ensures Valid() && r == if baseSeq == -1 then None else Some(Reported(old(Value())))
      ensures Value() == AfterOne(old(Value()), SenderReport)
    {
      hide Fraction, W32, Reported, Expected, Lost, AfterOne, Fed;
      ghost var c := Value();
      ReportedIs(c);
      if baseSeq == -1 {
        return None;
      }
      var lost: uint32 := 0;
      var expected := W32(extendedSeq - baseSeq + 1);
      if expected >= received {
        lost := expected - received;
      }
      var expectedInterval: int := W32(expected - expectedPrior);
      expectedPrior := expected;
      var receivedInterval: int := W32(received - receivedPrior);
      receivedPrior := received;
      var fraction := LossFraction(expectedInterval, receivedInterval);
      return Some(Report(fraction, lost, cycles % 0x1_0000, extendedSeq));
    }

    static method LossFraction(expectedInterval: uint32, receivedInterval: uint32) returns (fraction: byte)
      ensures fraction == Fraction(expectedInterval, receivedInterval)
    {
      hide W32;
      var lostInterval: int := W32(expectedInterval - receivedInterval);
      fraction := 0;
      if expectedInterval != 0 && lostInterval > 0 {
        fraction := W32(lostInterval * 0x100) / expectedInterval % 0x100;
      }
    }
  }

  lemma ReportedIs(c: Counters)
    requires Sound(c)
    ensures
      var expected := W32(c.extendedSeq - c.baseSeq + 1);
      AfterOne(c, SenderReport)
        == (if c.baseSeq == -1 then c else c.(expectedPrior := expected, receivedPrior := c.received))
      && Reported(c)
        == Report(Fraction(W32(expected - c.expectedPrior), W32(c.received - c.receivedPrior)),
                  if expected < c.received then 0 else expected - c.received, c.cycles % 0x1_0000, c.extendedSeq)
  {
    hide Fraction, W32;
  }

  /** On any input the extended number never goes back, except where its 32 bits wrap. */
  lemma NeverBackExact(c: Counters, seqno: uint16)
    requires Sound(c) && c.maxSeq >= 0 && c.extendedSeq == Extend(c.cycles, c.maxSeq)
    ensures var r := Fed(c, seqno);
      r.extendedSeq < c.extendedSeq <==>
        CompareSeq(seqno, c.maxSeq) > 0 && seqno < c.maxSeq && c.cycles % 0x1_0000 == 0xFFFF
  {
    var r := Fed(c, seqno);
    if r.cycles != c.cycles {
      assert r.cycles % 0x1_0000 == if c.cycles % 0x1_0000 == 0xFFFF then 0 else c.cycles % 0x1_0000 + 1;
    }
  }

  // Against the true, unwrapped packet indices

  function Highest(indices: seq<int>): (m: int)
    requires indices != []
    ensures m in indices && m >= indices[0] && forall k | 0 <= k < |indices| :: indices[k] <= m
  {
    var n := |indices| - 1;
    if n == 0 then indices[0]
    else if Highest(indices[..n]) > indices[n] then Highest(indices[..n]) else indices[n]
  }

  /** Each packet is within 16384 of the highest before it; the first is the base of the count. */
  predicate Close(indices: seq<int>) {
    indices != [] && 0 <= indices[0] < 0x1_0000
    && forall k | 0 < k < |indices| :: CloseAt(indices, k)
  }

  predicate CloseAt(indices: seq<int>, k: nat)
    requires 0 < k < |indices|
  {
    -0x4000 < indices[k] - Highest(indices[..k]) < 0x4000
  }

  function FedAll(indices: seq<int>): (c: Counters)
    ensures Sound(c) && (indices != [] ==> c.maxSeq >= 0)
  {
    var n := |indices| - 1;
    if indices == [] then START else Fed(FedAll(indices[..n]), Wrap(indices[n]))
  }

  /** The counters of a run whose highest index is `m`. */
  predicate Counts(c: Counters, base: int, m: int, n: nat) {
    0 <= m < 0x1_0000_0000 && n < 0x1_0000_0000 && c == Counters(Wrap(m), base, m / 0x1_0000, n, m, 0, 0)
  }

  lemma Fits32(x: int)
    requires 0 <= x < 0x1_0000_0000
    ensures W32(x) == x
  {
  }

  /** A step of less than 16384 passes at most one rollover. */
  lemma Rollover(m: nat, i: nat)
    requires m < i < m + 0x4000
    ensures i / 0x1_0000 == m / 0x1_0000 + if Wrap(i) < Wrap(m) then 1 else 0
  {
  }

  /** A 32-bit index is its cycles and its sequence number. */
  lemma Extended(m: uint32)
    ensures m / 0x1_0000 < 0x1_0000 && Extend(m / 0x1_0000, Wrap(m)) == m && W32(m / 0x1_0000) == m / 0x1_0000
  {
  }

  lemma FedOn(c: Counters, seqno: uint16)
    requires Sound(c) && c.maxSeq >= 0
    ensures
      var ahead := CompareSeq(seqno, c.maxSeq) > 0;
      var cycles, max := if ahead && seqno < c.maxSeq then W32(c.cycles + 1) else c.cycles,
                         if ahead then seqno as int else c.maxSeq;
      Fed(c, seqno)
        == c.(received := W32(c.received + 1), maxSeq := max, cycles := cycles, extendedSeq := Extend(cycles, max))
  {
    hide CompareSeq, W32, Extend;
  }

  lemma CountsStep(c: Counters, base: int, m: int, n: nat, i: int)
    requires 0 <= base < 0x1_0000 && 0 <= m < 0x1_0000_0000 && i < 0x1_0000_0000 && n < 0xFFFF_FFFF
    requires Counts(c, base, m, n) && -0x4000 < i - m < 0x4000
    ensures Counts(Fed(c, Wrap(i)), base, if m > i then m else i, n + 1)
  {
    hide Fed, CompareSeq, W32, Extend, Wrap;
    NearOrder(i, m);
    Fits32(n + 1);
    FedOn(c, Wrap(i));
    Extended(m);
    if i > m {
      Rollover(m, i);
      Extended(i);
    }
  }

  lemma CountsFirst(i: int)
    requires 0 <= i < 0x1_0000
    ensures Counts(Fed(START, Wrap(i)), i, i, 1)
  {
  }

  /** The extended number is the true index of the highest packet, through every rollover. */
  lemma {:induction false} TrueMaximum(indices: seq<int>)
    requires Close(indices) && Highest(indices) < 0x1_0000_0000 && |indices| < 0x1_0000_0000
    ensures Counts(FedAll(indices), indices[0], Highest(indices), |indices|)
  {
    hide Counts, Fed, START;
    var n := |indices| - 1;
    if n == 0 {
      assert FedAll(indices[..0]) == START;
      CountsFirst(indices[0]);
    } else {
      var before := indices[..n];
      CloseBefore(indices, n);
      TrueMaximum(before);
      assert CloseAt(indices, n);
      CountsStep(FedAll(before), indices[0], Highest(before), n, indices[n]);
    }
  }

  lemma CloseBefore(indices: seq<int>, n: nat)
    requires Close(indices) && 0 < n < |indices|
    ensures Close(indices[..n])
  {
    forall k | 0 < k < n
      ensures CloseAt(indices[..n], k)
    {
      assert indices[..n][..k] == indices[..k];
      assert CloseAt(indices, k);
    }
  }

  // Loss

  /** How many indices from `lo` to `hi - 1` no packet had. */
  function Missing(indices: seq<int>, lo: int, hi: int): nat
    decreases hi - lo
  {
    if hi <= lo then 0 else Missing(indices, lo, hi - 1) + if hi - 1 in indices then 0 else 1
  }

  /** How many packets repeat an earlier one or come from before `lo`. */
  function Extras(indices: seq<int>, lo: int): nat {
    var n := |indices| - 1;
    if indices == [] then 0
    else Extras(indices[..n], lo) + if indices[n] < lo || indices[n] in indices[..n] then 1 else 0
  }

  /** One more packet fills a gap, or is an extra. */
  lemma {:induction false} MissingStep(before: seq<int>, x: int, lo: int, hi: int)
    ensures Missing(before + [x], lo, hi)
      == Missing(before, lo, hi) - if lo <= x < hi && x !in before then 1 else 0
    decreases hi - lo
  {
    if hi > lo {
      MissingStep(before, x, lo, hi - 1);
    }
  }

  lemma {:induction false} NoneMissing(lo: int, hi: int)
    requires lo <= hi
    ensures Missing([], lo, hi) == hi - lo
    decreases hi - lo
  {
    if hi > lo {
      NoneMissing(lo, hi - 1);
    }
  }

  /** Every packet below `hi` fills a gap or is an extra. */
  lemma {:induction false} EachCounts(indices: seq<int>, lo: int, hi: int)
    requires lo <= hi && forall k | 0 <= k < |indices| :: indices[k] < hi
    ensures hi - lo - Missing(indices, lo, hi) + Extras(indices, lo) == |indices|
    decreases |indices|
  {
    if indices == [] {
      NoneMissing(lo, hi);
    } else {
      var n := |indices| - 1;
      EachCounts(indices[..n], lo, hi);
      MissingStep(indices[..n], indices[n], lo, hi);
      assert indices == indices[..n] + [indices[n]];
    }
  }

  /** The reported loss is the number of missing packets less the extras, and so it is exact if and
      only if there are no extras, or nothing is missing. */
  lemma LossExact(indices: seq<int>)
    requires Close(indices) && Highest(indices) < 0xFFFF_FFFF && |indices| < 0x1_0000_0000
    ensures
      var missing, extras := Missing(indices, indices[0], Highest(indices) + 1), Extras(indices, indices[0]);
      Reported(FedAll(indices)).lost == (if missing < extras then 0 else missing - extras)
      && (Reported(FedAll(indices)).lost == missing <==> extras == 0 || missing == 0)
  {
    hide *;
    CloseBase(indices);
    TrueMaximum(indices);
    EachCounts(indices, indices[0], Highest(indices) + 1);
    LostIs(FedAll(indices), indices[0], Highest(indices), |indices|);
  }

  lemma CloseBase(indices: seq<int>)
    requires Close(indices)
    ensures indices != [] && 0 <= indices[0]
  {
  }

  lemma LostIs(c: Counters, base: int, m: int, n: nat)
    requires Counts(c, base, m, n) && Sound(c) && 0 <= base <= m < 0xFFFF_FFFF
    ensures Reported(c).lost == if m - base + 1 < n then 0 else m - base + 1 - n
  {
    hide Fraction, Wrap, W32;
    Fits32(m - base + 1);
  }

  // The fraction of an interval

  /** The share of the expected packets that was lost, in 256ths and rounded down; nothing is lost when
      more than expected came in. */
  function TrueFraction(expected: uint32, received: uint32): nat {
    if expected <= received then 0 else (expected - received) * 0x100 / expected
  }

  lemma Larger(a: nat, b: nat, n: nat)
    requires a <= b
    ensures a * n <= b * n
  {
  }

  lemma DivParts(a: nat, n: nat)
    requires n > 0
    ensures a == a / n * n + a % n && a % n < n
  {
  }

  lemma Distributes(a: nat, b: nat, n: nat)
    ensures (a + b) * n == a * n + b * n
  {
  }

  lemma Gap(a: nat, b: nat, n: nat)
    requires a < b
    ensures a * n + n <= b * n
  {
    Distributes(a, 1, n);
    Larger(a + 1, b, n);
  }

  /** A number of wholes and some 256ths. */
  lemma Times256(lost: nat, q: nat, n: nat, s: nat, f: nat, t: nat)
    requires lost == q * n + s && s * 0x100 == f * n + t
    ensures lost * 0x100 == (q * 0x100 + f) * n + t
  {
    Distributes(q * 0x100, f, n);
    assert q * n * 0x100 == q * 0x100 * n;
  }

  lemma LastByte(q: nat, f: nat)
    requires f < 0x100
    ensures (q * 0x100 + f) % 0x100 == f
  {
  }

  lemma DivUnique(a: nat, q: nat, n: nat, r: nat)
    requires a == q * n + r && r < n
    ensures a / n == q
  {
    hide *;
    var p := a / n;
    DivParts(a, n);
    if p < q {
      Gap(p, q, n);
    } else if p > q {
      Gap(q, p, n);
    }
  }

  lemma DivGrows(a: nat, b: nat, n: nat)
    requires n > 0 && a <= b
    ensures a / n <= b / n
  {
    hide *;
    var q, r := a / n, b / n;
    DivParts(a, n);
    DivParts(b, n);
    if q > r {
      Gap(r, q, n);
    }
  }

  lemma DivStep(a: nat, n: nat)
    requires n > 0
    ensures (a + n) / n == a / n + 1
  {
    hide *;
    DivParts(a, n);
    Distributes(a / n, 1, n);
    DivUnique(a + n, a / n + 1, n, a % n);
  }

  lemma BelowWhole(lost: nat, expected: nat)
    requires lost < expected
    ensures lost * 0x100 / expected < 0x100
  {
    hide *;
    var q := lost * 0x100 / expected;
    DivParts(lost * 0x100, expected);
    if q >= 0x100 {
      Larger(0x100, q, expected);
    }
  }

  /** The byte that is left of a number of 256ths: the whole parts are lost. */
  lemma WholeLost(lost: nat, expected: nat)
    requires expected > 0
    ensures lost * 0x100 / expected % 0x100 == lost % expected * 0x100 / expected
  {
    hide *;
    var q, s := lost / expected, lost % expected;
    var f := s * 0x100 / expected;
    DivParts(lost, expected);
    BelowWhole(s, expected);
    DivParts(s * 0x100, expected);
    Times256(lost, q, expected, s, f, s * 0x100 % expected);
    LastByte(q, f);
    DivUnique(lost * 0x100, q * 0x100 + f, expected, s * 0x100 % expected);
  }

  lemma ModOf(q: int, r: uint32)
    ensures W32(q * 0x1_0000_0000 + r) == r
  {
  }

  lemma Low24(q: int, r: uint32)
    ensures (q * 0x1_0000_0000 + r) % 0x100_0000 == r % 0x100_0000
  {
    assert q * 0x1_0000_0000 + r == q * 0x100 * 0x100_0000 + r;
  }

  lemma Parts32(x: int)
    ensures x == x / 0x1_0000_0000 * 0x1_0000_0000 + W32(x)
  {
  }

  lemma Parts24(w: nat)
    ensures w == w / 0x100_0000 * 0x100_0000 + w % 0x100_0000
  {
  }

  /** Shifted left by 8 in 32 bits, a number keeps 24. */
  lemma Shifted(x: int)
    ensures W32(W32(x) * 0x100) == x % 0x100_0000 * 0x100
    ensures W32(x) == 0 ==> x % 0x100_0000 == 0
  {
    hide W32;
    var w := W32(x);
    Parts32(x);
    Low24(x / 0x1_0000_0000, w);
    Parts24(w);
    ModOf(w / 0x100_0000, w % 0x100_0000 * 0x100);
  }

  lemma FractionIs(expected: uint32, received: uint32)
    requires expected > 0
    ensures Fraction(expected, received)
      == if W32(expected - received) == 0 then 0 else W32(W32(expected - received) * 0x100) / expected % 0x100
  {
    hide W32;
  }

  lemma NoneOf(n: nat)
    requires n > 0
    ensures 0 % n * 0x100 / n == 0
  {
  }

  /** What the unsigned arithmetic computes: the loss keeps 24 bits, and what exceeds the expectation
      wraps around it. */
  lemma FractionFormula(expected: uint32, received: uint32)
    requires expected > 0
    ensures Fraction(expected, received) == (expected - received) % 0x100_0000 % expected * 0x100 / expected
  {
    hide *;
    FractionIs(expected, received);
    Shifted(expected - received);
    WholeLost((expected - received) % 0x100_0000, expected);
    NoneOf(expected);
  }

  /** The fraction is right exactly when, of a loss, something was received and fewer than 2^24 were
      lost, and of a surplus, its wrapped value rounds down to 0. */
  predicate FractionRight(expected: uint32, received: uint32) {
    expected == 0
    || if received <= expected then received > 0 && expected - received < 0x100_0000
       else (expected - received) % 0x100_0000 % expected * 0x100 < expected
  }

  lemma FractionExact(expected: uint32, received: uint32)
    ensures Fraction(expected, received) == TrueFraction(expected, received) <==> FractionRight(expected, received)
  {
    hide Fraction, TrueFraction, W32;
    if expected == 0 {
      NothingExpected(received);
    } else {
      FractionFormula(expected, received);
      TrueFractionIs(expected, received);
      if received > expected {
        ZeroExact((expected - received) % 0x100_0000 % expected * 0x100, expected);
      } else if expected - received >= 0x100_0000 {
        TooManyLost(expected, expected - received);
      } else {
        FewLost(expected, expected - received);
      }
    }
  }

  lemma NothingExpected(received: uint32)
    ensures Fraction(0, received) == 0 == TrueFraction(0, received)
  {
  }

  lemma TrueFractionIs(expected: uint32, received: uint32)
    requires expected > 0
    ensures TrueFraction(expected, received)
      == if received <= expected then (expected - received) * 0x100 / expected else 0
  {
    if received == expected {
      NoneOf(expected);
    }
  }

  lemma ZeroExact(a: nat, n: nat)
    requires n > 0
    ensures a / n == 0 <==> a < n
  {
  }

  lemma Small24(lost: nat)
    requires lost < 0x100_0000
    ensures lost % 0x100_0000 == lost
  {
  }

  lemma Below(a: nat, n: nat)
    requires n > 0
    ensures a % n <= a && (a < n ==> a % n == a) && n % n == 0
  {
  }

  lemma FewLost(expected: nat, lost: nat)
    requires lost <= expected && expected > 0 && lost < 0x100_0000
    ensures lost % 0x100_0000 % expected * 0x100 / expected == lost * 0x100 / expected <==> lost < expected
  {
    hide *;
    Small24(lost);
    Below(lost, expected);
    if lost == expected {
      DivUnique(lost * 0x100, 0x100, expected, 0);
      DivUnique(0, 0, expected, 0);
    }
  }

  lemma TooManyLost(expected: uint32, lost: nat)
    requires 0x100_0000 <= lost <= expected
    ensures lost % 0x100_0000 % expected * 0x100 / expected < lost * 0x100 / expected
  {
    hide *;
    var s := lost % 0x100_0000;
    Below(s, expected);
    DivGrows(s % expected * 0x100, s * 0x100, expected);
    DivStep(s * 0x100, expected);
    DivGrows(s * 0x100 + expected, lost * 0x100, expected);
  }

  /** Three packets, the last a duplicate: one more than expected, and a loss of one half is reported. */
  lemma SurplusMisread()
    ensures Reported(After([Packet(0), Packet(1), Packet(1)])).fraction == 0x80
  {
    hide After, Reported;
    var events := [Packet(0), Packet(1), Packet(1)];
    FirstPacket(events[..1]);
    assert events[..2][..1] == events[..1];
    AfterLast(events[..2]);
    AfterLast(events);
    MisreadCounters();
  }

  lemma FirstPacket(events: seq<Event>)
    requires events == [Packet(0)]
    ensures After(events) == Fed(START, 0)
  {
    hide Fed;
    assert After(events[..0]) == START;
  }

  lemma MisreadCounters()
    ensures Reported(Fed(Fed(Fed(START, 0), 1), 1)).fraction == 0x80
  {
    hide Fed, Reported;
    CountsFirst(0);
    CountsStep(Fed(START, Wrap(0)), 0, 0, 1, 1);
    CountsStep(Fed(Fed(START, Wrap(0)), Wrap(1)), 0, 1, 2, 1);
    assert Wrap(0) == 0 && Wrap(1) == 1;
    HalfReported();
  }

  lemma HalfReported()
    ensures Reported(Counters(1, 0, 0, 3, 1, 0, 0)).fraction == 0x80
  {
    hide Fraction;
    assert Expected(Counters(1, 0, 0, 3, 1, 0, 0)) == 2;
    FractionFormula(2, 3);
  }

  datatype Event = Packet(seqno: uint16) | SenderReport

  function AfterOne(c: Counters, event: Event): (r: Counters)
    requires Sound(c)
    ensures Sound(r)
  {
    match event
    case Packet(seqno) => Fed(c, seqno)
    case SenderReport => if c.baseSeq == -1 then c else c.(expectedPrior := Expected(c), receivedPrior := c.received)
  }

  /** The counters after a run of packets and reports, in any order. */
  function After(events: seq<Event>): (c: Counters)
    ensures Sound(c)
  {
    var n := |events| - 1;
    if events == [] then START else AfterOne(After(events[..n]), events[n])
  }

  /** The expectation of an interval grows only with a packet. */
  lemma {:induction false} IntervalNotEmpty(events: seq<Event>)
    requires |events| < 0x1_0000_0000
    ensures Paired(After(events), |events|)
  {
    hide *;
    var n := |events| - 1;
    if events == [] {
      StartPaired();
    } else {
      IntervalNotEmpty(events[..n]);
      AfterLast(events);
      PairedStep(After(events[..n]), events[n], n);
    }
  }

  /** The priors of the two counters belong together. */
  predicate Paired(c: Counters, n: nat) {
    c.receivedPrior <= c.received <= n
    && (c.received == c.receivedPrior && c.baseSeq != -1 ==> Expected(c) == c.expectedPrior)
  }

  lemma StartPaired()
    ensures After([]).baseSeq == -1 && Paired(After([]), 0)
  {
  }

  lemma AfterLast(events: seq<Event>)
    requires events != []
    ensures After(events) == AfterOne(After(events[..|events| - 1]), events[|events| - 1])
  {
    hide Fed, Expected;
  }

  lemma PairedStep(c: Counters, event: Event, n: nat)
    requires Sound(c) && Paired(c, n) && n < 0xFFFF_FFFF
    ensures Paired(AfterOne(c, event), n + 1)
  {
    hide Expected, CompareSeq, Extend, W32;
    Fits32(c.received + 1);
    assert event.SenderReport? ==> Expected(AfterOne(c, event)) == Expected(c) by {
      SameExpectation(c);
    }
  }

  lemma SameExpectation(c: Counters)
    ensures Expected(c.(expectedPrior := Expected(c), receivedPrior := c.received)) == Expected(c)
  {
  }

  /** In every run: an interval with a loss of fewer than 2^24 packets reports it correctly, and one with
      a surplus exactly when the surplus rounds to nothing. */
  lemma FractionInRuns(events: seq<Event>)
    requires |events| < 0x1_0000_0000 && After(events).baseSeq != -1
    ensures
      var c := After(events);
      var expected, received := W32(Expected(c) - c.expectedPrior), c.received - c.receivedPrior;
      0 <= received
      && (Reported(c).fraction == TrueFraction(expected, received) <==>
        if received <= expected then expected - received < 0x100_0000
        else expected == 0 || (expected - received) % 0x100_0000 % expected * 0x100 < expected)
  {
    hide After, Expected, Fraction, TrueFraction, Lost, W32;
    IntervalNotEmpty(events);
    SameFits(After(events));
    var c := After(events);
    FractionExact(W32(Expected(c) - c.expectedPrior), c.received - c.receivedPrior);
  }

  lemma SameFits(c: Counters)
    ensures W32(c.expectedPrior - c.expectedPrior) == 0
    ensures c.receivedPrior <= c.received ==> W32(c.received - c.receivedPrior) == c.received - c.receivedPrior
  {
  }
}
