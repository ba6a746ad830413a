/** What a receiver report says of its interval, in terms of the packets that came since the report before. */
module RrIntervals {
  import opened Bytes
  import opened SeqNumber
  import opened RrProducers

  /** The arrival of the packet with a true index, or a report. */
  datatype Happening = Arrival(i: int) | Report

  function EventOf(h: Happening): Event {
    match h
    case Arrival(i) => Packet(Wrap(i))
    case Report => SenderReport
  }

  function Events(hs: seq<Happening>): (r: seq<Event>)
    ensures |r| == |hs|
    ensures forall k | 0 <= k < |hs| :: r[k] == EventOf(hs[k])
  {
    seq(|hs|, k requires 0 <= k < |hs| => EventOf(hs[k]))
  }

  /** The indices of the packets. */
  function Indices(hs: seq<Happening>): seq<int> {
    var n := |hs| - 1;
    if hs == [] then [] else Indices(hs[..n]) + if hs[n].Arrival? then [hs[n].i] else []
  }

  /** The expectation when the highest index is that of `indices`. */
  function Due(indices: seq<int>): uint32 {
    if indices == [] then 0 else W32(Highest(indices) - indices[0] + 1)
  }

  /** The packets that came before the last report that was sent; no report is sent before the first packet. */
  function Covered(hs: seq<Happening>): seq<int> {
    var n := |hs| - 1;
    if hs == [] then [] else if hs[n].Report? then Indices(hs[..n]) else Covered(hs[..n])
  }

  predicate Sane(hs: seq<Happening>) {
    |hs| < 0x1_0000_0000 && (Indices(hs) != [] ==> Close(Indices(hs)) && Highest(Indices(hs)) < 0x1_0000_0000)
  }

  lemma Prefix(hs: seq<Happening>)
    requires hs != [] && Sane(hs)
    ensures Sane(hs[..|hs| - 1]) && |Indices(hs)| <= |Indices(hs[..|hs| - 1])| + 1
  {
    hide *;
    IndicesSnoc(hs);
    var all, n := Indices(hs), |hs| - 1;
    SaneParts(hs);
    if all != Indices(hs[..n]) && Indices(hs[..n]) != [] {
      CloseBefore(all, |all| - 1);
      HighestGrows(all, |all| - 1);
    }
    SaneIs(hs[..n]);
  }

  lemma IndicesSnoc(hs: seq<Happening>)
    requires hs != []
    ensures
      var all, before := Indices(hs), Indices(hs[..|hs| - 1]);
      all == before || (|all| == |before| + 1 && all[..|all| - 1] == before)
  {
  }

  lemma SaneParts(hs: seq<Happening>)
    requires Sane(hs)
    ensures |hs| < 0x1_0000_0000
    ensures Indices(hs) != [] ==> Close(Indices(hs)) && Highest(Indices(hs)) < 0x1_0000_0000
  {
    hide Close, Highest, Indices;
  }

  lemma SaneIs(hs: seq<Happening>)
    requires |hs| < 0x1_0000_0000
    requires Indices(hs) != [] ==> Close(Indices(hs)) && Highest(Indices(hs)) < 0x1_0000_0000
    ensures Sane(hs)
  {
    hide Close, Highest, Indices;
  }

  lemma {:induction false} FewIndices(hs: seq<Happening>)
    ensures |Indices(hs)| <= |hs|
  {
    if hs != [] {
      FewIndices(hs[..|hs| - 1]);
    }
  }

  lemma PriorsKept(c: Counters, seqno: uint16, e: uint32, r: uint32)
    requires Sound(c)
    ensures var d := c.(expectedPrior := e, receivedPrior := r);
      Sound(d) && Fed(d, seqno) == Fed(c, seqno).(expectedPrior := e, receivedPrior := r)
  {
    hide CompareSeq, Extend, W32;
  }

  /** The counters of the packets, and the two priors of those before the last report. */
  function Sum(hs: seq<Happening>): Counters {
    FedAll(Indices(hs)).(expectedPrior := Due(Covered(hs)), receivedPrior := |Covered(hs)| % 0x1_0000_0000)
  }

  lemma {:induction false} RunSums(hs: seq<Happening>)
    requires Sane(hs)
    ensures After(Events(hs)) == Sum(hs)
    decreases |hs|
  {
    hide *;
    if hs == [] {
      StartSums();
    } else {
      var n := |hs| - 1;
      Prefix(hs);
      RunSums(hs[..n]);
      EventsSnoc(hs);
      AfterLast(Events(hs));
      if hs[n].Arrival? {
        ArrivalSums(hs);
      } else {
        ReportSums(hs);
      }
    }
  }

  lemma StartSums()
    ensures After(Events([])) == Sum([])
  {
  }

  lemma EventsSnoc(hs: seq<Happening>)
    requires hs != []
    ensures
      var n := |hs| - 1;
      Events(hs) != [] && |Events(hs)| - 1 == n && Events(hs)[..n] == Events(hs[..n])
      && Events(hs)[n] == EventOf(hs[n])
  {
    hide EventOf;
  }

  lemma ArrivalSums(hs: seq<Happening>)
    requires hs != [] && hs[|hs| - 1].Arrival?
    ensures Sound(Sum(hs[..|hs| - 1])) && AfterOne(Sum(hs[..|hs| - 1]), EventOf(hs[|hs| - 1])) == Sum(hs)
  {
    var n := |hs| - 1;
    var all, before := Indices(hs), Indices(hs[..n]);
    assert all[..|all| - 1] == before && all[|all| - 1] == hs[n].i;
    PriorsKept(FedAll(before), Wrap(hs[n].i), Due(Covered(hs[..n])), |Covered(hs[..n])| % 0x1_0000_0000);
    hide Fed, Due, Wrap, Sound;
  }

  lemma ReportSums(hs: seq<Happening>)
    requires hs != [] && hs[|hs| - 1].Report? && Sane(hs)
    ensures Sound(Sum(hs[..|hs| - 1])) && AfterOne(Sum(hs[..|hs| - 1]), EventOf(hs[|hs| - 1])) == Sum(hs)
  {
    var n := |hs| - 1;
    FewIndices(hs);
    assert Indices(hs) == Indices(hs[..n]) && Covered(hs) == Indices(hs[..n]);
    if Indices(hs) != [] {
      TrueMaximum(Indices(hs));
      SmallCount(|Indices(hs)|);
    } else {
      CoveredEmpty(hs[..n]);
    }
    hide Close, Highest, FedAll, Indices, Covered, W32;
  }

  lemma SmallCount(n: nat)
    ensures n < 0x1_0000_0000 ==> n % 0x1_0000_0000 == n
  {
  }

  lemma {:induction false} CoveredEmpty(hs: seq<Happening>)
    requires Indices(hs) == []
    ensures Covered(hs) == []
  {
    if hs != [] {
      CoveredEmpty(hs[..|hs| - 1]);
    }
  }

  lemma {:induction false} CoveredPrefix(hs: seq<Happening>)
    ensures Covered(hs) <= Indices(hs)
  {
    if hs != [] {
      CoveredPrefix(hs[..|hs| - 1]);
    }
  }

  lemma {:induction false} HighestGrows(a: seq<int>, m: nat)
    requires 0 < m <= |a|
    ensures Highest(a[..m]) <= Highest(a) && a[..m][0] == a[0]
    decreases |a|
  {
    if m < |a| {
      var n := |a| - 1;
      HighestGrows(a[..n], m);
      assert a[..n][..m] == a[..m];
    } else {
      assert a[..m] == a;
    }
  }

  /** In every run with reports at any time, and packets in any order within the window: the next report has the
      true highest index and its cycles, and its fraction is that of an interval in which as many packets came as
      since the last report that was sent, and as many are due as the highest index has grown by since. */
  lemma IntervalExact(hs: seq<Happening>)
    requires Sane(hs) && Indices(hs) != []
    ensures
      var all, before := Indices(hs), Covered(hs);
      var due := if before == [] then W32(Highest(all) - all[0] + 1) else Highest(all) - Highest(before);
      After(Events(hs)).baseSeq != -1 && before <= all
      && 0 <= due < 0x1_0000_0000 && |all| - |before| < 0x1_0000_0000 && 0 <= Highest(all)
      && var r := Reported(After(Events(hs)));
        r.fraction == Fraction(due, |all| - |before|) && r.extendedSeq == Highest(all)
        && r.cycles == Highest(all) / 0x1_0000
  {
    hide Close, Highest, FedAll, Indices, Covered, Events, After, W32, Fraction, Lost;
    var all, before := Indices(hs), Covered(hs);
    RunSums(hs);
    TrueCounts(hs);
    CoveredPrefix(hs);
    FewIndices(hs);
    SmallCount(|before|);
    Small(|all| - |before|);
    Cycles(Highest(all));
    if before != [] {
      assert all[..|before|] == before;
      HighestGrows(all, |before|);
      Growth(Highest(all), Highest(before), all[0]);
    } else {
      NothingBefore(Highest(all) - all[0] + 1);
    }
  }

  lemma Cycles(m: uint32)
    ensures m / 0x1_0000 % 0x1_0000 == m / 0x1_0000
  {
  }

  lemma TrueCounts(hs: seq<Happening>)
    requires Sane(hs) && Indices(hs) != []
    ensures var all := Indices(hs); |all| < 0x1_0000_0000 && 0 <= all[0] <= Highest(all) < 0x1_0000_0000
    ensures Counts(FedAll(Indices(hs)), Indices(hs)[0], Highest(Indices(hs)), |Indices(hs)|)
  {
    FewIndices(hs);
    TrueMaximum(Indices(hs));
    hide FedAll, Counts;
  }

  lemma Small(x: int)
    ensures 0 <= x < 0x1_0000_0000 ==> W32(x) == x
  {
  }

  lemma Growth(m: int, m0: int, base: int)
    requires 0 <= base <= m0 <= m < 0x1_0000_0000
    ensures W32(W32(m - base + 1) - W32(m0 - base + 1)) == m - m0
  {
  }

  lemma NothingBefore(x: int)
    ensures W32(W32(x) - 0) == W32(x)
  {
  }
}
