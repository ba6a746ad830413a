/** Taking NAL units out of their two framings: `lal/avc/avc.go`. */
module AvcNals {
  import opened Bytes
  import opened RtpUnpacking

  /** The units handed to the callback, and whether the walk ended without an error. */
  datatype Split = Split(nals: seq<seq<byte>>, ok: bool)

  // ---- AVCC: a 4-byte length before each unit

  function SplitAvcc(b: seq<byte>, pos: nat): Split
    requires pos <= |b|
    decreases |b| - pos
  {
    if |b| - pos < 4 then Split([], false)
    else
      var start := pos + 4;
      var end := start + Be32(b[pos..]);
      if start == |b| then Split([], false)
      else if end < |b| then
        var rest := SplitAvcc(b, end);
        Split([b[start..end]] + rest.nals, rest.ok)
      else if end == |b| then Split([b[start..end]], true)
      else Split([b[start..]], false)
  }

  method IterateNaluAvcc(nals: seq<byte>) returns (s: Split)
    ensures s == SplitAvcc(nals, 0)
  {
    hide SplitAvcc, AvccLeft, Be32;
    var list: seq<seq<byte>> := [];
    var pos: nat := 0;
    AvccStart(nals);
    while true
      invariant pos <= |nals| && AvccLeft(nals, pos, list)
      decreases |nals| - pos
    {
      AvccStep(nals, pos, list);
      if |nals| - pos < 4 {
        return Split(list, false);
      }
      var length := Be32(nals[pos..]);
      pos := pos + 4;
      if pos == |nals| {
        return Split(list, false);
      }
      var epos := pos + length;
      if epos < |nals| {
        list := list + [nals[pos..epos]];
        pos := pos + length;
      } else if epos == |nals| {
        return Split(list + [nals[pos..epos]], true);
      } else {
        return Split(list + [nals[pos..]], false);
      }
    }
  }

  /** The units in `list` and those from `pos` on are all units. */
  ghost predicate AvccLeft(b: seq<byte>, pos: nat, list: seq<seq<byte>>) {
    pos <= |b| && SplitAvcc(b, 0) == Split(list + SplitAvcc(b, pos).nals, SplitAvcc(b, pos).ok)
  }

  lemma AvccStart(b: seq<byte>)
    ensures AvccLeft(b, 0, [])
  {
    hide SplitAvcc;
    var none: seq<seq<byte>> := [];
    assert none + SplitAvcc(b, 0).nals == SplitAvcc(b, 0).nals;
  }

  lemma AvccStep(b: seq<byte>, pos: nat, list: seq<seq<byte>>)
    requires pos <= |b| && AvccLeft(b, pos, list)
    ensures |b| - pos < 4 ==> SplitAvcc(b, 0) == Split(list, false)
    ensures |b| - pos >= 4 ==>
      var start, end := pos + 4, pos + 4 + Be32(b[pos..]);
      if start == |b| then SplitAvcc(b, 0) == Split(list, false)
      else if end < |b| then AvccLeft(b, end, list + [b[start..end]])
      else if end == |b| then SplitAvcc(b, 0) == Split(list + [b[start..end]], true)
      else SplitAvcc(b, 0) == Split(list + [b[start..]], false)
  {
    hide Be32;
    var none: seq<seq<byte>> := [];
    assert list + none == list;
    if |b| - pos >= 4 {
      var start, end := pos + 4, pos + 4 + Be32(b[pos..]);
      if end < |b| {
        ConcatAssociative(list, [b[start..end]], SplitAvcc(b, end).nals);
      }
    }
  }

  lemma {:induction false} SplitAvccAt(b: seq<byte>, pos: nat, nals: seq<seq<byte>>)
    requires pos <= |b| && b[pos..] == AvccAll(nals) && forall i | 0 <= i < |nals| :: |nals[i]| < 0x1_0000_0000
    ensures SplitAvcc(b, pos).ok <==> nals != [] && nals[|nals| - 1] != []
    ensures SplitAvcc(b, pos).ok ==> SplitAvcc(b, pos).nals == nals
    decreases |nals|
  {
    if nals != [] {
      var nal, rest := nals[0], AvccAll(nals[1..]);
      AvccHead(b, pos, nal, rest);
      var end := pos + 4 + |nal|;
      if end < |b| {
        SplitAvccAt(b, end, nals[1..]);
        AvccAllEmpty(nals[1..]);
      } else {
        AvccAllEmpty(nals[1..]);
      }
    }
  }

  lemma AvccAllEmpty(nals: seq<seq<byte>>)
    ensures AvccAll(nals) == [] <==> nals == []
  {
  }

  lemma AvccHead(b: seq<byte>, pos: nat, nal: seq<byte>, rest: seq<byte>)
    requires pos <= |b| && b[pos..] == Avcc(nal) + rest && |nal| < 0x1_0000_0000
    ensures |b| - pos == 4 + |nal| + |rest| && Be32(b[pos..]) == |nal|
    ensures b[pos + 4..pos + 4 + |nal|] == nal && b[pos + 4 + |nal|..] == rest
  {
    hide *;
    AvccIs(nal);
    var size := BePut32(|nal|);
    ConcatAssociative(size, nal, rest);
    RoundTrip32(|nal|, nal + rest);
    ThreeParts(size, nal, rest);
    TailSlice(b, pos, size + nal + rest, 4, 4 + |nal|);
  }

  lemma AvccIs(nal: seq<byte>)
    requires |nal| < 0x1_0000_0000
    ensures Avcc(nal) == BePut32(|nal|) + nal
  {
    hide BePut32;
  }

  lemma ThreeParts<T>(a: seq<T>, b: seq<T>, c: seq<T>)
    ensures var t := a + b + c;
      |t| == |a| + |b| + |c| && t[|a|..|a| + |b|] == b && t[|a| + |b|..] == c
  {
  }

  lemma TailSlice<T>(b: seq<T>, pos: nat, t: seq<T>, i: nat, j: nat)
    requires pos <= |b| && b[pos..] == t && i <= j <= |t|
    ensures b[pos + i..pos + j] == t[i..j] && b[pos + j..] == t[j..]
  {
    forall k | i <= k < |t| ensures b[pos + k] == t[k] {
      assert b[pos..][k] == b[pos + k];
    }
  }

  /** Splitting undoes joining, and exactly when: at least one unit, the last of them not empty. */
  lemma SplitAvccExact(nals: seq<seq<byte>>)
    requires forall i | 0 <= i < |nals| :: |nals[i]| < 0x1_0000_0000
    ensures SplitAvcc(AvccAll(nals), 0) == Split(nals, true) <==> nals != [] && nals[|nals| - 1] != []
  {
    assert AvccAll(nals)[0..] == AvccAll(nals);
    SplitAvccAt(AvccAll(nals), 0, nals);
  }

  /** And nothing else splits without an error: the input is the join of what comes out. */
  lemma {:induction false} SplitAvccOnly(b: seq<byte>, pos: nat)
    requires pos <= |b|
    ensures
      var s := SplitAvcc(b, pos);
      s.ok ==> b[pos..] == AvccAll(s.nals) && s.nals != [] && s.nals[|s.nals| - 1] != []
    decreases |b| - pos
  {
    hide Be32, Avcc;
    if |b| - pos >= 4 {
      var start, end := pos + 4, pos + 4 + Be32(b[pos..]);
      if start < |b| && end <= |b| && SplitAvcc(b, pos).ok {
        OneUnit(b, pos);
        if end < |b| {
          SplitAvccOnly(b, end);
          assert SplitAvcc(b, pos).nals[1..] == SplitAvcc(b, end).nals;
        } else {
          assert b[end..] == [];
          NoMoreUnits(b[start..end]);
        }
      }
    }
  }

  lemma OneUnit(b: seq<byte>, pos: nat)
    requires pos + 4 <= |b| && pos + 4 + Be32(b[pos..]) <= |b|
    ensures
      var end := pos + 4 + Be32(b[pos..]);
      b[pos..] == Avcc(b[pos + 4..end]) + b[end..]
  {
    var n := Be32(b[pos..]);
    Digits32(b[pos..]);
    AvccIs(b[pos + 4..pos + 4 + n]);
    hide Avcc, Be32, BePut32;
    assert b[pos..][..4] == b[pos..pos + 4];
    assert b[pos..] == b[pos..pos + 4] + b[pos + 4..pos + 4 + n] + b[pos + 4 + n..];
  }

  lemma NoMoreUnits(nal: seq<byte>)
    ensures AvccAll([nal]) == Avcc(nal)
  {
    hide Avcc;
    assert AvccAll([nal][1..]) == [];
  }

  // ---- STAP-A: a 2-byte length before each unit, converted to AVCC

  predicate AllShort(nals: seq<seq<byte>>) {
    forall i | 0 <= i < |nals| :: |nals[i]| < 0x1_0000
  }

  function JoinStapa(nals: seq<seq<byte>>): seq<byte>
    requires AllShort(nals)
  {
    if nals == [] then [] else BePut16(|nals[0]|) + nals[0] + JoinStapa(nals[1..])
  }

  lemma {:induction false} StapaAt(b: seq<byte>, i: nat, nals: seq<seq<byte>>)
    requires AllShort(nals) && i <= |b| && b[i..] == JoinStapa(nals)
    ensures StapaUnits(b, i) == Some(nals)
    decreases |nals|
  {
    hide *;
    if nals == [] {
      StapaNone(b, i);
    } else {
      var nal, rest := nals[0], JoinStapaRest(nals);
      StapaFirst(nals);
      StapaHead(b, i, nal, rest);
      StapaAt(b, i + 2 + |nal|, nals[1..]);
      StapaUnfold(b, i);
      assert nals == [nal] + nals[1..];
    }
  }

  function JoinStapaRest(nals: seq<seq<byte>>): seq<byte>
    requires AllShort(nals) && nals != []
  {
    JoinStapa(nals[1..])
  }

  lemma StapaNone(b: seq<byte>, i: nat)
    requires i <= |b| && b[i..] == JoinStapa([])
    ensures StapaUnits(b, i) == Some([])
  {
    assert |b[i..]| == |b| - i;
  }

  lemma StapaFirst(nals: seq<seq<byte>>)
    requires AllShort(nals) && nals != []
    ensures |nals[0]| < 0x1_0000 && AllShort(nals[1..]) && JoinStapaRest(nals) == JoinStapa(nals[1..])
    ensures JoinStapa(nals) == BePut16(|nals[0]|) + nals[0] + JoinStapaRest(nals)
  {
    hide BePut16;
  }

  lemma StapaUnfold(b: seq<byte>, i: nat)
    requires i + 2 <= |b| && i + 2 + StapaSize(b, i) <= |b|
    requires StapaUnits(b, i + 2 + StapaSize(b, i)).Some?
    ensures
      var next := i + 2 + StapaSize(b, i);
      StapaUnits(b, i) == Some([b[i + 2..next]] + StapaUnits(b, next).value)
  {
    hide StapaSize;
  }

  lemma StapaHead(b: seq<byte>, i: nat, nal: seq<byte>, rest: seq<byte>)
    requires i <= |b| && |nal| < 0x1_0000 && b[i..] == BePut16(|nal|) + nal + rest
    ensures |b| - i == 2 + |nal| + |rest| && StapaSize(b, i) == |nal|
    ensures b[i + 2..i + 2 + |nal|] == nal && b[i + 2 + |nal|..] == rest
  {
    hide StapaSize, BePut16;
    var size := BePut16(|nal|);
    ThreeParts(size, nal, rest);
    TailSlice(b, i, size + nal + rest, 2, 2 + |nal|);
    SizeAt(b, i, |nal|, nal + rest);
    ConcatAssociative(size, nal, rest);
  }

  lemma SizeAt(b: seq<byte>, i: nat, v: uint16, rest: seq<byte>)
    requires i <= |b| && b[i..] == BePut16(v) + rest
    ensures i + 2 <= |b| && StapaSize(b, i) == v
  {
    var t := b[i..];
    assert t[0] == b[i] && t[1] == b[i + 1];
    assert t[0] == v / 0x100 && t[1] == v % 0x100;
  }

  /** What converts is the join of the units that come out. */
  lemma {:induction false} StapaOnly(b: seq<byte>, i: nat)
    requires i <= |b| && StapaUnits(b, i).Some?
    ensures var nals := StapaUnits(b, i).value; AllShort(nals) && b[i..] == JoinStapa(nals)
    decreases |b| - i
  {
    if i < |b| {
      hide AllShort;
      var next := i + 2 + StapaSize(b, i);
      StapaOnly(b, next);
      StapaMore(b, i, StapaUnits(b, next).value);
    } else {
      assert b[i..] == [];
    }
  }

  lemma StapaMore(b: seq<byte>, i: nat, rest: seq<seq<byte>>)
    requires i + 2 <= |b| && i + 2 + StapaSize(b, i) <= |b|
    requires AllShort(rest) && b[i + 2 + StapaSize(b, i)..] == JoinStapa(rest)
    ensures var nals := [b[i + 2..i + 2 + StapaSize(b, i)]] + rest; AllShort(nals) && b[i..] == JoinStapa(nals)
  {
    var size := StapaSize(b, i);
    var nal := b[i + 2..i + 2 + size];
    var nals := [nal] + rest;
    assert nals[1..] == rest;
    SizeBytes(b[i], b[i + 1]);
    assert b[i..] == BePut16(size) + nal + b[i + 2 + size..];
  }

  lemma SizeBytes(hi: byte, lo: byte)
    ensures BePut16(hi as int * 0x100 + lo) == [hi, lo]
  {
  }

  /** An aggregation packet converts exactly when it is the join of units, and then into these. */
  lemma StapaExact(b: seq<byte>, nals: seq<seq<byte>>)
    ensures StapaUnits(b, 0) == Some(nals) <==> AllShort(nals) && b == JoinStapa(nals)
  {
    assert b[0..] == b;
    if AllShort(nals) && b == JoinStapa(nals) {
      StapaAt(b, 0, nals);
    }
    if StapaUnits(b, 0).Some? {
      StapaOnly(b, 0);
    }
  }

  // ---- Annex B: a start code, two or more zeros and a one, before each unit

  datatype Found = Nowhere | Found(pos: nat, length: nat)

  /** The scan from byte `i` on, `count` zeros having just been seen. */
  function Scan(b: seq<byte>, i: nat, count: nat): (r: Found)
    requires count <= i <= |b|
    ensures r.Found? ==> i <= r.pos + r.length - 1 && r.length >= 3 && r.pos + r.length <= |b|
    decreases |b| - i
  {
    if i == |b| then Nowhere
    else if b[i] == 0 then Scan(b, i + 1, count + 1)
    else if b[i] == 1 && count >= 2 then Found(i - count, count + 1)
    else Scan(b, i + 1, 0)
  }

  function FindStartCode(b: seq<byte>, start: nat): (r: Found)
    ensures r.Found? ==> start < r.pos + r.length <= |b|
  {
    if start >= |b| then Nowhere else Scan(b, start, 0)
  }

  method IterateNaluStartCode(nalu: seq<byte>, start: nat) returns (r: Found)
    ensures r == FindStartCode(nalu, start)
  {
    if start >= |nalu| {
      return Nowhere;
    }
    var count := 0;
    for i := start to |nalu|
      invariant 0 <= count <= i
      invariant Scan(nalu, start, 0) == Scan(nalu, i, count)
    {
      if nalu[i] == 0 {
        count := count + 1;
      } else if nalu[i] == 1 {
        if count >= 2 {
          return Found(i - count, count + 1);
        }
        count := 0;
      } else {
        count := 0;
      }
    }
    return Nowhere;
  }

  /** The walk once a start code has been passed and a unit begins at `start`. */
  function SplitAnnexbFrom(b: seq<byte>, start: nat): Split
    requires start <= |b|
    decreases |b| - start
  {
    match FindStartCode(b, start)
    case Nowhere => if start < |b| then Split([b[start..]], true) else Split([], false)
    case Found(pos, length) =>
      if start < pos then
        var rest := SplitAnnexbFrom(b, pos + length);
        Split([b[start..pos]] + rest.nals, rest.ok)
      else Split([], false)
  }

  function SplitAnnexb(b: seq<byte>): Split {
    match FindStartCode(b, 0)
    case Nowhere => Split([b], false)
    case Found(pos, length) => SplitAnnexbFrom(b, pos + length)
  }

  method IterateNaluAnnexb(nals: seq<byte>) returns (s: Split)
    ensures s == SplitAnnexb(nals)
  {
    hide *;
    var list: seq<seq<byte>> := [];
    var pre := IterateNaluStartCode(nals, 0);
    AnnexbStart(nals);
    if pre.Nowhere? {
      return Split([nals], false);
    }
    while true
      invariant pre.Found? && pre == Found(pre.pos, pre.length) && pre.pos + pre.length <= |nals|
      invariant AnnexbLeft(nals, pre.pos + pre.length, list)
      decreases |nals| - pre.pos - pre.length
    {
      var start := pre.pos + pre.length;
      AnnexbStep(nals, start, list);
      var next := IterateNaluStartCode(nals, start);
      if next.Nowhere? {
        if start < |nals| {
          return Split(list + [nals[start..]], true);
        }
        return Split(list, false);
      }
      if start >= next.pos {
        return Split(list, false);
      }
      list := list + [nals[start..next.pos]];
      pre := next;
    }
  }

  /** The units in `list` and those from `start` on are all units. */
  ghost predicate AnnexbLeft(b: seq<byte>, start: nat, list: seq<seq<byte>>) {
    start <= |b|
    && SplitAnnexb(b) == Split(list + SplitAnnexbFrom(b, start).nals, SplitAnnexbFrom(b, start).ok)
  }

  lemma AnnexbStart(b: seq<byte>)
    ensures match FindStartCode(b, 0)
      case Nowhere => SplitAnnexb(b) == Split([b], false)
      case Found(pos, length) => AnnexbLeft(b, pos + length, [])
  {
    hide FindStartCode, SplitAnnexbFrom;
    var found := FindStartCode(b, 0);
    if found.Found? {
      var rest := SplitAnnexbFrom(b, found.pos + found.length);
      assert [] + rest.nals == rest.nals;
    }
  }

  lemma AnnexbStep(b: seq<byte>, start: nat, list: seq<seq<byte>>)
    requires AnnexbLeft(b, start, list)
    ensures start <= |b| && match FindStartCode(b, start)
      case Nowhere => SplitAnnexb(b) == if start < |b| then Split(list + [b[start..]], true) else Split(list, false)
      case Found(pos, length) =>
        if start >= pos then SplitAnnexb(b) == Split(list, false)
        else AnnexbLeft(b, pos + length, list + [b[start..pos]])
  {
    hide FindStartCode, SplitAnnexb;
    assert list + [] == list;
    var found := FindStartCode(b, start);
    if found.Found? && start < found.pos {
      ConcatAssociative(list, [b[start..found.pos]], SplitAnnexbFrom(b, found.pos + found.length).nals);
    }
  }

  /** A start code prefix begins at `i`. */
  predicate CodeAt(b: seq<byte>, i: nat) {
    i + 3 <= |b| && b[i] == 0 && b[i + 1] == 0 && b[i + 2] == 1
  }

  /** No start code inside. */
  ghost predicate Clean(nal: seq<byte>) {
    forall i: nat :: !CodeAt(nal, i)
  }

  datatype Unit = Unit(zeros: nat, nal: seq<byte>)

  function StartCode(zeros: nat): (s: seq<byte>)
    ensures |s| == zeros + 1 && s[zeros] == 1 && forall i | 0 <= i < zeros :: s[i] == 0
  {
    Zeros(zeros) + [1]
  }

  function JoinAnnexb(units: seq<Unit>): seq<byte> {
    if units == [] then [] else StartCode(units[0].zeros) + (units[0].nal + JoinAnnexb(units[1..]))
  }

  function Nals(units: seq<Unit>): seq<seq<byte>> {
    seq(|units|, i requires 0 <= i < |units| => units[i].nal)
  }

  /** Every unit has bytes and no start code in it, and all but the last do not end in zero. */
  ghost predicate Separable(nals: seq<seq<byte>>) {
    && (forall i | 0 <= i < |nals| :: nals[i] != [] && Clean(nals[i]))
    && (forall i | 0 <= i < |nals| - 1 :: nals[i][|nals[i]| - 1] != 0)
  }

  // what a scan finds

  ghost predicate Zero(b: seq<byte>, lo: nat, hi: int) {
    hi <= |b| && forall k | lo <= k < hi :: b[k] == 0
  }

  ghost predicate NoCode(b: seq<byte>, lo: nat, hi: int) {
    forall k | lo <= k < hi :: !CodeAt(b, k)
  }

  /** The scan from `start` has come to `i`, `count` zeros having just been seen, and to no code. */
  ghost predicate Scanned(b: seq<byte>, start: nat, i: nat, count: nat) {
    start + count <= i <= |b| && Zero(b, i - count, i) && (i - count > start ==> b[i - count - 1] != 0)
    && NoCode(b, start, i - 2)
  }

  /** The earliest start code from `start` on, with all zeros in front of it that lie after `start`. */
  ghost predicate Finds(b: seq<byte>, start: nat, r: Found) {
    match r
    case Nowhere => NoCode(b, start, |b|)
    case Found(pos, length) =>
      && start <= pos && 3 <= length && pos + length <= |b| && CodeAt(b, pos + length - 3)
      && (pos > start ==> b[pos - 1] != 0)
      && Zero(b, pos, pos + length - 1) && NoCode(b, start, pos + length - 3)
  }

  lemma ScanZero(b: seq<byte>, start: nat, i: nat, count: nat)
    requires Scanned(b, start, i, count) && i < |b| && b[i] == 0
    ensures Scanned(b, start, i + 1, count + 1)
  {
    hide CodeAt;
    NoCodeYet(b, start, i);
  }

  lemma NoCodeYet(b: seq<byte>, start: nat, i: nat)
    requires NoCode(b, start, i - 2) && i < |b| && b[i] != 1
    ensures NoCode(b, start, i - 1)
  {
  }

  lemma ScanOther(b: seq<byte>, start: nat, i: nat, count: nat)
    requires Scanned(b, start, i, count) && i < |b| && b[i] != 0 && (b[i] != 1 || count < 2)
    ensures Scanned(b, start, i + 1, 0)
  {
    if b[i] == 1 {
      TooFewZeros(b, start, i, count);
    } else {
      hide CodeAt;
      NoCodeYet(b, start, i);
    }
  }

  lemma TooFewZeros(b: seq<byte>, start: nat, i: nat, count: nat)
    requires Scanned(b, start, i, count) && i < |b| && count < 2
    ensures NoCode(b, start, i - 1)
  {
  }

  lemma ScanOne(b: seq<byte>, start: nat, i: nat, count: nat)
    requires Scanned(b, start, i, count) && i < |b| && b[i] == 1 && count >= 2
    ensures Finds(b, start, Found(i - count, count + 1))
  {
    assert b[i - 2] == 0 && b[i - 1] == 0;
    hide NoCode;
  }

  lemma ScanEnd(b: seq<byte>, start: nat, count: nat)
    requires Scanned(b, start, |b|, count)
    ensures Finds(b, start, Nowhere)
  {
  }

  lemma ScanUnfold(b: seq<byte>, i: nat, count: nat)
    requires count <= i < |b|
    ensures Scan(b, i, count)
      == if b[i] == 0 then Scan(b, i + 1, count + 1)
         else if b[i] == 1 && count >= 2 then Found(i - count, count + 1)
         else Scan(b, i + 1, 0)
  {
  }

  lemma {:induction false} ScanFinds(b: seq<byte>, start: nat, i: nat, count: nat)
    requires count <= i <= |b| && Scanned(b, start, i, count)
    ensures Finds(b, start, Scan(b, i, count))
    decreases |b| - i
  {
    hide *;
    if i == |b| {
      ScanEnd(b, start, count);
      NothingScanned(b, count);
    } else {
      ScanUnfold(b, i, count);
      if b[i] == 0 {
        ScanZero(b, start, i, count);
        ScanFinds(b, start, i + 1, count + 1);
      } else if b[i] == 1 && count >= 2 {
        ScanOne(b, start, i, count);
      } else {
        ScanOther(b, start, i, count);
        ScanFinds(b, start, i + 1, 0);
      }
    }
  }

  lemma NothingScanned(b: seq<byte>, count: nat)
    requires count <= |b|
    ensures Scan(b, |b|, count) == Nowhere
  {
  }

  lemma FoundAt(b: seq<byte>, start: nat)
    requires start < |b|
    ensures match FindStartCode(b, start)
      case Nowhere => forall k | start <= k :: !CodeAt(b, k)
      case Found(pos, length) =>
        && start <= pos && 3 <= length && pos + length <= |b| && CodeAt(b, pos + length - 3)
        && (pos > start ==> b[pos - 1] != 0)
        && (forall k | pos <= k < pos + length - 1 :: b[k] == 0)
        && (forall k | start <= k < pos + length - 3 :: !CodeAt(b, k))
  {
    ScanFinds(b, start, start, 0);
  }

  /** Where the bytes of a unit and of the code after it lie. */
  lemma Layout(b: seq<byte>, start: nat, nal: seq<byte>, zeros: nat, rest: seq<byte>)
    requires start <= |b| && b[start..] == nal + (StartCode(zeros) + rest)
    ensures var mid := start + |nal|;
      && mid + zeros < |b| && b[start..mid] == nal && b[mid + zeros + 1..] == rest
      && (forall k | start <= k < mid :: b[k] == nal[k - start])
      && (forall k | mid <= k < mid + zeros :: b[k] == 0) && b[mid + zeros] == 1
  {
    hide StartCode;
    var t := b[start..];
    var mid := start + |nal|;
    assert t[..|nal|] == nal && t[|nal|..] == StartCode(zeros) + rest && t[|nal| + zeros + 1..] == rest;
    assert b[start..mid] == t[..|nal|] && b[mid + zeros + 1..] == t[|nal| + zeros + 1..];
    assert forall k | start <= k < |b| :: b[k] == t[k - start];
  }

  /** A unit without start codes that does not end in zero is followed by its successor's code: that
      is what the scan finds, with all its zeros. */
  lemma FindsNextCode(b: seq<byte>, start: nat, nal: seq<byte>, zeros: nat, rest: seq<byte>)
    requires start <= |b| && b[start..] == nal + (StartCode(zeros) + rest)
    requires zeros >= 2 && Clean(nal) && (nal != [] ==> nal[|nal| - 1] != 0)
    ensures start + |nal| + zeros + 1 <= |b|
    ensures FindStartCode(b, start) == Found(start + |nal|, zeros + 1)
    ensures b[start..start + |nal|] == nal && b[start + |nal| + zeros + 1..] == rest
  {
    Layout(b, start, nal, zeros, rest);
    FoundAt(b, start);
    hide StartCode, FindStartCode;
    var mid := start + |nal|;
    assert CodeAt(b, mid + zeros - 2);
    var r := FindStartCode(b, start);
    var q := r.pos + r.length - 3;
    NoCodeInside(b, start, nal, q);
    CodeStart(b, start, mid, zeros, r.pos);
  }

  lemma NoCodeInside(b: seq<byte>, start: nat, nal: seq<byte>, q: nat)
    requires start + |nal| <= |b| && (forall k | start <= k < start + |nal| :: b[k] == nal[k - start])
    requires start <= q && CodeAt(b, q) && Clean(nal)
    ensures q + 2 >= start + |nal|
  {
    assert q + 2 < start + |nal| ==> CodeAt(nal, q - start);
  }

  lemma CodeStart(b: seq<byte>, start: nat, mid: nat, zeros: nat, pos: nat)
    requires start <= pos <= mid + zeros < |b| && start <= mid
    requires forall k | mid <= k < mid + zeros :: b[k] == 0
    requires forall k | pos <= k < mid + zeros :: b[k] == 0
    requires pos > start ==> b[pos - 1] != 0
    requires mid > start ==> b[mid - 1] != 0
    ensures pos == mid
  {
  }

  lemma LastUnit(b: seq<byte>, start: nat, nal: seq<byte>)
    requires start <= |b| && b[start..] == nal && nal != [] && Clean(nal)
    ensures FindStartCode(b, start) == Nowhere
  {
    FoundAt(b, start);
    hide FindStartCode;
    assert forall k | start <= k < |b| :: b[k] == nal[k - start];
    match FindStartCode(b, start)
    case Nowhere =>
    case Found(pos, length) =>
      NoCodeInside(b, start, nal, pos + length - 3);
  }

  lemma NalsCons(units: seq<Unit>)
    requires units != []
    ensures Nals(units) == [units[0].nal] + Nals(units[1..])
  {
  }

  lemma SeparableTail(units: seq<Unit>)
    requires units != [] && Separable(Nals(units))
    ensures units[0].nal != [] && Clean(units[0].nal) && Separable(Nals(units[1..]))
    ensures units[1..] != [] ==> units[0].nal[|units[0].nal| - 1] != 0
  {
    hide Clean;
    NalsCons(units);
    var all, tail := Nals(units), Nals(units[1..]);
    assert forall i | 0 <= i < |tail| :: tail[i] == all[i + 1];
    assert all[0] == units[0].nal;
  }

  lemma {:induction false} SplitsUnits(b: seq<byte>, start: nat, units: seq<Unit>)
    requires units != [] && (forall i | 0 <= i < |units| :: units[i].zeros >= 2)
    requires Separable(Nals(units))
    requires start <= |b| && b[start..] == units[0].nal + JoinAnnexb(units[1..])
    ensures SplitAnnexbFrom(b, start) == Split(Nals(units), true)
    decreases |units|
  {
    hide *;
    var nal, tail := units[0].nal, units[1..];
    NalsCons(units);
    SeparableTail(units);
    if tail == [] {
      NoUnits();
      assert b[start..] == nal;
      LastUnit(b, start, nal);
      LastStep(b, start);
    } else {
      var zeros, rest := tail[0].zeros, tail[0].nal + JoinAnnexb(tail[1..]);
      JoinCons(tail);
      SeparableTail(tail);
      FindsNextCode(b, start, nal, zeros, rest);
      NextStep(b, start, start + |nal|, zeros + 1);
      SplitsUnits(b, start + |nal| + zeros + 1, tail);
    }
  }

  lemma NoUnits()
    ensures JoinAnnexb([]) == [] && Nals([]) == []
  {
  }

  lemma JoinCons(units: seq<Unit>)
    requires units != []
    ensures JoinAnnexb(units) == StartCode(units[0].zeros) + (units[0].nal + JoinAnnexb(units[1..]))
  {
    hide StartCode;
  }

  lemma LastStep(b: seq<byte>, start: nat)
    requires start < |b| && FindStartCode(b, start) == Nowhere
    ensures SplitAnnexbFrom(b, start) == Split([b[start..]], true)
  {
    hide FindStartCode;
  }

  lemma NextStep(b: seq<byte>, start: nat, pos: nat, length: nat)
    requires start < pos && pos + length <= |b| && FindStartCode(b, start) == Found(pos, length)
    ensures
      var rest := SplitAnnexbFrom(b, pos + length);
      SplitAnnexbFrom(b, start) == Split([b[start..pos]] + rest.nals, rest.ok)
  {
    hide FindStartCode;
  }

  /** Whatever the input, units handed out without an error are separable. */
  lemma {:induction false} SplitIsSeparable(b: seq<byte>, start: nat)
    requires start <= |b|
    ensures SplitAnnexbFrom(b, start).ok ==>
      SplitAnnexbFrom(b, start).nals != [] && Separable(SplitAnnexbFrom(b, start).nals)
    decreases |b| - start
  {
    if start < |b| {
      FoundAt(b, start);
      match FindStartCode(b, start)
      case Nowhere =>
        CleanPart(b, start, |b|);
        assert b[start..|b|] == b[start..];
      case Found(pos, length) =>
        if start < pos {
          CleanPart(b, start, pos);
          SplitIsSeparable(b, pos + length);
        }
    }
  }

  lemma CleanPart(b: seq<byte>, start: nat, end: nat)
    requires start <= end <= |b| && forall k | start <= k && k + 3 <= end :: !CodeAt(b, k)
    ensures Clean(b[start..end])
  {
    var nal := b[start..end];
    forall i: nat ensures !CodeAt(nal, i) {
      if i + 3 <= |nal| {
        assert nal[i] == b[start + i] && nal[i + 1] == b[start + i + 1] && nal[i + 2] == b[start + i + 2];
        assert !CodeAt(b, start + i);
      }
    }
  }

  /** Splitting undoes joining if and only if the units are separable, for start codes with any number
      of zeros from two on. */
  lemma SplitAnnexbExact(units: seq<Unit>)
    requires units != [] && forall i | 0 <= i < |units| :: units[i].zeros >= 2
    ensures SplitAnnexb(JoinAnnexb(units)) == Split(Nals(units), true) <==> Separable(Nals(units))
  {
    hide *;
    var b := JoinAnnexb(units);
    var start := units[0].zeros + 1;
    FirstCode(units);
    if Separable(Nals(units)) {
      SplitsUnits(b, start, units);
    }
    SplitIsSeparable(b, start);
  }

  lemma FirstCode(units: seq<Unit>)
    requires units != [] && units[0].zeros >= 2
    ensures
      var b, start := JoinAnnexb(units), units[0].zeros + 1;
      start <= |b| && b[start..] == units[0].nal + JoinAnnexb(units[1..]) && SplitAnnexb(b) == SplitAnnexbFrom(b, start)
  {
    hide *;
    var b := JoinAnnexb(units);
    var zeros, rest := units[0].zeros, units[0].nal + JoinAnnexb(units[1..]);
    JoinCons(units);
    Prepended(b, StartCode(zeros) + rest);
    FindsNextCode(b, 0, [], zeros, rest);
    FirstStep(b, zeros + 1);
  }

  lemma Prepended(b: seq<byte>, s: seq<byte>)
    requires b == s
    ensures b[0..] == [] + s && Clean([])
  {
  }

  lemma FirstStep(b: seq<byte>, length: nat)
    requires length <= |b| && FindStartCode(b, 0) == Found(0, length)
    ensures SplitAnnexb(b) == SplitAnnexbFrom(b, length)
  {
    hide FindStartCode, SplitAnnexbFrom;
  }

  predicate AllCodes(units: seq<Unit>) {
    forall i | 0 <= i < |units| :: units[i].zeros >= 2
  }

  /** The unit at `start` and what follows it. */
  ghost predicate Composed(b: seq<byte>, start: nat, zeros: nat, units: seq<Unit>) {
    start <= |b| && units != [] && units[0].zeros == zeros && AllCodes(units)
    && b[start..] == units[0].nal + JoinAnnexb(units[1..]) && Nals(units) == SplitAnnexbFrom(b, start).nals
  }

  lemma {:induction false} SplitFromOnly(b: seq<byte>, start: nat, zeros: nat) returns (units: seq<Unit>)
    requires start <= |b| && SplitAnnexbFrom(b, start).ok && zeros >= 2
    ensures Composed(b, start, zeros, units)
    decreases |b| - start
  {
    hide *;
    match FindStartCode(b, start)
    case Nowhere =>
      LastIs(b, start);
      units := [Unit(zeros, b[start..])];
      ComposedLast(b, start, zeros);
    case Found(pos, length) =>
      NextIs(b, start);
      CodeBytes(b, start);
      var rest := SplitFromOnly(b, pos + length, length - 1);
      units := [Unit(zeros, b[start..pos])] + rest;
      ComposedMore(b, start, zeros, pos, length, rest);
  }

  lemma LastIs(b: seq<byte>, start: nat)
    requires start <= |b| && SplitAnnexbFrom(b, start).ok && FindStartCode(b, start).Nowhere?
    ensures start < |b| && SplitAnnexbFrom(b, start) == Split([b[start..]], true)
  {
    hide FindStartCode;
  }

  lemma NextIs(b: seq<byte>, start: nat)
    requires start <= |b| && SplitAnnexbFrom(b, start).ok && FindStartCode(b, start).Found?
    ensures
      var r := FindStartCode(b, start);
      start < r.pos && r.pos + r.length <= |b| && r.length >= 3 && SplitAnnexbFrom(b, r.pos + r.length).ok
      && SplitAnnexbFrom(b, start).nals == [b[start..r.pos]] + SplitAnnexbFrom(b, r.pos + r.length).nals
  {
    CodeBytes(b, start);
    hide FindStartCode;
  }

  lemma CodeBytes(b: seq<byte>, start: nat)
    requires start <= |b| && FindStartCode(b, start).Found?
    ensures
      var r := FindStartCode(b, start);
      start <= r.pos && r.length >= 3 && r.pos + r.length <= |b|
      && b[r.pos..r.pos + r.length] == StartCode(r.length - 1)
  {
    NotAtEnd(b, start);
    FoundAt(b, start);
    hide FindStartCode, StartCode;
    var r := FindStartCode(b, start);
    var code := b[r.pos..r.pos + r.length];
    assert code[r.length - 1] == b[r.pos + r.length - 3 + 2] == 1;
    assert forall k | 0 <= k < r.length - 1 :: code[k] == b[r.pos + k] == 0;
    assert code == StartCode(r.length - 1);
  }

  lemma NotAtEnd(b: seq<byte>, start: nat)
    requires start <= |b| && FindStartCode(b, start).Found?
    ensures start < |b|
  {
  }

  lemma ComposedLast(b: seq<byte>, start: nat, zeros: nat)
    requires start <= |b| && zeros >= 2 && SplitAnnexbFrom(b, start).nals == [b[start..]]
    ensures Composed(b, start, zeros, [Unit(zeros, b[start..])])
  {
    hide SplitAnnexbFrom;
    var units := [Unit(zeros, b[start..])];
    assert units[1..] == [] && JoinAnnexb(units[1..]) == [];
    assert Nals(units) == [b[start..]];
  }

  lemma ComposedMore(b: seq<byte>, start: nat, zeros: nat, pos: nat, length: nat, rest: seq<Unit>)
    requires start <= pos && length >= 3 && pos + length <= |b| && zeros >= 2
    requires Composed(b, pos + length, length - 1, rest) && b[pos..pos + length] == StartCode(length - 1)
    requires SplitAnnexbFrom(b, start).nals == [b[start..pos]] + SplitAnnexbFrom(b, pos + length).nals
    ensures Composed(b, start, zeros, [Unit(zeros, b[start..pos])] + rest)
  {
    hide SplitAnnexbFrom, StartCode, FindStartCode;
    var units := [Unit(zeros, b[start..pos])] + rest;
    assert units[1..] == rest;
    NalsCons(units);
    JoinCons(rest);
    assert b[start..] == b[start..pos] + (b[pos..pos + length] + b[pos + length..]);
    hide JoinAnnexb, Nals;
  }

  /** And nothing else splits without an error: behind bytes without a start code the input is units behind start
      codes, and these come out; without a start code there is always an error. */
  lemma SplitAnnexbOnly(b: seq<byte>) returns (skip: nat, units: seq<Unit>)
    requires SplitAnnexb(b).ok
    ensures skip <= |b| && units != [] && AllCodes(units) && b[skip..] == JoinAnnexb(units)
    ensures Nals(units) == SplitAnnexb(b).nals && forall k | 0 <= k && k + 3 <= skip :: !CodeAt(b, k)
  {
    hide *;
    CodeBefore(b);
    var r := FindStartCode(b, 0);
    CodeBytes(b, 0);
    units := SplitFromOnly(b, r.pos + r.length, r.length - 1);
    skip := r.pos;
    Uncovered(b, r.pos, r.length, units);
  }

  lemma CodeBefore(b: seq<byte>)
    requires SplitAnnexb(b).ok
    ensures
      var r := FindStartCode(b, 0);
      r.Found? && r.pos + r.length <= |b| && r.length >= 3 && SplitAnnexbFrom(b, r.pos + r.length).ok
      && SplitAnnexb(b) == SplitAnnexbFrom(b, r.pos + r.length) && forall k | 0 <= k && k + 3 <= r.pos :: !CodeAt(b, k)
  {
    if b != [] {
      FoundAt(b, 0);
    }
    hide FindStartCode, CodeAt, SplitAnnexbFrom;
  }

  lemma Uncovered(b: seq<byte>, pos: nat, length: nat, units: seq<Unit>)
    requires length >= 3 && pos + length <= |b| && b[pos..pos + length] == StartCode(length - 1)
    requires Composed(b, pos + length, length - 1, units)
    ensures units != [] && AllCodes(units) && b[pos..] == JoinAnnexb(units)
    ensures Nals(units) == SplitAnnexbFrom(b, pos + length).nals
  {
    hide SplitAnnexbFrom, StartCode;
    JoinCons(units);
    assert b[pos..] == b[pos..pos + length] + b[pos + length..];
    hide JoinAnnexb, Nals;
  }
}
