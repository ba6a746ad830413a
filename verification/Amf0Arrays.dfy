/** Reading ECMA arrays, null fields, and objects that hold arrays: what comes out of which bytes. */
module Amf0Arrays {
  import opened Bytes
  import opened Wire
  import opened Amf0
  import opened Amf0RoundTrip

  /** A field of an array: a string, a number, a boolean, or null. */
  datatype Entry = Entry(key: seq<byte>, value: Option<Value>)

  /** The key of a null field, which leaves no trace, fits its length. */
  predicate Listed(e: Entry) {
    if e.value.None? then |e.key| < 0x1_0000 else Writable(e.value.value)
  }

  predicate AllListed(es: seq<Entry>) {
    forall k | 0 <= k < |es| :: Listed(es[k])
  }

  function EntryBytes(e: Entry): seq<byte>
    requires Listed(e)
  {
    KeyBytes(e.key) + if e.value.None? then [5] else ValueBytes(e.value.value)
  }

  function EntriesBytes(es: seq<Entry>): seq<byte>
    requires AllListed(es)
  {
    if es == [] then [] else EntryBytes(es[0]) + EntriesBytes(es[1..])
  }

  /** What a field is read as: null fields are passed over. */
  function Kept(e: Entry): seq<Pair> {
    if e.value.None? then [] else [Pair(e.key, e.value.value)]
  }

  function AllKept(es: seq<Entry>): seq<Pair> {
    if es == [] then [] else Kept(es[0]) + AllKept(es[1..])
  }

  predicate ShortEntry(e: Entry) {
    |e.key| < 0x1_0000 && (e.value.Some? && e.value.value.Str? ==> |e.value.value.s| < 0x1_0000)
  }

  predicate AllShortEntries(es: seq<Entry>) {
    forall k | 0 <= k < |es| :: ShortEntry(es[k])
  }

  /** The marker 8, the number of fields, the fields, and the end marker that some writers leave out. */
  function ArrayBytes(es: seq<Entry>, marked: bool): seq<byte>
    requires AllListed(es) && |es| < 0x1_0000_0000
  {
    [8] + (BePut32(|es|) + (EntriesBytes(es) + if marked then [0, 0, 9] else []))
  }

  // One field

  lemma EntryAt(b: seq<byte>, i: nat, e: Entry)
    requires Listed(e) && ShortEntry(e) && At(b, i, EntryBytes(e))
    ensures i <= |b| && !EndsAt(b, i)
    ensures ReadArrayPair(b, i) == Ok(Kept(e), |EntryBytes(e)|)
    ensures ReadObjectPair(b, i) == Ok(Kept(e), |EntryBytes(e)|)
  {
    hide *;
    EntryParts(e);
    var value := if e.value.None? then [5] else ValueBytes(e.value.value);
    AtSplit(b, i, KeyBytes(e.key), value);
    KeyAt(b, i, e.key);
    var j := i + |KeyBytes(e.key)|;
    EntryField(b, j, e);
    EndHasNoKey(b, i);
    PairOf(b, i);
  }

  lemma EntryParts(e: Entry)
    requires Listed(e) && ShortEntry(e)
    ensures |e.key| < 0x1_0000 && (e.value.Some? ==> Writable(e.value.value))
    ensures EntryBytes(e) == KeyBytes(e.key) + if e.value.None? then [5] else ValueBytes(e.value.value)
  {
    hide ValueBytes, KeyBytes;
  }

  lemma KeyAt(b: seq<byte>, i: nat, key: seq<byte>)
    requires |key| < 0x1_0000 && At(b, i, KeyBytes(key))
    ensures i <= |b| && ReadStringWithoutType(b, i) == Ok(key, |KeyBytes(key)|)
    ensures |KeyBytes(key)| == 2 + |key|
  {
    ShortStringAt(b, i, key);
  }

  lemma EntryField(b: seq<byte>, j: nat, e: Entry)
    requires Listed(e) && ShortEntry(e) && At(b, j, if e.value.None? then [5] else ValueBytes(e.value.value))
    ensures j < |b| && b[j] != 8 && b[j] != 9
    ensures ReadField(e.key, b, j) == Ok(Kept(e), |if e.value.None? then [5] else ValueBytes(e.value.value)|)
  {
    hide ReadField;
    if e.value.None? {
      AtByte(b, j, 5);
      NullField(e.key, b, j);
    } else {
      FieldAt(b, j, Pair(e.key, e.value.value));
    }
  }

  lemma NullField(key: seq<byte>, b: seq<byte>, j: nat)
    requires j < |b| && b[j] == 5
    ensures ReadField(key, b, j) == Ok([], 1)
  {
  }

  /** A pair whose value is no array, in an array and in an object. */
  lemma PairOf(b: seq<byte>, i: nat)
    requires i <= |b| && ReadStringWithoutType(b, i).Ok?
    requires
      var key := ReadStringWithoutType(b, i);
      i + key.used < |b| && b[i + key.used] != 8 && ReadField(key.value, b, i + key.used).Ok?
    ensures
      var key := ReadStringWithoutType(b, i);
      var field := ReadField(key.value, b, i + key.used);
      ReadArrayPair(b, i) == Ok(field.value, key.used + field.used) == ReadObjectPair(b, i)
  {
    hide ReadStringWithoutType, ReadField;
  }

  // Arrays

  lemma {:induction false} EntriesAt(b: seq<byte>, i: nat, es: seq<Entry>)
    requires AllListed(es) && AllShortEntries(es) && At(b, i, EntriesBytes(es)) && i <= |b|
    ensures ReadArrayPairs(b, i, |es|) == Ok(AllKept(es), |EntriesBytes(es)|)
    decreases |es|
  {
    hide *;
    EntriesUnfold(es);
    if es == [] {
      NoEntries(b, i);
    } else {
      AtSplit(b, i, EntryBytes(es[0]), EntriesBytes(es[1..]));
      EntryAt(b, i, es[0]);
      EntriesAt(b, i + |EntryBytes(es[0])|, es[1..]);
      PairsUnfold(b, i, |es|);
    }
  }

  lemma EntriesUnfold(es: seq<Entry>)
    requires AllListed(es)
    ensures es == [] ==> EntriesBytes(es) == [] && AllKept(es) == []
    ensures es != [] ==>
      Listed(es[0]) && AllListed(es[1..]) && (AllShortEntries(es) ==> ShortEntry(es[0]) && AllShortEntries(es[1..]))
      && EntriesBytes(es) == EntryBytes(es[0]) + EntriesBytes(es[1..]) && AllKept(es) == Kept(es[0]) + AllKept(es[1..])
  {
    hide EntryBytes, Kept, Listed, ShortEntry;
  }

  lemma NoEntries(b: seq<byte>, i: nat)
    requires i <= |b|
    ensures ReadArrayPairs(b, i, 0) == Ok([], 0)
  {
  }

  lemma PairsUnfold(b: seq<byte>, i: nat, n: nat)
    requires i <= |b| && n > 0 && ReadArrayPair(b, i).Ok?
    requires ReadArrayPairs(b, i + ReadArrayPair(b, i).used, n - 1).Ok?
    ensures
      var pair := ReadArrayPair(b, i);
      var rest := ReadArrayPairs(b, i + pair.used, n - 1);
      ReadArrayPairs(b, i, n) == Ok(pair.value + rest.value, pair.used + rest.used)
  {
    hide ReadArrayPair;
  }

  lemma ArrayStarts(b: seq<byte>, i: nat, es: seq<Entry>, marked: bool)
    requires AllListed(es) && |es| < 0x1_0000_0000 && At(b, i, ArrayBytes(es, marked))
    ensures i + 5 <= |b| && b[i] == 8 && Be32At(b, i + 1) == |es| && At(b, i + 5, EntriesBytes(es))
    ensures |ArrayBytes(es, marked)| == 5 + |EntriesBytes(es)| + if marked then 3 else 0
    ensures marked ==> EndsAt(b, i + 5 + |EntriesBytes(es)|)
  {
    hide EntriesBytes, At, BePut32;
    var end := if marked then [0, 0, 9] else [];
    AtSplit(b, i, [8], BePut32(|es|) + (EntriesBytes(es) + end));
    AtByte(b, i, 8);
    AtSplit(b, i + 1, BePut32(|es|), EntriesBytes(es) + end);
    At32(b, i + 1, |es|);
    AtSplit(b, i + 5, EntriesBytes(es), end);
    if marked {
      assert OBJECT_END == end;
      EndAt(b, i + 5 + |EntriesBytes(es)|);
    }
  }

  /** An array of short fields, wherever it stands: without its own end marker it takes one that follows. */
  lemma ArrayAt(b: seq<byte>, i: nat, es: seq<Entry>, marked: bool)
    requires AllListed(es) && AllShortEntries(es) && |es| < 0x1_0000_0000 && At(b, i, ArrayBytes(es, marked))
    ensures i < |b| && b[i] == 8
    ensures
      var n := |ArrayBytes(es, marked)|;
      ReadArray(b, i) == Ok(AllKept(es), if !marked && EndsAt(b, i + n) then n + 3 else n)
  {
    hide *;
    ArrayStarts(b, i, es, marked);
    EntriesAt(b, i + 5, es);
    ArrayWhole(b, i);
  }

  lemma ArrayWhole(b: seq<byte>, i: nat)
    requires i + 5 <= |b| && b[i] == 8 && ReadArrayPairs(b, i + 5, Be32At(b, i + 1)).Ok?
    ensures
      var pairs := ReadArrayPairs(b, i + 5, Be32At(b, i + 1));
      ReadArray(b, i) == Ok(pairs.value, if EndsAt(b, i + 5 + pairs.used) then 8 + pairs.used else 5 + pairs.used)
  {
    hide ReadArrayPairs, EndsAt, Be32At;
  }

  lemma {:induction false} ArrayOnlyShort(b: seq<byte>, i: nat, n: nat)
    requires i <= |b| && ReadArrayPairs(b, i, n).Ok?
    ensures Amf0RoundTrip.AllShort(ReadArrayPairs(b, i, n).value)
    decreases n
  {
    hide ReadArrayPair, Short;
    if n > 0 {
      var pair := ReadArrayPair(b, i);
      OnlyShortField(b, i);
      ArrayOnlyShort(b, i + pair.used, n - 1);
    }
  }

  lemma OnlyShortField(b: seq<byte>, i: nat)
    requires i <= |b| && ReadArrayPair(b, i).Ok?
    ensures Amf0RoundTrip.AllShort(ReadArrayPair(b, i).value)
  {
  }

  lemma {:induction false} KeptShort(es: seq<Entry>)
    requires AllListed(es)
    ensures Amf0RoundTrip.AllShort(AllKept(es)) <==> AllShortEntries(es)
  {
    if es != [] {
      KeptShort(es[1..]);
      hide Short;
      assert AllShortEntries(es) <==> ShortEntry(es[0]) && AllShortEntries(es[1..]);
      ShortTogether(Kept(es[0]), AllKept(es[1..]));
      KeptOne(es[0]);
    }
  }

  lemma KeptOne(e: Entry)
    requires Listed(e)
    ensures Amf0RoundTrip.AllShort(Kept(e)) <==> ShortEntry(e)
  {
    if e.value.Some? {
      assert Kept(e)[0] == Pair(e.key, e.value.value);
    }
  }

  lemma ShortTogether(a: seq<Pair>, b: seq<Pair>)
    ensures Amf0RoundTrip.AllShort(a + b) <==> Amf0RoundTrip.AllShort(a) && Amf0RoundTrip.AllShort(b)
  {
    hide Short;
    if Amf0RoundTrip.AllShort(a + b) {
      assert forall k | 0 <= k < |a| :: (a + b)[k] == a[k];
      assert forall k | 0 <= k < |b| :: (a + b)[|a| + k] == b[k];
    }
  }

  /** Wherever an array stands, its fields come back, the null ones left out, with exactly its bytes consumed,
      if and only if keys and strings are short and no end marker follows one that has none of its own. */
  lemma ArrayReads(b: seq<byte>, i: nat, es: seq<Entry>, marked: bool)
    requires AllListed(es) && |es| < 0x1_0000_0000 && At(b, i, ArrayBytes(es, marked)) && i <= |b|
    ensures
      var n := |ArrayBytes(es, marked)|;
      ReadArray(b, i) == Ok(AllKept(es), n) <==> AllShortEntries(es) && (marked || !EndsAt(b, i + n))
  {
    hide *;
    KeptShort(es);
    ArrayStarts(b, i, es, marked);
    if AllShortEntries(es) {
      ArrayAt(b, i, es, marked);
    } else if ReadArray(b, i).Ok? {
      ArrayFrom(b, i);
      ArrayOnlyShort(b, i + 5, Be32At(b, i + 1));
    }
  }

  lemma ArrayFrom(b: seq<byte>, i: nat)
    requires i + 5 <= |b| && ReadArray(b, i).Ok?
    ensures var pairs := ReadArrayPairs(b, i + 5, Be32At(b, i + 1)); pairs.Ok? && ReadArray(b, i).value == pairs.value
  {
    hide ReadArrayPairs, EndsAt, Be32At;
  }

  lemma ArrayExact(es: seq<Entry>, marked: bool, rest: seq<byte>)
    requires AllListed(es) && |es| < 0x1_0000_0000
    ensures
      var b := ArrayBytes(es, marked);
      ReadArray(b + rest, 0) == Ok(AllKept(es), |b|)
      <==> AllShortEntries(es) && (marked || !([0, 0, 9] <= rest))
  {
    hide ArrayBytes, EntriesBytes, AllKept, ReadArray, AllShortEntries;
    var b := ArrayBytes(es, marked);
    Amf0RoundTrip.AtStart(b, rest);
    ArrayReads(b + rest, 0, es, marked);
    EndFollows(b, rest);
  }

  lemma EndFollows(b: seq<byte>, rest: seq<byte>)
    ensures EndsAt(b + rest, |b|) <==> [0, 0, 9] <= rest
  {
    var all := b + rest;
    if EndsAt(all, |b|) {
      assert rest[0] == all[|b|] && rest[1] == all[|b| + 1] && rest[2] == all[|b| + 2];
      assert rest[..3] == [0, 0, 9];
    }
    if [0, 0, 9] <= rest {
      assert all[|b|] == rest[0] && all[|b| + 1] == rest[1] && all[|b| + 2] == rest[2];
    }
  }

  // Objects with arrays and null fields

  datatype Member = Plain(entry: Entry) | Nested(key: seq<byte>, entries: seq<Entry>, marked: bool)

  predicate Allowed(m: Member) {
    match m
    case Plain(e) => Listed(e)
    case Nested(_, es, _) => AllListed(es) && |es| < 0x1_0000_0000
  }

  predicate AllAllowed(ms: seq<Member>) {
    forall k | 0 <= k < |ms| :: Allowed(ms[k])
  }

  function MemberBytes(m: Member): seq<byte>
    requires Allowed(m)
  {
    match m
    case Plain(e) => EntryBytes(e)
    case Nested(key, es, marked) => KeyBytes(key) + ArrayBytes(es, marked)
  }

  function MembersBytes(ms: seq<Member>): seq<byte>
    requires AllAllowed(ms)
  {
    if ms == [] then [] else MemberBytes(ms[0]) + MembersBytes(ms[1..])
  }

  function MemberPairs(m: Member): seq<Pair> {
    match m
    case Plain(e) => Kept(e)
    case Nested(key, es, _) => [Pair(key, Arr(AllKept(es)))]
  }

  function Pairs(ms: seq<Member>): seq<Pair> {
    if ms == [] then [] else MemberPairs(ms[0]) + Pairs(ms[1..])
  }

  predicate ShortMember(m: Member) {
    match m
    case Plain(e) => ShortEntry(e)
    case Nested(key, es, _) => |key| < 0x1_0000 && AllShortEntries(es)
  }

  predicate AllShortMembers(ms: seq<Member>) {
    forall k | 0 <= k < |ms| :: ShortMember(ms[k])
  }

  predicate Unmarked(m: Member) {
    m.Nested? && !m.marked
  }

  /** The last member is no array without its own end marker. */
  predicate Closed(ms: seq<Member>) {
    ms == [] || !Unmarked(ms[|ms| - 1])
  }

  function ObjectOf(ms: seq<Member>): seq<byte>
    requires AllAllowed(ms)
  {
    [3] + (MembersBytes(ms) + [0, 0, 9])
  }

  lemma MembersUnfold(ms: seq<Member>)
    requires AllAllowed(ms)
    ensures ms == [] ==> MembersBytes(ms) == [] && Pairs(ms) == []
    ensures ms != [] ==>
      Allowed(ms[0]) && AllAllowed(ms[1..])
      && MembersBytes(ms) == MemberBytes(ms[0]) + MembersBytes(ms[1..])
      && MembersBytes(ms) + [0, 0, 9] == MemberBytes(ms[0]) + (MembersBytes(ms[1..]) + [0, 0, 9])
      && Pairs(ms) == MemberPairs(ms[0]) + Pairs(ms[1..])
    ensures ms != [] ==> (AllShortMembers(ms) <==> ShortMember(ms[0]) && AllShortMembers(ms[1..]))
    ensures ms != [] ==>
      (Closed(ms) ==> Closed(ms[1..]))
      && if |ms| > 1 then Closed(ms) == Closed(ms[1..]) else Closed(ms) == !Unmarked(ms[0])
  {
    hide *;
    if ms != [] {
      BytesUnfold(ms);
      ShortUnfold(ms);
      ClosedUnfold(ms);
    } else {
      NoMembers();
    }
  }

  lemma NoMembers()
    ensures AllAllowed([]) && MembersBytes([]) == [] && Pairs([]) == []
  {
  }

  lemma BytesUnfold(ms: seq<Member>)
    requires AllAllowed(ms) && ms != []
    ensures Allowed(ms[0]) && AllAllowed(ms[1..])
    ensures MembersBytes(ms) == MemberBytes(ms[0]) + MembersBytes(ms[1..])
    ensures MembersBytes(ms) + [0, 0, 9] == MemberBytes(ms[0]) + (MembersBytes(ms[1..]) + [0, 0, 9])
    ensures Pairs(ms) == MemberPairs(ms[0]) + Pairs(ms[1..])
  {
    hide MemberBytes, MemberPairs, Allowed;
    ConcatAssociative(MemberBytes(ms[0]), MembersBytes(ms[1..]), [0, 0, 9]);
  }

  lemma ShortUnfold(ms: seq<Member>)
    requires ms != []
    ensures AllShortMembers(ms) <==> ShortMember(ms[0]) && AllShortMembers(ms[1..])
  {
    hide ShortMember;
  }

  lemma ClosedUnfold(ms: seq<Member>)
    requires ms != []
    ensures Closed(ms) ==> Closed(ms[1..])
    ensures if |ms| > 1 then Closed(ms) == Closed(ms[1..]) else Closed(ms) == !Unmarked(ms[0])
  {
  }

  /** A member is never the end marker. An array without one takes the one behind it. */
  lemma MemberAt(b: seq<byte>, i: nat, m: Member)
    requires Allowed(m) && ShortMember(m) && At(b, i, MemberBytes(m))
    ensures i <= |b| && !EndsAt(b, i)
    ensures
      var n := |MemberBytes(m)|;
      ReadObjectPair(b, i) == Ok(MemberPairs(m), if Unmarked(m) && EndsAt(b, i + n) then n + 3 else n)
  {
    hide EntryBytes, ArrayBytes, KeyBytes, At, ReadObjectPair, EndsAt, AllKept;
    match m
    case Plain(e) => EntryAt(b, i, e);
    case Nested(key, es, marked) => NestedAt(b, i, key, es, marked);
  }

  lemma NestedAt(b: seq<byte>, i: nat, key: seq<byte>, es: seq<Entry>, marked: bool)
    requires |key| < 0x1_0000 && AllListed(es) && AllShortEntries(es) && |es| < 0x1_0000_0000
    requires At(b, i, KeyBytes(key) + ArrayBytes(es, marked))
    ensures i <= |b| && !EndsAt(b, i)
    ensures
      var n := |KeyBytes(key) + ArrayBytes(es, marked)|;
      ReadObjectPair(b, i) == Ok([Pair(key, Arr(AllKept(es)))], if !marked && EndsAt(b, i + n) then n + 3 else n)
  {
    hide *;
    AtSplit(b, i, KeyBytes(key), ArrayBytes(es, marked));
    KeyAt(b, i, key);
    ArrayAt(b, i + |KeyBytes(key)|, es, marked);
    NestedPair(b, i);
    EndHasNoKey(b, i);
  }

  lemma NestedPair(b: seq<byte>, i: nat)
    requires i <= |b| && ReadStringWithoutType(b, i).Ok?
    requires
      var key := ReadStringWithoutType(b, i);
      i + key.used < |b| && b[i + key.used] == 8 && ReadArray(b, i + key.used).Ok?
    ensures
      var key := ReadStringWithoutType(b, i);
      var inner := ReadArray(b, i + key.used);
      ReadObjectPair(b, i) == Ok([Pair(key.value, Arr(inner.value))], key.used + inner.used)
  {
    hide ReadStringWithoutType, ReadArray;
  }

  lemma EndStands(b: seq<byte>, i: nat)
    requires At(b, i, [0, 0, 9])
    ensures i <= |b| && EndsAt(b, i) && ReadObjectPairs(b, i) == Ok([], 3)
  {
    assert OBJECT_END == [0, 0, 9];
    EndAt(b, i);
  }

  lemma {:induction false} MembersAt(b: seq<byte>, i: nat, ms: seq<Member>)
    requires AllAllowed(ms) && AllShortMembers(ms) && Closed(ms)
    requires At(b, i, MembersBytes(ms) + [0, 0, 9])
    ensures i <= |b| && ReadObjectPairs(b, i) == Ok(Pairs(ms), |MembersBytes(ms)| + 3)
    decreases |ms|
  {
    hide *;
    MembersUnfold(ms);
    AtSplit(b, i, MembersBytes(ms), [0, 0, 9]);
    if ms == [] {
      EndStands(b, i);
    } else {
      var m, more := ms[0], MembersBytes(ms[1..]) + [0, 0, 9];
      AtSplit(b, i, MemberBytes(m), more);
      MemberAt(b, i, m);
      var next := i + |MemberBytes(m)|;
      if |ms| > 1 {
        SecondMember(b, next, ms[1..]);
      }
      MembersAt(b, next, ms[1..]);
      ReadFirstPair(b, i);
    }
  }

  lemma SecondMember(b: seq<byte>, i: nat, ms: seq<Member>)
    requires ms != [] && AllAllowed(ms) && AllShortMembers(ms) && At(b, i, MembersBytes(ms) + [0, 0, 9])
    ensures i <= |b| && !EndsAt(b, i)
  {
    hide *;
    MembersUnfold(ms);
    AtSplit(b, i, MemberBytes(ms[0]), MembersBytes(ms[1..]) + [0, 0, 9]);
    MemberAt(b, i, ms[0]);
  }

  /** An array without its end marker in the last place: whatever is read, it is more than the object. */
  lemma {:induction false} MembersOverrun(b: seq<byte>, i: nat, ms: seq<Member>)
    requires AllAllowed(ms) && AllShortMembers(ms) && !Closed(ms)
    requires At(b, i, MembersBytes(ms) + [0, 0, 9])
    ensures i <= |b|
    ensures ReadObjectPairs(b, i).Ok? ==> ReadObjectPairs(b, i).used > |MembersBytes(ms)| + 3
    decreases |ms|
  {
    hide *;
    NotClosed(ms);
    MembersUnfold(ms);
    var m, more := ms[0], MembersBytes(ms[1..]) + [0, 0, 9];
    AtSplit(b, i, MemberBytes(m), more);
    MemberAt(b, i, m);
    var next := i + |MemberBytes(m)|;
    if |ms| == 1 {
      MembersUnfold(ms[1..]);
      EndMarker();
      EndStands(b, next);
    } else {
      SecondMember(b, next, ms[1..]);
      MembersOverrun(b, next, ms[1..]);
    }
    if ReadObjectPairs(b, i).Ok? {
      RestRead(b, i);
    }
  }

  lemma EndMarker()
    ensures [] + [0, 0, 9] == [0, 0, 9]
  {
  }

  lemma NotClosed(ms: seq<Member>)
    requires !Closed(ms)
    ensures ms != []
  {
  }

  lemma RestRead(b: seq<byte>, i: nat)
    requires i <= |b| && !EndsAt(b, i) && ReadObjectPairs(b, i).Ok?
    ensures
      var pair := ReadObjectPair(b, i);
      pair.Ok? && var rest := ReadObjectPairs(b, i + pair.used);
        rest.Ok? && rest.used >= 3
        && ReadObjectPairs(b, i) == Ok(pair.value + rest.value, pair.used + rest.used)
  {
    hide ReadObjectPair, EndsAt;
  }

  // Only short keys and strings are ever read

  /** Also inside an array. */
  predicate DeepShort(p: Pair) {
    Short(p) && (p.value.Arr? ==> Amf0RoundTrip.AllShort(p.value.pairs))
  }

  predicate AllDeepShort(o: seq<Pair>) {
    forall k | 0 <= k < |o| :: DeepShort(o[k])
  }

  lemma {:induction false} ObjectOnlyShort(b: seq<byte>, i: nat)
    requires i <= |b| && ReadObjectPairs(b, i).Ok?
    ensures AllDeepShort(ReadObjectPairs(b, i).value)
    decreases |b| - i
  {
    hide ReadObjectPair, EndsAt, DeepShort;
    if !EndsAt(b, i) {
      var pair := ReadObjectPair(b, i);
      PairOnlyShort(b, i);
      ObjectOnlyShort(b, i + pair.used);
    }
  }

  lemma PairOnlyShort(b: seq<byte>, i: nat)
    requires i <= |b| && ReadObjectPair(b, i).Ok?
    ensures AllDeepShort(ReadObjectPair(b, i).value)
  {
    hide ReadArray;
    var key := ReadStringWithoutType(b, i);
    if b[i + key.used] == 8 && ReadArray(b, i + key.used).Ok? {
      ArrayUsed(b, i + key.used);
      ArrayFrom(b, i + key.used);
      ArrayOnlyShort(b, i + key.used + 5, Be32At(b, i + key.used + 1));
    }
  }

  lemma ArrayUsed(b: seq<byte>, i: nat)
    requires i <= |b| && ReadArray(b, i).Ok?
    ensures i + 5 <= |b|
  {
    hide ReadArrayPairs;
  }

  lemma {:induction false} PairsShort(ms: seq<Member>)
    requires AllAllowed(ms)
    ensures AllDeepShort(Pairs(ms)) <==> AllShortMembers(ms)
  {
    hide *;
    MembersUnfold(ms);
    if ms == [] {
      NothingLong();
    } else {
      PairsShort(ms[1..]);
      DeepTogether(MemberPairs(ms[0]), Pairs(ms[1..]));
      MemberPairsShort(ms[0]);
    }
  }

  lemma NothingLong()
    ensures AllDeepShort([]) && AllShortMembers([])
  {
  }

  lemma DeepTogether(a: seq<Pair>, b: seq<Pair>)
    ensures AllDeepShort(a + b) <==> AllDeepShort(a) && AllDeepShort(b)
  {
    hide DeepShort;
    if AllDeepShort(a + b) {
      assert forall k | 0 <= k < |a| :: (a + b)[k] == a[k];
      assert forall k | 0 <= k < |b| :: (a + b)[|a| + k] == b[k];
    }
  }

  lemma MemberPairsShort(m: Member)
    requires Allowed(m)
    ensures AllDeepShort(MemberPairs(m)) <==> ShortMember(m)
  {
    match m
    case Plain(e) =>
      if e.value.Some? {
        assert Kept(e)[0] == Pair(e.key, e.value.value);
      }
    case Nested(key, es, _) =>
      KeptShort(es);
      hide AllKept, AllShortEntries;
      assert MemberPairs(m)[0] == Pair(key, Arr(AllKept(es)));
  }

  /** An object with null fields and arrays comes back, the null fields left out, with exactly its bytes
      consumed, if and only if all keys and strings are short and no array without its own end marker stands
      last, where it takes the object's. */
  lemma ObjectReads(b: seq<byte>, i: nat, ms: seq<Member>)
    requires AllAllowed(ms) && At(b, i, ObjectOf(ms)) && i <= |b|
    ensures ReadObject(b, i) == Ok(Pairs(ms), |ObjectOf(ms)|) <==> AllShortMembers(ms) && Closed(ms)
  {
    hide *;
    ObjectStarts(b, i, ms);
    ObjectWhole(b, i);
    PairsShort(ms);
    if !AllShortMembers(ms) {
      if ReadObjectPairs(b, i + 1).Ok? {
        ObjectOnlyShort(b, i + 1);
      }
    } else if Closed(ms) {
      MembersAt(b, i + 1, ms);
    } else {
      MembersOverrun(b, i + 1, ms);
    }
  }

  lemma ObjectStarts(b: seq<byte>, i: nat, ms: seq<Member>)
    requires AllAllowed(ms) && At(b, i, ObjectOf(ms))
    ensures i < |b| && b[i] == 3 && At(b, i + 1, MembersBytes(ms) + [0, 0, 9])
    ensures |ObjectOf(ms)| == |MembersBytes(ms)| + 4
  {
    hide MembersBytes, At;
    AtSplit(b, i, [3], MembersBytes(ms) + [0, 0, 9]);
    AtByte(b, i, 3);
  }

  lemma ObjectWhole(b: seq<byte>, i: nat)
    requires i < |b| && b[i] == 3
    ensures
      var pairs := ReadObjectPairs(b, i + 1);
      if pairs.Ok? then ReadObject(b, i) == Ok(pairs.value, 1 + pairs.used) else ReadObject(b, i).Err?
  {
    hide ReadObjectPairs;
  }

  lemma NestedExact(ms: seq<Member>, rest: seq<byte>)
    requires AllAllowed(ms)
    ensures ReadObject(ObjectOf(ms) + rest, 0) == Ok(Pairs(ms), |ObjectOf(ms)|) <==> AllShortMembers(ms) && Closed(ms)
  {
    hide *;
    Amf0RoundTrip.AtStart(ObjectOf(ms), rest);
    ObjectReads(ObjectOf(ms) + rest, 0, ms);
  }
}
