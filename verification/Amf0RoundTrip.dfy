/** Reading AMF0 undoes writing it, with exactly the written bytes consumed whatever follows, and the
    readers look at no byte beyond those they consume. */
module Amf0RoundTrip {
  import opened Bytes
  import opened Wire
  import opened Amf0

  // Strings, numbers, booleans, null

  lemma ShortStringAt(b: seq<byte>, i: nat, s: seq<byte>)
    requires At(b, i, BePut16(|s| % 0x1_0000) + s) && |s| < 0x1_0000
    ensures i <= |b| && ReadStringWithoutType(b, i) == Ok(s, 2 + |s|)
  {
    AtSplit(b, i, BePut16(|s|), s);
    At16(b, i, |s|);
    AtSlice(b, i + 2, s);
  }

  lemma LongStringAt(b: seq<byte>, i: nat, s: seq<byte>)
    requires At(b, i, BePut32(|s| % 0x1_0000_0000) + s) && |s| < 0x1_0000_0000
    ensures i <= |b| && ReadLongStringWithoutType(b, i) == Ok(s, 4 + |s|)
  {
    AtSplit(b, i, BePut32(|s|), s);
    At32(b, i, |s|);
    AtSlice(b, i + 4, s);
  }

  lemma MarkedAt(b: seq<byte>, i: nat, marker: byte, length: seq<byte>, s: seq<byte>)
    requires At(b, i, [marker] + length + s)
    ensures i < |b| && b[i] == marker && At(b, i + 1, length + s)
  {
    assert [marker] + length + s == [marker] + (length + s);
    AtSplit(b, i, [marker], length + s);
    AtByte(b, i, marker);
  }

  lemma StringAt(b: seq<byte>, i: nat, s: seq<byte>)
    requires At(b, i, StringBytes(s)) && |s| < 0x1_0000_0000
    ensures i < |b| && b[i] == (if |s| < 0x1_0000 then STRING else LONG_STRING)
    ensures ReadString(b, i) == Ok(s, |StringBytes(s)|)
  {
    hide At, BePut16, BePut32, ReadStringWithoutType, ReadLongStringWithoutType;
    if |s| < 0x1_0000 {
      MarkedAt(b, i, STRING, BePut16(|s|), s);
      ShortStringAt(b, i + 1, s);
    } else {
      MarkedAt(b, i, LONG_STRING, BePut32(|s| % 0x1_0000_0000), s);
      LongStringAt(b, i + 1, s);
    }
  }

  /** Short and long strings come back exactly as long as the length fits its 32 bits. */
  lemma StringExact(s: seq<byte>, rest: seq<byte>)
    ensures ReadString(StringBytes(s) + rest, 0) == Ok(s, |StringBytes(s)|) <==> |s| < 0x1_0000_0000
  {
    hide StringBytes, ReadString;
    if |s| < 0x1_0000_0000 {
      AtStart(StringBytes(s), rest);
      StringAt(StringBytes(s) + rest, 0, s);
    }
  }

  lemma AtStart(a: seq<byte>, rest: seq<byte>)
    ensures At(a + rest, 0, a)
  {
  }

  lemma NumberAt(b: seq<byte>, i: nat, bits: seq<byte>)
    requires At(b, i, NumberBytes(bits)) && |bits| == 8
    ensures i < |b| && b[i] == NUMBER && ReadNumber(b, i) == Ok(bits, |NumberBytes(bits)|)
  {
    AtSplit(b, i, [NUMBER], bits);
    AtByte(b, i, NUMBER);
    AtSlice(b, i + 1, bits);
  }

  lemma BooleanAt(b: seq<byte>, i: nat, v: bool)
    requires At(b, i, BooleanBytes(v))
    ensures i < |b| && b[i] == BOOLEAN && ReadBoolean(b, i) == Ok(v, |BooleanBytes(v)|)
  {
    var p := BooleanBytes(v);
    assert b[i + 0] == p[0] && b[i + 1] == p[1];
  }

  lemma NullAt(b: seq<byte>, i: nat)
    requires At(b, i, NULL_BYTES)
    ensures i < |b| && b[i] == NULL && ReadNull(b, i) == Ok((), 1)
  {
    AtByte(b, i, NULL);
  }

  // The markers of AMF0

  /** What stands at the start of what is written. */
  lemma WrittenMarkers(s: seq<byte>, bits: seq<byte>, o: seq<Pair>)
    requires AllWritable(o)
    ensures StringBytes(s)[0] == if |s| < 0x1_0000 then 2 else 12
    ensures NumberBytes(bits) == [0] + bits && NULL_BYTES == [5]
    ensures BooleanBytes(true) == [1, 1] && BooleanBytes(false) == [1, 0]
    ensures ObjectBytes(o)[0] == 3 && ObjectBytes(o)[|ObjectBytes(o)| - 3..] == [0, 0, 9]
  {
    hide BePut16, BePut32, PairsBytes;
  }

  /** Each reader takes its own marker and refuses every other. */
  lemma MarkersExact(b: seq<byte>, i: nat)
    requires i <= |b|
    ensures ReadString(b, i) == Err(InvalidType) <==> i < |b| && b[i] !in {2, 12}
    ensures ReadNumber(b, i) == Err(InvalidType) <==> i + 9 <= |b| && b[i] != 0
    ensures ReadNumber(b, i).Ok? <==> i + 9 <= |b| && b[i] == 0
    ensures ReadBoolean(b, i) == Err(InvalidType) <==> i + 2 <= |b| && b[i] != 1
    ensures ReadBoolean(b, i).Ok? <==> i + 2 <= |b| && b[i] == 1
    ensures ReadNull(b, i) == Err(InvalidType) <==> i < |b| && b[i] != 5
    ensures ReadNull(b, i).Ok? <==> i < |b| && b[i] == 5
  {
  }

  /** Nothing inside an array or an object is refused for its marker: an unknown one there is a failure of its
      own. */
  lemma {:induction false} InsideArray(b: seq<byte>, i: nat, n: nat)
    requires i <= |b|
    ensures ReadArrayPairs(b, i, n) != Err(InvalidType)
    decreases n
  {
    hide ReadStringWithoutType, ReadField;
    if n > 0 {
      InsidePair(b, i);
      hide ReadArrayPair;
      if ReadArrayPair(b, i).Ok? {
        InsideArray(b, i + ReadArrayPair(b, i).used, n - 1);
      }
    }
  }

  lemma InsidePair(b: seq<byte>, i: nat)
    requires i <= |b|
    ensures ReadArrayPair(b, i) != Err(InvalidType)
  {
    var key := ReadStringWithoutType(b, i);
    hide ReadStringWithoutType;
    KeyError(b, i);
    if key.Ok? && i + key.used < |b| {
      FieldError(key.value, b, i + key.used);
      hide ReadField;
    }
  }

  lemma KeyError(b: seq<byte>, i: nat)
    requires i <= |b|
    ensures ReadStringWithoutType(b, i).Err? ==> ReadStringWithoutType(b, i).error == TooShort
  {
  }

  lemma FieldError(key: seq<byte>, b: seq<byte>, i: nat)
    requires i < |b|
    ensures ReadField(key, b, i) != Err(InvalidType)
    ensures ReadField(key, b, i) == Err(UnknownType) <==> b[i] !in {0, 1, 2, 5}
  {
  }

  lemma ArrayMarker(b: seq<byte>, i: nat)
    requires i <= |b|
    ensures ReadArray(b, i) == Err(InvalidType) <==> i + 5 <= |b| && b[i] != 8
  {
    if i + 5 <= |b| {
      InsideArray(b, i + 5, Be32At(b, i + 1));
    }
    hide ReadArrayPairs, EndsAt;
  }

  lemma {:induction false} InsideObject(b: seq<byte>, i: nat)
    requires i <= |b|
    ensures ReadObjectPairs(b, i) != Err(InvalidType)
    decreases |b| - i
  {
    hide EndsAt;
    ObjectPairError(b, i);
    hide ReadObjectPair;
    if !EndsAt(b, i) && ReadObjectPair(b, i).Ok? {
      InsideObject(b, i + ReadObjectPair(b, i).used);
    }
  }

  lemma ObjectPairError(b: seq<byte>, i: nat)
    requires i <= |b|
    ensures ReadObjectPair(b, i) != Err(InvalidType)
  {
    var key := ReadStringWithoutType(b, i);
    KeyError(b, i);
    hide ReadStringWithoutType, ReadField, ReadArray;
    if key.Ok? && i + key.used < |b| {
      if b[i + key.used] == ECMA_ARRAY {
        ArrayMarker(b, i + key.used);
      } else {
        FieldError(key.value, b, i + key.used);
      }
    }
  }

  /** An object starts with 3, an array with 8. */
  lemma PairsMarkersExact(b: seq<byte>, i: nat)
    requires i <= |b|
    ensures ReadObject(b, i) == Err(InvalidType) <==> i < |b| && b[i] != 3
    ensures ReadArray(b, i) == Err(InvalidType) <==> i + 5 <= |b| && b[i] != 8
    ensures ReadObjectOrArray(b, i) == Err(InvalidType) <==> i < |b| && b[i] !in {3, 8}
  {
    ArrayMarker(b, i);
    if i < |b| {
      InsideObject(b, i + 1);
    }
    hide ReadObjectPairs, ReadArray;
  }

  // Objects

  predicate Short(p: Pair) {
    |p.key| < 0x1_0000 && (p.value.Str? ==> |p.value.s| < 0x1_0000)
  }

  predicate AllShort(o: seq<Pair>) {
    forall k | 0 <= k < |o| :: Short(o[k])
  }

  /** A written pair is read back, and does not look like the end marker. */
  lemma PairAt(b: seq<byte>, i: nat, p: Pair)
    requires Writable(p.value) && Short(p) && At(b, i, KeyBytes(p.key) + ValueBytes(p.value))
    ensures i <= |b| && !EndsAt(b, i)
    ensures ReadObjectPair(b, i) == Ok([p], |KeyBytes(p.key)| + |ValueBytes(p.value)|)
  {
    var j := i + |KeyBytes(p.key)|;
    AtSplit(b, i, KeyBytes(p.key), ValueBytes(p.value));
    ShortStringAt(b, i, p.key);
    FieldAt(b, j, p);
    EndHasNoKey(b, i);
  }

  lemma EndHasNoKey(b: seq<byte>, i: nat)
    requires i <= |b|
    ensures EndsAt(b, i) ==> ReadStringWithoutType(b, i) == Ok([], 2) && b[i + 2] == 9
  {
  }

  lemma FieldAt(b: seq<byte>, i: nat, p: Pair)
    requires Writable(p.value) && Short(p) && At(b, i, ValueBytes(p.value))
    ensures i < |b| && b[i] != ECMA_ARRAY && b[i] != 9
    ensures ReadField(p.key, b, i) == Ok([p], |ValueBytes(p.value)|)
  {
    match p.value
    case Str(s) => StringAt(b, i, s);
    case Num(bits) => NumberAt(b, i, bits);
    case Bool(v) => BooleanAt(b, i, v);
  }

  lemma EndAt(b: seq<byte>, i: nat)
    requires At(b, i, OBJECT_END)
    ensures EndsAt(b, i)
  {
    assert b[i + 0] == OBJECT_END[0] && b[i + 1] == OBJECT_END[1] && b[i + 2] == OBJECT_END[2];
  }

  lemma {:induction false} PairsAt(b: seq<byte>, i: nat, o: seq<Pair>)
    requires AllWritable(o) && AllShort(o) && At(b, i, PairsBytes(o) + OBJECT_END)
    ensures i <= |b| && ReadObjectPairs(b, i) == Ok(o, |PairsBytes(o)| + 3)
    decreases |o|
  {
    hide *;
    if o == [] {
      NoPairsAt(b, i);
    } else {
      FirstPair(o);
      var head, tail := KeyBytes(o[0].key) + ValueBytes(o[0].value), PairsBytes(o[1..]);
      AtSplit(b, i, head, tail + OBJECT_END);
      PairAt(b, i, o[0]);
      PairsAt(b, i + |head|, o[1..]);
      ReadFirstPair(b, i);
      assert [o[0]] + o[1..] == o;
    }
  }

  lemma NoPairsAt(b: seq<byte>, i: nat)
    requires AllWritable([]) && At(b, i, PairsBytes([]) + OBJECT_END)
    ensures i <= |b| && ReadObjectPairs(b, i) == Ok([], |PairsBytes([])| + 3)
  {
    assert PairsBytes([]) + OBJECT_END == OBJECT_END;
    EndAt(b, i);
  }

  lemma FirstPair(o: seq<Pair>)
    requires AllWritable(o) && AllShort(o) && o != []
    ensures Writable(o[0].value) && Short(o[0]) && AllWritable(o[1..]) && AllShort(o[1..])
    ensures PairsBytes(o) + OBJECT_END
      == KeyBytes(o[0].key) + ValueBytes(o[0].value) + (PairsBytes(o[1..]) + OBJECT_END)
  {
    hide KeyBytes, ValueBytes;
  }

  lemma ReadFirstPair(b: seq<byte>, i: nat)
    requires i <= |b| && !EndsAt(b, i) && ReadObjectPair(b, i).Ok?
    requires ReadObjectPairs(b, i + ReadObjectPair(b, i).used).Ok?
    ensures
      var pair := ReadObjectPair(b, i);
      var rest := ReadObjectPairs(b, i + pair.used);
      ReadObjectPairs(b, i) == Ok(pair.value + rest.value, pair.used + rest.used)
  {
    hide ReadObjectPair, EndsAt;
  }

  lemma ObjectAt(b: seq<byte>, i: nat, o: seq<Pair>)
    requires AllWritable(o) && AllShort(o) && At(b, i, ObjectBytes(o))
    ensures i < |b| && b[i] == OBJECT && ReadObject(b, i) == Ok(o, |ObjectBytes(o)|)
  {
    hide PairsBytes, ReadObjectPairs, At;
    assert ObjectBytes(o) == [OBJECT] + (PairsBytes(o) + OBJECT_END);
    AtSplit(b, i, [OBJECT], PairsBytes(o) + OBJECT_END);
    AtByte(b, i, OBJECT);
    PairsAt(b, i + 1, o);
  }

  /** Keys and strings that an object reader returns are short: a long string is no object value. */
  lemma {:induction false} OnlyShort(b: seq<byte>, i: nat)
    requires i <= |b|
    ensures ReadObjectPairs(b, i).Ok? ==> AllShort(ReadObjectPairs(b, i).value)
    decreases |b| - i
  {
    if !EndsAt(b, i) && ReadObjectPair(b, i).Ok? {
      var pair := ReadObjectPair(b, i);
      OnlyShortPair(b, i);
      hide ReadObjectPair, EndsAt, Short;
      OnlyShort(b, i + pair.used);
    }
  }

  lemma OnlyShortPair(b: seq<byte>, i: nat)
    requires i <= |b| && ReadObjectPair(b, i).Ok?
    ensures AllShort(ReadObjectPair(b, i).value)
  {
  }

  /** Reading a written object gives it back, and consumes exactly what was written, whatever
      follows, if and only if its keys and string values are shorter than 65536 bytes. */
  lemma ObjectExact(o: seq<Pair>, rest: seq<byte>)
    requires AllWritable(o)
    ensures ReadObject(ObjectBytes(o) + rest, 0) == Ok(o, |ObjectBytes(o)|) <==> AllShort(o)
  {
    var b := ObjectBytes(o) + rest;
    if AllShort(o) {
      hide *;
      AtStart(ObjectBytes(o), rest);
      ObjectAt(b, 0, o);
    } else {
      hide ReadObjectPairs, AllShort, ObjectBytes;
      if ReadObject(b, 0).Ok? {
        OnlyShort(b, 1);
      }
    }
  }

  // Command sequences

  /** One argument of a command; what kind comes next, the reader of a command knows. */
  datatype Item = S(s: seq<byte>) | N(bits: seq<byte>) | B(b: bool) | Null | O(pairs: seq<Pair>)
  datatype Kind = KS | KN | KB | KNull | KO

  function KindOf(item: Item): Kind {
    match item
    case S(_) => KS
    case N(_) => KN
    case B(_) => KB
    case Null => KNull
    case O(_) => KO
  }

  predicate Proper(item: Item) {
    match item
    case S(s) => |s| < 0x1_0000_0000
    case N(bits) => |bits| == 8
    case O(pairs) => AllWritable(pairs) && AllShort(pairs)
    case _ => true
  }

  function ItemBytes(item: Item): seq<byte>
    requires Proper(item)
  {
    match item
    case S(s) => StringBytes(s)
    case N(bits) => NumberBytes(bits)
    case B(b) => BooleanBytes(b)
    case Null => NULL_BYTES
    case O(pairs) => ObjectBytes(pairs)
  }

  function ReadItem(kind: Kind, b: seq<byte>, i: nat): (r: Read<Item>)
    requires i <= |b|
    ensures r.Ok? ==> i + r.used <= |b|
  {
    match kind
    case KS => (match ReadString(b, i) case Ok(s, l) => Ok(S(s), l) case Err(e) => Err(e))
    case KN => (match ReadNumber(b, i) case Ok(bits, l) => Ok(N(bits), l) case Err(e) => Err(e))
    case KB => (match ReadBoolean(b, i) case Ok(v, l) => Ok(B(v), l) case Err(e) => Err(e))
    case KNull => (match ReadNull(b, i) case Ok(_, l) => Ok(Null, l) case Err(e) => Err(e))
    case KO => (match ReadObject(b, i) case Ok(o, l) => Ok(O(o), l) case Err(e) => Err(e))
  }

  predicate AllProper(items: seq<Item>) {
    forall k | 0 <= k < |items| :: Proper(items[k])
  }

  function AllBytes(items: seq<Item>): seq<byte>
    requires AllProper(items)
  {
    if items == [] then [] else ItemBytes(items[0]) + AllBytes(items[1..])
  }

  function Kinds(items: seq<Item>): seq<Kind> {
    if items == [] then [] else [KindOf(items[0])] + Kinds(items[1..])
  }

  function ReadAll(kinds: seq<Kind>, b: seq<byte>, i: nat): (r: Read<seq<Item>>)
    requires i <= |b|
  {
    if kinds == [] then Ok([], 0)
    else
      match ReadItem(kinds[0], b, i)
      case Err(e) => Err(e)
      case Ok(item, l) =>
        match ReadAll(kinds[1..], b, i + l)
        case Err(e) => Err(e)
        case Ok(items, m) => Ok([item] + items, l + m)
  }

  lemma ItemAt(b: seq<byte>, i: nat, item: Item)
    requires Proper(item) && At(b, i, ItemBytes(item))
    ensures i <= |b| && ReadItem(KindOf(item), b, i) == Ok(item, |ItemBytes(item)|)
  {
    hide At, StringBytes, NumberBytes, BooleanBytes, ObjectBytes, ReadString, ReadNumber, ReadBoolean, ReadObject;
    match item
    case S(s) => StringAt(b, i, s);
    case N(bits) => NumberAt(b, i, bits);
    case B(v) => BooleanAt(b, i, v);
    case Null => NullAt(b, i);
    case O(pairs) => ObjectAt(b, i, pairs);
  }

  lemma {:induction false} AllAt(b: seq<byte>, i: nat, items: seq<Item>)
    requires AllProper(items) && At(b, i, AllBytes(items)) && i <= |b|
    ensures ReadAll(Kinds(items), b, i) == Ok(items, |AllBytes(items)|)
    decreases |items|
  {
    hide *;
    if items == [] {
      ReadNone(b, i);
    } else {
      var item, rest := items[0], items[1..];
      Unfold(items);
      AtSplit(b, i, ItemBytes(item), AllBytes(rest));
      ItemAt(b, i, item);
      AllAt(b, i + |ItemBytes(item)|, rest);
      ReadFirst(KindOf(item), Kinds(rest), b, i);
      assert [item] + rest == items;
    }
  }

  lemma ReadNone(b: seq<byte>, i: nat)
    requires i <= |b|
    ensures AllProper([]) && ReadAll(Kinds([]), b, i) == Ok([], |AllBytes([])|)
  {
  }

  lemma Unfold(items: seq<Item>)
    requires AllProper(items) && items != []
    ensures Proper(items[0]) && AllProper(items[1..])
    ensures AllBytes(items) == ItemBytes(items[0]) + AllBytes(items[1..])
    ensures Kinds(items) == [KindOf(items[0])] + Kinds(items[1..])
  {
    hide ItemBytes;
  }

  lemma ReadFirst(kind: Kind, kinds: seq<Kind>, b: seq<byte>, i: nat)
    requires i <= |b| && ReadItem(kind, b, i).Ok? && ReadAll(kinds, b, i + ReadItem(kind, b, i).used).Ok?
    ensures
      var first := ReadItem(kind, b, i);
      var rest := ReadAll(kinds, b, i + first.used);
      ReadAll([kind] + kinds, b, i) == Ok([first.value] + rest.value, first.used + rest.used)
  {
    hide ReadItem;
    var all := [kind] + kinds;
    assert all[0] == kind && all[1..] == kinds;
  }

  /** A whole command, written argument by argument, is read back argument by argument. */
  lemma CommandRoundTrip(items: seq<Item>, rest: seq<byte>)
    requires AllProper(items)
    ensures ReadAll(Kinds(items), AllBytes(items) + rest, 0) == Ok(items, |AllBytes(items)|)
  {
    AtStart(AllBytes(items), rest);
    AllAt(AllBytes(items) + rest, 0, items);
  }

  // What the readers look at

  /** `b` and `c` share their first `n` bytes. */
  ghost predicate Agree(b: seq<byte>, c: seq<byte>, n: nat) {
    n <= |b| && n <= |c| && forall k | 0 <= k < n :: b[k] == c[k]
  }

  lemma AgreeLess(b: seq<byte>, c: seq<byte>, n: nat, m: nat)
    requires Agree(b, c, n) && m <= n
    ensures Agree(b, c, m) && m <= |b| && m <= |c|
  {
  }

  lemma AgreeSlice(b: seq<byte>, c: seq<byte>, lo: nat, hi: nat)
    requires lo <= hi && Agree(b, c, hi)
    ensures hi <= |b| && hi <= |c| && b[lo..hi] == c[lo..hi]
  {
  }

  lemma StringAgrees(b: seq<byte>, c: seq<byte>, i: nat)
    requires i <= |b| && ReadStringWithoutType(b, i).Ok? && Agree(b, c, i + ReadStringWithoutType(b, i).used)
    ensures i <= |c| && ReadStringWithoutType(c, i) == ReadStringWithoutType(b, i)
  {
    AgreeSlice(b, c, i + 2, i + ReadStringWithoutType(b, i).used);
  }

  lemma FieldAgrees(key: seq<byte>, b: seq<byte>, c: seq<byte>, i: nat)
    requires i < |b| && ReadField(key, b, i).Ok? && Agree(b, c, i + ReadField(key, b, i).used)
    ensures i < |c| && ReadField(key, c, i) == ReadField(key, b, i) && c[i] == b[i]
  {
    assert c[i] == b[i];
    if b[i] == STRING {
      StringAgrees(b, c, i + 1);
    } else if b[i] == NUMBER {
      AgreeSlice(b, c, i + 1, i + 9);
    }
  }

  lemma ArrayPairAgrees(b: seq<byte>, c: seq<byte>, i: nat)
    requires i <= |b| && ReadArrayPair(b, i).Ok? && Agree(b, c, i + ReadArrayPair(b, i).used)
    ensures i <= |c| && ReadArrayPair(c, i) == ReadArrayPair(b, i)
  {
    var n, k := i + ReadArrayPair(b, i).used, ReadStringWithoutType(b, i);
    hide ReadStringWithoutType, ReadField, Agree;
    AgreeLess(b, c, n, i + k.used);
    StringAgrees(b, c, i);
    FieldAgrees(k.value, b, c, i + k.used);
  }

  lemma {:induction false} ArrayPairsAgree(b: seq<byte>, c: seq<byte>, i: nat, count: nat)
    requires i <= |b| && ReadArrayPairs(b, i, count).Ok? && Agree(b, c, i + ReadArrayPairs(b, i, count).used)
    ensures i <= |c| && ReadArrayPairs(c, i, count) == ReadArrayPairs(b, i, count)
    decreases count
  {
    hide ReadArrayPair, Agree;
    AgreeLess(b, c, i + ReadArrayPairs(b, i, count).used, i);
    if count > 0 {
      var pair := ReadArrayPair(b, i);
      AgreeLess(b, c, i + ReadArrayPairs(b, i, count).used, i + pair.used);
      ArrayPairAgrees(b, c, i);
      ArrayPairsAgree(b, c, i + pair.used, count - 1);
    }
  }

  /** An array is read alike from every input that shares the bytes it consumed, except that one
      without the end marker must not be followed by one. */
  lemma ArrayPrefixExact(b: seq<byte>, c: seq<byte>, i: nat)
    requires i <= |b| && i <= |c| && ReadArray(b, i).Ok? && Agree(b, c, i + ReadArray(b, i).used)
    ensures
      var pairs, n := ReadArrayPairs(b, i + 5, Be32At(b, i + 1)), ReadArray(b, i).used;
      pairs.Ok? && (ReadArray(c, i) == ReadArray(b, i) <==> n == pairs.used + 8 || !EndsAt(c, i + n))
  {
    hide ReadArrayPairs;
    var pairs := ReadArrayPairs(b, i + 5, Be32At(b, i + 1));
    assert Be32At(c, i + 1) == Be32At(b, i + 1) && c[i] == b[i];
    AgreeLess(b, c, i + ReadArray(b, i).used, i + 5 + pairs.used);
    ArrayPairsAgree(b, c, i + 5, Be32At(b, i + 1));
  }

  lemma EndAgrees(b: seq<byte>, c: seq<byte>, i: nat)
    requires Agree(b, c, i + 3)
    ensures EndsAt(c, i) == EndsAt(b, i)
  {
  }

  lemma ArrayAgrees(b: seq<byte>, c: seq<byte>, i: nat)
    requires i <= |b| && ReadArray(b, i).Ok? && Agree(b, c, i + ReadArray(b, i).used + 3)
    ensures i <= |c| && ReadArray(c, i) == ReadArray(b, i)
  {
    hide ReadArrayPairs, EndsAt, Be32At, Agree;
    var n := ReadArray(b, i).used;
    AgreeLess(b, c, i + n + 3, i + n);
    AgreeLess(b, c, i + n + 3, i);
    EndAgrees(b, c, i + n);
    ArrayPrefixExact(b, c, i);
  }

  lemma ObjectPairAgrees(b: seq<byte>, c: seq<byte>, i: nat)
    requires i <= |b| && ReadObjectPair(b, i).Ok? && Agree(b, c, i + ReadObjectPair(b, i).used + 3)
    ensures i <= |c| && ReadObjectPair(c, i) == ReadObjectPair(b, i)
  {
    hide *;
    var n, k := i + ReadObjectPair(b, i).used, ReadStringWithoutType(b, i);
    PairParts(b, i);
    AgreeLess(b, c, n + 3, i + k.used + 1);
    SameByte(b, c, i + k.used);
    AgreeLess(b, c, n + 3, i + k.used);
    StringAgrees(b, c, i);
    if b[i + k.used] == ECMA_ARRAY {
      ArrayAgrees(b, c, i + k.used);
    } else {
      AgreeLess(b, c, n + 3, n);
      FieldAgrees(k.value, b, c, i + k.used);
    }
    SamePair(b, c, i);
  }

  lemma SameByte(b: seq<byte>, c: seq<byte>, i: nat)
    requires Agree(b, c, i + 1)
    ensures i < |b| && i < |c| && c[i] == b[i]
  {
  }

  lemma PairParts(b: seq<byte>, i: nat)
    requires i <= |b| && ReadObjectPair(b, i).Ok?
    ensures
      var n, k := ReadObjectPair(b, i).used, ReadStringWithoutType(b, i);
      k.Ok? && i + k.used < |b| && k.used < n
      && if b[i + k.used] == ECMA_ARRAY then ReadArray(b, i + k.used).Ok? && n == k.used + ReadArray(b, i + k.used).used
        else ReadField(k.value, b, i + k.used).Ok? && n == k.used + ReadField(k.value, b, i + k.used).used
  {
    hide ReadStringWithoutType, ReadField, ReadArray;
  }

  lemma SamePair(b: seq<byte>, c: seq<byte>, i: nat)
    requires i <= |b| && i <= |c| && ReadStringWithoutType(b, i) == ReadStringWithoutType(c, i)
    requires ReadStringWithoutType(b, i).Ok?
    requires
      var k := ReadStringWithoutType(b, i);
      i + k.used < |b| && i + k.used < |c| && b[i + k.used] == c[i + k.used]
      && if b[i + k.used] == ECMA_ARRAY then ReadArray(b, i + k.used) == ReadArray(c, i + k.used)
        else ReadField(k.value, b, i + k.used) == ReadField(k.value, c, i + k.used)
    ensures ReadObjectPair(b, i) == ReadObjectPair(c, i)
  {
    hide ReadStringWithoutType, ReadField, ReadArray;
  }

  lemma {:induction false} ObjectPairsAgree(b: seq<byte>, c: seq<byte>, i: nat)
    requires i <= |b| && ReadObjectPairs(b, i).Ok? && Agree(b, c, i + ReadObjectPairs(b, i).used)
    ensures i <= |c| && ReadObjectPairs(c, i) == ReadObjectPairs(b, i)
    decreases |b| - i
  {
    hide ReadObjectPair, EndsAt, Agree;
    var n := i + ReadObjectPairs(b, i).used;
    AgreeLess(b, c, n, i + 3);
    EndAgrees(b, c, i);
    if !EndsAt(b, i) {
      var l := ReadObjectPair(b, i).used;
      AgreeLess(b, c, n, i + l + 3);
      ObjectPairAgrees(b, c, i);
      ObjectPairsAgree(b, c, i + l);
    }
  }

  /** An object is read alike from every input that shares the bytes it consumed: the end markers
      looked for behind nested arrays lie within them. */
  lemma ObjectPrefix(b: seq<byte>, c: seq<byte>)
    requires ReadObject(b, 0).Ok? && Agree(b, c, ReadObject(b, 0).used)
    ensures ReadObject(c, 0) == ReadObject(b, 0)
  {
    hide ReadObjectPairs;
    ObjectPairsAgree(b, c, 1);
  }
}
