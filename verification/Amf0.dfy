/** The AMF0 writers and readers of `rtmp/amf0.go`. */
module Amf0 {
  import opened Bytes
  import opened Wire

  const NUMBER: byte := 0x00
  const BOOLEAN: byte := 0x01
  const STRING: byte := 0x02
  const OBJECT: byte := 0x03
  const NULL: byte := 0x05
  const ECMA_ARRAY: byte := 0x08
  const LONG_STRING: byte := 0x0C
  const OBJECT_END: seq<byte> := [0, 0, 9]

  /** Strings are byte strings; a number is the eight bytes of a float. */
  datatype Value = Str(s: seq<byte>) | Num(bits: seq<byte>) | Bool(b: bool) | Arr(pairs: seq<Pair>)
  datatype Pair = Pair(key: seq<byte>, value: Value)

  /** `UnknownType` stands for the panics on a type that is not handled. */
  datatype Error = TooShort | InvalidType | UnknownType
  datatype Read<+T> = Ok(value: T, used: nat) | Err(error: Error)

  // Writing

  function StringBytes(s: seq<byte>): seq<byte> {
    if |s| < 0x1_0000 then [STRING] + BePut16(|s|) + s else [LONG_STRING] + BePut32(|s| % 0x1_0000_0000) + s
  }

  function NumberBytes(bits: seq<byte>): seq<byte> {
    [NUMBER] + bits
  }

  function BooleanBytes(b: bool): seq<byte> {
    [BOOLEAN, if b then 1 else 0]
  }

  const NULL_BYTES: seq<byte> := [NULL]

  /** Keys always get a 16-bit length. */
  function KeyBytes(key: seq<byte>): seq<byte> {
    BePut16(|key| % 0x1_0000) + key
  }

  predicate Writable(v: Value) {
    v.Str? || v.Bool? || (v.Num? && |v.bits| == 8)
  }

  function ValueBytes(v: Value): seq<byte>
    requires Writable(v)
  {
    match v
    case Str(s) => StringBytes(s)
    case Num(bits) => NumberBytes(bits)
    case Bool(b) => BooleanBytes(b)
  }

  predicate AllWritable(o: seq<Pair>) {
    forall k | 0 <= k < |o| :: Writable(o[k].value)
  }

  function PairsBytes(o: seq<Pair>): seq<byte>
    requires AllWritable(o)
  {
    if o == [] then [] else KeyBytes(o[0].key) + ValueBytes(o[0].value) + PairsBytes(o[1..])
  }

  function ObjectBytes(o: seq<Pair>): seq<byte>
    requires AllWritable(o)
  {
    [OBJECT] + PairsBytes(o) + OBJECT_END
  }

  /** Writes behind `out`; fails on a value that is neither string, number nor boolean. */
  method WriteObject(out: seq<byte>, opa: seq<Pair>) returns (r: Option<seq<byte>>)
    requires forall k | 0 <= k < |opa| :: opa[k].value.Num? ==> |opa[k].value.bits| == 8
    ensures r == if AllWritable(opa) then Some(out + ObjectBytes(opa)) else None
  {
    WrittenNone(opa);
    hide ValueBytes, KeyBytes, PairsBytes, ObjectBytes;
    var w := out + [OBJECT];
    ghost var pairs: seq<byte> := [];
    for i := 0 to |opa|
      invariant Written(opa, i, pairs) && w == out + [OBJECT] + pairs
    {
      WrittenNext(opa, i, pairs);
      if opa[i].value.Arr? {
        return None;
      }
      w := w + KeyBytes(opa[i].key) + ValueBytes(opa[i].value);
      ghost var pair := KeyBytes(opa[i].key) + ValueBytes(opa[i].value);
      assert w == out + [OBJECT] + (pairs + pair);
      pairs := pairs + pair;
    }
    WrittenAll(opa, pairs);
    assert w + OBJECT_END == out + ([OBJECT] + pairs + OBJECT_END);
    return Some(w + OBJECT_END);
  }

  /** `pairs` are the bytes of the first `i` pairs. */
  ghost predicate Written(o: seq<Pair>, i: nat, pairs: seq<byte>) {
    i <= |o| && AllWritable(o[..i]) && PairsBytes(o[..i]) == pairs
  }

  lemma WrittenNone(o: seq<Pair>)
    ensures Written(o, 0, [])
  {
  }

  lemma WrittenNext(o: seq<Pair>, i: nat, pairs: seq<byte>)
    requires i < |o| && Written(o, i, pairs) && (o[i].value.Num? ==> |o[i].value.bits| == 8)
    ensures if o[i].value.Arr? then !AllWritable(o)
      else Written(o, i + 1, pairs + (KeyBytes(o[i].key) + ValueBytes(o[i].value)))
  {
    hide KeyBytes, ValueBytes, PairsBytes;
    if !o[i].value.Arr? {
      var next := o[..i + 1];
      assert forall k | 0 <= k < i :: next[k] == o[..i][k];
      assert next[i] == o[i];
      PairsSnoc(o, i);
    }
  }

  lemma WrittenAll(o: seq<Pair>, pairs: seq<byte>)
    requires Written(o, |o|, pairs)
    ensures AllWritable(o) && ObjectBytes(o) == [OBJECT] + pairs + OBJECT_END
  {
    assert o[..|o|] == o;
  }

  lemma {:induction false} PairsSnoc(o: seq<Pair>, i: nat)
    requires i < |o| && AllWritable(o[..i + 1]) && AllWritable(o[..i])
    ensures PairsBytes(o[..i + 1]) == PairsBytes(o[..i]) + (KeyBytes(o[i].key) + ValueBytes(o[i].value))
    decreases |o|
  {
    hide KeyBytes, ValueBytes;
    var a, b := o[..i + 1], o[..i];
    assert a[i] == o[i];
    if i > 0 {
      assert a[1..] == o[1..][..i] && b[1..] == o[1..][..i - 1];
      PairsSnoc(o[1..], i - 1);
    } else {
      assert a == [o[0]] && b == [];
      assert PairsBytes(a[1..]) == [];
    }
  }

  // Reading `b` from index `i` on; `used` bytes are consumed

  function ReadStringWithoutType(b: seq<byte>, i: nat): (r: Read<seq<byte>>)
    requires i <= |b|
    ensures r.Ok? ==> i + r.used <= |b| && |r.value| < 0x1_0000 && r.used == 2 + |r.value|
  {
    if |b| - i < 2 then Err(TooShort)
    else
      var l := Be16At(b, i) as nat;
      if l > |b| - i - 2 then Err(TooShort) else Ok(b[i + 2..i + 2 + l], 2 + l)
  }

  function ReadLongStringWithoutType(b: seq<byte>, i: nat): (r: Read<seq<byte>>)
    requires i <= |b|
    ensures r.Ok? ==> i + r.used <= |b| && r.used == 4 + |r.value| && |r.value| < 0x1_0000_0000
  {
    if |b| - i < 4 then Err(TooShort)
    else
      var l := Be32At(b, i) as nat;
      if l > |b| - i - 4 then Err(TooShort) else Ok(b[i + 4..i + 4 + l], 4 + l)
  }

  function ReadString(b: seq<byte>, i: nat): (r: Read<seq<byte>>)
    requires i <= |b|
    ensures r.Ok? ==> 0 < r.used && i + r.used <= |b| && |r.value| < 0x1_0000_0000
  {
    if |b| - i < 1 then Err(TooShort)
    else if b[i] == STRING then
      match ReadStringWithoutType(b, i + 1)
      case Ok(v, l) => Ok(v, l + 1)
      case Err(e) => Err(e)
    else if b[i] == LONG_STRING then
      match ReadLongStringWithoutType(b, i + 1)
      case Ok(v, l) => Ok(v, l + 1)
      case Err(e) => Err(e)
    else Err(InvalidType)
  }

  function ReadNumber(b: seq<byte>, i: nat): (r: Read<seq<byte>>)
    requires i <= |b|
    ensures r.Ok? ==> r.used == 9 && i + 9 <= |b| && |r.value| == 8
  {
    if |b| - i < 9 then Err(TooShort)
    else if b[i] != NUMBER then Err(InvalidType)
    else Ok(b[i + 1..i + 9], 9)
  }

  function ReadBoolean(b: seq<byte>, i: nat): (r: Read<bool>)
    requires i <= |b|
    ensures r.Ok? ==> r.used == 2 && i + 2 <= |b|
  {
    if |b| - i < 2 then Err(TooShort)
    else if b[i] != BOOLEAN then Err(InvalidType)
    else Ok(b[i + 1] != 0, 2)
  }

  function ReadNull(b: seq<byte>, i: nat): (r: Read<()>)
    requires i <= |b|
    ensures r.Ok? ==> r.used == 1 && i + 1 <= |b|
  {
    if |b| - i < 1 then Err(TooShort)
    else if b[i] != NULL then Err(InvalidType)
    else Ok((), 1)
  }

  /** The value of a pair in an array: string, boolean, number or null. */
  function ReadField(key: seq<byte>, b: seq<byte>, i: nat): (r: Read<seq<Pair>>)
    requires i < |b|
    ensures r.Ok? ==> 0 < r.used && i + r.used <= |b|
  {
    if b[i] == STRING then
      match ReadString(b, i)
      case Ok(v, l) => Ok([Pair(key, Str(v))], l)
      case Err(e) => Err(e)
    else if b[i] == BOOLEAN then
      match ReadBoolean(b, i)
      case Ok(v, l) => Ok([Pair(key, Bool(v))], l)
      case Err(e) => Err(e)
    else if b[i] == NUMBER then
      match ReadNumber(b, i)
      case Ok(v, l) => Ok([Pair(key, Num(v))], l)
      case Err(e) => Err(e)
    else if b[i] == NULL then Ok([], 1)
    else Err(UnknownType)
  }

  function ReadArrayPair(b: seq<byte>, i: nat): (r: Read<seq<Pair>>)
    requires i <= |b|
    ensures r.Ok? ==> 3 <= r.used && i + r.used <= |b|
  {
    match ReadStringWithoutType(b, i)
    case Err(e) => Err(e)
    case Ok(k, l) =>
      if |b| - i - l < 1 then Err(TooShort)
      else
        match ReadField(k, b, i + l)
        case Err(e) => Err(e)
        case Ok(ops, m) => Ok(ops, l + m)
  }

  /** `count` pairs. */
  function ReadArrayPairs(b: seq<byte>, i: nat, count: nat): (r: Read<seq<Pair>>)
    requires i <= |b|
    ensures r.Ok? ==> i + r.used <= |b|
    decreases count
  {
    if count == 0 then Ok([], 0)
    else
      match ReadArrayPair(b, i)
      case Err(e) => Err(e)
      case Ok(ops, l) =>
        match ReadArrayPairs(b, i + l, count - 1)
        case Err(e) => Err(e)
        case Ok(rest, m) => Ok(ops + rest, l + m)
  }

  /** The end marker stands at `i`. */
  predicate EndsAt(b: seq<byte>, i: nat) {
    i + 3 <= |b| && b[i] == 0 && b[i + 1] == 0 && b[i + 2] == 9
  }

  /** The counted pairs, and the end marker behind them if it is there. */
  function ReadArray(b: seq<byte>, i: nat): (r: Read<seq<Pair>>)
    requires i <= |b|
    ensures r.Ok? ==> 5 <= r.used && i + r.used <= |b|
  {
    if |b| - i < 5 then Err(TooShort)
    else if b[i] != ECMA_ARRAY then Err(InvalidType)
    else
      match ReadArrayPairs(b, i + 5, Be32At(b, i + 1))
      case Err(e) => Err(e)
      case Ok(ops, l) => Ok(ops, if EndsAt(b, i + 5 + l) then 8 + l else 5 + l)
  }

  /** A pair of an object, whose value may be an array as well. */
  function ReadObjectPair(b: seq<byte>, i: nat): (r: Read<seq<Pair>>)
    requires i <= |b|
    ensures r.Ok? ==> 3 <= r.used && i + r.used <= |b|
  {
    match ReadStringWithoutType(b, i)
    case Err(e) => Err(e)
    case Ok(k, l) =>
      if |b| - i - l < 1 then Err(TooShort)
      else if b[i + l] == ECMA_ARRAY then
        match ReadArray(b, i + l)
        case Err(e) => Err(e)
        case Ok(v, m) => Ok([Pair(k, Arr(v))], l + m)
      else
        match ReadField(k, b, i + l)
        case Err(e) => Err(e)
        case Ok(ops, m) => Ok(ops, l + m)
  }

  /** Pairs up to the end marker. */
  function ReadObjectPairs(b: seq<byte>, i: nat): (r: Read<seq<Pair>>)
    requires i <= |b|
    ensures r.Ok? ==> 3 <= r.used && i + r.used <= |b|
    decreases |b| - i
  {
    if EndsAt(b, i) then Ok([], 3)
    else
      match ReadObjectPair(b, i)
      case Err(e) => Err(e)
      case Ok(ops, l) =>
        match ReadObjectPairs(b, i + l)
        case Err(e) => Err(e)
        case Ok(rest, m) => Ok(ops + rest, l + m)
  }

  function ReadObject(b: seq<byte>, i: nat): (r: Read<seq<Pair>>)
    requires i <= |b|
    ensures r.Ok? ==> 4 <= r.used && i + r.used <= |b|
  {
    if |b| - i < 1 then Err(TooShort)
    else if b[i] != OBJECT then Err(InvalidType)
    else
      match ReadObjectPairs(b, i + 1)
      case Err(e) => Err(e)
      case Ok(ops, l) => Ok(ops, 1 + l)
  }

  function ReadObjectOrArray(b: seq<byte>, i: nat): (r: Read<seq<Pair>>)
    requires i <= |b|
    ensures r.Ok? ==> 4 <= r.used && i + r.used <= |b|
  {
    if |b| - i < 1 then Err(TooShort)
    else if b[i] == OBJECT then ReadObject(b, i)
    else if b[i] == ECMA_ARRAY then ReadArray(b, i)
    else Err(InvalidType)
  }

  // The loops of the readers

  method ReadObjectLoop(b: seq<byte>) returns (r: Read<seq<Pair>>)
    ensures r == ReadObject(b, 0)
  {
    if |b| < 1 {
      return Err(TooShort);
    }
    if b[0] != OBJECT {
      return Err(InvalidType);
    }
    hide ReadObjectPairs, ReadObjectPair, EndsAt, ObjectLeft;
    ObjectStart(b);
    var index := 1;
    var ops: seq<Pair> := [];
    while true
      invariant 1 <= index <= |b| && ObjectLeft(b, index, ops)
      decreases |b| - index
    {
      ObjectStep(b, index, ops);
      if EndsAt(b, index) {
        return Ok(ops, index + 3);
      }
      var pair := ReadObjectPair(b, index);
      if pair.Err? {
        return Err(pair.error);
      }
      ops := ops + pair.value;
      index := index + pair.used;
    }
  }

  /** The pairs from `index` on, behind `ops`, are those of the whole object. */
  ghost predicate ObjectLeft(b: seq<byte>, index: nat, ops: seq<Pair>) {
    1 <= index <= |b| && Prepended(ops, index - 1, ReadObjectPairs(b, index)) == ReadObjectPairs(b, 1)
  }

  lemma ObjectStart(b: seq<byte>)
    requires |b| >= 1
    ensures ObjectLeft(b, 1, [])
  {
    hide ReadObjectPairs;
    PrependNothing(ReadObjectPairs(b, 1));
  }

  lemma ObjectStep(b: seq<byte>, index: nat, ops: seq<Pair>)
    requires index <= |b| && ObjectLeft(b, index, ops)
    ensures
      var pair, all := ReadObjectPair(b, index), ReadObjectPairs(b, 1);
      if EndsAt(b, index) then all == Ok(ops, index + 2)
      else if pair.Err? then all == Err(pair.error)
      else ObjectLeft(b, index + pair.used, ops + pair.value)
  {
    hide ReadObjectPair, EndsAt;
    var pair := ReadObjectPair(b, index);
    var none: seq<Pair> := [];
    assert ops + none == ops;
    if !EndsAt(b, index) && pair.Ok? {
      PrependTwice(ops, index - 1, pair.value, pair.used, ReadObjectPairs(b, index + pair.used));
    }
  }

  method ReadArrayLoop(b: seq<byte>) returns (r: Read<seq<Pair>>)
    ensures r == ReadArray(b, 0)
  {
    hide *;
    ArrayIs(b);
    if |b| < 5 {
      return Err(TooShort);
    }
    if b[0] != ECMA_ARRAY {
      return Err(InvalidType);
    }
    var count := Be32At(b, 1);
    ArrayStart(b, count);
    var index := 5;
    var ops: seq<Pair> := [];
    for i := 0 to count
      invariant 5 <= index <= |b| && ArrayLeft(b, index, count - i, ops, count)
    {
      ArrayStep(b, index, count - i, ops, count);
      var pair := ReadArrayPair(b, index);
      if pair.Err? {
        return Err(pair.error);
      }
      ops := ops + pair.value;
      index := index + pair.used;
    }
    ArrayEnd(b, index, ops, count);
    if EndsAt(b, index) {
      index := index + 3;
    }
    return Ok(ops, index);
  }

  lemma ArrayIs(b: seq<byte>)
    ensures ReadArray(b, 0)
      == if |b| < 5 then Err(TooShort)
         else if b[0] != ECMA_ARRAY then Err(InvalidType)
         else
           match ReadArrayPairs(b, 5, Be32At(b, 1))
           case Err(e) => Err(e)
           case Ok(ops, l) => Ok(ops, if EndsAt(b, 5 + l) then 8 + l else 5 + l)
  {
    hide ReadArrayPairs, EndsAt, Be32At;
  }

  /** The `left` pairs from `index` on, behind `ops`, are those of the whole array of `count`. */
  ghost predicate ArrayLeft(b: seq<byte>, index: nat, left: nat, ops: seq<Pair>, count: nat) {
    5 <= index <= |b| && Prepended(ops, index - 5, ReadArrayPairs(b, index, left)) == ReadArrayPairs(b, 5, count)
  }

  lemma ArrayStart(b: seq<byte>, count: nat)
    requires |b| >= 5
    ensures ArrayLeft(b, 5, count, [], count)
  {
    hide ReadArrayPairs;
    PrependNothing(ReadArrayPairs(b, 5, count));
  }

  lemma ArrayStep(b: seq<byte>, index: nat, left: nat, ops: seq<Pair>, count: nat)
    requires left > 0 && index <= |b| && ArrayLeft(b, index, left, ops, count)
    ensures
      var pair := ReadArrayPair(b, index);
      if pair.Err? then ReadArrayPairs(b, 5, count) == Err(pair.error)
      else ArrayLeft(b, index + pair.used, left - 1, ops + pair.value, count)
  {
    hide ReadArrayPair, EndsAt;
    var pair := ReadArrayPair(b, index);
    if pair.Ok? {
      PrependTwice(ops, index - 5, pair.value, pair.used, ReadArrayPairs(b, index + pair.used, left - 1));
    }
  }

  lemma ArrayEnd(b: seq<byte>, index: nat, ops: seq<Pair>, count: nat)
    requires index <= |b| && ArrayLeft(b, index, 0, ops, count)
    ensures ReadArrayPairs(b, 5, count) == Ok(ops, index - 5)
  {
    var none: seq<Pair> := [];
    assert ops + none == ops;
  }

  /** What is read after `ops` and `used` bytes, as part of the whole. */
  function Prepended(ops: seq<Pair>, used: nat, rest: Read<seq<Pair>>): Read<seq<Pair>> {
    match rest
    case Err(e) => Err(e)
    case Ok(more, l) => Ok(ops + more, used + l)
  }

  lemma PrependNothing(rest: Read<seq<Pair>>)
    ensures Prepended([], 0, rest) == rest
  {
    if rest.Ok? {
      var none: seq<Pair> := [];
      assert none + rest.value == rest.value;
    }
  }

  lemma PrependTwice(a: seq<Pair>, m: nat, b: seq<Pair>, n: nat, rest: Read<seq<Pair>>)
    ensures Prepended(a, m, Prepended(b, n, rest)) == Prepended(a + b, m + n, rest)
  {
    match rest
    case Err(_) =>
    case Ok(more, _) => ConcatAssociative(a, b, more);
  }
}
