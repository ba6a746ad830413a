/** Stream metadata as an AMF0 message: `rtmp/metadata.go`. */
module RtmpMetadata {
  import opened Bytes
  import opened Wire
  import opened Amf0
  import opened Amf0RoundTrip
  import opened Amf0Arrays

  /** The two names, byte for byte, and what the encoder calls itself. */
  const SET_DATA_FRAME: seq<byte> := [64, 115, 101, 116, 68, 97, 116, 97, 70, 114, 97, 109, 101]
  const ON_META_DATA: seq<byte> := [111, 110, 77, 101, 116, 97, 68, 97, 116, 97]

  const WIDTH: seq<byte> := [119, 105, 100, 116, 104]
  const HEIGHT: seq<byte> := [104, 101, 105, 103, 104, 116]
  const AUDIO_CODEC_ID: seq<byte> := [97, 117, 100, 105, 111, 99, 111, 100, 101, 99, 105, 100]
  const VIDEO_CODEC_ID: seq<byte> := [118, 105, 100, 101, 111, 99, 111, 100, 101, 99, 105, 100]
  const VERSION: seq<byte> := [118, 101, 114, 115, 105, 111, 110]

  /** A name, behind "@setDataFrame" a second one, and an object or an array. */
  function ParseMetadata(b: seq<byte>): (r: Read<seq<Pair>>)
    ensures r.Ok? ==> r.used <= |b|
  {
    match ReadString(b, 0)
    case Err(e) => Err(e)
    case Ok(v, l) =>
      if v != SET_DATA_FRAME then ParsePairs(b, l)
      else
        match ReadString(b, l)
        case Err(e) => Err(e)
        case Ok(_, m) => ParsePairs(b, l + m)
  }

  function ParsePairs(b: seq<byte>, i: nat): (r: Read<seq<Pair>>)
    requires i <= |b|
    ensures r.Ok? ==> r.used <= |b|
  {
    match ReadObjectOrArray(b, i)
    case Err(e) => Err(e)
    case Ok(pairs, n) => Ok(pairs, i + n)
  }

  /** A field that is given, as its eight bytes. */
  function Field(key: seq<byte>, bits: Option<seq<byte>>): (o: seq<Pair>) {
    if bits.Some? then [Pair(key, Num(bits.value))] else []
  }

  function Fields(width: Option<seq<byte>>, height: Option<seq<byte>>, audio: Option<seq<byte>>,
                  video: Option<seq<byte>>, version: seq<byte>): seq<Pair> {
    Field(WIDTH, width) + Field(HEIGHT, height) + Field(AUDIO_CODEC_ID, audio) + Field(VIDEO_CODEC_ID, video)
    + [Pair(VERSION, Str(version))]
  }

  predicate Eight(bits: Option<seq<byte>>) {
    bits.Some? ==> |bits.value| == 8
  }

  /** The fields that are not -1, in this order, and the version. */
  method BuildMetadata(width: Option<seq<byte>>, height: Option<seq<byte>>, audio: Option<seq<byte>>,
                       video: Option<seq<byte>>, version: seq<byte>) returns (r: Option<seq<byte>>)
    requires Eight(width) && Eight(height) && Eight(audio) && Eight(video)
    ensures AllWritable(Fields(width, height, audio, video, version))
    ensures r == Some(StringBytes(ON_META_DATA) + ObjectBytes(Fields(width, height, audio, video, version)))
  {
    hide *;
    var opa := AddField([], WIDTH, width);
    opa := AddField(opa, HEIGHT, height);
    opa := AddField(opa, AUDIO_CODEC_ID, audio);
    opa := AddField(opa, VIDEO_CODEC_ID, video);
    opa := opa + [Pair(VERSION, Str(version))];
    FieldsAre(width, height, audio, video, version);
    r := WriteObject(StringBytes(ON_META_DATA), opa);
  }

  /** A number that is -1 is left out. */
  method AddField(opa: seq<Pair>, key: seq<byte>, bits: Option<seq<byte>>) returns (r: seq<Pair>)
    ensures r == opa + Field(key, bits)
  {
    r := opa;
    if bits.Some? {
      r := r + [Pair(key, Num(bits.value))];
    }
  }

  lemma FieldsAre(width: Option<seq<byte>>, height: Option<seq<byte>>, audio: Option<seq<byte>>,
                  video: Option<seq<byte>>, version: seq<byte>)
    requires Eight(width) && Eight(height) && Eight(audio) && Eight(video)
    ensures
      var none: seq<Pair> := [];
      var o := none + Field(WIDTH, width) + Field(HEIGHT, height) + Field(AUDIO_CODEC_ID, audio)
        + Field(VIDEO_CODEC_ID, video) + [Pair(VERSION, Str(version))];
      o == Fields(width, height, audio, video, version) && AllWritable(o)
      && forall k | 0 <= k < |o| :: o[k].value.Num? ==> |o[k].value.bits| == 8
  {
    hide Field;
    FieldFits(WIDTH, width);
    FieldFits(HEIGHT, height);
    FieldFits(AUDIO_CODEC_ID, audio);
    FieldFits(VIDEO_CODEC_ID, video);
    var none: seq<Pair> := [];
    assert none + Field(WIDTH, width) == Field(WIDTH, width);
  }

  predicate Fit(o: seq<Pair>) {
    forall k | 0 <= k < |o| :: Writable(o[k].value) && (o[k].value.Num? ==> |o[k].value.bits| == 8)
  }

  lemma FieldFits(key: seq<byte>, bits: Option<seq<byte>>)
    requires Eight(bits)
    ensures Fit(Field(key, bits))
  {
  }

  lemma PairsRead(b: seq<byte>, i: nat, o: seq<Pair>)
    requires AllWritable(o) && At(b, i, ObjectBytes(o))
    ensures i <= |b| && (AllShort(o) ==> ParsePairs(b, i) == Ok(o, i + |ObjectBytes(o)|))
    ensures !AllShort(o) ==> ParsePairs(b, i) != Ok(o, i + |ObjectBytes(o)|)
  {
    hide ObjectBytes, ReadObject, ReadArray, AllShort, AllWritable;
    ObjectMark(b, i, o);
    if AllShort(o) {
      ObjectAt(b, i, o);
    } else {
      OnlyShortObject(b, i);
    }
  }

  lemma ObjectMark(b: seq<byte>, i: nat, o: seq<Pair>)
    requires AllWritable(o) && At(b, i, ObjectBytes(o))
    ensures i < |b| && b[i] == OBJECT
  {
    hide PairsBytes, At;
    assert ObjectBytes(o) == [OBJECT] + (PairsBytes(o) + OBJECT_END);
    AtSplit(b, i, [OBJECT], PairsBytes(o) + OBJECT_END);
    AtByte(b, i, OBJECT);
  }

  lemma OnlyShortObject(b: seq<byte>, i: nat)
    requires i < |b|
    ensures ReadObject(b, i).Ok? ==> AllShort(ReadObject(b, i).value)
  {
    hide ReadObjectPairs, AllShort;
    OnlyShort(b, i + 1);
  }

  /** Metadata under a name of its own, and behind "@setDataFrame", comes back with exactly its bytes
      consumed, whatever follows, if and only if its keys and strings are short. */
  lemma MetadataExact(tag: seq<byte>, o: seq<Pair>, rest: seq<byte>)
    requires |tag| < 0x1_0000_0000 && AllWritable(o)
    ensures tag != SET_DATA_FRAME ==>
      var named := StringBytes(tag) + ObjectBytes(o);
      (ParseMetadata(named + rest) == Ok(o, |named|) <==> AllShort(o))
    ensures
      var named := StringBytes(SET_DATA_FRAME) + (StringBytes(tag) + ObjectBytes(o));
      ParseMetadata(named + rest) == Ok(o, |named|) <==> AllShort(o)
  {
    hide *;
    var one := StringBytes(tag) + ObjectBytes(o);
    AtStart(one, rest);
    AtSplit(one + rest, 0, StringBytes(tag), ObjectBytes(o));
    StringAt(one + rest, 0, tag);
    PairsRead(one + rest, |StringBytes(tag)|, o);
    TagShort();
    var two := StringBytes(SET_DATA_FRAME) + one;
    var k := |StringBytes(SET_DATA_FRAME)|;
    AtStart(two, rest);
    AtSplit(two + rest, 0, StringBytes(SET_DATA_FRAME), one);
    AtSplit(two + rest, k, StringBytes(tag), ObjectBytes(o));
    StringAt(two + rest, 0, SET_DATA_FRAME);
    StringAt(two + rest, k, tag);
    PairsRead(two + rest, k + |StringBytes(tag)|, o);
    Parses(one + rest);
    Parses(two + rest);
  }

  /** What stands behind one name, or behind "@setDataFrame" and a name, is what is parsed. */
  lemma NamedParses(tag: seq<byte>, body: seq<byte>, rest: seq<byte>)
    requires |tag| < 0x1_0000_0000
    ensures tag != SET_DATA_FRAME ==>
      var b, i := StringBytes(tag) + body + rest, |StringBytes(tag)|;
      At(b, i, body) && i <= |b| && ParseMetadata(b) == ParsePairs(b, i)
    ensures
      var b, i := StringBytes(SET_DATA_FRAME) + StringBytes(tag) + body + rest,
                  |StringBytes(SET_DATA_FRAME)| + |StringBytes(tag)|;
      At(b, i, body) && i <= |b| && ParseMetadata(b) == ParsePairs(b, i)
  {
    hide *;
    TagShort();
    var name, frame := StringBytes(tag), StringBytes(SET_DATA_FRAME);
    var one, two := name + body + rest, frame + name + body + rest;
    assert two == frame + (name + body) + rest;
    AtStart(name + body, rest);
    AtSplit(one, 0, name, body);
    StringAt(one, 0, tag);
    AtStart(frame + (name + body), rest);
    AtSplit(two, 0, frame, name + body);
    AtSplit(two, |frame|, name, body);
    StringAt(two, 0, SET_DATA_FRAME);
    StringAt(two, |frame|, tag);
    Parses(one);
    Parses(two);
    AtIn(one, |name|, body);
    AtIn(two, |frame| + |name|, body);
  }

  lemma AtIn(b: seq<byte>, i: nat, body: seq<byte>)
    requires At(b, i, body)
    ensures i + |body| <= |b|
  {
  }

  lemma ArrayParsed(b: seq<byte>, i: nat, es: seq<Entry>, marked: bool)
    requires AllListed(es) && |es| < 0x1_0000_0000 && At(b, i, ArrayBytes(es, marked)) && i <= |b|
    ensures ParsePairs(b, i) == Ok(AllKept(es), i + |ArrayBytes(es, marked)|)
      <==> ReadArray(b, i) == Ok(AllKept(es), |ArrayBytes(es, marked)|)
  {
    ArrayStarts(b, i, es, marked);
    hide ReadArray, ReadObject, ArrayBytes, AllKept, At;
  }

  lemma ObjectParsed(b: seq<byte>, i: nat, ms: seq<Member>)
    requires AllAllowed(ms) && At(b, i, ObjectOf(ms)) && i <= |b|
    ensures ParsePairs(b, i) == Ok(Pairs(ms), i + |ObjectOf(ms)|)
      <==> ReadObject(b, i) == Ok(Pairs(ms), |ObjectOf(ms)|)
  {
    ObjectStarts(b, i, ms);
    hide ReadArray, ReadObject, ObjectOf, Pairs, At;
  }

  /** Metadata in an array comes back in both forms, its null fields left out, if and only if its keys and strings
      are short and no end marker follows an array that has none of its own. */
  lemma MetadataArrayExact(tag: seq<byte>, es: seq<Entry>, marked: bool, rest: seq<byte>)
    requires |tag| < 0x1_0000_0000 && AllListed(es) && |es| < 0x1_0000_0000
    ensures tag != SET_DATA_FRAME ==>
      var named := StringBytes(tag) + ArrayBytes(es, marked);
      (ParseMetadata(named + rest) == Ok(AllKept(es), |named|) <==>
        AllShortEntries(es) && (marked || !([0, 0, 9] <= rest)))
    ensures
      var named := StringBytes(SET_DATA_FRAME) + StringBytes(tag) + ArrayBytes(es, marked);
      ParseMetadata(named + rest) == Ok(AllKept(es), |named|) <==>
        AllShortEntries(es) && (marked || !([0, 0, 9] <= rest))
  {
    hide *;
    var body, name := ArrayBytes(es, marked), StringBytes(tag);
    NamedParses(tag, body, rest);
    if tag != SET_DATA_FRAME {
      ArrayReads(name + body + rest, |name|, es, marked);
      ArrayParsed(name + body + rest, |name|, es, marked);
      EndFollows(name + body, rest);
    }
    var frame := StringBytes(SET_DATA_FRAME);
    ArrayReads(frame + name + body + rest, |frame| + |name|, es, marked);
    ArrayParsed(frame + name + body + rest, |frame| + |name|, es, marked);
    EndFollows(frame + name + body, rest);
  }

  /** And so does metadata in an object with null fields and arrays. */
  lemma MetadataNestedExact(tag: seq<byte>, ms: seq<Member>, rest: seq<byte>)
    requires |tag| < 0x1_0000_0000 && AllAllowed(ms)
    ensures tag != SET_DATA_FRAME ==>
      var named := StringBytes(tag) + ObjectOf(ms);
      (ParseMetadata(named + rest) == Ok(Pairs(ms), |named|) <==> AllShortMembers(ms) && Closed(ms))
    ensures
      var named := StringBytes(SET_DATA_FRAME) + StringBytes(tag) + ObjectOf(ms);
      ParseMetadata(named + rest) == Ok(Pairs(ms), |named|) <==> AllShortMembers(ms) && Closed(ms)
  {
    hide *;
    var body, name, frame := ObjectOf(ms), StringBytes(tag), StringBytes(SET_DATA_FRAME);
    NamedParses(tag, body, rest);
    if tag != SET_DATA_FRAME {
      ObjectReads(name + body + rest, |name|, ms);
      ObjectParsed(name + body + rest, |name|, ms);
    }
    ObjectReads(frame + name + body + rest, |frame| + |name|, ms);
    ObjectParsed(frame + name + body + rest, |frame| + |name|, ms);
  }

  lemma TagShort()
    ensures |SET_DATA_FRAME| < 0x1_0000_0000
  {
  }

  lemma Parses(b: seq<byte>)
    ensures
      var name := ReadString(b, 0);
      name.Ok? ==>
        if name.value != SET_DATA_FRAME then ParseMetadata(b) == ParsePairs(b, name.used)
        else ReadString(b, name.used).Ok? ==>
          ParseMetadata(b) == ParsePairs(b, name.used + ReadString(b, name.used).used)
  {
    hide ReadString, ParsePairs;
  }

  lemma FieldsShort(width: Option<seq<byte>>, height: Option<seq<byte>>, audio: Option<seq<byte>>,
                    video: Option<seq<byte>>, version: seq<byte>)
    requires Eight(width) && Eight(height) && Eight(audio) && Eight(video)
    ensures AllWritable(Fields(width, height, audio, video, version))
    ensures AllShort(Fields(width, height, audio, video, version)) <==> |version| < 0x1_0000
  {
    hide Fields;
    FieldsAre(width, height, audio, video, version);
    FieldsEnd(width, height, audio, video, version);
    hide Field;
  }

  lemma FieldsEnd(width: Option<seq<byte>>, height: Option<seq<byte>>, audio: Option<seq<byte>>,
                  video: Option<seq<byte>>, version: seq<byte>)
    ensures
      var o := Fields(width, height, audio, video, version);
      o != [] && o[|o| - 1] == Pair(VERSION, Str(version)) && AllShort(o[..|o| - 1])
  {
  }

  /** What is built is parsed back, field by field, if and only if the encoder's name is short. */
  lemma BuiltExact(width: Option<seq<byte>>, height: Option<seq<byte>>, audio: Option<seq<byte>>,
                   video: Option<seq<byte>>, version: seq<byte>)
    requires Eight(width) && Eight(height) && Eight(audio) && Eight(video)
    ensures AllWritable(Fields(width, height, audio, video, version))
    ensures
      var o := Fields(width, height, audio, video, version);
      var built := StringBytes(ON_META_DATA) + ObjectBytes(o);
      ParseMetadata(built) == Ok(o, |built|) <==> |version| < 0x1_0000
  {
    hide *;
    FieldsShort(width, height, audio, video, version);
    var o := Fields(width, height, audio, video, version);
    var built := StringBytes(ON_META_DATA) + ObjectBytes(o);
    OwnName();
    MetadataExact(ON_META_DATA, o, []);
    assert built + [] == built;
  }

  lemma OwnName()
    ensures |ON_META_DATA| < 0x1_0000_0000 && ON_META_DATA != SET_DATA_FRAME
  {
    assert |ON_META_DATA| != |SET_DATA_FRAME|;
  }

  // The names

  /** The bytes of a name. */
  function Ascii(s: string): (b: seq<byte>)
    ensures |b| == |s|
  {
    seq(|s|, k requires 0 <= k < |s| => s[k] as int % 128)
  }

  lemma Names()
    ensures SET_DATA_FRAME == Ascii("@setDataFrame") && ON_META_DATA == Ascii("onMetaData")
    ensures WIDTH == Ascii("width") && HEIGHT == Ascii("height") && VERSION == Ascii("version")
    ensures AUDIO_CODEC_ID == Ascii("audiocodecid") && VIDEO_CODEC_ID == Ascii("videocodecid")
  {
  }

  /** The first value under a key. */
  function Find(o: seq<Pair>, key: seq<byte>): (v: Option<Value>)
    ensures v.None? <==> forall k | 0 <= k < |o| :: o[k].key != key
  {
    if o == [] then None else if o[0].key == key then Some(o[0].value) else Find(o[1..], key)
  }

  function Number(bits: Option<seq<byte>>): Option<Value> {
    if bits.Some? then Some(Num(bits.value)) else None
  }

  lemma FindIn(a: seq<Pair>, b: seq<Pair>, key: seq<byte>)
    ensures Find(a + b, key) == if Find(a, key).Some? then Find(a, key) else Find(b, key)
  {
    if a == [] {
      assert a + b == b;
    } else {
      FindIn(a[1..], b, key);
      assert (a + b)[1..] == a[1..] + b;
    }
  }

  lemma FindField(name: seq<byte>, bits: Option<seq<byte>>, key: seq<byte>)
    ensures Find(Field(name, bits), key) == if key == name then Number(bits) else None
  {
  }

  lemma Apart()
    ensures WIDTH != HEIGHT && WIDTH != AUDIO_CODEC_ID && WIDTH != VIDEO_CODEC_ID && WIDTH != VERSION
    ensures HEIGHT != AUDIO_CODEC_ID && HEIGHT != VIDEO_CODEC_ID && HEIGHT != VERSION
    ensures AUDIO_CODEC_ID != VIDEO_CODEC_ID && AUDIO_CODEC_ID != VERSION && VIDEO_CODEC_ID != VERSION
  {
    assert AUDIO_CODEC_ID[0] != VIDEO_CODEC_ID[0];
  }

  /** Whoever parses what was built finds each field that was given under its name, and no other. */
  lemma BuiltFound(width: Option<seq<byte>>, height: Option<seq<byte>>, audio: Option<seq<byte>>,
                   video: Option<seq<byte>>, version: seq<byte>, key: seq<byte>)
    requires Eight(width) && Eight(height) && Eight(audio) && Eight(video) && |version| < 0x1_0000
    ensures AllWritable(Fields(width, height, audio, video, version))
    ensures
      var r := ParseMetadata(StringBytes(ON_META_DATA) + ObjectBytes(Fields(width, height, audio, video, version)));
      r.Ok? && Find(r.value, key) ==
        if key == Ascii("width") then Number(width)
        else if key == Ascii("height") then Number(height)
        else if key == Ascii("audiocodecid") then Number(audio)
        else if key == Ascii("videocodecid") then Number(video)
        else if key == Ascii("version") then Some(Str(version))
        else None
  {
    hide *;
    BuiltExact(width, height, audio, video, version);
    Names();
    Apart();
    var a, b := Field(WIDTH, width), Field(HEIGHT, height);
    var c, d := Field(AUDIO_CODEC_ID, audio), Field(VIDEO_CODEC_ID, video);
    var e := [Pair(VERSION, Str(version))];
    FieldsOf(width, height, audio, video, version);
    FindIn(a + b + c + d, e, key);
    FindIn(a + b + c, d, key);
    FindIn(a + b, c, key);
    FindIn(a, b, key);
    FindField(WIDTH, width, key);
    FindField(HEIGHT, height, key);
    FindField(AUDIO_CODEC_ID, audio, key);
    FindField(VIDEO_CODEC_ID, video, key);
    FindVersion(version, key);
  }

  lemma FieldsOf(width: Option<seq<byte>>, height: Option<seq<byte>>, audio: Option<seq<byte>>,
                 video: Option<seq<byte>>, version: seq<byte>)
    ensures Fields(width, height, audio, video, version)
      == Field(WIDTH, width) + Field(HEIGHT, height) + Field(AUDIO_CODEC_ID, audio) + Field(VIDEO_CODEC_ID, video)
         + [Pair(VERSION, Str(version))]
  {
    hide Field;
  }

  lemma FindVersion(version: seq<byte>, key: seq<byte>)
    ensures Find([Pair(VERSION, Str(version))], key) == if key == VERSION then Some(Str(version)) else None
  {
  }
}
