/** Finding the payload and the key frames of a relayed packet: `rtsp/rtp-parser.go`. */
module RtspRtp {
  import opened Bytes
  import opened Wire

  const FIXED_HEADER := 12

  function CsrcSize(first: byte): nat {
    4 * (first % 0x10)
  }

  predicate HasExtension(first: byte) {
    first / 0x10 % 2 == 1
  }

  predicate HasPadding(first: byte) {
    first / 0x20 % 2 == 1
  }

  /** The payload; `None` for packets shorter than the fixed header. */
  function Payload(b: seq<byte>): Option<seq<byte>> {
    if |b| < FIXED_HEADER then None
    else
      var size, o0 := |b|, FIXED_HEADER;
      var csrc := CsrcSize(b[0]);
      var o1 := if size - o0 >= csrc then o0 + csrc else o0;
      var o2 := if HasExtension(b[0]) && size - o1 >= 4 then AfterExtension(b, o1) else o1;
      var padding := b[size - 1] as nat;
      var end := if HasPadding(b[0]) && size > o2 && size - o2 >= padding then size - padding else size;
      Some(b[o2..end])
  }

  function AfterExtension(b: seq<byte>, offset: nat): (r: nat)
    requires offset + 4 <= |b|
    ensures offset + 4 <= r <= |b|
  {
    var extLen := 4 * Be16At(b, offset + 2) as nat;
    if |b| - (offset + 4) >= extLen then offset + 4 + extLen else offset + 4
  }

  predicate IsKeyframeStart(payload: seq<byte>) {
    |payload| >= 2 && payload[0] == 0x7C && (payload[1] == 0x87 || payload[1] == 0x85)
  }

  predicate IsKeyframeStartH265(payload: seq<byte>) {
    |payload| >= 3 && payload[0] / 2 % 0x40 == 49 && payload[2] / 0x80 == 1
    && payload[2] % 0x40 in {19, 20, 21, 32, 33, 34}
  }

  /** By section 5.8 of RFC 6184: the start of a fragmented unit, of importance 3, that is an IDR slice (5) or
      a sequence parameter set (7). */
  lemma KeyframeStartExact(payload: seq<byte>)
    ensures IsKeyframeStart(payload) <==>
      |payload| >= 2 && payload[0] / 128 == 0 && payload[0] / 32 % 4 == 3 && payload[0] % 32 == 28
      && payload[1] / 32 == 4 && payload[1] % 32 in {5, 7}
  {
    if |payload| >= 2 {
      Fields(payload[0]);
      Fields(payload[1]);
    }
  }

  lemma Fields(x: byte)
    ensures x == 128 * (x / 128) + 32 * (x / 32 % 4) + x % 32 && x == 32 * (x / 32) + x % 32
  {
  }

  /** By section 4.4.3 of RFC 7798: the start of a fragmented unit that is a key picture or a parameter set. */
  lemma KeyframeStartH265Exact(payload: seq<byte>)
    ensures IsKeyframeStartH265(payload) <==>
      |payload| >= 3 && (payload[0] / 2 == 49 || payload[0] / 2 == 64 + 49) && payload[2] >= 128
      && (19 <= payload[2] % 64 <= 21 || 32 <= payload[2] % 64 <= 34)
  {
  }

  /** A packet with every optional part, by section 5.1 of RFC 3550. */
  datatype Parts = Parts(
    version: nat, rest: seq<byte>, csrc: seq<seq<byte>>, extension: Option<(seq<byte>, seq<byte>)>,
    payload: seq<byte>, padding: seq<byte>)

  predicate WellFormed(p: Parts) {
    p.version < 4 && |p.rest| == 11 && |p.csrc| < 16 && (forall k | 0 <= k < |p.csrc| :: |p.csrc[k]| == 4)
    && (p.extension.Some? ==>
        |p.extension.value.0| == 2 && |p.extension.value.1| % 4 == 0 && |p.extension.value.1| < 0x4_0000)
    && (p.padding != [] ==> |p.padding| < 0x100 && p.padding[|p.padding| - 1] as nat == |p.padding|)
  }

  /** Version, whether padding and an extension are there, and how many contributing sources. */
  function FirstByte(p: Parts): byte
    requires WellFormed(p)
  {
    64 * p.version + (if p.padding != [] then 32 else 0) + (if p.extension.Some? then 16 else 0) + |p.csrc|
  }

  function Extension(p: Parts): seq<byte>
    requires WellFormed(p)
  {
    if p.extension.None? then []
    else p.extension.value.0 + BePut16(|p.extension.value.1| / 4) + p.extension.value.1
  }

  function Assemble(p: Parts): seq<byte>
    requires WellFormed(p)
  {
    [FirstByte(p)] + p.rest + Flatten(p.csrc) + Extension(p) + p.payload + p.padding
  }

  lemma FirstBits(p: Parts)
    requires WellFormed(p)
    ensures CsrcSize(FirstByte(p)) == 4 * |p.csrc|
    ensures HasExtension(FirstByte(p)) == p.extension.Some? && HasPadding(FirstByte(p)) == (p.padding != [])
  {
    BitFields(p.version, if p.padding != [] then 1 else 0, if p.extension.Some? then 1 else 0, |p.csrc|);
  }

  lemma BitFields(v: nat, padding: nat, extension: nat, n: nat)
    requires v < 4 && padding < 2 && extension < 2 && n < 16
    ensures
      var x := 64 * v + 32 * padding + 16 * extension + n;
      x < 256 && x % 16 == n && x / 16 % 2 == extension && x / 32 % 2 == padding
  {
  }

  lemma {:induction false} SourcesSize(csrc: seq<seq<byte>>)
    requires forall k | 0 <= k < |csrc| :: |csrc[k]| == 4
    ensures |Flatten(csrc)| == 4 * |csrc|
  {
    if csrc != [] {
      SourcesSize(csrc[1..]);
    }
  }

  lemma ExtensionAt(b: seq<byte>, i: nat, p: Parts)
    requires WellFormed(p) && p.extension.Some? && At(b, i, Extension(p))
    ensures i + 4 <= |b| && AfterExtension(b, i) == i + |Extension(p)|
  {
    var profile, words := p.extension.value.0, p.extension.value.1;
    var count := BePut16(|words| / 4);
    AtSplit(b, i, profile + count, words);
    AtSplit(b, i, profile, count);
    At16(b, i + 2, |words| / 4);
  }

  lemma Layout(p: Parts)
    requires WellFormed(p)
    ensures
      var b, o := Assemble(p), 12 + 4 * |p.csrc|;
      |b| == o + |Extension(p)| + |p.payload| + |p.padding| && b[0] == FirstByte(p)
      && At(b, o, Extension(p))
      && b[o + |Extension(p)|..o + |Extension(p)| + |p.payload|] == p.payload
      && (p.padding != [] ==> b[|b| - 1] == p.padding[|p.padding| - 1])
  {
    SourcesSize(p.csrc);
    var b, ext, head := Assemble(p), Extension(p), [FirstByte(p)] + p.rest + Flatten(p.csrc);
    hide Extension, FirstByte, Flatten;
    AtSlice(b, 0, b);
    AtSplit(b, 0, head + ext + p.payload, p.padding);
    AtSplit(b, 0, head + ext, p.payload);
    AtSplit(b, 0, head, ext);
    hide At;
    AtSlice(b, |head + ext|, p.payload);
  }

  lemma PayloadIs(b: seq<byte>, sources: nat, extension: nat, payload: nat, padding: nat)
    requires |b| == 12 + sources + extension + payload + padding && CsrcSize(b[0]) == sources
    requires if HasExtension(b[0]) then extension >= 4 && AfterExtension(b, 12 + sources) == 12 + sources + extension
      else extension == 0
    requires if HasPadding(b[0]) then padding > 0 && b[|b| - 1] as nat == padding else padding == 0
    ensures Payload(b) == Some(b[12 + sources + extension..12 + sources + extension + payload])
  {
    hide AfterExtension, HasExtension, HasPadding, CsrcSize;
  }

  /** The parser finds the payload behind contributing sources and extension and before padding. */
  lemma PayloadFound(p: Parts)
    requires WellFormed(p)
    ensures Payload(Assemble(p)) == Some(p.payload)
  {
    hide Payload, Assemble, At, AfterExtension, HasExtension, HasPadding, CsrcSize, Extension, FirstByte;
    Layout(p);
    FirstBits(p);
    if p.extension.Some? {
      ExtensionAt(Assemble(p), 12 + 4 * |p.csrc|, p);
      ExtensionSize(p);
    } else {
      NoExtension(p);
    }
    PayloadIs(Assemble(p), 4 * |p.csrc|, |Extension(p)|, |p.payload|, |p.padding|);
  }

  lemma ExtensionSize(p: Parts)
    requires WellFormed(p) && p.extension.Some?
    ensures |Extension(p)| >= 4
  {
  }

  lemma NoExtension(p: Parts)
    requires WellFormed(p) && p.extension.None?
    ensures Extension(p) == []
  {
  }
}
