/** Reading numbers in the middle of an input, and reading back what was written there. */
module Wire {
  import opened Bytes

  // Fixed-width numbers in the middle of the input

  function Be16At(s: seq<byte>, i: nat): uint16
    requires i + 2 <= |s|
  {
    s[i] as int * 0x100 + s[i + 1]
  }

  function Be24At(s: seq<byte>, i: nat): uint24
    requires i + 3 <= |s|
  {
    s[i] as int * 0x1_0000 + s[i + 1] as int * 0x100 + s[i + 2]
  }

  function Be32At(s: seq<byte>, i: nat): uint32
    requires i + 4 <= |s|
  {
    s[i] as int * 0x100_0000 + s[i + 1] as int * 0x1_0000 + s[i + 2] as int * 0x100 + s[i + 3]
  }

  function Le32At(s: seq<byte>, i: nat): uint32
    requires i + 4 <= |s|
  {
    s[i + 3] as int * 0x100_0000 + s[i + 2] as int * 0x1_0000 + s[i + 1] as int * 0x100 + s[i]
  }

  /** `part` stands in `s` at index `i`. */
  ghost predicate At(s: seq<byte>, i: nat, part: seq<byte>) {
    i + |part| <= |s| && forall k | 0 <= k < |part| :: s[i + k] == part[k]
  }

  lemma AtSplit(s: seq<byte>, i: nat, a: seq<byte>, b: seq<byte>)
    ensures At(s, i, a + b) <==> At(s, i, a) && At(s, i + |a|, b)
  {
    var ab := a + b;
    if At(s, i, ab) {
      assert forall k | 0 <= k < |a| :: a[k] == ab[k];
      forall k | 0 <= k < |b|
        ensures s[i + |a| + k] == b[k]
      {
        assert s[i + (|a| + k)] == ab[|a| + k];
      }
    }
    if At(s, i, a) && At(s, i + |a|, b) {
      forall k | 0 <= k < |ab|
        ensures s[i + k] == ab[k]
      {
        if k >= |a| {
          assert s[i + |a| + (k - |a|)] == b[k - |a|];
        }
      }
    }
  }

  lemma AtSlice(s: seq<byte>, i: nat, part: seq<byte>)
    ensures At(s, i, part) <==> i + |part| <= |s| && s[i..i + |part|] == part
  {
    if At(s, i, part) {
      assert s[i..i + |part|] == part;
    }
    if i + |part| <= |s| && s[i..i + |part|] == part {
      forall k | 0 <= k < |part|
        ensures s[i + k] == part[k]
      {
        assert s[i..i + |part|][k] == part[k];
      }
    }
  }

  lemma AtByte(s: seq<byte>, i: nat, v: byte)
    ensures At(s, i, [v]) <==> i < |s| && s[i] == v
  {
    assert At(s, i, [v]) ==> s[i + 0] == [v][0];
  }

  lemma At16(s: seq<byte>, i: nat, v: uint16)
    requires At(s, i, BePut16(v))
    ensures i + 2 <= |s| && Be16At(s, i) == v
  {
    var p := BePut16(v);
    assert s[i + 0] == p[0] && s[i + 1] == p[1];
  }

  lemma At24(s: seq<byte>, i: nat, v: uint24)
    ensures At(s, i, BePut24(v)) <==> i + 3 <= |s| && Be24At(s, i) == v
  {
    var p := BePut24(v);
    if At(s, i, p) {
      assert s[i + 0] == p[0] && s[i + 1] == p[1] && s[i + 2] == p[2];
      Digits24(v);
    }
    if i + 3 <= |s| && Be24At(s, i) == v {
      Parts24(s[i], s[i + 1], s[i + 2]);
    }
  }

  lemma At32(s: seq<byte>, i: nat, v: uint32)
    requires At(s, i, BePut32(v))
    ensures i + 4 <= |s| && Be32At(s, i) == v
  {
    var p := BePut32(v);
    assert s[i + 0] == p[0] && s[i + 1] == p[1] && s[i + 2] == p[2] && s[i + 3] == p[3];
    RoundTrip32(v, []);
    assert p + [] == p;
  }

  lemma AtLe32(s: seq<byte>, i: nat, v: uint32)
    requires At(s, i, LePut32(v))
    ensures i + 4 <= |s| && Le32At(s, i) == v
  {
    var p := LePut32(v);
    assert s[i + 0] == p[0] && s[i + 1] == p[1] && s[i + 2] == p[2] && s[i + 3] == p[3];
    RoundTrip32(v, []);
    assert p + [] == p;
  }

  lemma Digits24(v: uint24)
    ensures var p := BePut24(v); p[0] as int * 0x1_0000 + p[1] as int * 0x100 + p[2] == v
  {
    assert v / 0x100 == v / 0x1_0000 * 0x100 + v / 0x100 % 0x100;
  }

  lemma Parts24(a: byte, b: byte, c: byte)
    ensures BePut24(a as int * 0x1_0000 + b as int * 0x100 + c) == [a, b, c]
  {
    var v := a as int * 0x1_0000 + b as int * 0x100 + c;
    var hi := a as int * 0x100 + b;
    assert v / 0x100 == hi && v % 0x100 == c by {
      Split8(hi, c);
    }
    assert v / 0x1_0000 == a by {
      Split16(a, b as int * 0x100 + c);
    }
    assert hi % 0x100 == b by {
      Split8(a, b);
    }
  }

  lemma Split8(hi: nat, lo: byte)
    ensures (hi * 0x100 + lo) / 0x100 == hi && (hi * 0x100 + lo) % 0x100 == lo
  {
  }

  lemma Split16(hi: nat, lo: uint16)
    ensures (hi * 0x1_0000 + lo) / 0x1_0000 == hi
  {
  }
}
