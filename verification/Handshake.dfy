/** The complex handshake of `rtmp/handshake.go`, for any message authentication code of 32 bytes. */
module Handshake {
  import opened Bytes
  import opened Wire

  const VERSION: byte := 3
  const C0C1_LEN := 1537
  const S0S1_LEN := 1537
  const S0S1S2_LEN := 3073
  const HELLO_LEN := 1536
  const KEY_LEN := 32
  const RANDOM_LEN := 1528

  type Digest = s: seq<byte> | |s| == KEY_LEN witness Zeros(KEY_LEN)

  /** HMAC-SHA256 of a message under a key: any function with 32-byte values. */
  type Mac = (seq<byte>, seq<byte>) -> Digest

  /** The keys of both sides: the short ones sign a hello, the full ones derive the key of the answer. */
  datatype Keys = Keys(clientPart: seq<byte>, clientFull: seq<byte>, serverPart: seq<byte>, serverFull: seq<byte>)

  const CLIENT_VERSION: seq<byte> := [9, 0, 124, 2]
  const SERVER_VERSION: seq<byte> := [0x0D, 0x0E, 0x0A, 0x0D]

  /** Where a digest goes: the four bytes at `base` name the place. */
  function DigestOffset(b: seq<byte>, base: nat): (offs: nat)
    requires base + 4 <= |b|
    ensures base + 4 <= offs < base + 732
  {
    (b[base] as int + b[base + 1] as int + b[base + 2] as int + b[base + 3] as int) % 728 + base + 4
  }

  /** The code of everything but the 32 bytes at `offs`. */
  function DigestWithoutCenterPart(mac: Mac, b: seq<byte>, offs: nat, key: seq<byte>): Digest
    requires offs + KEY_LEN <= |b|
  {
    mac(key, b[..offs] + b[offs + KEY_LEN..])
  }

  function FindDigest(mac: Mac, b: seq<byte>, base: nat, key: seq<byte>): (r: Option<nat>)
    requires |b| == HELLO_LEN && base <= 772
    ensures r.Some? ==> r.value + KEY_LEN <= |b|
  {
    var offs := DigestOffset(b, base);
    if DigestWithoutCenterPart(mac, b, offs, key) == b[offs..offs + KEY_LEN] then Some(offs) else None
  }

  /** The key for the answer to a hello; `None` stands for the simple mode. */
  function ParseChallenge(mac: Mac, b: seq<byte>, peerKey: seq<byte>, key: seq<byte>): Option<Digest>
    requires |b| == C0C1_LEN
  {
    if Be32At(b, 5) == 0 then None
    else
      var hello := b[1..];
      var first := FindDigest(mac, hello, 772, peerKey);
      var offs := if first.Some? then first else FindDigest(mac, hello, 8, peerKey);
      match offs
      case None => None
      case Some(o) => Some(mac(key, hello[o..o + KEY_LEN]))
  }

  /** `b` with `part` copied in at `i`. */
  function Overwritten(b: seq<byte>, i: nat, part: seq<byte>): (r: seq<byte>)
    requires i + |part| <= |b|
    ensures |r| == |b|
  {
    b[..i] + part + b[i + |part|..]
  }

  /** A hello with its digest in place. */
  function Signed(mac: Mac, hello: seq<byte>, offs: nat, key: seq<byte>): (r: seq<byte>)
    requires offs + KEY_LEN <= |hello|
    ensures |r| == |hello|
  {
    Overwritten(hello, offs, DigestWithoutCenterPart(mac, hello, offs, key))
  }

  /** A digest does not disturb what it is computed from. */
  lemma SignedVerifies(mac: Mac, hello: seq<byte>, offs: nat, key: seq<byte>)
    requires offs + KEY_LEN <= |hello|
    ensures var r := Signed(mac, hello, offs, key);
      DigestWithoutCenterPart(mac, r, offs, key) == r[offs..offs + KEY_LEN]
  {
    var r := Signed(mac, hello, offs, key);
    assert r[..offs] == hello[..offs];
    assert r[offs + KEY_LEN..] == hello[offs + KEY_LEN..];
    assert r[offs..offs + KEY_LEN] == DigestWithoutCenterPart(mac, hello, offs, key);
  }

  /** What a hello with a version starts with, up to and including the bytes that place its digest. */
  predicate Hello(hello: seq<byte>, version: seq<byte>) {
    |hello| == HELLO_LEN && |version| == 4 && hello[4..8] == version && version != [0, 0, 0, 0]
  }

  /** Whatever the random bytes, the digest lies inside the hello behind the bytes that place it, and
      the peer finds it: it never falls back to the simple mode, and takes this digest unless the other
      place happens to hold a valid one. */
  lemma Agreement(mac: Mac, hello: seq<byte>, version: seq<byte>, peerKey: seq<byte>, key: seq<byte>)
    requires Hello(hello, version)
    ensures
      var offs := DigestOffset(hello, 8);
      12 <= offs && offs + KEY_LEN <= HELLO_LEN
      && var sent := Signed(mac, hello, offs, peerKey);
        var r := ParseChallenge(mac, [VERSION] + sent, peerKey, key);
        sent[..12] == hello[..12] && r.Some?
        && (FindDigest(mac, sent, 772, peerKey) == None ==>
            r == Some(mac(key, DigestWithoutCenterPart(mac, hello, offs, peerKey))))
  {
    var offs := DigestOffset(hello, 8);
    var sent := Signed(mac, hello, offs, peerKey);
    var b := [VERSION] + sent;
    SignedVerifies(mac, hello, offs, peerKey);
    assert sent[..12] == hello[..12];
    SamePlace(hello, sent);
    assert b[1..] == sent;
    VersionRead(b, sent, hello, version);
    hide DigestWithoutCenterPart, Be32At, DigestOffset;
    assert sent[offs..offs + KEY_LEN] == DigestWithoutCenterPart(mac, hello, offs, peerKey);
  }

  lemma SamePlace(hello: seq<byte>, sent: seq<byte>)
    requires |hello| == |sent| == HELLO_LEN && sent[..12] == hello[..12]
    ensures DigestOffset(sent, 8) == DigestOffset(hello, 8)
  {
    assert forall k | 0 <= k < 12 :: sent[k] == sent[..12][k] == hello[..12][k] == hello[k];
  }

  lemma VersionRead(b: seq<byte>, sent: seq<byte>, hello: seq<byte>, version: seq<byte>)
    requires Hello(hello, version) && |sent| == HELLO_LEN && sent[..12] == hello[..12] && b == [VERSION] + sent
    ensures Be32At(b, 5) != 0
  {
    assert forall k | 0 <= k < 4 :: b[5 + k] == sent[4 + k] == sent[..12][4 + k] == hello[..12][4 + k] == hello[4..8][k];
  }

  // The exchange

  /** C1 before its digest: time 0, the version of a known client, random bytes. */
  function ClientHello(random: seq<byte>): (r: seq<byte>)
    requires |random| == RANDOM_LEN
    ensures |r| == HELLO_LEN
  {
    BePut32(0) + CLIENT_VERSION + random
  }

  function ServerHello(time: uint32, random: seq<byte>): (r: seq<byte>)
    requires |random| == RANDOM_LEN
    ensures |r| == HELLO_LEN
  {
    BePut32(time) + SERVER_VERSION + random
  }

  function C0C1(mac: Mac, keys: Keys, random: seq<byte>): (r: seq<byte>)
    requires |random| == RANDOM_LEN
    ensures |r| == C0C1_LEN
  {
    var hello := ClientHello(random);
    [VERSION] + Signed(mac, hello, DigestOffset(hello, 8), keys.clientPart)
  }

  /** The answers: to C1 after S0 and S1, to S1 as C2. Both are signed in their last 32 bytes. */
  function Answer(mac: Mac, random: seq<byte>, key: seq<byte>): (r: seq<byte>)
    requires |random| == RANDOM_LEN
    ensures |r| == HELLO_LEN
  {
    Signed(mac, random + Zeros(HELLO_LEN - RANDOM_LEN), HELLO_LEN - KEY_LEN, key)
  }

  /** S0, S1 and S2 for any C0 and C1. */
  function S0S1S2(mac: Mac, keys: Keys, c0c1: seq<byte>, time: uint32, random: seq<byte>): (r: seq<byte>)
    requires |c0c1| == C0C1_LEN && |random| == RANDOM_LEN
    ensures |r| == S0S1S2_LEN
  {
    match ParseChallenge(mac, c0c1, keys.clientPart, keys.serverFull)
    case None => [VERSION] + (BePut32(time) + BePut32(0) + random) + c0c1[1..]
    case Some(key) =>
      var hello := ServerHello(time, random);
      [VERSION] + Signed(mac, hello, DigestOffset(hello, 8), keys.serverPart) + Answer(mac, random, key)
  }

  lemma HelloVersion(start: seq<byte>, version: seq<byte>, random: seq<byte>)
    requires |start| == 4 && |version| == 4 && |random| == RANDOM_LEN && version != [0, 0, 0, 0]
    ensures Hello(start + version + random, version)
  {
  }

  /** A client and a server of this implementation stay in the complex mode on both sides, whatever
      the time and the random bytes. */
  lemma BothComplex(mac: Mac, keys: Keys, random: seq<byte>, time: uint32, random2: seq<byte>)
    requires |random| == RANDOM_LEN && |random2| == RANDOM_LEN
    ensures
      var c0c1 := C0C1(mac, keys, random);
      var s0s1 := S0S1S2(mac, keys, c0c1, time, random2)[..S0S1_LEN];
      ParseChallenge(mac, c0c1, keys.clientPart, keys.serverFull).Some?
      && ParseChallenge(mac, s0s1, keys.serverPart, keys.clientFull).Some?
  {
    hide Signed, DigestOffset, Answer, FindDigest, ParseChallenge, BePut32;
    HelloVersion(BePut32(0), CLIENT_VERSION, random);
    Agreement(mac, ClientHello(random), CLIENT_VERSION, keys.clientPart, keys.serverFull);
    HelloVersion(BePut32(time), SERVER_VERSION, random2);
    var hello := ServerHello(time, random2);
    Agreement(mac, hello, SERVER_VERSION, keys.serverPart, keys.clientFull);
    var c0c1 := C0C1(mac, keys, random);
    var s1 := Signed(mac, hello, DigestOffset(hello, 8), keys.serverPart);
    assert S0S1S2(mac, keys, c0c1, time, random2)[..S0S1_LEN] == [VERSION] + s1;
  }

  // The buffers filled in place

  /** Go's `copy` into a buffer. */
  method CopyInto(buf: array<byte>, i: nat, part: seq<byte>)
    requires i + |part| <= buf.Length
    modifies buf
    ensures buf[..] == Overwritten(old(buf[..]), i, part)
  {
    forall k | 0 <= k < |part| {
      buf[i + k] := part[k];
    }
  }

  /** `WriteC0C1` of the complex client. */
  method WriteC0C1(mac: Mac, keys: Keys, random: seq<byte>) returns (buf: array<byte>)
    requires |random| == RANDOM_LEN
    ensures fresh(buf) && buf[..] == C0C1(mac, keys, random)
  {
    hide Overwritten, DigestOffset, DigestWithoutCenterPart, ClientHello, Signed, BePut32;
    buf := new byte[C0C1_LEN](_ => 0);
    assert buf[..] == Zeros(C0C1_LEN);
    CopyInto(buf, 0, [VERSION]);
    CopyInto(buf, 1, BePut32(0));
    CopyInto(buf, 5, CLIENT_VERSION);
    CopyInto(buf, 9, random);
    HelloFilled(random);
    assert buf[..] == [VERSION] + ClientHello(random);
    assert buf[1..] == ClientHello(random);
    var offs := DigestOffset(buf[1..], 8);
    CopyInto(buf, 1 + offs, DigestWithoutCenterPart(mac, buf[1..], offs, keys.clientPart));
    SignedFilled(mac, ClientHello(random), offs, keys.clientPart);
  }

  /** A part of a buffer is replaced by one of the same length. */
  lemma Within(a: seq<byte>, mid: seq<byte>, b: seq<byte>, part: seq<byte>)
    requires |part| == |mid|
    ensures Overwritten(a + mid + b, |a|, part) == a + part + b
  {
    var x := a + mid + b;
    assert x[..|a|] == a;
    assert x[|a| + |part|..] == b;
  }

  /** A hello and what stands before and after it: version byte, time, version, random bytes. */
  function Laid(v0: seq<byte>, time: seq<byte>, version: seq<byte>, random: seq<byte>, rest: seq<byte>): seq<byte> {
    v0 + (time + version + random) + rest
  }

  lemma LaidParts(v0: seq<byte>, time: seq<byte>, version: seq<byte>, random: seq<byte>, rest: seq<byte>)
    ensures var b := Laid(v0, time, version, random, rest);
      b == [] + v0 + (time + version + random + rest)
      && b == v0 + time + (version + random + rest)
      && b == v0 + time + version + (random + rest)
      && b == v0 + time + version + random + rest
  {
  }

  lemma PutV0(v0: seq<byte>, time: seq<byte>, version: seq<byte>, random: seq<byte>, rest: seq<byte>, part: seq<byte>)
    requires |part| == |v0|
    ensures Overwritten(Laid(v0, time, version, random, rest), 0, part) == Laid(part, time, version, random, rest)
  {
    hide *;
    LaidParts(v0, time, version, random, rest);
    LaidParts(part, time, version, random, rest);
    Within([], v0, time + version + random + rest, part);
  }

  lemma PutTime(v0: seq<byte>, time: seq<byte>, version: seq<byte>, random: seq<byte>, rest: seq<byte>, part: seq<byte>)
    requires |part| == |time|
    ensures Overwritten(Laid(v0, time, version, random, rest), |v0|, part) == Laid(v0, part, version, random, rest)
  {
    hide *;
    LaidParts(v0, time, version, random, rest);
    LaidParts(v0, part, version, random, rest);
    Within(v0, time, version + random + rest, part);
  }

  lemma PutVersion(v0: seq<byte>, time: seq<byte>, version: seq<byte>, random: seq<byte>, rest: seq<byte>,
    part: seq<byte>)
    requires |part| == |version|
    ensures Overwritten(Laid(v0, time, version, random, rest), |v0| + |time|, part)
      == Laid(v0, time, part, random, rest)
  {
    hide *;
    LaidParts(v0, time, version, random, rest);
    LaidParts(v0, time, part, random, rest);
    Within(v0 + time, version, random + rest, part);
  }

  lemma PutRandom(v0: seq<byte>, time: seq<byte>, version: seq<byte>, random: seq<byte>, rest: seq<byte>,
    part: seq<byte>)
    requires |part| == |random|
    ensures Overwritten(Laid(v0, time, version, random, rest), |v0| + |time| + |version|, part)
      == Laid(v0, time, version, part, rest)
  {
    hide *;
    LaidParts(v0, time, version, random, rest);
    LaidParts(v0, time, version, part, rest);
    Within(v0 + time + version, random, rest, part);
  }

  lemma ZerosSplit(m: nat, n: nat)
    ensures Zeros(m + n) == Zeros(m) + Zeros(n)
  {
  }

  lemma ZerosLaid(rest: nat)
    ensures Zeros(C0C1_LEN + rest) == Laid(Zeros(1), Zeros(4), Zeros(4), Zeros(RANDOM_LEN), Zeros(rest))
  {
    hide Zeros;
    ZerosSplit(C0C1_LEN, rest);
    ZerosSplit(1, HELLO_LEN);
    ZerosSplit(8, RANDOM_LEN);
    ZerosSplit(4, 4);
  }

  lemma HelloFilled(random: seq<byte>)
    requires |random| == RANDOM_LEN
    ensures
      var b := Overwritten(Overwritten(Overwritten(Zeros(C0C1_LEN), 0, [VERSION]), 1, BePut32(0)), 5, CLIENT_VERSION);
      Overwritten(b, 9, random) == [VERSION] + ClientHello(random)
  {
    hide BePut32, Overwritten, Zeros, Laid;
    var z, zr, none := Zeros(4), Zeros(RANDOM_LEN), Zeros(0);
    ZerosLaid(0);
    PutV0(Zeros(1), z, z, zr, none, [VERSION]);
    PutTime([VERSION], z, z, zr, none, BePut32(0));
    PutVersion([VERSION], BePut32(0), z, zr, none, CLIENT_VERSION);
    PutRandom([VERSION], BePut32(0), CLIENT_VERSION, zr, none, random);
    LaidWhole([VERSION], BePut32(0), CLIENT_VERSION, random, none);
    assert [VERSION] + ClientHello(random) + none == [VERSION] + ClientHello(random);
  }

  lemma LaidWhole(v0: seq<byte>, time: seq<byte>, version: seq<byte>, random: seq<byte>, rest: seq<byte>)
    ensures Laid(v0, time, version, random, rest) == v0 + (time + version + random) + rest
  {
  }

  lemma SignedFilled(mac: Mac, hello: seq<byte>, offs: nat, key: seq<byte>)
    requires offs + KEY_LEN <= |hello|
    ensures Overwritten([VERSION] + hello, 1 + offs, DigestWithoutCenterPart(mac, hello, offs, key))
      == [VERSION] + Signed(mac, hello, offs, key)
  {
    hide DigestWithoutCenterPart;
    var d := DigestWithoutCenterPart(mac, hello, offs, key);
    var a, m, b := hello[..offs], hello[offs..offs + KEY_LEN], hello[offs + KEY_LEN..];
    assert Signed(mac, hello, offs, key) == a + d + b;
    hide Overwritten, Signed;
    assert [VERSION] + hello == [VERSION] + a + m + b;
    assert [VERSION] + (a + d + b) == [VERSION] + a + d + b;
    Within([VERSION] + a, m, b, d);
  }

  /** `ReadC0C1` of the server: the answer is written into one buffer, part by part. */
  method ReadC0C1(mac: Mac, keys: Keys, c0c1: seq<byte>, time: uint32, random: seq<byte>)
    returns (buf: array<byte>, isSimpleMode: bool)
    requires |c0c1| == C0C1_LEN && |random| == RANDOM_LEN
    ensures fresh(buf) && buf[..] == S0S1S2(mac, keys, c0c1, time, random)
    ensures isSimpleMode == (ParseChallenge(mac, c0c1, keys.clientPart, keys.serverFull) == None)
  {
    hide Overwritten, DigestOffset, DigestWithoutCenterPart, Signed, BePut32, ParseChallenge, Answer, ServerHello;
    var s2key := ParseChallenge(mac, c0c1, keys.clientPart, keys.serverFull);
    isSimpleMode := s2key == None;
    buf := new byte[S0S1S2_LEN](_ => 0);
    assert buf[..] == Zeros(S0S1S2_LEN);
    CopyInto(buf, 0, [VERSION]);
    CopyInto(buf, 1, BePut32(time));
    CopyInto(buf, 9, random);
    if isSimpleMode {
      CopyInto(buf, 5, BePut32(0));
      CopyInto(buf, S0S1_LEN, c0c1[1..]);
      SimpleFilled(c0c1, time, random);
    } else {
      CopyInto(buf, 5, SERVER_VERSION);
      ServerFilled(time, random);
      ghost var hello := ServerHello(time, random);
      assert buf[..] == [VERSION] + hello + Zeros(HELLO_LEN);
      assert buf[1..S0S1_LEN] == hello;
      var offs := DigestOffset(buf[1..S0S1_LEN], 8);
      CopyInto(buf, 1 + offs, DigestWithoutCenterPart(mac, buf[1..S0S1_LEN], offs, keys.serverPart));
      ghost var s1 := Signed(mac, hello, offs, keys.serverPart);
      FrontFilled(mac, hello, offs, keys.serverPart);
      assert buf[..] == [VERSION] + s1 + Zeros(HELLO_LEN);
      CopyInto(buf, S0S1_LEN, random);
      BackFilled([VERSION] + s1, random);
      ghost var s2 := random + Zeros(HELLO_LEN - RANDOM_LEN);
      assert buf[..] == [VERSION] + s1 + s2;
      assert buf[S0S1_LEN..] == s2;
      var replyOffs := HELLO_LEN - KEY_LEN;
      CopyInto(buf, S0S1_LEN + replyOffs, DigestWithoutCenterPart(mac, buf[S0S1_LEN..], replyOffs, s2key.value));
      AnswerFilled(mac, [VERSION] + s1, random, s2key.value);
    }
  }

  /** The server's buffer after the three parts that both modes share. */
  lemma OpeningFilled(time: uint32, random: seq<byte>)
    requires |random| == RANDOM_LEN
    ensures Overwritten(Overwritten(Overwritten(Zeros(S0S1S2_LEN), 0, [VERSION]), 1, BePut32(time)), 9, random)
      == Laid([VERSION], BePut32(time), Zeros(4), random, Zeros(HELLO_LEN))
  {
    hide BePut32, Overwritten, Zeros, Laid;
    var z, zr, rest := Zeros(4), Zeros(RANDOM_LEN), Zeros(HELLO_LEN);
    ZerosLaid(HELLO_LEN);
    PutV0(Zeros(1), z, z, zr, rest, [VERSION]);
    PutTime([VERSION], z, z, zr, rest, BePut32(time));
    PutRandom([VERSION], BePut32(time), z, zr, rest, random);
  }

  lemma SimpleFilled(c0c1: seq<byte>, time: uint32, random: seq<byte>)
    requires |c0c1| == C0C1_LEN && |random| == RANDOM_LEN
    ensures
      var b := Overwritten(Overwritten(Overwritten(Zeros(S0S1S2_LEN), 0, [VERSION]), 1, BePut32(time)), 9, random);
      Overwritten(Overwritten(b, 5, BePut32(0)), S0S1_LEN, c0c1[1..])
        == [VERSION] + (BePut32(time) + BePut32(0) + random) + c0c1[1..]
  {
    hide BePut32, Overwritten, Zeros, Laid;
    OpeningFilled(time, random);
    PutVersion([VERSION], BePut32(time), Zeros(4), random, Zeros(HELLO_LEN), BePut32(0));
    LaidWhole([VERSION], BePut32(time), BePut32(0), random, Zeros(HELLO_LEN));
    var front, none := [VERSION] + (BePut32(time) + BePut32(0) + random), Zeros(0);
    assert front + Zeros(HELLO_LEN) + none == front + Zeros(HELLO_LEN);
    assert front + c0c1[1..] + none == front + c0c1[1..];
    Within(front, Zeros(HELLO_LEN), none, c0c1[1..]);
  }

  lemma ServerFilled(time: uint32, random: seq<byte>)
    requires |random| == RANDOM_LEN
    ensures
      var b := Overwritten(Overwritten(Overwritten(Zeros(S0S1S2_LEN), 0, [VERSION]), 1, BePut32(time)), 9, random);
      Overwritten(b, 5, SERVER_VERSION) == [VERSION] + ServerHello(time, random) + Zeros(HELLO_LEN)
  {
    hide BePut32, Overwritten, Zeros, Laid;
    OpeningFilled(time, random);
    PutVersion([VERSION], BePut32(time), Zeros(4), random, Zeros(HELLO_LEN), SERVER_VERSION);
    LaidWhole([VERSION], BePut32(time), SERVER_VERSION, random, Zeros(HELLO_LEN));
  }

  lemma FrontFilled(mac: Mac, hello: seq<byte>, offs: nat, key: seq<byte>)
    requires offs + KEY_LEN <= |hello| == HELLO_LEN
    ensures Overwritten([VERSION] + hello + Zeros(HELLO_LEN), 1 + offs, DigestWithoutCenterPart(mac, hello, offs, key))
      == [VERSION] + Signed(mac, hello, offs, key) + Zeros(HELLO_LEN)
  {
    hide DigestWithoutCenterPart, Zeros;
    var d, rest := DigestWithoutCenterPart(mac, hello, offs, key), Zeros(HELLO_LEN);
    var a, m, b := hello[..offs], hello[offs..offs + KEY_LEN], hello[offs + KEY_LEN..];
    assert Signed(mac, hello, offs, key) == a + d + b;
    hide Overwritten, Signed;
    assert [VERSION] + hello + rest == [VERSION] + a + m + (b + rest);
    assert [VERSION] + (a + d + b) + rest == [VERSION] + a + d + (b + rest);
    Within([VERSION] + a, m, b + rest, d);
  }

  lemma BackFilled(front: seq<byte>, random: seq<byte>)
    requires |front| == S0S1_LEN && |random| == RANDOM_LEN
    ensures Overwritten(front + Zeros(HELLO_LEN), S0S1_LEN, random) == front + (random + Zeros(HELLO_LEN - RANDOM_LEN))
  {
    hide Overwritten, Zeros;
    var m, b := Zeros(RANDOM_LEN), Zeros(HELLO_LEN - RANDOM_LEN);
    ZerosSplit(RANDOM_LEN, HELLO_LEN - RANDOM_LEN);
    ConcatAssociative(front, m, b);
    ConcatAssociative(front, random, b);
    Within(front, m, b, random);
  }

  lemma AnswerFilled(mac: Mac, front: seq<byte>, random: seq<byte>, key: seq<byte>)
    requires |front| == S0S1_LEN && |random| == RANDOM_LEN
    ensures
      var s2, offs := random + Zeros(HELLO_LEN - RANDOM_LEN), HELLO_LEN - KEY_LEN;
      Overwritten(front + s2, S0S1_LEN + offs, DigestWithoutCenterPart(mac, s2, offs, key))
        == front + Answer(mac, random, key)
  {
    hide DigestWithoutCenterPart, Zeros;
    var s2, offs := random + Zeros(HELLO_LEN - RANDOM_LEN), HELLO_LEN - KEY_LEN;
    var d := DigestWithoutCenterPart(mac, s2, offs, key);
    var a, m, b := s2[..offs], s2[offs..], s2[offs + KEY_LEN..];
    assert Answer(mac, random, key) == a + d + b;
    hide Overwritten, Answer;
    assert front + s2 == front + a + m + b;
    assert front + (a + d + b) == front + a + d + b;
    Within(front + a, m, b, d);
  }
}
