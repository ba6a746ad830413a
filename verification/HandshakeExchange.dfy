/** What each side can check in the bytes of the other: the whole exchange of the complex handshake. */
module HandshakeExchange {
  import opened Bytes
  import opened Wire
  import opened Handshake

  /** The place for a digest that the four bytes at `base` name. */
  function Place(hello: seq<byte>, base: nat): (o: nat)
    requires |hello| == 1536 && base in {8, 772}
    ensures o + 32 <= 1536
  {
    (hello[base] + hello[base + 1] + hello[base + 2] + hello[base + 3]) % 728 + base + 4
  }

  /** The 32 bytes at `o` are the code of all others. */
  predicate Verifies(mac: Mac, hello: seq<byte>, o: nat, key: seq<byte>)
    requires |hello| == 1536 && o + 32 <= 1536
  {
    hello[o..o + 32] == mac(key, hello[..o] + hello[o + 32..])
  }

  /** The hello has a version and a digest at `o`; of two valid ones that at the later place counts. */
  predicate KnownBy(mac: Mac, hello: seq<byte>, o: nat, key: seq<byte>)
    requires |hello| == 1536
  {
    hello[4..8] != [0, 0, 0, 0]
    && if Verifies(mac, hello, Place(hello, 772), key) then o == Place(hello, 772)
       else o == Place(hello, 8) && Verifies(mac, hello, o, key)
  }

  /** The hello has no version, or its digest is at neither place. */
  predicate Unknown(mac: Mac, hello: seq<byte>, key: seq<byte>)
    requires |hello| == 1536
  {
    hello[4..8] == [0, 0, 0, 0]
    || (!Verifies(mac, hello, Place(hello, 772), key) && !Verifies(mac, hello, Place(hello, 8), key))
  }

  /** An answer to a hello whose digest is at `o`: signed with a key that only the holder of `full` can derive
      from that digest. */
  predicate Answers(mac: Mac, answer: seq<byte>, hello: seq<byte>, o: nat, full: seq<byte>)
    requires |hello| == 1536 && o + 32 <= 1536
  {
    |answer| == 1536 && answer[1504..] == mac(mac(full, hello[o..o + 32]), answer[..1504])
  }

  lemma VersionBytes(b: seq<byte>)
    requires |b| == 1537
    ensures Be32At(b, 5) == 0 <==> b[1..][4..8] == [0, 0, 0, 0]
  {
    var v := b[1..][4..8];
    assert v == [b[5], b[6], b[7], b[8]];
  }

  lemma FindsAt(mac: Mac, hello: seq<byte>, base: nat, key: seq<byte>)
    requires |hello| == 1536 && base in {8, 772}
    ensures FindDigest(mac, hello, base, key)
      == if Verifies(mac, hello, Place(hello, base), key) then Some(Place(hello, base)) else None
  {
  }

  /** The challenge is taken for simple exactly when the hello is unknown; otherwise the key comes from its digest. */
  lemma ChallengeExact(mac: Mac, b: seq<byte>, peerKey: seq<byte>, key: seq<byte>, o: nat)
    requires |b| == 1537
    ensures ParseChallenge(mac, b, peerKey, key) == None <==> Unknown(mac, b[1..], peerKey)
    ensures KnownBy(mac, b[1..], o, peerKey) ==>
      o + 32 <= 1536 && ParseChallenge(mac, b, peerKey, key) == Some(mac(key, b[1..][o..o + 32]))
  {
    VersionBytes(b);
    FindsAt(mac, b[1..], 772, peerKey);
    FindsAt(mac, b[1..], 8, peerKey);
    hide FindDigest, Verifies, Place, Be32At;
  }

  lemma AnswerSigned(mac: Mac, random: seq<byte>, key: seq<byte>)
    requires |random| == 1528
    ensures
      var r := Answer(mac, random, key);
      r[..1504] == random[..1504] && r[1504..] == mac(key, r[..1504])
  {
    var padded := random + Zeros(HELLO_LEN - RANDOM_LEN);
    var none := padded[1536..];
    assert none == [] && padded[..1504] + none == padded[..1504] == random[..1504];
    var r := Answer(mac, random, key);
    assert r == random[..1504] + mac(key, random[..1504]) + [];
    assert r[..1504] == random[..1504];
  }

  // The server

  /** What the server sends to a hello that it knows: a signed hello of its own, and an answer that the client
      can check. */
  lemma ServerAnswers(mac: Mac, keys: Keys, c0c1: seq<byte>, time: uint32, random: seq<byte>, o: nat)
    requires |c0c1| == 1537 && |random| == 1528 && KnownBy(mac, c0c1[1..], o, keys.clientPart)
    ensures o + 32 <= 1536
    ensures
      var r := S0S1S2(mac, keys, c0c1, time, random);
      |r| == 3073 && r[0] == 3
      && IsHello(mac, r[1..1537], BePut32(time) + [0x0D, 0x0E, 0x0A, 0x0D], random, keys.serverPart)
      && Answers(mac, r[1537..], c0c1[1..], o, keys.serverFull)
  {
    hide KnownBy, ParseChallenge, Signed, Answer, S0S1S2, IsHello, Answers, Verifies, Place, DigestOffset, BePut32;
    ChallengeExact(mac, c0c1, keys.clientPart, keys.serverFull, o);
    PlaceFits(mac, c0c1[1..], o, keys.clientPart);
    var key := ParseChallenge(mac, c0c1, keys.clientPart, keys.serverFull).value;
    ComplexParts(mac, keys, c0c1, time, random, key);
    SignedHello(mac, BePut32(time) + [0x0D, 0x0E, 0x0A, 0x0D], random, keys.serverPart);
    AnswerSigned(mac, random, key);
    AnswersIs(mac, Answer(mac, random, key), c0c1[1..], o, keys.serverFull);
  }

  lemma PlaceFits(mac: Mac, hello: seq<byte>, o: nat, key: seq<byte>)
    requires |hello| == 1536 && KnownBy(mac, hello, o, key)
    ensures o + 32 <= 1536
  {
    hide Verifies;
  }

  lemma AnswersIs(mac: Mac, answer: seq<byte>, hello: seq<byte>, o: nat, full: seq<byte>)
    requires |hello| == 1536 && o + 32 <= 1536 && |answer| == 1536
    requires answer[1504..] == mac(mac(full, hello[o..o + 32]), answer[..1504])
    ensures Answers(mac, answer, hello, o, full)
  {
  }

  lemma ComplexParts(mac: Mac, keys: Keys, c0c1: seq<byte>, time: uint32, random: seq<byte>, key: Digest)
    requires |c0c1| == 1537 && |random| == 1528
    requires ParseChallenge(mac, c0c1, keys.clientPart, keys.serverFull) == Some(key)
    ensures
      var r, start := S0S1S2(mac, keys, c0c1, time, random), BePut32(time) + [0x0D, 0x0E, 0x0A, 0x0D];
      var hello := start + random;
      |r| == 3073 && r[0] == 3 && r[1537..] == Answer(mac, random, key) && |hello| == 1536
      && r[1..1537] == Signed(mac, hello, DigestOffset(hello, 8), keys.serverPart)
  {
    hide Answer, Signed, DigestOffset, ParseChallenge, BePut32;
  }

  /** Eight bytes, then random ones, with a valid digest in the place that the first four of these name. */
  predicate IsHello(mac: Mac, hello: seq<byte>, start: seq<byte>, random: seq<byte>, key: seq<byte>)
    requires |start| == 8 && |random| == 1528
  {
    |hello| == 1536
    && var o := Place(hello, 8);
      o >= 12 && Verifies(mac, hello, o, key)
      && hello[..o] == (start + random)[..o] && hello[o + 32..] == (start + random)[o + 32..]
  }

  lemma SignedHello(mac: Mac, start: seq<byte>, random: seq<byte>, key: seq<byte>)
    requires |start| == 8 && |random| == 1528
    ensures
      var hello := start + random;
      IsHello(mac, Signed(mac, hello, DigestOffset(hello, 8), key), start, random, key)
  {
    var hello := start + random;
    var o := DigestOffset(hello, 8);
    var r := Signed(mac, hello, o, key);
    SignedVerifies(mac, hello, o, key);
    assert r[..o] == hello[..o] && r[o + 32..] == hello[o + 32..];
    assert r[..12] == r[..o][..12] == hello[..o][..12] == hello[..12];
    SamePlace(hello, r);
    assert o == Place(r, 8);
    hide DigestOffset, Signed, Place;
  }

  /** What the server sends to a hello that it does not know: no version, and the hello sent back. */
  lemma ServerEchoes(mac: Mac, keys: Keys, c0c1: seq<byte>, time: uint32, random: seq<byte>)
    requires |c0c1| == 1537 && |random| == 1528 && Unknown(mac, c0c1[1..], keys.clientPart)
    ensures S0S1S2(mac, keys, c0c1, time, random)
      == [3] + BePut32(time) + [0, 0, 0, 0] + random + c0c1[1..]
  {
    ChallengeExact(mac, c0c1, keys.clientPart, keys.serverFull, 0);
    hide ParseChallenge, Unknown;
    assert BePut32(0) == [0, 0, 0, 0];
    hide BePut32;
    var a, b, c := BePut32(time), BePut32(0), c0c1[1..];
    assert [3] + (a + b + random) + c == [3] + a + b + random + c;
  }

  // The client

  /** C2 for any S0 and S1: the server's hello sent back, or a signed answer. */
  function C2(mac: Mac, keys: Keys, s0s1: seq<byte>, random: seq<byte>): (r: seq<byte>)
    requires |s0s1| == 1537 && |random| == 1528
    ensures |r| == 1536
  {
    match ParseChallenge(mac, s0s1, keys.serverPart, keys.clientFull)
    case None => s0s1[1..]
    case Some(key) => Answer(mac, random, key)
  }

  /** `ReadS0S1` of the complex client: C2 is written over the buffer that C0 and C1 were sent from. */
  method ReadS0S1(mac: Mac, keys: Keys, s0s1: seq<byte>, random: seq<byte>, buf: array<byte>)
    requires |s0s1| == 1537 && |random| == 1528 && buf.Length == C0C1_LEN
    modifies buf
    ensures buf[..HELLO_LEN] == C2(mac, keys, s0s1, random)
  {
    hide ParseChallenge, Overwritten, Answer, DigestWithoutCenterPart;
    var c2key := ParseChallenge(mac, s0s1, keys.serverPart, keys.clientFull);
    ghost var was := buf[..];
    if c2key == None {
      CopyInto(buf, 0, s0s1[1..]);
      Refilled(was, s0s1[1..]);
      return;
    }
    CopyInto(buf, 0, random);
    var replyOffs := HELLO_LEN - KEY_LEN;
    ghost var filled := buf[..];
    assert buf[..HELLO_LEN] == filled[..HELLO_LEN];
    CopyInto(buf, replyOffs, DigestWithoutCenterPart(mac, buf[..HELLO_LEN], replyOffs, c2key.value));
    ReplyFilled(mac, was, random, c2key.value);
  }

  lemma Refilled(was: seq<byte>, part: seq<byte>)
    requires |part| == HELLO_LEN <= |was|
    ensures Overwritten(was, 0, part)[..HELLO_LEN] == part
  {
  }

  /** What the old bytes behind the random ones were makes no difference: the digest covers them. */
  lemma ReplyFilled(mac: Mac, was: seq<byte>, random: seq<byte>, key: seq<byte>)
    requires |was| == C0C1_LEN && |random| == RANDOM_LEN
    ensures
      var filled, o := Overwritten(was, 0, random), HELLO_LEN - KEY_LEN;
      Overwritten(filled, o, DigestWithoutCenterPart(mac, filled[..HELLO_LEN], o, key))[..HELLO_LEN]
        == Answer(mac, random, key)
  {
    var filled, o := Overwritten(was, 0, random), HELLO_LEN - KEY_LEN;
    var sent := filled[..HELLO_LEN];
    var none := sent[HELLO_LEN..];
    assert sent[..o] == random[..o] && none == [] && sent[..o] + none == random[..o];
    var d := DigestWithoutCenterPart(mac, sent, o, key);
    assert d == mac(key, random[..o]);
    AnswerSigned(mac, random, key);
    var r := Answer(mac, random, key);
    assert r == r[..1504] + r[1504..];
    var all := Overwritten(filled, o, d);
    assert all[..HELLO_LEN] == filled[..o] + d;
    assert filled[..o] == random[..o];
  }

  /** The first bytes of the client: version 3, time 0, the version of a known client, a signed hello. */
  lemma ClientGreets(mac: Mac, keys: Keys, random: seq<byte>)
    requires |random| == 1528
    ensures
      var c0c1 := C0C1(mac, keys, random);
      |c0c1| == 1537 && c0c1[0] == 3 && IsHello(mac, c0c1[1..], [0, 0, 0, 0, 9, 0, 124, 2], random, keys.clientPart)
  {
    hide DigestOffset, Signed, IsHello;
    var start: seq<byte> := [0, 0, 0, 0, 9, 0, 124, 2];
    assert BePut32(0) + CLIENT_VERSION == start;
    assert ClientHello(random) == start + random;
    SignedHello(mac, start, random, keys.clientPart);
  }

  /** C2 answers a hello that the client knows, and is the hello itself otherwise. */
  lemma ClientAnswers(mac: Mac, keys: Keys, s0s1: seq<byte>, random: seq<byte>, o: nat)
    requires |s0s1| == 1537 && |random| == 1528
    ensures KnownBy(mac, s0s1[1..], o, keys.serverPart) ==>
      o + 32 <= 1536 && Answers(mac, C2(mac, keys, s0s1, random), s0s1[1..], o, keys.clientFull)
    ensures Unknown(mac, s0s1[1..], keys.serverPart) ==> C2(mac, keys, s0s1, random) == s0s1[1..]
  {
    hide ParseChallenge, KnownBy, Unknown, Answers, Answer;
    ChallengeExact(mac, s0s1, keys.serverPart, keys.clientFull, o);
    match ParseChallenge(mac, s0s1, keys.serverPart, keys.clientFull)
    case None =>
    case Some(key) =>
      AnswerSigned(mac, random, key);
      if KnownBy(mac, s0s1[1..], o, keys.serverPart) {
        AnswersIs(mac, C2(mac, keys, s0s1, random), s0s1[1..], o, keys.clientFull);
      }
  }

  // Both

  /** A hello with a digest in its place is known by it, unless the later place holds a valid one as well. */
  lemma HelloKnown(mac: Mac, hello: seq<byte>, start: seq<byte>, random: seq<byte>, key: seq<byte>) returns (o: nat)
    requires |start| == 8 && |random| == 1528 && IsHello(mac, hello, start, random, key)
    requires start[4..] != [0, 0, 0, 0]
    ensures |hello| == 1536 && o + 32 <= 1536 && KnownBy(mac, hello, o, key)
    ensures !Verifies(mac, hello, Place(hello, 772), key) ==> o == Place(hello, 8)
  {
    var o8 := Place(hello, 8);
    assert hello[4..8] == hello[..o8][4..8] == (start + random)[..o8][4..8] == start[4..];
    hide Verifies, Place;
    o := if Verifies(mac, hello, Place(hello, 772), key) then Place(hello, 772) else o8;
  }

  /** A hello signed at the later place is known by that digest, whatever stands at the other. */
  lemma LatePlaceKnown(mac: Mac, hello: seq<byte>, key: seq<byte>)
    requires |hello| == 1536 && hello[4..8] != [0, 0, 0, 0]
    ensures
      var o := Place(hello, 772);
      var sent := Signed(mac, hello, o, key);
      |sent| == 1536 && sent[..o] == hello[..o] && sent[o + 32..] == hello[o + 32..] && KnownBy(mac, sent, o, key)
  {
    var o := Place(hello, 772);
    var sent := Signed(mac, hello, o, key);
    SignedVerifies(mac, hello, o, key);
    assert sent[..o] == hello[..o] && sent[o + 32..] == hello[o + 32..];
    assert sent[4..8] == sent[..o][4..8] == hello[..o][4..8] == hello[4..8];
    assert forall k | 772 <= k < 776 :: sent[k] == sent[..o][k] == hello[..o][k] == hello[k];
  }

  /** A client and a server of this implementation: each knows the other's hello by a digest, and each gets an
      answer to its own that verifies, whatever the time and the random bytes. */
  lemma ExchangeVerifies(mac: Mac, keys: Keys, random: seq<byte>, time: uint32, random2: seq<byte>)
    returns (o: nat, o2: nat)
    requires |random| == 1528 && |random2| == 1528
    ensures o + 32 <= 1536 && o2 + 32 <= 1536
    ensures
      var c0c1 := C0C1(mac, keys, random);
      var r := S0S1S2(mac, keys, c0c1, time, random2);
      var c1, s1, s2, c2 := c0c1[1..], r[1..1537], r[1537..], C2(mac, keys, r[..1537], random);
      KnownBy(mac, c1, o, keys.clientPart) && Answers(mac, s2, c1, o, keys.serverFull)
      && KnownBy(mac, s1, o2, keys.serverPart) && Answers(mac, c2, s1, o2, keys.clientFull)
  {
    hide C0C1, S0S1S2, C2, IsHello, KnownBy, Answers, BePut32;
    ClientGreets(mac, keys, random);
    var c0c1 := C0C1(mac, keys, random);
    o := HelloKnown(mac, c0c1[1..], [0, 0, 0, 0, 9, 0, 124, 2], random, keys.clientPart);
    ServerAnswers(mac, keys, c0c1, time, random2, o);
    var r := S0S1S2(mac, keys, c0c1, time, random2);
    var start := BePut32(time) + [0x0D, 0x0E, 0x0A, 0x0D];
    assert start[4..] == [0x0D, 0x0E, 0x0A, 0x0D];
    o2 := HelloKnown(mac, r[1..1537], start, random2, keys.serverPart);
    assert r[..1537][1..] == r[1..1537];
    ClientAnswers(mac, keys, r[..1537], random, o2);
  }
}
