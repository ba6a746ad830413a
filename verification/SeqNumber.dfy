/** Wrapping RTP sequence numbers: `rtprtcp/rtp.go`. */
module SeqNumber {
  import opened Bytes

  function CompareSeq(a: uint16, b: uint16): int {
    if a == b then 0
    else if a > b then (if a - b < 16384 then 1 else -1)
    else if b - a < 16384 then -1 else 1
  }

  function SubSeq(a: uint16, b: uint16): int {
    if a == b then 0
    else if a > b then (if a - b < 16384 then a - b else a - b - 65536)
    else if b - a < 16384 then -(b - a) else 65536 - (b - a)
  }

  /** The sequence number that packet number `i` of a stream carries. */
  function Wrap(i: int): uint16 {
    i % 0x1_0000
  }

  function Sign(i: int): int {
    if i < 0 then -1 else if i == 0 then 0 else 1
  }

  ghost predicate Near(i: int, j: int) {
    -16384 < i - j < 16384
  }

  lemma NearOrder(i: int, j: int)
    requires Near(i, j)
    ensures CompareSeq(Wrap(i), Wrap(j)) == Sign(i - j)
    ensures SubSeq(Wrap(i), Wrap(j)) == i - j
  {
    assert i - j == (i / 0x1_0000 - j / 0x1_0000) * 0x1_0000 + Wrap(i) - Wrap(j);
  }

  /** Exactly when the comparison of two wrapped numbers is the order of the packet numbers, for
      packets less than one full cycle apart: the window is 16384 inside a cycle, and 49152 across
      a rollover. */
  lemma CompareSeqExact(i: int, j: int)
    requires -0x1_0000 < i - j < 0x1_0000
    ensures CompareSeq(Wrap(i), Wrap(j)) == Sign(i - j)
      <==> if i / 0x1_0000 == j / 0x1_0000 then Near(i, j) else -49152 <= i - j <= 49152
  {
    assert i - j == (i / 0x1_0000 - j / 0x1_0000) * 0x1_0000 + Wrap(i) - Wrap(j);
  }

  /** The two functions agree on which number is ahead, on all inputs, and swapping the arguments
      reverses the order. */
  lemma OrderIsAntisymmetric(a: uint16, b: uint16)
    ensures CompareSeq(a, b) == -CompareSeq(b, a) == Sign(SubSeq(a, b))
    ensures SubSeq(a, b) == -SubSeq(b, a)
    ensures Wrap(b + SubSeq(a, b)) == a
  {
  }

  /** Unlike an order on packet numbers it is not transitive: three numbers can chase each other. */
  lemma OrderIsNotTransitive()
    ensures CompareSeq(16000, 0) == 1 && CompareSeq(32000, 16000) == 1 && CompareSeq(32000, 0) == -1
  {
  }

  /** "Directly after" needs no window. */
  lemma SuccessorExact(a: uint16, b: uint16)
    ensures SubSeq(a, b) == 1 <==> a == Wrap(b + 1)
  {
  }
}
