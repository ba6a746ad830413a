/** RTP packets on the wire: `rtprtcp/rtp_packet.go`. */
module RtpPackets {
  import opened Bytes

  const RTP_FIXED_HEADER_LENGTH := 12

  /** Where a packet stands inside a frame; `Unplaced` is the zero value. */
  datatype Position = Unplaced | Single | FuaStart | FuaMiddle | FuaEnd | Stapa

  /** The header fields, each within the width the wire format gives it. */
  datatype RtpHeader = RtpHeader(
    version: int, padding: int, extension: int, csrcCount: int, mark: int, packetType: int,
    seqNo: uint16, timestamp: uint32, ssrc: uint32)
  {
    predicate FitsWire() {
      && 0 <= version < 4 && 0 <= padding < 2 && 0 <= extension < 2 && 0 <= csrcCount < 16
      && 0 <= mark < 2 && 0 <= packetType < 128
    }
  }

  /** The source keeps the wire bytes and the offset 12 of the payload in them; here the two parts
      are held apart, and `Raw` puts the wire bytes back together. */
  datatype RtpPacket = RtpPacket(header: RtpHeader, payload: seq<byte>, position: Position)

  function PackHeader(h: RtpHeader): (out: seq<byte>)
    requires h.FitsWire()
    ensures |out| == RTP_FIXED_HEADER_LENGTH
  {
    [h.csrcCount + 16 * h.extension + 32 * h.padding + 64 * h.version, h.packetType + 128 * h.mark]
    + BePut16(h.seqNo) + BePut32(h.timestamp) + BePut32(h.ssrc)
  }

  function MakeRtpPacket(h: RtpHeader, payload: seq<byte>): RtpPacket {
    RtpPacket(h, payload, Unplaced)
  }

  function Raw(pkt: RtpPacket): seq<byte>
    requires pkt.header.FitsWire()
  {
    PackHeader(pkt.header) + pkt.payload
  }

  function ParseRtpHeader(b: seq<byte>): Option<RtpHeader> {
    if |b| < RTP_FIXED_HEADER_LENGTH then None
    else Some(RtpHeader(
      b[0] / 64, b[0] / 32 % 2, b[0] / 16 % 2, b[0] % 16, b[1] / 128, b[1] % 128,
      Be16(b[2..]), Be32(b[4..]), Be32(b[8..])))
  }

  function ParseRtpPacket(b: seq<byte>): Option<RtpPacket> {
    match ParseRtpHeader(b)
    case None => None
    case Some(h) => Some(RtpPacket(h, b[RTP_FIXED_HEADER_LENGTH..], Unplaced))
  }

  /** Whatever the sender builds the receiver parses back from the wire bytes, header and payload. */
  lemma WireRoundTrip(h: RtpHeader, payload: seq<byte>)
    requires h.FitsWire()
    ensures ParseRtpPacket(Raw(MakeRtpPacket(h, payload))) == Some(MakeRtpPacket(h, payload))
  {
    var raw := Raw(MakeRtpPacket(h, payload));
    HeaderFields(h, payload, raw);
    assert raw[12..] == payload;
  }

  lemma HeaderFields(h: RtpHeader, payload: seq<byte>, raw: seq<byte>)
    requires h.FitsWire() && raw == PackHeader(h) + payload
    ensures ParseRtpHeader(raw) == Some(h)
  {
    hide *;
    PackParts(h, payload, raw);
    FirstByte(h);
    RoundTrip16(h.seqNo, BePut32(h.timestamp) + (BePut32(h.ssrc) + payload));
    RoundTrip32(h.timestamp, BePut32(h.ssrc) + payload);
    RoundTrip32(h.ssrc, payload);
    ParseIs(h, raw);
  }

  function Byte0(h: RtpHeader): byte
    requires h.FitsWire()
  {
    h.csrcCount + 16 * h.extension + 32 * h.padding + 64 * h.version
  }

  function Byte1(h: RtpHeader): byte
    requires h.FitsWire()
  {
    h.packetType + 128 * h.mark
  }

  lemma PackParts(h: RtpHeader, payload: seq<byte>, raw: seq<byte>)
    requires h.FitsWire() && raw == PackHeader(h) + payload
    ensures |raw| == RTP_FIXED_HEADER_LENGTH + |payload| && raw[0] == Byte0(h) && raw[1] == Byte1(h)
    ensures raw[2..] == BePut16(h.seqNo) + (BePut32(h.timestamp) + (BePut32(h.ssrc) + payload))
    ensures raw[4..] == BePut32(h.timestamp) + (BePut32(h.ssrc) + payload)
    ensures raw[8..] == BePut32(h.ssrc) + payload
  {
    hide BePut16, BePut32;
  }

  /** Each field is read from its bits. */
  lemma FirstByte(h: RtpHeader)
    requires h.FitsWire()
    ensures Byte0(h) / 64 == h.version && Byte0(h) / 32 % 2 == h.padding && Byte0(h) / 16 % 2 == h.extension
    ensures Byte0(h) % 16 == h.csrcCount && Byte1(h) / 128 == h.mark && Byte1(h) % 128 == h.packetType
  {
    FourFields(h.csrcCount, h.extension, h.padding, h.version);
  }

  lemma FourFields(a: int, b: int, c: int, d: int)
    requires 0 <= a < 16 && 0 <= b < 2 && 0 <= c < 2 && 0 <= d < 4
    ensures var x := a + 16 * b + 32 * c + 64 * d;
      x % 16 == a && x / 16 % 2 == b && x / 32 % 2 == c && x / 64 == d
  {
    var x := a + 16 * b + 32 * c + 64 * d;
    assert x / 16 == b + 2 * c + 4 * d;
    assert x / 32 == c + 2 * d;
  }

  lemma RoundTrip16(v: uint16, rest: seq<byte>)
    ensures Be16(BePut16(v) + rest) == v
  {
  }

  lemma ParseIs(h: RtpHeader, raw: seq<byte>)
    requires |raw| >= RTP_FIXED_HEADER_LENGTH
    requires raw[0] / 64 == h.version && raw[0] / 32 % 2 == h.padding && raw[0] / 16 % 2 == h.extension
    requires raw[0] % 16 == h.csrcCount && raw[1] / 128 == h.mark && raw[1] % 128 == h.packetType
    requires Be16(raw[2..]) == h.seqNo && Be32(raw[4..]) == h.timestamp && Be32(raw[8..]) == h.ssrc
    ensures ParseRtpHeader(raw) == Some(h)
  {
    hide Be16, Be32;
  }

  /** And a parsed packet holds the very bytes it was read from. */
  lemma ParsedRoundTrip(b: seq<byte>)
    ensures ParseRtpPacket(b).Some? <==> |b| >= RTP_FIXED_HEADER_LENGTH
    ensures ParseRtpPacket(b).Some? ==>
      ParseRtpPacket(b).value.header.FitsWire() && Raw(ParseRtpPacket(b).value) == b
  {
    if |b| >= RTP_FIXED_HEADER_LENGTH {
      HeaderRoundTrip(b);
    }
  }

  lemma HeaderRoundTrip(b: seq<byte>)
    requires |b| >= RTP_FIXED_HEADER_LENGTH
    ensures ParseRtpHeader(b).Some? && ParseRtpHeader(b).value.FitsWire()
    ensures PackHeader(ParseRtpHeader(b).value) == b[..RTP_FIXED_HEADER_LENGTH]
  {
    hide Be16, Be32, BePut16, BePut32;
    var h := ParseRtpHeader(b).value;
    Bits(b[0], b[1]);
    Digits16(b[2..]);
    Digits32(b[4..]);
    Digits32(b[8..]);
    HeaderBytes(b);
  }

  /** The bits make up the two bytes again. */
  lemma Bits(x: byte, y: byte)
    ensures x == x % 16 + 16 * (x / 16 % 2) + 32 * (x / 32 % 2) + 64 * (x / 64) && y == y % 128 + 128 * (y / 128)
  {
  }

  lemma Digits16(b: seq<byte>)
    requires |b| >= 2
    ensures BePut16(Be16(b)) == b[..2]
  {
  }

  lemma HeaderBytes(b: seq<byte>)
    requires |b| >= 12
    ensures b[..12] == [b[0], b[1]] + b[2..][..2] + b[4..][..4] + b[8..][..4]
  {
  }
}
