/**
 * Headers as other hosts write them: options, any type of service, any fragment field.  Parsing
 * finds every field of every such header and refuses exactly what is no header.
 */
module Layouts {
  import opened Wire
  import opened Checksum
  import opened TcpSpec
  import opened Packets

  // ---- Ethernet ------------------------------------------------------------------------------

  /** Destination, source, type, payload, in this order. */
  lemma {:induction false} FrameLayout(dst: Mac, src: Mac, ethertype: u16, payload: seq<byte>)
    ensures var f := BuildFrame(dst, src, ethertype, payload);
            && |f| == 14 + |payload| && f[..6] == dst && f[6..12] == src
            && GetU16(f, 12) == ethertype && f[14..] == payload
  {
    hide PutU16, GetU16;
    var f := BuildFrame(dst, src, ethertype, payload);
    assert f[12..14] == PutU16(ethertype);
    U16RoundTrip(f, 12, ethertype);
  }

  /** Every frame of fourteen bytes or more is read, field by field. */
  lemma {:induction false} FrameAccepted(f: seq<byte>)
    ensures ParseFrame(f).None? <==> |f| < 14
    ensures |f| >= 14 ==> ParseFrame(f) == Some((EthernetHeader(f[..6], f[6..12], GetU16(f, 12)), f[14..]))
  {
    hide GetU16;
  }

  // ---- IPv4 ----------------------------------------------------------------------------------

  /** The fields of an IPv4 header this program does not look at. */
  datatype Ipv4Rest = Ipv4Rest(version: nat, service: byte, length: u16, id: u16, fragment: u16, ttl: byte)

  /** Version and header length in words. */
  function Nibbles(high: nat, low: nat): byte
    requires high < 16 && low < 16
  {
    16 * high + low
  }

  /** An IPv4 packet with a header of `n` words. */
  function Ipv4Packet(
    n: nat, r: Ipv4Rest, protocol: byte, cs: u16, src: Ip, dst: Ip, options: seq<byte>, payload: seq<byte>): seq<byte>
    requires n < 16 && r.version < 16
  {
    [Nibbles(r.version, n), r.service] + PutU16(r.length) + PutU16(r.id) + PutU16(r.fragment) + [r.ttl, protocol]
    + PutU16(cs) + src + dst + options + payload
  }

  /**
   * Any header of five to fifteen words with its options: the protocol, the addresses and exactly
   * what follows the options come back, if the checksum is zero or right.
   */
  lemma {:induction false} Ipv4AnyHeader(
    n: nat, r: Ipv4Rest, protocol: byte, cs: u16, src: Ip, dst: Ip, options: seq<byte>, payload: seq<byte>)
    requires 5 <= n < 16 && r.version < 16 && |options| == 4 * (n - 5)
    ensures var d := Ipv4Packet(n, r, protocol, cs, src, dst, options, payload);
            && |d| == 4 * n + |payload|
            && ParseIpv4(d) == if cs == 0 || ChecksumOf(d[..4 * n]) == 0
                               then Some((Ipv4Header(protocol, src, dst), payload)) else None
  {
    hide PutU16, GetU16, ChecksumOf;
    var d := Ipv4Packet(n, r, protocol, cs, src, dst, options, payload);
    assert d[10..12] == PutU16(cs);
    U16RoundTrip(d, 10, cs);
    assert d[0] == Nibbles(r.version, n) && d[9] == protocol && d[12..16] == src && d[16..20] == dst;
    assert d[4 * n..] == payload;
    LowNibble(r.version, n);
  }

  lemma {:induction false} LowNibble(high: nat, low: nat)
    requires high < 16 && low < 16
    ensures Nibbles(high, low) % 16 == low && Nibbles(high, low) / 16 == high
  {
  }

  /** What is refused: too short, a header length that cannot be, or a wrong checksum. */
  lemma {:induction false} Ipv4Refused(d: seq<byte>)
    ensures ParseIpv4(d).None? <==>
              || |d| < 20
              || d[0] % 16 < 5
              || 4 * (d[0] % 16) > |d|
              || ((d[10] != 0 || d[11] != 0) && ChecksumOf(d[..4 * (d[0] % 16)]) != 0)
  {
    hide ChecksumOf;
    if |d| >= 20 {
      ZeroWord(d, 10);
    }
  }

  lemma {:induction false} ZeroWord(d: seq<byte>, i: nat)
    requires i + 2 <= |d|
    ensures GetU16(d, i) == 0 <==> d[i] == 0 && d[i + 1] == 0
  {
  }

  /** What this program writes: version 4, no options, not to be fragmented. */
  lemma {:induction false} Ipv4Layout(src: Ip, dst: Ip, protocol: byte, ttl: byte, payload: seq<byte>)
    ensures var r := Ipv4Rest(4, 0, (20 + |payload|) % 0x1_0000, 0, 0x4000, ttl);
            BuildIpv4(src, dst, protocol, ttl, payload)
            == Ipv4Packet(5, r, protocol, Ipv4Checksum(src, dst, protocol, ttl, |payload|), src, dst, [], payload)
  {
    hide PutU16, ChecksumOf;
    assert Nibbles(4, 5) == 0x45;
    var r := Ipv4Rest(4, 0, (20 + |payload|) % 0x1_0000, 0, 0x4000, ttl);
    var cs := Ipv4Checksum(src, dst, protocol, ttl, |payload|);
    assert Ipv4Packet(5, r, protocol, cs, src, dst, [], payload)
        == Ipv4Front(protocol, ttl, |payload|) + PutU16(cs) + (src + dst) + payload;
  }

  // ---- ICMP ----------------------------------------------------------------------------------

  /** Eight bytes with type 8 in front are an echo request, however long the data behind them. */
  lemma {:induction false} EchoRequests(code: byte, rest: seq<byte>, other: byte)
    ensures IsEchoRequest([8, code] + rest) <==> |rest| >= 6
    ensures other != 8 ==> !IsEchoRequest([other, code] + rest)
  {
  }

  // ---- TCP -----------------------------------------------------------------------------------

  /** A TCP segment with a header of `n` words; `low` are the reserved bits beside its length. */
  function TcpLayout(
    n: nat, low: nat, h: Header, cs: u16, urgent: u16, options: seq<byte>, payload: seq<byte>): seq<byte>
    requires n < 16 && low < 16
  {
    PutU16(h.srcPort) + PutU16(h.dstPort) + PutU32(h.seqNo) + PutU32(h.ackNo) + [Nibbles(n, low), h.flags]
    + PutU16(h.window) + PutU16(cs) + PutU16(urgent) + options + payload
  }

  /** Any header of five to fifteen words with its options: every field and exactly the payload come back. */
  lemma {:induction false} TcpAnyHeader(
    n: nat, low: nat, h: Header, cs: u16, urgent: u16, options: seq<byte>, payload: seq<byte>)
    requires 5 <= n < 16 && low < 16 && |options| == 4 * (n - 5)
    ensures ParseTcp(TcpLayout(n, low, h, cs, urgent, options, payload)) == Some((h, payload))
  {
    hide PutU16, GetU16, PutU32, GetU32;
    var d := TcpLayout(n, low, h, cs, urgent, options, payload);
    assert d[0..2] == PutU16(h.srcPort) && d[2..4] == PutU16(h.dstPort);
    assert d[4..8] == PutU32(h.seqNo) && d[8..12] == PutU32(h.ackNo) && d[14..16] == PutU16(h.window);
    U16RoundTrip(d, 0, h.srcPort);
    U16RoundTrip(d, 2, h.dstPort);
    U32RoundTrip(d, 4, h.seqNo);
    U32RoundTrip(d, 8, h.ackNo);
    U16RoundTrip(d, 14, h.window);
    assert d[12] == Nibbles(n, low) && d[13] == h.flags && d[4 * n..] == payload;
    LowNibble(n, low);
  }

  /** What is refused: too short, a header shorter than five words, or one longer than the segment. */
  lemma {:induction false} TcpRefused(d: seq<byte>)
    ensures ParseTcp(d).None? <==> |d| < 20 || d[12] / 16 < 5 || 4 * (d[12] / 16) > |d|
  {
    hide GetU16, GetU32;
  }

  /** What this program writes: five words, no options, nothing urgent. */
  lemma {:induction false} SegmentLayout(src: Ip, dst: Ip, h: Header, payload: seq<byte>)
    ensures BuildTcpSegment(src, dst, h, payload)
            == TcpLayout(5, 0, h, TcpChecksum(src, dst, h, payload), 0, [], payload)
  {
    hide PutU32, TcpChecksum;
    assert Nibbles(5, 0) == 0x50 && PutU16(0) == [0, 0];
    var cs := TcpChecksum(src, dst, h, payload);
    assert TcpLayout(5, 0, h, cs, 0, [], payload) == TcpFront(h) + PutU16(cs) + ([0, 0] + payload);
  }

  /** What the checksum covers beside the segment: both addresses, the protocol and the length. */
  lemma {:induction false} PseudoHeaderLayout(src: Ip, dst: Ip, len: nat)
    ensures var d := PseudoHeader(src, dst, len);
            |d| == 12 && d[..4] == src && d[4..8] == dst && d[8] == 0 && d[9] == 6 && GetU16(d, 10) == len % 0x1_0000
  {
    hide PutU16, GetU16;
    var d := PseudoHeader(src, dst, len);
    assert d[10..12] == PutU16(len % 0x1_0000);
    U16RoundTrip(d, 10, len % 0x1_0000);
  }
}
