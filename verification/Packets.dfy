/** Ethernet, IPv4, ICMP echo and TCP segments on the wire, and what survives the trip through all layers. */
module Packets {
  import opened Wire
  import opened Checksum
  import opened TcpSpec

  type Mac = s: seq<byte> | |s| == 6 witness [0, 0, 0, 0, 0, 0]

  const ETH_TYPE_IPV4: u16 := 0x0800
  const ETH_TYPE_ARP: u16 := 0x0806
  const BROADCAST_MAC: Mac := [0xFF, 0xFF, 0xFF, 0xFF, 0xFF, 0xFF]
  const ETH_HDR_LEN := 14
  const IP_HDR_LEN := 20
  const TCP_HDR_LEN := 20
  const IP_PROTO_ICMP: byte := 1
  const IP_PROTO_TCP: byte := 6
  const ICMP_HDR_SIZE := 8
  const ICMP_ECHO_REQUEST: byte := 8
  const ICMP_ECHO_REPLY: byte := 0

  // ---- Ethernet ------------------------------------------------------------------------

  datatype EthernetHeader = EthernetHeader(dst: Mac, src: Mac, ethertype: u16)

  function ParseFrame(data: seq<byte>): Option<(EthernetHeader, seq<byte>)> {
    if |data| < ETH_HDR_LEN then None
    else Some((EthernetHeader(data[..6], data[6..12], GetU16(data, 12)), data[ETH_HDR_LEN..]))
  }

  function BuildFrame(dst: Mac, src: Mac, ethertype: u16, payload: seq<byte>): seq<byte> {
    dst + src + PutU16(ethertype) + payload
  }

  // ---- IPv4 ----------------------------------------------------------------------------

  datatype Ipv4Header = Ipv4Header(protocol: byte, src: Ip, dst: Ip)

  function ParseIpv4(data: seq<byte>): Option<(Ipv4Header, seq<byte>)> {
    if |data| < IP_HDR_LEN then None
    else
      var ihl := data[0] % 16 * 4;
      if ihl < IP_HDR_LEN || |data| < ihl then None
      else if GetU16(data, 10) != 0 && ChecksumOf(data[..ihl]) != 0 then None
      else Some((Ipv4Header(data[9], data[12..16], data[16..20]), data[ihl..]))
  }

  /** The header up to its checksum field; the length field is truncated to 16 bits. */
  function Ipv4Front(protocol: byte, ttl: byte, payloadLen: nat): (b: seq<byte>)
    ensures |b| == 10
  {
    [0x45, 0] + PutU16((IP_HDR_LEN + payloadLen) % 0x1_0000) + PutU16(0) + PutU16(0x4000) + [ttl, protocol]
  }

  function Ipv4Checksum(src: Ip, dst: Ip, protocol: byte, ttl: byte, payloadLen: nat): u16 {
    ChecksumOf(Ipv4Front(protocol, ttl, payloadLen) + PutU16(0) + (src + dst))
  }

  function BuildIpv4(src: Ip, dst: Ip, protocol: byte, ttl: byte, payload: seq<byte>): seq<byte> {
    Ipv4Front(protocol, ttl, |payload|) + PutU16(Ipv4Checksum(src, dst, protocol, ttl, |payload|))
    + (src + dst) + payload
  }

  // ---- TCP -----------------------------------------------------------------------------

  function ParseTcp(data: seq<byte>): Option<(Header, seq<byte>)> {
    if |data| < TCP_HDR_LEN then None
    else
      var hdrLen := data[12] / 16 * 4;
      if hdrLen < TCP_HDR_LEN || |data| < hdrLen then None
      else Some((Header(GetU16(data, 0), GetU16(data, 2), GetU32(data, 4), GetU32(data, 8), data[13], GetU16(data, 14)),
                 data[hdrLen..]))
  }

  function PseudoHeader(src: Ip, dst: Ip, tcpLen: nat): (b: seq<byte>)
    ensures |b| == 12
  {
    src + dst + [0, 6] + PutU16(tcpLen % 0x1_0000)
  }

  /** The header up to its checksum field: data offset five words, no options. */
  function TcpFront(h: Header): (b: seq<byte>)
    ensures |b| == 16
  {
    PutU16(h.srcPort) + PutU16(h.dstPort) + PutU32(h.seqNo) + PutU32(h.ackNo) + [0x50, h.flags] + PutU16(h.window)
  }

  function TcpChecksum(src: Ip, dst: Ip, h: Header, payload: seq<byte>): u16 {
    ChecksumOf(PseudoHeader(src, dst, TCP_HDR_LEN + |payload|) + TcpFront(h) + PutU16(0) + ([0, 0] + payload))
  }

  function BuildTcpSegment(src: Ip, dst: Ip, h: Header, payload: seq<byte>): seq<byte> {
    TcpFront(h) + PutU16(TcpChecksum(src, dst, h, payload)) + ([0, 0] + payload)
  }

  predicate VerifyTcpChecksum(src: Ip, dst: Ip, segment: seq<byte>) {
    ChecksumOf(PseudoHeader(src, dst, |segment|) + segment) == 0
  }

  // ---- The buffers as they are filled and patched ------------------------------------------

  /** `build_ipv4`: append field by field, sum the first twenty bytes, patch the checksum in. */
  method FillIpv4(src: Ip, dst: Ip, protocol: byte, ttl: byte, payload: seq<byte>) returns (buf: seq<byte>)
    ensures buf == BuildIpv4(src, dst, protocol, ttl, payload)
  {
    hide ChecksumOf;
    buf := [0x45];
    buf := buf + [0];
    buf := buf + PutU16((IP_HDR_LEN + |payload|) % 0x1_0000);
    buf := buf + PutU16(0);
    buf := buf + PutU16(0x4000);
    buf := buf + [ttl];
    buf := buf + [protocol];
    assert buf == Ipv4Front(protocol, ttl, |payload|);
    buf := buf + PutU16(0);
    buf := buf + src;
    buf := buf + dst;
    buf := buf + payload;
    assert buf[..IP_HDR_LEN] == Ipv4Front(protocol, ttl, |payload|) + PutU16(0) + (src + dst);
    var cs := Compute(buf[..IP_HDR_LEN]);
    buf := buf[..10] + PutU16(cs) + buf[12..];
    assert buf[12..] == src + dst + payload;
  }

  /** `build_tcp_segment`: the checksum is taken over a second buffer that starts with the pseudo-header. */
  method FillTcpSegment(src: Ip, dst: Ip, h: Header, payload: seq<byte>) returns (segment: seq<byte>)
    ensures 32 + |payload| <= MAX_SUMMED ==> segment == BuildTcpSegment(src, dst, h, payload)
  {
    hide ChecksumOf;
    var header := TcpFront(h) + [0, 0] + [0, 0];
    var pseudo := PseudoHeader(src, dst, TCP_HDR_LEN + |payload|);
    var full := pseudo + header + payload;
    assert full == pseudo + TcpFront(h) + PutU16(0) + ([0, 0] + payload);
    var cs := Compute(full);
    header := header[..16] + PutU16(cs) + header[18..];
    segment := header + payload;
    assert header[18..] == [0, 0];
    assert segment == TcpFront(h) + PutU16(cs) + ([0, 0] + payload);
  }

  predicate IsEchoRequest(data: seq<byte>) {
    |data| >= ICMP_HDR_SIZE && data[0] == ICMP_ECHO_REQUEST
  }

  /** Same code, identifier, sequence number and data; type changed; a checksum that validates. */
  predicate IsEchoReply(request: seq<byte>, reply: seq<byte>)
    requires |request| >= ICMP_HDR_SIZE
  {
    && |reply| == |request| && reply[0] == ICMP_ECHO_REPLY && reply[1] == request[1] && reply[4..] == request[4..]
    && (|request| <= MAX_SUMMED ==> ChecksumOf(reply) == 0)
  }

  /** `build_icmp_echo_reply` */
  method EchoReply(request: seq<byte>) returns (reply: Option<seq<byte>>)
    ensures reply.Some? <==> IsEchoRequest(request)
    ensures reply.Some? ==> IsEchoReply(request, reply.value)
  {
    hide ChecksumOf;
    if |request| < ICMP_HDR_SIZE || request[0] != ICMP_ECHO_REQUEST {
      return None;
    }
    var buf := request[0 := ICMP_ECHO_REPLY][2 := 0][3 := 0];
    ghost var pre, post := buf[..2], buf[4..];
    assert buf == pre + PutU16(0) + post;
    var cs := Compute(buf);
    buf := buf[..2] + PutU16(cs) + buf[4..];
    if |request| <= MAX_SUMMED {
      SelfValidates(pre, post, cs);
    }
    reply := Some(buf);
  }

  // ---- Round trips ---------------------------------------------------------------------

  lemma {:induction false} FrameRoundTrip(dst: Mac, src: Mac, ethertype: u16, payload: seq<byte>)
    ensures ParseFrame(BuildFrame(dst, src, ethertype, payload)) == Some((EthernetHeader(dst, src, ethertype), payload))
  {
    hide PutU16, GetU16;
    var f := BuildFrame(dst, src, ethertype, payload);
    assert f[12..14] == PutU16(ethertype);
    U16RoundTrip(f, 12, ethertype);
    assert f[..6] == dst && f[6..12] == src && f[14..] == payload;
  }

  lemma {:induction false} Ipv4RoundTrip(src: Ip, dst: Ip, protocol: byte, ttl: byte, payload: seq<byte>)
    ensures ParseIpv4(BuildIpv4(src, dst, protocol, ttl, payload)) == Some((Ipv4Header(protocol, src, dst), payload))
    ensures |BuildIpv4(src, dst, protocol, ttl, payload)| >= IP_HDR_LEN
    ensures ChecksumOf(BuildIpv4(src, dst, protocol, ttl, payload)[..IP_HDR_LEN]) == 0
  {
    hide PutU16, GetU16, ChecksumOf;
    var cs := Ipv4Checksum(src, dst, protocol, ttl, |payload|);
    var front := Ipv4Front(protocol, ttl, |payload|);
    var d := BuildIpv4(src, dst, protocol, ttl, payload);
    SelfValidates(front, src + dst, cs);
    assert d[..20] == front + PutU16(cs) + (src + dst);
    assert d[12..16] == src && d[16..20] == dst && d[20..] == payload;
    assert d[0] == front[0] == 0x45 && d[9] == front[9] == protocol;
  }

  lemma {:induction false} TcpRoundTrip(src: Ip, dst: Ip, h: Header, payload: seq<byte>)
    ensures ParseTcp(BuildTcpSegment(src, dst, h, payload)) == Some((h, payload))
  {
    hide PutU16, GetU16, PutU32, GetU32, TcpChecksum;
    var d := BuildTcpSegment(src, dst, h, payload);
    assert d[0..2] == PutU16(h.srcPort) && d[2..4] == PutU16(h.dstPort);
    assert d[4..8] == PutU32(h.seqNo) && d[8..12] == PutU32(h.ackNo) && d[14..16] == PutU16(h.window);
    U16RoundTrip(d, 0, h.srcPort);
    U16RoundTrip(d, 2, h.dstPort);
    U32RoundTrip(d, 4, h.seqNo);
    U32RoundTrip(d, 8, h.ackNo);
    U16RoundTrip(d, 14, h.window);
    assert d[12] == 0x50 && d[13] == h.flags && d[20..] == payload;
  }

  lemma {:induction false} TcpSegmentValidates(src: Ip, dst: Ip, h: Header, payload: seq<byte>)
    ensures VerifyTcpChecksum(src, dst, BuildTcpSegment(src, dst, h, payload))
  {
    hide PutU16, ChecksumOf;
    var pseudo := PseudoHeader(src, dst, TCP_HDR_LEN + |payload|);
    var front, post := TcpFront(h), [0, 0] + payload;
    var cs := TcpChecksum(src, dst, h, payload);
    SelfValidates(pseudo + front, post, cs);
    assert pseudo + (front + PutU16(cs) + post) == pseudo + front + PutU16(cs) + post;
  }

  /** The whole frame the stack writes for one segment. */
  function TcpFrame(dstMac: Mac, srcMac: Mac, src: Ip, dst: Ip, h: Header, payload: seq<byte>): seq<byte> {
    BuildFrame(dstMac, srcMac, ETH_TYPE_IPV4,
               BuildIpv4(src, dst, IP_PROTO_TCP, 64, BuildTcpSegment(src, dst, h, payload)))
  }

  /**
   * Through all layers: a frame built from a segment parses layer by layer, both checksums
   * verify, and the addresses, ports, numbers, flags and payload come back unchanged.
   */
  lemma {:induction false} LayersRoundTrip(dstMac: Mac, srcMac: Mac, src: Ip, dst: Ip, h: Header, payload: seq<byte>)
    ensures var frame := ParseFrame(TcpFrame(dstMac, srcMac, src, dst, h, payload));
            frame.Some? && frame.value.0 == EthernetHeader(dstMac, srcMac, ETH_TYPE_IPV4) &&
            var packet := ParseIpv4(frame.value.1);
            packet.Some? && packet.value.0 == Ipv4Header(IP_PROTO_TCP, src, dst)
            && |frame.value.1| >= IP_HDR_LEN
            && ChecksumOf(frame.value.1[..IP_HDR_LEN]) == 0
            && VerifyTcpChecksum(src, dst, packet.value.1)
            && ParseTcp(packet.value.1) == Some((h, payload))
  {
    hide BuildFrame, BuildIpv4, BuildTcpSegment, ParseFrame, ParseIpv4, ParseTcp, VerifyTcpChecksum, ChecksumOf;
    var segment := BuildTcpSegment(src, dst, h, payload);
    var packet := BuildIpv4(src, dst, IP_PROTO_TCP, 64, segment);
    FrameRoundTrip(dstMac, srcMac, ETH_TYPE_IPV4, packet);
    Ipv4RoundTrip(src, dst, IP_PROTO_TCP, 64, segment);
    TcpSegmentValidates(src, dst, h, payload);
    TcpRoundTrip(src, dst, h, payload);
  }

  // ---- Corruption ------------------------------------------------------------------------

  /** The pseudo-header is never all zero: it names the protocol. */
  lemma {:induction false} PseudoHeaderPositive(src: Ip, dst: Ip, tcpLen: nat)
    ensures WordSum(PseudoHeader(src, dst, tcpLen)) > 0
  {
    hide WordSum;
    var tail := PutU16(tcpLen % 0x1_0000);
    assert PseudoHeader(src, dst, tcpLen) == src + dst + PutU16(6) + tail;
    WordSumAround(src + dst, 6, tail);
  }

  /**
   * Corruption detection.  In a segment that verifies, replacing one aligned word goes
   * unnoticed exactly when old and new word agree modulo 65535.
   */
  lemma {:induction false} CorruptionDetected(src: Ip, dst: Ip, pre: seq<byte>, w: u16, w': u16, post: seq<byte>)
    requires |pre| % 2 == 0 && VerifyTcpChecksum(src, dst, pre + PutU16(w) + post)
    ensures VerifyTcpChecksum(src, dst, pre + PutU16(w') + post) <==> w % 0xFFFF == w' % 0xFFFF
  {
    hide PutU16, ChecksumOf, WordSum, PseudoHeader;
    var pseudo := PseudoHeader(src, dst, |pre| + 2 + |post|);
    PseudoHeaderPositive(src, dst, |pre| + 2 + |post|);
    WordSumAppend(pseudo, pre);
    assert pseudo + (pre + PutU16(w) + post) == (pseudo + pre) + PutU16(w) + post;
    assert pseudo + (pre + PutU16(w') + post) == (pseudo + pre) + PutU16(w') + post;
    WordChangeDetected(pseudo + pre, w, w', post);
  }

  /** The odd last byte of a segment: every change of it is noticed. */
  lemma {:induction false} LastByteCorruptionDetected(src: Ip, dst: Ip, pre: seq<byte>, b: byte, b': byte)
    requires |pre| % 2 == 0 && b != b' && VerifyTcpChecksum(src, dst, pre + [b])
    ensures !VerifyTcpChecksum(src, dst, pre + [b'])
  {
    hide ChecksumOf, PseudoHeader;
    var pseudo := PseudoHeader(src, dst, |pre| + 1);
    assert |pre + [b]| == |pre + [b']| == |pre| + 1;
    Associate(pseudo, pre, [b]);
    Associate(pseudo, pre, [b']);
    assert |pseudo + pre| == 12 + |pre|;
    LastByteChangeDetected(pseudo + pre, b, b');
  }

  /** Reordering the aligned words of a segment is never noticed. */
  lemma {:induction false} SegmentReorderingUndetected(src: Ip, dst: Ip, a: seq<byte>, b: seq<byte>)
    requires |a| == |b| && multiset(Words(a)) == multiset(Words(b))
    ensures VerifyTcpChecksum(src, dst, a) == VerifyTcpChecksum(src, dst, b)
  {
    hide ChecksumOf;
    var pseudo := PseudoHeader(src, dst, |a|);
    WordsAppend(pseudo, a);
    WordsAppend(pseudo, b);
    ReorderingUndetected(pseudo + a, pseudo + b);
  }
}
