/** DNS messages on the wire (RFC 1035, section 4.1): the encoder, the decoder and their loops. */
module DnsMessage {
  import opened Wire
  import opened Text
  import opened DnsName

  const TYPE_A: u16 := 1
  const TYPE_NS: u16 := 2
  const TYPE_CNAME: u16 := 5
  const TYPE_SOA: u16 := 6
  const TYPE_MX: u16 := 15
  const TYPE_AAAA: u16 := 28
  const CLASS_IN: u16 := 1
  const RCODE_NXDOMAIN := 3
  const HEADER_LEN := 12

  type Ip4 = s: seq<byte> | |s| == 4 witness [0, 0, 0, 0]
  type Ip6 = s: seq<byte> | |s| == 16 witness [0, 0, 0, 0, 0, 0, 0, 0, 0, 0, 0, 0, 0, 0, 0, 0]

  datatype Header = Header(id: u16, flags: u16, qdcount: u16, ancount: u16, nscount: u16, arcount: u16) {
    function Rcode(): nat {
      flags % 16
    }
  }

  datatype Question = Question(qname: Text, qtype: u16, qclass: u16)

  datatype RData =
    | A(ip: Ip4)
    | AAAA(ip6: Ip6)
    | NS(name: Text)
    | CNAME(name: Text)
    | MX(preference: u16, exchange: Text)
    | SOA(mname: Text, rname: Text, serial: u32, refresh: u32, retry: u32, expire: u32, minimum: u32)
    | Unknown(data: seq<byte>)

  datatype RR = RR(name: Text, rtype: u16, class_: u16, ttl: u32, rdata: RData)

  datatype Message = Message(
    header: Header, questions: seq<Question>, answers: seq<RR>, authorities: seq<RR>, additionals: seq<RR>)

  // ---- Encoding ------------------------------------------------------------------------------

  function EncodeHeader(h: Header): (w: seq<byte>)
    ensures |w| == HEADER_LEN
  {
    PutU16(h.id) + PutU16(h.flags) + PutU16(h.qdcount) + PutU16(h.ancount) + PutU16(h.nscount) + PutU16(h.arcount)
  }

  function EncodeQuestion(q: Question): seq<byte> {
    EncodeName(q.qname) + (PutU16(q.qtype) + PutU16(q.qclass))
  }

  function SoaTail(d: RData): (w: seq<byte>)
    requires d.SOA?
    ensures |w| == 20
  {
    PutU32(d.serial) + PutU32(d.refresh) + PutU32(d.retry) + PutU32(d.expire) + PutU32(d.minimum)
  }

  function EncodeRData(d: RData): seq<byte> {
    match d
    case A(ip) => ip
    case AAAA(ip6) => ip6
    case NS(n) => EncodeName(n)
    case CNAME(n) => EncodeName(n)
    case MX(preference, exchange) => PutU16(preference) + EncodeName(exchange)
    case SOA(mname, rname, _, _, _, _, _) => EncodeName(mname) + (EncodeName(rname) + SoaTail(d))
    case Unknown(data) => data
  }

  /** The fixed fields between owner name and RDATA; the length is truncated to 16 bits. */
  function RRFixed(rr: RR): (w: seq<byte>)
    ensures |w| == 10
  {
    PutU16(rr.rtype) + PutU16(rr.class_) + PutU32(rr.ttl) + PutU16(|EncodeRData(rr.rdata)| % 0x1_0000)
  }

  function EncodeRR(rr: RR): seq<byte> {
    EncodeName(rr.name) + (RRFixed(rr) + EncodeRData(rr.rdata))
  }

  function EncodeQuestions(qs: seq<Question>): seq<byte> {
    if qs == [] then [] else EncodeQuestion(qs[0]) + EncodeQuestions(qs[1..])
  }

  function EncodeRRs(rrs: seq<RR>): seq<byte> {
    if rrs == [] then [] else EncodeRR(rrs[0]) + EncodeRRs(rrs[1..])
  }

  function EncodeMessage(m: Message): seq<byte> {
    EncodeHeader(m.header) + (EncodeQuestions(m.questions)
      + (EncodeRRs(m.answers) + (EncodeRRs(m.authorities) + EncodeRRs(m.additionals))))
  }

  // ---- Decoding ------------------------------------------------------------------------------

  function DecodeHeader(msg: seq<byte>): Option<Header> {
    if |msg| < HEADER_LEN then None
    else Some(Header(GetU16(msg, 0), GetU16(msg, 2), GetU16(msg, 4), GetU16(msg, 6), GetU16(msg, 8), GetU16(msg, 10)))
  }

  function DecodeQuestion(msg: seq<byte>, offset: nat): Option<(Question, nat)> {
    var n := DecodeName(msg, offset);
    if n.None? || n.value.1 + 4 > |msg| then None
    else
      var (qname, off) := n.value;
      Some((Question(qname, GetU16(msg, off), GetU16(msg, off + 2)), off + 4))
  }

  function DecodeSoa(msg: seq<byte>, start: nat, len: nat): Option<RData>
    requires start + len <= |msg|
  {
    var m := DecodeName(msg, start);
    if m.None? then None
    else
      var r := DecodeName(msg, m.value.1);
      if r.None? || r.value.1 + 20 > start + len then None
      else
        var o := r.value.1;
        Some(SOA(m.value.0, r.value.0, GetU32(msg, o), GetU32(msg, o + 4), GetU32(msg, o + 8),
                 GetU32(msg, o + 12), GetU32(msg, o + 16)))
  }

  function DecodeRData(msg: seq<byte>, rtype: u16, start: nat, len: nat): Option<RData>
    requires start + len <= |msg|
  {
    var s := msg[start..start + len];
    if rtype == TYPE_A then
      if len < 4 then None else Some(A(s[..4]))
    else if rtype == TYPE_AAAA then
      if len < 16 then None else Some(AAAA(s[..16]))
    else if rtype == TYPE_NS then
      var n := DecodeName(msg, start);
      if n.None? then None else Some(NS(n.value.0))
    else if rtype == TYPE_CNAME then
      var n := DecodeName(msg, start);
      if n.None? then None else Some(CNAME(n.value.0))
    else if rtype == TYPE_MX then
      if len < 3 then None
      else
        var n := DecodeName(msg, start + 2);
        if n.None? then None else Some(MX(GetU16(s, 0), n.value.0))
    else if rtype == TYPE_SOA then DecodeSoa(msg, start, len)
    else Some(Unknown(s))
  }

  function DecodeRR(msg: seq<byte>, offset: nat): Option<(RR, nat)> {
    var n := DecodeName(msg, offset);
    if n.None? || n.value.1 + 10 > |msg| then None
    else
      var (name, off) := n.value;
      var rtype, class_, ttl := GetU16(msg, off), GetU16(msg, off + 2), GetU32(msg, off + 4);
      var len := GetU16(msg, off + 8);
      if off + 10 + len > |msg| then None
      else
        var d := DecodeRData(msg, rtype, off + 10, len);
        if d.None? then None else Some((RR(name, rtype, class_, ttl, d.value), off + 10 + len))
  }

  function DecodeQuestions(msg: seq<byte>, offset: nat, n: nat): Option<(seq<Question>, nat)>
    decreases n
  {
    if n == 0 then Some(([], offset))
    else
      var q := DecodeQuestion(msg, offset);
      if q.None? then None
      else
        var rest := DecodeQuestions(msg, q.value.1, n - 1);
        if rest.None? then None else Some(([q.value.0] + rest.value.0, rest.value.1))
  }

  function DecodeRRs(msg: seq<byte>, offset: nat, n: nat): Option<(seq<RR>, nat)>
    decreases n
  {
    if n == 0 then Some(([], offset))
    else
      var rr := DecodeRR(msg, offset);
      if rr.None? then None
      else
        var rest := DecodeRRs(msg, rr.value.1, n - 1);
        if rest.None? then None else Some(([rr.value.0] + rest.value.0, rest.value.1))
  }

  function DecodeSections(msg: seq<byte>, h: Header): Option<Message> {
    var q := DecodeQuestions(msg, HEADER_LEN, h.qdcount);
    if q.None? then None else
    var an := DecodeRRs(msg, q.value.1, h.ancount);
    if an.None? then None else
    var ns := DecodeRRs(msg, an.value.1, h.nscount);
    if ns.None? then None else
    var ar := DecodeRRs(msg, ns.value.1, h.arcount);
    if ar.None? then None else Some(Message(h, q.value.0, an.value.0, ns.value.0, ar.value.0))
  }

  /** `decode_message` */
  function DecodeMessage(msg: seq<byte>): Option<Message> {
    var h := DecodeHeader(msg);
    if h.None? then None else DecodeSections(msg, h.value)
  }

  // ---- The loops -------------------------------------------------------------------------------

  method QuestionsLoop(msg: seq<byte>, start: nat, n: nat) returns (r: Option<(seq<Question>, nat)>)
    ensures r == DecodeQuestions(msg, start, n)
  {
    hide DecodeQuestion;
    var list: seq<Question> := [];
    var off: nat := start;
    ghost var whole := DecodeQuestions(msg, start, n);
    assert whole.Some? ==> [] + whole.value.0 == whole.value.0;
    for i := 0 to n
      invariant var rest := DecodeQuestions(msg, off, n - i);
                whole == if rest.None? then None else Some((list + rest.value.0, rest.value.1))
    {
      var q := DecodeQuestion(msg, off);
      if q.None? {
        return None;
      }
      ghost var rest := DecodeQuestions(msg, q.value.1, n - i - 1);
      if rest.Some? {
        Associate(list, [q.value.0], rest.value.0);
      }
      list := list + [q.value.0];
      off := q.value.1;
    }
    assert list + [] == list;
    r := Some((list, off));
  }

  method RecordsLoop(msg: seq<byte>, start: nat, n: nat) returns (r: Option<(seq<RR>, nat)>)
    ensures r == DecodeRRs(msg, start, n)
  {
    hide DecodeRR;
    var list: seq<RR> := [];
    var off: nat := start;
    ghost var whole := DecodeRRs(msg, start, n);
    assert whole.Some? ==> [] + whole.value.0 == whole.value.0;
    for i := 0 to n
      invariant var rest := DecodeRRs(msg, off, n - i);
                whole == if rest.None? then None else Some((list + rest.value.0, rest.value.1))
    {
      var rr := DecodeRR(msg, off);
      if rr.None? {
        return None;
      }
      ghost var rest := DecodeRRs(msg, rr.value.1, n - i - 1);
      if rest.Some? {
        Associate(list, [rr.value.0], rest.value.0);
      }
      list := list + [rr.value.0];
      off := rr.value.1;
    }
    assert list + [] == list;
    r := Some((list, off));
  }

  /** The four loops of `decode_message`, one after the other. */
  method DecodeMessageLoop(msg: seq<byte>) returns (r: Option<Message>)
    ensures r == DecodeMessage(msg)
  {
    hide DecodeQuestions, DecodeRRs, DecodeHeader;
    var h := DecodeHeader(msg);
    if h.None? {
      return None;
    }
    var q := QuestionsLoop(msg, HEADER_LEN, h.value.qdcount);
    if q.None? {
      return None;
    }
    var an := RecordsLoop(msg, q.value.1, h.value.ancount);
    if an.None? {
      return None;
    }
    var ns := RecordsLoop(msg, an.value.1, h.value.nscount);
    if ns.None? {
      return None;
    }
    var ar := RecordsLoop(msg, ns.value.1, h.value.arcount);
    if ar.None? {
      return None;
    }
    r := Some(Message(h.value, q.value.0, an.value.0, ns.value.0, ar.value.0));
  }

  method AppendRecords(buf: seq<byte>, rrs: seq<RR>) returns (b: seq<byte>)
    ensures b == buf + EncodeRRs(rrs)
  {
    hide EncodeRR;
    b := buf;
    for i := 0 to |rrs|
      invariant b + EncodeRRs(rrs[i..]) == buf + EncodeRRs(rrs)
    {
      assert rrs[i..][0] == rrs[i] && rrs[i..][1..] == rrs[i + 1..];
      assert b + (EncodeRR(rrs[i]) + EncodeRRs(rrs[i + 1..])) == b + EncodeRR(rrs[i]) + EncodeRRs(rrs[i + 1..]);
      b := b + EncodeRR(rrs[i]);
    }
    assert b + [] == b;
  }

  /** The loops of `encode_message`. */
  method EncodeMessageLoop(m: Message) returns (b: seq<byte>)
    ensures b == EncodeMessage(m)
  {
    hide EncodeRRs, EncodeQuestion, EncodeHeader;
    var head := EncodeHeader(m.header);
    b := head;
    for i := 0 to |m.questions|
      invariant b + EncodeQuestions(m.questions[i..]) == head + EncodeQuestions(m.questions)
    {
      var q := m.questions[i];
      assert m.questions[i..][0] == q && m.questions[i..][1..] == m.questions[i + 1..];
      assert b + (EncodeQuestion(q) + EncodeQuestions(m.questions[i + 1..]))
          == b + EncodeQuestion(q) + EncodeQuestions(m.questions[i + 1..]);
      b := b + EncodeQuestion(q);
    }
    assert b + [] == b;
    b := AppendRecords(b, m.answers);
    b := AppendRecords(b, m.authorities);
    b := AppendRecords(b, m.additionals);
  }

  // ---- What a message must satisfy to survive ----------------------------------------------------

  /** The RDATA variant the decoder picks for a type. */
  predicate TypeMatches(rtype: u16, d: RData) {
    match d
    case A(_) => rtype == TYPE_A
    case AAAA(_) => rtype == TYPE_AAAA
    case NS(_) => rtype == TYPE_NS
    case CNAME(_) => rtype == TYPE_CNAME
    case MX(_, _) => rtype == TYPE_MX
    case SOA(_, _, _, _, _, _, _) => rtype == TYPE_SOA
    case Unknown(_) => rtype !in {TYPE_A, TYPE_AAAA, TYPE_NS, TYPE_CNAME, TYPE_MX, TYPE_SOA}
  }

  predicate RDataNames(d: RData, p: Text -> bool) {
    match d
    case NS(n) => p(n)
    case CNAME(n) => p(n)
    case MX(_, n) => p(n)
    case SOA(m, r, _, _, _, _, _) => p(m) && p(r)
    case _ => true
  }

  predicate RRNames(rr: RR, p: Text -> bool) {
    p(rr.name) && RDataNames(rr.rdata, p)
  }

  /** `p` holds of every name in the message. */
  predicate AllNames(m: Message, p: Text -> bool) {
    && (forall i :: 0 <= i < |m.questions| ==> p(m.questions[i].qname))
    && (forall i :: 0 <= i < |m.answers| ==> RRNames(m.answers[i], p))
    && (forall i :: 0 <= i < |m.authorities| ==> RRNames(m.authorities[i], p))
    && (forall i :: 0 <= i < |m.additionals| ==> RRNames(m.additionals[i], p))
  }

  /** RDATA whose length fits its 16-bit field. */
  predicate RRSized(rr: RR) {
    |EncodeRData(rr.rdata)| < 0x1_0000
  }

  predicate AllSized(m: Message) {
    && (forall i :: 0 <= i < |m.answers| ==> RRSized(m.answers[i]))
    && (forall i :: 0 <= i < |m.authorities| ==> RRSized(m.authorities[i]))
    && (forall i :: 0 <= i < |m.additionals| ==> RRSized(m.additionals[i]))
  }

  predicate AllTyped(m: Message) {
    && (forall i :: 0 <= i < |m.answers| ==> TypeMatches(m.answers[i].rtype, m.answers[i].rdata))
    && (forall i :: 0 <= i < |m.authorities| ==> TypeMatches(m.authorities[i].rtype, m.authorities[i].rdata))
    && (forall i :: 0 <= i < |m.additionals| ==> TypeMatches(m.additionals[i].rtype, m.additionals[i].rdata))
  }

  predicate CountsMatch(m: Message) {
    && m.header.qdcount == |m.questions| && m.header.ancount == |m.answers|
    && m.header.nscount == |m.authorities| && m.header.arcount == |m.additionals|
  }

  // ---- Normal forms --------------------------------------------------------------------------------

  function NormalQuestion(q: Question): Question {
    q.(qname := Normal(q.qname))
  }

  function NormalRData(d: RData): RData {
    match d
    case NS(n) => NS(Normal(n))
    case CNAME(n) => CNAME(Normal(n))
    case MX(p, n) => MX(p, Normal(n))
    case SOA(m, r, a, b, c, e, f) => SOA(Normal(m), Normal(r), a, b, c, e, f)
    case _ => d
  }

  function NormalRR(rr: RR): RR {
    rr.(name := Normal(rr.name), rdata := NormalRData(rr.rdata))
  }

  function NormalQuestions(qs: seq<Question>): (r: seq<Question>)
    ensures |r| == |qs| && forall i :: 0 <= i < |qs| ==> r[i] == NormalQuestion(qs[i])
  {
    seq(|qs|, i requires 0 <= i < |qs| => NormalQuestion(qs[i]))
  }

  function NormalRRs(rrs: seq<RR>): (r: seq<RR>)
    ensures |r| == |rrs| && forall i :: 0 <= i < |rrs| ==> r[i] == NormalRR(rrs[i])
  {
    seq(|rrs|, i requires 0 <= i < |rrs| => NormalRR(rrs[i]))
  }

  /** Every name of the message replaced by its normal form. */
  function NormalMessage(m: Message): Message {
    Message(m.header, NormalQuestions(m.questions), NormalRRs(m.answers), NormalRRs(m.authorities),
            NormalRRs(m.additionals))
  }
}
