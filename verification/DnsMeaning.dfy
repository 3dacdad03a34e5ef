/**
 * What a DNS message says, read off its bytes (RFC 1035, section 4.1), without the decoder: names
 * are the expansions of `DnsName` at their offsets in the whole message, fields stand where the
 * standard puts them.
 * The decoder finds exactly what stands there.
 */
module DnsMeaning {
  import opened Wire
  import opened Text
  import opened DnsName
  import opened DnsMessage

  // ---- RDATA ---------------------------------------------------------------------------------

  ghost predicate NameFrom(msg: seq<byte>, at: nat, name: Text) {
    exists end: nat :: NameAt(msg, at, name, end)
  }

  lemma {:induction false} NameFromExactly(msg: seq<byte>, at: nat, name: Text)
    ensures NameFrom(msg, at, name) <==> DecodeName(msg, at).Some? && DecodeName(msg, at).value.0 == name
  {
    hide DecodeName, NameAt;
    if NameFrom(msg, at, name) {
      var end: nat :| NameAt(msg, at, name, end);
      NameExactly(msg, at, name, end);
    }
    if DecodeName(msg, at).Some? && DecodeName(msg, at).value.0 == name {
      NameExactly(msg, at, name, DecodeName(msg, at).value.1);
    }
  }

  /** The two names of an SOA follow each other, and twenty bytes of numbers follow them inside the RDATA. */
  ghost predicate SoaNames(msg: seq<byte>, start: nat, len: nat, mname: Text, rname: Text, second: nat, rest: nat) {
    NameAt(msg, start, mname, second) && NameAt(msg, second, rname, rest) && rest + 20 <= start + len <= |msg|
  }

  ghost predicate SoaAt(msg: seq<byte>, start: nat, len: nat, d: RData)
    requires d.SOA?
  {
    exists second: nat, rest: nat ::
      && SoaNames(msg, start, len, d.mname, d.rname, second, rest)
      && d.serial == GetU32(msg, rest) && d.refresh == GetU32(msg, rest + 4) && d.retry == GetU32(msg, rest + 8)
      && d.expire == GetU32(msg, rest + 12) && d.minimum == GetU32(msg, rest + 16)
  }

  /** The RDATA of a record of this type says `d`; names are read in the whole message. */
  ghost predicate DataAt(msg: seq<byte>, rtype: u16, start: nat, len: nat, d: RData)
    requires start + len <= |msg|
  {
    match d
    case A(ip) => rtype == 1 && len >= 4 && ip == msg[start..start + 4]
    case AAAA(ip6) => rtype == 28 && len >= 16 && ip6 == msg[start..start + 16]
    case NS(n) => rtype == 2 && NameFrom(msg, start, n)
    case CNAME(n) => rtype == 5 && NameFrom(msg, start, n)
    case MX(preference, exchange) =>
      rtype == 15 && len >= 3 && preference == GetU16(msg, start) && NameFrom(msg, start + 2, exchange)
    case SOA(_, _, _, _, _, _, _) => rtype == 6 && SoaAt(msg, start, len, d)
    case Unknown(data) => rtype !in {1, 2, 5, 6, 15, 28} && data == msg[start..start + len]
  }

  lemma {:induction false} SoaExactly(msg: seq<byte>, start: nat, len: nat, d: RData)
    requires start + len <= |msg| && d.SOA?
    ensures DecodeSoa(msg, start, len) == Some(d) <==> SoaAt(msg, start, len, d)
  {
    hide DecodeName, NameAt, GetU32;
    var m := DecodeName(msg, start);
    if m.Some? {
      NameExactly(msg, start, m.value.0, m.value.1);
      var r := DecodeName(msg, m.value.1);
      if r.Some? {
        NameExactly(msg, m.value.1, r.value.0, r.value.1);
      }
    }
    if DecodeSoa(msg, start, len) == Some(d) {
      assert SoaNames(msg, start, len, d.mname, d.rname, m.value.1, DecodeName(msg, m.value.1).value.1);
    }
    if SoaAt(msg, start, len, d) {
      var second: nat, rest: nat :|
        && SoaNames(msg, start, len, d.mname, d.rname, second, rest)
        && d.serial == GetU32(msg, rest) && d.refresh == GetU32(msg, rest + 4) && d.retry == GetU32(msg, rest + 8)
        && d.expire == GetU32(msg, rest + 12) && d.minimum == GetU32(msg, rest + 16);
      NameExactly(msg, start, d.mname, second);
      NameExactly(msg, second, d.rname, rest);
    }
  }

  lemma {:induction false} SoaShape(msg: seq<byte>, start: nat, len: nat)
    requires start + len <= |msg|
    ensures DecodeSoa(msg, start, len).Some? ==> DecodeSoa(msg, start, len).value.SOA?
  {
    hide DecodeName, GetU32;
  }

  /** Addresses and data of unknown types. */
  lemma {:induction false} BytesExactly(msg: seq<byte>, rtype: u16, start: nat, len: nat, d: RData)
    requires start + len <= |msg| && (d.A? || d.AAAA? || d.Unknown?)
    ensures DecodeRData(msg, rtype, start, len) == Some(d) <==> DataAt(msg, rtype, start, len, d)
  {
    SoaShape(msg, start, len);
    hide DecodeName, DecodeSoa, NameFrom, SoaAt, GetU16;
    SliceStart(msg, start, len, 4);
    SliceStart(msg, start, len, 16);
  }

  /** A single name. */
  lemma {:induction false} TargetExactly(msg: seq<byte>, rtype: u16, start: nat, len: nat, d: RData)
    requires start + len <= |msg| && (d.NS? || d.CNAME?)
    ensures DecodeRData(msg, rtype, start, len) == Some(d) <==> DataAt(msg, rtype, start, len, d)
  {
    SoaShape(msg, start, len);
    hide DecodeName, DecodeSoa, NameFrom, SoaAt, GetU16;
    NameFromExactly(msg, start, d.name);
  }

  /** A preference and a name. */
  lemma {:induction false} ExchangeExactly(msg: seq<byte>, rtype: u16, start: nat, len: nat, d: RData)
    requires start + len <= |msg| && d.MX?
    ensures DecodeRData(msg, rtype, start, len) == Some(d) <==> DataAt(msg, rtype, start, len, d)
  {
    SoaShape(msg, start, len);
    hide DecodeName, DecodeSoa, NameFrom, SoaAt, GetU16;
    NameFromExactly(msg, start + 2, d.exchange);
    if len >= 3 {
      SliceWord(msg, start, len);
    }
  }

  lemma {:induction false} DataExactly(msg: seq<byte>, rtype: u16, start: nat, len: nat, d: RData)
    requires start + len <= |msg|
    ensures DecodeRData(msg, rtype, start, len) == Some(d) <==> DataAt(msg, rtype, start, len, d)
  {
    if d.NS? || d.CNAME? {
      hide DecodeRData, DataAt;
      TargetExactly(msg, rtype, start, len, d);
    } else if d.MX? {
      hide DecodeRData, DataAt;
      ExchangeExactly(msg, rtype, start, len, d);
    } else if d.SOA? {
      hide DecodeName, DecodeSoa, SoaAt, GetU16;
      SoaExactly(msg, start, len, d);
    } else {
      hide DecodeRData, DataAt;
      BytesExactly(msg, rtype, start, len, d);
    }
  }

  lemma {:induction false} SliceStart(msg: seq<byte>, start: nat, len: nat, n: nat)
    requires start + len <= |msg|
    ensures n <= len ==> msg[start..start + len][..n] == msg[start..start + n]
  {
  }

  lemma {:induction false} SliceWord(msg: seq<byte>, start: nat, len: nat)
    requires start + len <= |msg| && len >= 2
    ensures GetU16(msg[start..start + len], 0) == GetU16(msg, start)
  {
  }

  // ---- Records and questions -----------------------------------------------------------------

  /** Owner, type, class, time to live, length and data, one after the other. */
  ghost predicate RecordFrom(msg: seq<byte>, at: nat, rr: RR, off: nat, end: nat) {
    && NameAt(msg, at, rr.name, off) && off + 10 <= |msg|
    && rr.rtype == GetU16(msg, off) && rr.class_ == GetU16(msg, off + 2) && rr.ttl == GetU32(msg, off + 4)
    && end == off + 10 + GetU16(msg, off + 8) <= |msg|
    && DataAt(msg, rr.rtype, off + 10, GetU16(msg, off + 8), rr.rdata)
  }

  ghost predicate RecordAt(msg: seq<byte>, at: nat, rr: RR, end: nat) {
    exists off: nat :: RecordFrom(msg, at, rr, off, end)
  }

  /** A record at a place: the decoder finds it exactly when it stands there. */
  lemma {:induction false} RecordExactly(msg: seq<byte>, at: nat, rr: RR, end: nat)
    ensures DecodeRR(msg, at) == Some((rr, end)) <==> RecordAt(msg, at, rr, end)
  {
    hide DecodeName, DecodeRData, NameAt, DataAt, GetU16, GetU32;
    var n := DecodeName(msg, at);
    if n.Some? && n.value.1 + 10 <= |msg| {
      var off := n.value.1;
      NameExactly(msg, at, n.value.0, off);
      if off + 10 + GetU16(msg, off + 8) <= |msg| {
        DataExactly(msg, GetU16(msg, off), off + 10, GetU16(msg, off + 8), rr.rdata);
        if DecodeRR(msg, at) == Some((rr, end)) {
          assert RecordFrom(msg, at, rr, off, end);
        }
      }
    }
    if RecordAt(msg, at, rr, end) {
      var off: nat :| RecordFrom(msg, at, rr, off, end);
      NameExactly(msg, at, rr.name, off);
    }
  }

  ghost predicate QuestionAt(msg: seq<byte>, at: nat, q: Question, end: nat) {
    && end >= 4 && NameAt(msg, at, q.qname, end - 4) && end <= |msg|
    && q.qtype == GetU16(msg, end - 4) && q.qclass == GetU16(msg, end - 2)
  }

  lemma {:induction false} QuestionExactly(msg: seq<byte>, at: nat, q: Question, end: nat)
    ensures DecodeQuestion(msg, at) == Some((q, end)) <==> QuestionAt(msg, at, q, end)
  {
    hide DecodeName, NameAt, GetU16;
    var n := DecodeName(msg, at);
    if n.Some? && n.value.1 + 4 <= |msg| {
      NameExactly(msg, at, n.value.0, n.value.1);
    }
    if QuestionAt(msg, at, q, end) {
      NameExactly(msg, at, q.qname, end - 4);
    }
  }

  // ---- Sections and messages -------------------------------------------------------------------

  /** Records one after the other. */
  ghost predicate RecordsAt(msg: seq<byte>, at: nat, rrs: seq<RR>, end: nat)
    decreases |rrs|
  {
    if rrs == [] then end == at
    else
      var first, rest := rrs[0], rrs[1..];
      exists mid: nat :: RecordAt(msg, at, first, mid) && RecordsAt(msg, mid, rest, end)
  }

  lemma {:induction false} RecordsExactly(msg: seq<byte>, at: nat, rrs: seq<RR>, end: nat, n: nat)
    ensures DecodeRRs(msg, at, n) == Some((rrs, end)) <==> |rrs| == n && RecordsAt(msg, at, rrs, end)
    decreases n
  {
    hide DecodeRR, RecordAt;
    if n > 0 && rrs != [] {
      var first, rest := rrs[0], rrs[1..];
      var rr := DecodeRR(msg, at);
      if rr.Some? {
        RecordsExactly(msg, rr.value.1, rest, end, n - 1);
        RecordExactly(msg, at, rr.value.0, rr.value.1);
        var tail := DecodeRRs(msg, rr.value.1, n - 1);
        if tail.Some? {
          assert ([rr.value.0] + tail.value.0)[1..] == tail.value.0;
        }
      }
      assert rrs == [first] + rest;
      if RecordsAt(msg, at, rrs, end) {
        var mid: nat :| RecordAt(msg, at, first, mid) && RecordsAt(msg, mid, rest, end);
        RecordExactly(msg, at, first, mid);
      }
    }
  }

  ghost predicate QuestionsAt(msg: seq<byte>, at: nat, qs: seq<Question>, end: nat)
    decreases |qs|
  {
    if qs == [] then end == at
    else
      var first, rest := qs[0], qs[1..];
      exists mid: nat :: QuestionAt(msg, at, first, mid) && QuestionsAt(msg, mid, rest, end)
  }

  lemma {:induction false} QuestionsExactly(msg: seq<byte>, at: nat, qs: seq<Question>, end: nat, n: nat)
    ensures DecodeQuestions(msg, at, n) == Some((qs, end)) <==> |qs| == n && QuestionsAt(msg, at, qs, end)
    decreases n
  {
    hide DecodeQuestion, QuestionAt;
    if n > 0 && qs != [] {
      var first, rest := qs[0], qs[1..];
      var q := DecodeQuestion(msg, at);
      if q.Some? {
        QuestionsExactly(msg, q.value.1, rest, end, n - 1);
        QuestionExactly(msg, at, q.value.0, q.value.1);
        var tail := DecodeQuestions(msg, q.value.1, n - 1);
        if tail.Some? {
          assert ([q.value.0] + tail.value.0)[1..] == tail.value.0;
        }
      }
      assert qs == [first] + rest;
      if QuestionsAt(msg, at, qs, end) {
        var mid: nat :| QuestionAt(msg, at, first, mid) && QuestionsAt(msg, mid, rest, end);
        QuestionExactly(msg, at, first, mid);
      }
    }
  }

  /** Identifier, flags and the four counts. */
  predicate HeaderAt(msg: seq<byte>, h: Header) {
    && |msg| >= 12
    && h.id == GetU16(msg, 0) && h.flags == GetU16(msg, 2)
    && h.qdcount == GetU16(msg, 4) && h.ancount == GetU16(msg, 6)
    && h.nscount == GetU16(msg, 8) && h.arcount == GetU16(msg, 10)
  }

  lemma {:induction false} HeaderExactly(msg: seq<byte>, h: Header)
    ensures DecodeHeader(msg) == Some(h) <==> HeaderAt(msg, h)
  {
    hide GetU16;
  }

  /** The four sections follow the header and each other, with as many entries as the counts say. */
  ghost predicate SectionsAt(msg: seq<byte>, m: Message, o1: nat, o2: nat, o3: nat, o4: nat) {
    && QuestionsAt(msg, 12, m.questions, o1) && RecordsAt(msg, o1, m.answers, o2)
    && RecordsAt(msg, o2, m.authorities, o3) && RecordsAt(msg, o3, m.additionals, o4)
  }

  ghost predicate MessageAt(msg: seq<byte>, m: Message) {
    && HeaderAt(msg, m.header)
    && |m.questions| == m.header.qdcount && |m.answers| == m.header.ancount
    && |m.authorities| == m.header.nscount && |m.additionals| == m.header.arcount
    && exists o1: nat, o2: nat, o3: nat, o4: nat :: SectionsAt(msg, m, o1, o2, o3, o4)
  }

  lemma {:induction false} SectionsRead(msg: seq<byte>, m: Message, o1: nat, o2: nat, o3: nat, o4: nat)
    ensures (&& DecodeQuestions(msg, 12, m.header.qdcount) == Some((m.questions, o1))
             && DecodeRRs(msg, o1, m.header.ancount) == Some((m.answers, o2))
             && DecodeRRs(msg, o2, m.header.nscount) == Some((m.authorities, o3))
             && DecodeRRs(msg, o3, m.header.arcount) == Some((m.additionals, o4)))
            <==> (&& SectionsAt(msg, m, o1, o2, o3, o4)
                  && |m.questions| == m.header.qdcount && |m.answers| == m.header.ancount
                  && |m.authorities| == m.header.nscount && |m.additionals| == m.header.arcount)
  {
    hide DecodeQuestions, DecodeRRs, QuestionsAt, RecordsAt;
    QuestionsExactly(msg, 12, m.questions, o1, m.header.qdcount);
    RecordsExactly(msg, o1, m.answers, o2, m.header.ancount);
    RecordsExactly(msg, o2, m.authorities, o3, m.header.nscount);
    RecordsExactly(msg, o3, m.additionals, o4, m.header.arcount);
  }

  /**
   * The meaning of messages.  For every byte string the decoder returns a message exactly when the
   * bytes say it: every field at its place, every name the finite expansion at its offset in the
   * whole message, pointers and all.
   */
  lemma {:induction false} MessageExactly(msg: seq<byte>, m: Message)
    ensures DecodeMessage(msg) == Some(m) <==> MessageAt(msg, m)
  {
    hide DecodeHeader, HeaderAt, DecodeQuestions, DecodeRRs, SectionsAt;
    HeaderExactly(msg, m.header);
    if DecodeMessage(msg) == Some(m) {
      var o1 := DecodeQuestions(msg, 12, m.header.qdcount).value.1;
      var o2 := DecodeRRs(msg, o1, m.header.ancount).value.1;
      var o3 := DecodeRRs(msg, o2, m.header.nscount).value.1;
      SectionsRead(msg, m, o1, o2, o3, DecodeRRs(msg, o3, m.header.arcount).value.1);
    }
    if MessageAt(msg, m) {
      var o1: nat, o2: nat, o3: nat, o4: nat :| SectionsAt(msg, m, o1, o2, o3, o4);
      SectionsRead(msg, m, o1, o2, o3, o4);
    }
  }
}
