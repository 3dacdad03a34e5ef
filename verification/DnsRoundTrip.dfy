/** Encoding a DNS message and decoding it again, and decoding a compressed one and encoding it again. */
module DnsRoundTrip {
  import opened Wire
  import opened Text
  import opened DnsName
  import opened DnsMessage

  // ---- Messages without pointers -----------------------------------------------------------------

  /** From `at` labels lead to the final zero byte and no pointer stands among them. */
  predicate PointerFree(msg: seq<byte>, at: nat)
    decreases |msg| - at
  {
    at < |msg| && msg[at] < 0xC0 && (msg[at] == 0 || PointerFree(msg, at + 1 + msg[at]))
  }

  /** A name that decodes although every target is refused follows no pointer. */
  lemma {:induction false} RefusedIsPointerFree(msg: seq<byte>, at: nat)
    requires DecodeFrom(msg, at, AllTargets()).Some?
    ensures PointerFree(msg, at)
    decreases |msg| - at
  {
    hide IsUtf8, Lower;
    if 0 < msg[at] < 0xC0 {
      RefusedIsPointerFree(msg, at + 1 + msg[at]);
    }
  }

  /** Every name read in this RDATA is free of pointers. */
  predicate PlainRData(msg: seq<byte>, rtype: u16, at: nat) {
    if rtype == TYPE_NS || rtype == TYPE_CNAME then PointerFree(msg, at)
    else if rtype == TYPE_MX then PointerFree(msg, at + 2)
    else if rtype == TYPE_SOA then
      PointerFree(msg, at) && DecodeName(msg, at).Some? && PointerFree(msg, DecodeName(msg, at).value.1)
    else true
  }

  /** Every name of the record at `at`: its owner and those in its RDATA. */
  predicate PlainRR(msg: seq<byte>, at: nat) {
    var n := DecodeName(msg, at);
    && PointerFree(msg, at) && n.Some? && n.value.1 + 10 <= |msg|
    && PlainRData(msg, GetU16(msg, n.value.1), n.value.1 + 10)
  }

  predicate PlainRRs(msg: seq<byte>, at: nat, n: nat)
    decreases n
  {
    n > 0 ==> var rr := DecodeRR(msg, at); PlainRR(msg, at) && rr.Some? && PlainRRs(msg, rr.value.1, n - 1)
  }

  predicate PlainQuestions(msg: seq<byte>, at: nat, n: nat)
    decreases n
  {
    n > 0 ==> var q := DecodeQuestion(msg, at); PointerFree(msg, at) && q.Some? && PlainQuestions(msg, q.value.1, n - 1)
  }

  /** The message decodes, and no name read on the way contains a pointer. */
  predicate PlainMessage(w: seq<byte>) {
    var h := DecodeHeader(w);
    h.Some? &&
    var q := DecodeQuestions(w, HEADER_LEN, h.value.qdcount);
    PlainQuestions(w, HEADER_LEN, h.value.qdcount) && q.Some? &&
    var an := DecodeRRs(w, q.value.1, h.value.ancount);
    PlainRRs(w, q.value.1, h.value.ancount) && an.Some? &&
    var ns := DecodeRRs(w, an.value.1, h.value.nscount);
    PlainRRs(w, an.value.1, h.value.nscount) && ns.Some? && PlainRRs(w, ns.value.1, h.value.arcount)
  }

  // ---- Round trips of the parts ------------------------------------------------------------------

  /** A name read where its encoding was put. */
  lemma {:induction false} NameAt(msg: seq<byte>, at: nat, name: Text, rest: nat)
    requires NameFits(name) && at + |EncodeName(name)| == rest <= |msg|
    requires msg[at..rest] == EncodeName(name)
    ensures DecodeName(msg, at) == Some((Normal(name), rest)) && PointerFree(msg, at)
  {
    hide DecodeName, DecodeFrom, EncodeName, NameFits, Normal, PointerFree;
    NameRoundTrip(msg[..at], name, msg[rest..]);
    assert msg == msg[..at] + EncodeName(name) + msg[rest..];
    RefusedIsPointerFree(msg, at);
  }

  lemma {:induction false} HeaderRoundTrip(h: Header, post: seq<byte>)
    ensures DecodeHeader(EncodeHeader(h) + post) == Some(h)
  {
    hide PutU16, GetU16;
    var msg := EncodeHeader(h) + post;
    assert msg[0..2] == PutU16(h.id) && msg[2..4] == PutU16(h.flags) && msg[4..6] == PutU16(h.qdcount);
    assert msg[6..8] == PutU16(h.ancount) && msg[8..10] == PutU16(h.nscount) && msg[10..12] == PutU16(h.arcount);
    U16RoundTrip(msg, 0, h.id);
    U16RoundTrip(msg, 2, h.flags);
    U16RoundTrip(msg, 4, h.qdcount);
    U16RoundTrip(msg, 6, h.ancount);
    U16RoundTrip(msg, 8, h.nscount);
    U16RoundTrip(msg, 10, h.arcount);
  }

  /** `w` stands in `msg` at `at`. */
  predicate Holds(msg: seq<byte>, at: nat, w: seq<byte>) {
    at + |w| <= |msg| && msg[at..at + |w|] == w
  }

  lemma {:induction false} HoldsSplit(msg: seq<byte>, at: nat, a: seq<byte>, b: seq<byte>)
    requires Holds(msg, at, a + b)
    ensures Holds(msg, at, a) && Holds(msg, at + |a|, b)
  {
    var w := msg[at..at + |a + b|];
    assert msg[at..at + |a|] == w[..|a|];
    assert msg[at + |a|..at + |a| + |b|] == w[|a|..];
  }

  lemma {:induction false} HeldName(msg: seq<byte>, at: nat, name: Text)
    requires Holds(msg, at, EncodeName(name)) && NameFits(name)
    ensures DecodeName(msg, at) == Some((Normal(name), at + |EncodeName(name)|)) && PointerFree(msg, at)
  {
    hide DecodeName, EncodeName, NameFits, Normal, PointerFree;
    NameAt(msg, at, name, at + |EncodeName(name)|);
  }

  lemma {:induction false} HeldU16(msg: seq<byte>, at: nat, v: u16)
    requires Holds(msg, at, PutU16(v))
    ensures at + 2 <= |msg| && GetU16(msg, at) == v
  {
    U16RoundTrip(msg, at, v);
  }

  lemma {:induction false} HeldU32(msg: seq<byte>, at: nat, v: u32)
    requires Holds(msg, at, PutU32(v))
    ensures at + 4 <= |msg| && GetU32(msg, at) == v
  {
    U32RoundTrip(msg, at, v);
  }

  lemma {:induction false} QuestionRoundTrip(msg: seq<byte>, at: nat, q: Question)
    requires Holds(msg, at, EncodeQuestion(q)) && NameFits(q.qname)
    ensures DecodeQuestion(msg, at) == Some((NormalQuestion(q), at + |EncodeQuestion(q)|)) && PointerFree(msg, at)
  {
    hide Holds, PointerFree, DecodeName, EncodeName, NameFits, Normal, PutU16, GetU16;
    var n, fixed := EncodeName(q.qname), PutU16(q.qtype) + PutU16(q.qclass);
    HoldsSplit(msg, at, n, fixed);
    HoldsSplit(msg, at + |n|, PutU16(q.qtype), PutU16(q.qclass));
    HeldName(msg, at, q.qname);
    HeldU16(msg, at + |n|, q.qtype);
    HeldU16(msg, at + |n| + 2, q.qclass);
  }

  lemma {:induction false} SoaRoundTrip(msg: seq<byte>, at: nat, d: RData)
    requires d.SOA? && Holds(msg, at, EncodeRData(d)) && NameFits(d.mname) && NameFits(d.rname)
    requires at + |EncodeRData(d)| <= |msg|
    ensures DecodeSoa(msg, at, |EncodeRData(d)|) == Some(NormalRData(d)) && PlainRData(msg, TYPE_SOA, at)
  {
    hide Holds, PointerFree, DecodeName, EncodeName, NameFits, Normal, PutU32, GetU32, SoaTail;
    var m, r := EncodeName(d.mname), EncodeName(d.rname);
    HoldsSplit(msg, at, m, r + SoaTail(d));
    HoldsSplit(msg, at + |m|, r, SoaTail(d));
    HeldName(msg, at, d.mname);
    HeldName(msg, at + |m|, d.rname);
    HeldSoaTail(msg, at + |m| + |r|, d);
  }

  lemma {:induction false} HeldSoaTail(msg: seq<byte>, at: nat, d: RData)
    requires d.SOA? && Holds(msg, at, SoaTail(d))
    ensures at + 20 <= |msg|
    ensures GetU32(msg, at) == d.serial && GetU32(msg, at + 4) == d.refresh && GetU32(msg, at + 8) == d.retry
    ensures GetU32(msg, at + 12) == d.expire && GetU32(msg, at + 16) == d.minimum
  {
    hide Holds, PutU32, GetU32;
    HoldsSplit(msg, at, PutU32(d.serial) + PutU32(d.refresh) + PutU32(d.retry) + PutU32(d.expire), PutU32(d.minimum));
    HoldsSplit(msg, at, PutU32(d.serial) + PutU32(d.refresh) + PutU32(d.retry), PutU32(d.expire));
    HoldsSplit(msg, at, PutU32(d.serial) + PutU32(d.refresh), PutU32(d.retry));
    HoldsSplit(msg, at, PutU32(d.serial), PutU32(d.refresh));
    HeldU32(msg, at, d.serial);
    HeldU32(msg, at + 4, d.refresh);
    HeldU32(msg, at + 8, d.retry);
    HeldU32(msg, at + 12, d.expire);
    HeldU32(msg, at + 16, d.minimum);
  }

  lemma {:induction false} MxRoundTrip(msg: seq<byte>, at: nat, d: RData)
    requires d.MX? && Holds(msg, at, EncodeRData(d)) && NameFits(d.exchange) && at + |EncodeRData(d)| <= |msg|
    ensures DecodeRData(msg, TYPE_MX, at, |EncodeRData(d)|) == Some(NormalRData(d)) && PlainRData(msg, TYPE_MX, at)
  {
    hide Holds, PointerFree, DecodeName, NameFits, Normal, PutU16, GetU16;
    HoldsSplit(msg, at, PutU16(d.preference), EncodeName(d.exchange));
    HeldName(msg, at + 2, d.exchange);
    var s := msg[at..at + |EncodeRData(d)|];
    assert Holds(s, 0, PutU16(d.preference)) by {
      HoldsSlice(msg, at, PutU16(d.preference), at + |EncodeRData(d)|);
    }
    HeldU16(s, 0, d.preference);
  }

  lemma {:induction false} HoldsSlice(msg: seq<byte>, at: nat, w: seq<byte>, end: nat)
    requires Holds(msg, at, w) && at + |w| <= end <= |msg|
    ensures Holds(msg[at..end], 0, w)
  {
    assert msg[at..end][0..|w|] == msg[at..at + |w|];
  }

  lemma {:induction false} RDataRoundTrip(msg: seq<byte>, at: nat, rtype: u16, d: RData)
    requires Holds(msg, at, EncodeRData(d)) && TypeMatches(rtype, d) && RDataNames(d, NameFits)
    ensures at + |EncodeRData(d)| <= |msg| && DecodeRData(msg, rtype, at, |EncodeRData(d)|) == Some(NormalRData(d))
    ensures PlainRData(msg, rtype, at)
  {
    hide PointerFree, DecodeName, EncodeName, NameFits, Normal, DecodeSoa;
    match d
    case NS(n) => HeldName(msg, at, n);
    case CNAME(n) => HeldName(msg, at, n);
    case MX(_, _) => MxRoundTrip(msg, at, d);
    case SOA(_, _, _, _, _, _, _) => SoaRoundTrip(msg, at, d);
    case A(ip) => assert ip[..4] == ip;
    case AAAA(ip6) => assert ip6[..16] == ip6;
    case Unknown(_) =>
  }

  lemma {:induction false} HeldFixed(msg: seq<byte>, at: nat, rr: RR)
    requires Holds(msg, at, RRFixed(rr)) && RRSized(rr)
    ensures at + 10 <= |msg|
    ensures GetU16(msg, at) == rr.rtype && GetU16(msg, at + 2) == rr.class_ && GetU32(msg, at + 4) == rr.ttl
    ensures GetU16(msg, at + 8) == |EncodeRData(rr.rdata)|
  {
    hide Holds, PutU16, PutU32, GetU16, GetU32, EncodeRData;
    var len := |EncodeRData(rr.rdata)|;
    HoldsSplit(msg, at, PutU16(rr.rtype) + PutU16(rr.class_) + PutU32(rr.ttl), PutU16(len));
    HoldsSplit(msg, at, PutU16(rr.rtype) + PutU16(rr.class_), PutU32(rr.ttl));
    HoldsSplit(msg, at, PutU16(rr.rtype), PutU16(rr.class_));
    HeldU16(msg, at, rr.rtype);
    HeldU16(msg, at + 2, rr.class_);
    HeldU32(msg, at + 4, rr.ttl);
    HeldU16(msg, at + 8, len);
  }

  /** One resource record, of any type, at any place. */
  lemma {:induction false} RRRoundTrip(msg: seq<byte>, at: nat, rr: RR)
    requires Holds(msg, at, EncodeRR(rr)) && RRNames(rr, NameFits) && TypeMatches(rr.rtype, rr.rdata) && RRSized(rr)
    ensures DecodeRR(msg, at) == Some((NormalRR(rr), at + |EncodeRR(rr)|)) && PlainRR(msg, at)
  {
    hide Holds, PointerFree, PlainRData, DecodeName, EncodeName, NameFits, Normal, EncodeRData, DecodeRData,
         TypeMatches, RRFixed, RDataNames, RRSized, GetU16, GetU32;
    var n, d := EncodeName(rr.name), EncodeRData(rr.rdata);
    HoldsSplit(msg, at, n, RRFixed(rr) + d);
    HoldsSplit(msg, at + |n|, RRFixed(rr), d);
    HeldName(msg, at, rr.name);
    HeldFixed(msg, at + |n|, rr);
    RDataRoundTrip(msg, at + |n| + 10, rr.rtype, rr.rdata);
  }

  lemma {:induction false} QuestionsRoundTrip(msg: seq<byte>, at: nat, qs: seq<Question>)
    requires Holds(msg, at, EncodeQuestions(qs)) && forall i :: 0 <= i < |qs| ==> NameFits(qs[i].qname)
    ensures DecodeQuestions(msg, at, |qs|) == Some((NormalQuestions(qs), at + |EncodeQuestions(qs)|))
    ensures PlainQuestions(msg, at, |qs|)
    decreases |qs|
  {
    hide Holds, PointerFree, EncodeQuestion, DecodeQuestion, NameFits, NormalQuestion;
    if qs == [] {
      assert NormalQuestions(qs) == [];
    } else {
      HoldsSplit(msg, at, EncodeQuestion(qs[0]), EncodeQuestions(qs[1..]));
      QuestionRoundTrip(msg, at, qs[0]);
      QuestionsRoundTrip(msg, at + |EncodeQuestion(qs[0])|, qs[1..]);
      assert NormalQuestions(qs) == [NormalQuestion(qs[0])] + NormalQuestions(qs[1..]);
    }
  }

  ghost predicate RRsFit(rrs: seq<RR>) {
    forall i :: 0 <= i < |rrs| ==>
      RRNames(rrs[i], NameFits) && TypeMatches(rrs[i].rtype, rrs[i].rdata) && RRSized(rrs[i])
  }

  lemma {:induction false} RRsRoundTrip(msg: seq<byte>, at: nat, rrs: seq<RR>)
    requires Holds(msg, at, EncodeRRs(rrs)) && RRsFit(rrs)
    ensures DecodeRRs(msg, at, |rrs|) == Some((NormalRRs(rrs), at + |EncodeRRs(rrs)|)) && PlainRRs(msg, at, |rrs|)
    decreases |rrs|
  {
    hide Holds, PlainRR, EncodeRR, DecodeRR, RRNames, TypeMatches, RRSized, NormalRR;
    if rrs == [] {
      assert NormalRRs(rrs) == [];
    } else {
      HoldsSplit(msg, at, EncodeRR(rrs[0]), EncodeRRs(rrs[1..]));
      RRRoundTrip(msg, at, rrs[0]);
      RRsRoundTrip(msg, at + |EncodeRR(rrs[0])|, rrs[1..]);
      assert NormalRRs(rrs) == [NormalRR(rrs[0])] + NormalRRs(rrs[1..]);
    }
  }

  /** A message that can be carried: its counts are right, its names and its RDATA fit, its types match. */
  ghost predicate Carried(m: Message) {
    CountsMatch(m) && AllNames(m, NameFits) && AllTyped(m) && AllSized(m)
  }

  /** Message round trip: what is encoded decodes to the same message with its names in normal form. */
  lemma {:induction false} MessageRoundTrip(m: Message)
    requires Carried(m)
    ensures DecodeMessage(EncodeMessage(m)) == Some(NormalMessage(m)) && PlainMessage(EncodeMessage(m))
  {
    hide PlainQuestions, PlainRRs, DecodeHeader, EncodeHeader, EncodeQuestions, EncodeRRs, DecodeQuestions,
         DecodeRRs, Holds, RRsFit, Carried, NormalQuestions, NormalRRs, NameFits;
    var w := EncodeMessage(m);
    var q, an, ns, ar := EncodeQuestions(m.questions), EncodeRRs(m.answers), EncodeRRs(m.authorities),
                         EncodeRRs(m.additionals);
    HeaderRoundTrip(m.header, q + (an + (ns + ar)));
    RRsFitFrom(m);
    SectionsHeld(m, w);
    QuestionsRoundTrip(w, 12, m.questions);
    RRsRoundTrip(w, 12 + |q|, m.answers);
    RRsRoundTrip(w, 12 + |q| + |an|, m.authorities);
    RRsRoundTrip(w, 12 + |q| + |an| + |ns|, m.additionals);
  }

  lemma {:induction false} SectionsHeld(m: Message, w: seq<byte>)
    requires w == EncodeMessage(m)
    ensures var (q, an, ns, ar) := (EncodeQuestions(m.questions), EncodeRRs(m.answers), EncodeRRs(m.authorities),
                                    EncodeRRs(m.additionals));
            && Holds(w, 12, q) && Holds(w, 12 + |q|, an) && Holds(w, 12 + |q| + |an|, ns)
            && Holds(w, 12 + |q| + |an| + |ns|, ar)
  {
    hide EncodeHeader, EncodeQuestions, EncodeRRs, Holds;
    var q, an, ns, ar := EncodeQuestions(m.questions), EncodeRRs(m.answers), EncodeRRs(m.authorities),
                         EncodeRRs(m.additionals);
    WholeHolds(w);
    HoldsSplit(w, 0, EncodeHeader(m.header), q + (an + (ns + ar)));
    HoldsSplit(w, 12, q, an + (ns + ar));
    HoldsSplit(w, 12 + |q|, an, ns + ar);
    HoldsSplit(w, 12 + |q| + |an|, ns, ar);
  }

  lemma {:induction false} WholeHolds(w: seq<byte>)
    ensures Holds(w, 0, w)
  {
  }

  lemma {:induction false} RRsFitFrom(m: Message)
    requires Carried(m)
    ensures CountsMatch(m)
    ensures forall i :: 0 <= i < |m.questions| ==> NameFits(m.questions[i].qname)
    ensures RRsFit(m.answers) && RRsFit(m.authorities) && RRsFit(m.additionals)
  {
    hide NameFits, RRNames, TypeMatches, RRSized;
  }

  // ---- Normal messages -------------------------------------------------------------------------

  /** A name the round trip leaves alone. */
  predicate Stable(n: Text) {
    Canonical(n) && Lower(n) == n
  }

  lemma {:induction false} NormalRRExactly(rr: RR)
    ensures NormalRR(rr) == rr <==> RRNames(rr, Stable)
  {
    hide Normal, Stable;
    StableIsNormal(rr.name);
    match rr.rdata
    case NS(n) => StableIsNormal(n);
    case CNAME(n) => StableIsNormal(n);
    case MX(_, n) => StableIsNormal(n);
    case SOA(a, b, _, _, _, _, _) => StableIsNormal(a); StableIsNormal(b);
    case _ =>
  }

  lemma {:induction false} StableIsNormal(n: Text)
    ensures Normal(n) == n <==> Stable(n)
  {
    NormalExactly(n);
  }

  lemma {:induction false} NormalRRsExactly(rrs: seq<RR>)
    ensures NormalRRs(rrs) == rrs <==> forall i :: 0 <= i < |rrs| ==> RRNames(rrs[i], Stable)
  {
    hide NormalRR, RRNames;
    forall i | 0 <= i < |rrs| ensures NormalRR(rrs[i]) == rrs[i] <==> RRNames(rrs[i], Stable) {
      NormalRRExactly(rrs[i]);
    }
    if NormalRRs(rrs) == rrs {
      forall i | 0 <= i < |rrs| ensures RRNames(rrs[i], Stable) {
        assert NormalRRs(rrs)[i] == rrs[i];
      }
    }
  }

  lemma {:induction false} NormalQuestionsExactly(qs: seq<Question>)
    ensures NormalQuestions(qs) == qs <==> forall i :: 0 <= i < |qs| ==> Stable(qs[i].qname)
  {
    hide Normal, Stable;
    forall i | 0 <= i < |qs| ensures NormalQuestion(qs[i]) == qs[i] <==> Stable(qs[i].qname) {
      StableIsNormal(qs[i].qname);
    }
    if NormalQuestions(qs) == qs {
      forall i | 0 <= i < |qs| ensures Stable(qs[i].qname) {
        assert NormalQuestions(qs)[i] == qs[i];
      }
    }
  }

  lemma {:induction false} NormalMessageExactly(m: Message)
    ensures NormalMessage(m) == m <==> AllNames(m, Stable)
  {
    hide NormalRRs, NormalQuestions, RRNames, Stable;
    NormalQuestionsExactly(m.questions);
    NormalRRsExactly(m.answers);
    NormalRRsExactly(m.authorities);
    NormalRRsExactly(m.additionals);
  }

  /** The exact round trip: a message that can be carried comes back as it was exactly when its names are stable. */
  lemma {:induction false} ExactRoundTrip(m: Message)
    requires Carried(m)
    ensures DecodeMessage(EncodeMessage(m)) == Some(m) <==> AllNames(m, Stable)
  {
    hide *;
    MessageRoundTrip(m);
    NormalMessageExactly(m);
  }

  // ---- Decoded messages ------------------------------------------------------------------------

  /** A decoded name: it can be encoded again, and it is in lower case. */
  predicate Decoded(n: Text) {
    NameFits(n) && Lower(n) == n
  }

  lemma {:induction false} NameDecoded(msg: seq<byte>, at: nat)
    requires DecodeName(msg, at).Some?
    ensures Decoded(DecodeName(msg, at).value.0)
  {
    DecodedNameFits(msg, at);
  }

  lemma {:induction false} RDataDecoded(msg: seq<byte>, rtype: u16, start: nat, len: nat)
    requires start + len <= |msg| && DecodeRData(msg, rtype, start, len).Some?
    ensures TypeMatches(rtype, DecodeRData(msg, rtype, start, len).value)
    ensures RDataNames(DecodeRData(msg, rtype, start, len).value, Decoded)
  {
    hide DecodeName, Decoded;
    if rtype == TYPE_NS || rtype == TYPE_CNAME {
      NameDecoded(msg, start);
    } else if rtype == TYPE_MX {
      NameDecoded(msg, start + 2);
    } else if rtype == TYPE_SOA {
      NameDecoded(msg, start);
      NameDecoded(msg, DecodeName(msg, start).value.1);
    }
  }

  ghost predicate RRDecoded(rr: RR) {
    RRNames(rr, Decoded) && TypeMatches(rr.rtype, rr.rdata)
  }

  lemma {:induction false} RecordDecoded(msg: seq<byte>, at: nat)
    requires DecodeRR(msg, at).Some?
    ensures RRDecoded(DecodeRR(msg, at).value.0)
  {
    hide DecodeName, Decoded, DecodeRData, TypeMatches, RDataNames, GetU16, GetU32;
    NameDecoded(msg, at);
    var off := DecodeName(msg, at).value.1;
    RDataDecoded(msg, GetU16(msg, off), off + 10, GetU16(msg, off + 8));
  }

  lemma {:induction false} RecordsDecoded(msg: seq<byte>, at: nat, n: nat)
    requires DecodeRRs(msg, at, n).Some?
    ensures |DecodeRRs(msg, at, n).value.0| == n
    ensures forall i :: 0 <= i < n ==> RRDecoded(DecodeRRs(msg, at, n).value.0[i])
    decreases n
  {
    hide DecodeRR, RRDecoded;
    if n > 0 {
      RecordDecoded(msg, at);
      RecordsDecoded(msg, DecodeRR(msg, at).value.1, n - 1);
    }
  }

  lemma {:induction false} QuestionsDecoded(msg: seq<byte>, at: nat, n: nat)
    requires DecodeQuestions(msg, at, n).Some?
    ensures |DecodeQuestions(msg, at, n).value.0| == n
    ensures forall i :: 0 <= i < n ==> Decoded(DecodeQuestions(msg, at, n).value.0[i].qname)
    decreases n
  {
    hide DecodeName, Decoded, GetU16;
    if n > 0 {
      NameDecoded(msg, at);
      QuestionsDecoded(msg, DecodeQuestion(msg, at).value.1, n - 1);
    }
  }

  lemma {:induction false} MessageDecoded(w: seq<byte>)
    requires DecodeMessage(w).Some?
    ensures var m := DecodeMessage(w).value; CountsMatch(m) && AllTyped(m) && AllNames(m, Decoded)
  {
    hide DecodeQuestions, DecodeRRs, DecodeHeader, RRNames, TypeMatches, Decoded;
    var h := DecodeHeader(w).value;
    QuestionsDecoded(w, HEADER_LEN, h.qdcount);
    var o1 := DecodeQuestions(w, HEADER_LEN, h.qdcount).value.1;
    RecordsDecoded(w, o1, h.ancount);
    var o2 := DecodeRRs(w, o1, h.ancount).value.1;
    RecordsDecoded(w, o2, h.nscount);
    RecordsDecoded(w, DecodeRRs(w, o2, h.nscount).value.1, h.arcount);
  }

  lemma {:induction false} RRNamesWeaken(rr: RR)
    requires RRNames(rr, Decoded)
    ensures RRNames(rr, NameFits)
    ensures RRNames(rr, Stable) <==> RRNames(rr, Canonical)
  {
    hide NameFits, Canonical;
  }

  lemma {:induction false} AllNamesWeaken(m: Message)
    requires AllNames(m, Decoded)
    ensures AllNames(m, NameFits)
    ensures AllNames(m, Stable) <==> AllNames(m, Canonical)
  {
    hide RRNames, NameFits, Canonical;
    forall i | 0 <= i < |m.answers|
      ensures RRNames(m.answers[i], NameFits) && (RRNames(m.answers[i], Stable) <==> RRNames(m.answers[i], Canonical))
    {
      RRNamesWeaken(m.answers[i]);
    }
    forall i | 0 <= i < |m.authorities|
      ensures RRNames(m.authorities[i], NameFits)
              && (RRNames(m.authorities[i], Stable) <==> RRNames(m.authorities[i], Canonical))
    {
      RRNamesWeaken(m.authorities[i]);
    }
    forall i | 0 <= i < |m.additionals|
      ensures RRNames(m.additionals[i], NameFits)
              && (RRNames(m.additionals[i], Stable) <==> RRNames(m.additionals[i], Canonical))
    {
      RRNamesWeaken(m.additionals[i]);
    }
  }

  /**
   * Decompression preserves meaning.  Whatever compressed message was decoded, encoding the
   * result yields a message without a single compression pointer that decodes, and to the same
   * content exactly when no name has an empty label written into it by a dot byte inside a wire
   * label.
   */
  lemma {:induction false} DecompressionPreservesMeaning(w: seq<byte>, m: Message)
    requires DecodeMessage(w) == Some(m) && AllSized(m)
    ensures PlainMessage(EncodeMessage(m))
    ensures DecodeMessage(EncodeMessage(m)) == Some(NormalMessage(m))
    ensures DecodeMessage(EncodeMessage(m)) == Some(m) <==> AllNames(m, Canonical)
  {
    CarriedDecoded(w, m);
    hide *;
    MessageRoundTrip(m);
    ExactRoundTrip(m);
  }

  lemma {:induction false} CarriedDecoded(w: seq<byte>, m: Message)
    requires DecodeMessage(w) == Some(m) && AllSized(m)
    ensures Carried(m) && (AllNames(m, Stable) <==> AllNames(m, Canonical))
  {
    hide DecodeMessage, AllNames, AllTyped, AllSized, CountsMatch;
    MessageDecoded(w);
    AllNamesWeaken(m);
  }

  lemma {:induction false} TwoDots()
    ensures EncodeName([DOT, DOT]) == [0] && Normal([DOT, DOT]) == [DOT] && !Canonical([DOT, DOT])
  {
    assert [DOT, DOT][..1] == [DOT] && [DOT][..0] == [];
    assert TrimDots([DOT, DOT]) == TrimDots([DOT]) == TrimDots([]) == [];
    var none: Text := [];
    assert [none][1..] == [];
    assert Parts([DOT, DOT]) == NonEmpty([none]) == NonEmpty([]) == [];
  }

  /** A label that is a single dot byte. */
  lemma {:induction false} DotLabel(msg: seq<byte>, at: nat)
    requires Holds(msg, at, [1, DOT, 0])
    ensures DecodeName(msg, at) == Some(([DOT, DOT], at + 3))
  {
    var w := msg[at..at + 3];
    assert msg[at] == w[0] && msg[at + 1] == w[1] && msg[at + 2] == w[2];
    assert LabelAt(msg, at) == [DOT];
    assert [DOT][1..] == [] && IsUtf8([DOT]);
    assert Lower([DOT]) == [DOT];
    assert DecodeFrom(msg, at + 2, {}) == Some(([], at + 3));
    assert DecodeFrom(msg, at, {}) == Some(([[DOT]] + [], at + 3));
    assert [[DOT]] + [] == [[DOT]] && [[DOT]][1..] == [];
    assert Dotted([[DOT]]) == [DOT] + [DOT] + Dotted([]) == [DOT, DOT];
    assert Render([[DOT]]) == [DOT, DOT];
  }

  /** A question for the name that holds one label, a single dot byte. */
  function DottedQuery(): seq<byte> {
    EncodeHeader(Header(0, 0, 1, 0, 0, 0)) + ([1, DOT, 0] + (PutU16(TYPE_A) + PutU16(CLASS_IN)))
  }

  lemma {:induction false} DottedQueryDecodes()
    ensures DecodeMessage(DottedQuery())
            == Some(Message(Header(0, 0, 1, 0, 0, 0), [Question([DOT, DOT], TYPE_A, CLASS_IN)], [], [], []))
  {
    hide DecodeName, DecodeHeader, EncodeHeader, GetU16, PutU16, Holds;
    var w, h := DottedQuery(), Header(0, 0, 1, 0, 0, 0);
    var tail := PutU16(TYPE_A) + PutU16(CLASS_IN);
    HeaderRoundTrip(h, [1, DOT, 0] + tail);
    WholeHolds(w);
    HoldsSplit(w, 0, EncodeHeader(h), [1, DOT, 0] + tail);
    HoldsSplit(w, 12, [1, DOT, 0], tail);
    HoldsSplit(w, 15, PutU16(TYPE_A), PutU16(CLASS_IN));
    DotLabel(w, 12);
    HeldU16(w, 15, TYPE_A);
    HeldU16(w, 17, CLASS_IN);
    assert DecodeQuestions(w, 19, 0) == Some(([], 19));
    assert DecodeQuestions(w, 12, 1) == Some(([Question([DOT, DOT], TYPE_A, CLASS_IN)] + [], 19));
    assert [Question([DOT, DOT], TYPE_A, CLASS_IN)] + [] == [Question([DOT, DOT], TYPE_A, CLASS_IN)];
    assert DecodeRRs(w, 19, 0) == Some(([], 19));
  }

  /** Concrete case: a dot byte inside a label decodes to a name that is encoded as the root. */
  lemma {:induction false} EmptyLabelLost()
    ensures EncodeName([DOT, DOT]) == [0]
    ensures DecodeMessage(DottedQuery()).Some?
    ensures var m := DecodeMessage(DottedQuery()).value;
            && m.questions == [Question([DOT, DOT], TYPE_A, CLASS_IN)]
            && DecodeMessage(EncodeMessage(m)) == Some(m.(questions := [Question([DOT], TYPE_A, CLASS_IN)]))
  {
    hide DecodeMessage, EncodeMessage, DottedQuery, Normal, EncodeName, Canonical, PlainMessage;
    TwoDots();
    DottedQueryDecodes();
    var m := DecodeMessage(DottedQuery()).value;
    DecompressionPreservesMeaning(DottedQuery(), m);
    assert NormalQuestions(m.questions) == [Question([DOT], TYPE_A, CLASS_IN)];
    assert NormalRRs([]) == [];
  }
}
