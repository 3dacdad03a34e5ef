/**
 * What the iterative resolver does.  The network is an arbitrary function from the running number
 * of a query to a reply or to silence, so every result holds against every responder.  A
 * resolution is told as a list of turns, each decided by what the cache says and the network
 * replies, and the turns decide the outcome.
 */
module ResolverSpec {
  import opened Wire
  import opened Text
  import opened DnsMessage
  import opened DnsCache

  const MAX_CNAME_DEPTH: nat := 16
  const MAX_ITERATIONS: nat := 30
  const MAX_GLUE_DEPTH: nat := 3

  type Server = (Text, Ip4)
  type Network = (nat, Ip4, Text, u16) -> Option<Message>

  datatype Outcome = Ok(rrs: seq<RR>) | Err
  datatype Reply = Reply(answers: seq<RR>, authorities: seq<RR>, additionals: seq<RR>)

  // ---- Pure pieces -----------------------------------------------------------------------------

  function FindCname(rrs: seq<RR>): (r: Option<RR>)
    ensures r.Some? ==> r.value.rdata.CNAME? && r.value in rrs
    ensures r.None? ==> forall i :: 0 <= i < |rrs| ==> !rrs[i].rdata.CNAME?
  {
    if rrs == [] then None else if rrs[0].rdata.CNAME? then Some(rrs[0]) else FindCname(rrs[1..])
  }

  function ExtractMatching(rrs: seq<RR>, qtype: u16): (r: seq<RR>)
    ensures forall i :: 0 <= i < |r| ==> r[i].rtype == qtype && r[i] in rrs
  {
    if rrs == [] then []
    else (if rrs[0].rtype == qtype then [rrs[0]] else []) + ExtractMatching(rrs[1..], qtype)
  }

  function NsNames(rrs: seq<RR>): seq<Text> {
    if rrs == [] then []
    else (if rrs[0].rdata.NS? then [rrs[0].rdata.name] else []) + NsNames(rrs[1..])
  }

  /** The address of the first A record owned by `name`. */
  function Glue(rrs: seq<RR>, name: Text): Option<Ip4> {
    if rrs == [] then None
    else if rrs[0].rdata.A? && rrs[0].name == name then Some(rrs[0].rdata.ip)
    else Glue(rrs[1..], name)
  }

  function Addresses(rrs: seq<RR>, name: Text): seq<Server> {
    if rrs == [] then []
    else (if rrs[0].rdata.A? then [(name, rrs[0].rdata.ip)] else []) + Addresses(rrs[1..], name)
  }

  /** Places in a list of `n`, from front to back. */
  predicate Increasing(places: seq<nat>, n: nat) {
    && (forall i :: 0 <= i < |places| ==> places[i] < n)
    && (forall i, j :: 0 <= i < j < |places| ==> places[i] < places[j])
  }

  lemma {:induction false} MatchingJoinFirst(rr: RR, rest: seq<RR>, qtype: u16)
    ensures ExtractMatching([rr] + rest, qtype)
            == (if rr.rtype == qtype then [rr] else []) + ExtractMatching(rest, qtype)
  {
    assert ([rr] + rest)[1..] == rest;
  }

  lemma {:induction false} MatchingJoin(a: seq<RR>, b: seq<RR>, qtype: u16)
    ensures ExtractMatching(a + b, qtype) == ExtractMatching(a, qtype) + ExtractMatching(b, qtype)
    decreases |a|
  {
    if a == [] {
      assert a + b == b;
    } else {
      hide ExtractMatching;
      var rest := a[1..];
      assert a == [a[0]] + rest && a + b == [a[0]] + (rest + b);
      MatchingJoinFirst(a[0], rest + b, qtype);
      MatchingJoinFirst(a[0], rest, qtype);
      MatchingJoin(rest, b, qtype);
      Associate(if a[0].rtype == qtype then [a[0]] else [], ExtractMatching(rest, qtype), ExtractMatching(b, qtype));
    }
  }

  lemma {:induction false} MatchingOne(rr: RR, qtype: u16)
    ensures ExtractMatching([rr], qtype) == if rr.rtype == qtype then [rr] else []
  {
    assert [rr][1..] == [];
  }

  /** The records picked are those at these places, and these are all places of the asked type. */
  ghost predicate Picks(rrs: seq<RR>, qtype: u16, picked: seq<RR>, places: seq<nat>) {
    && Increasing(places, |rrs|) && |places| == |picked|
    && (forall i :: 0 <= i < |places| ==> picked[i] == rrs[places[i]] && picked[i].rtype == qtype)
    && (forall j: nat :: j < |rrs| && rrs[j].rtype == qtype ==> j in places)
  }

  lemma {:induction false} PicksOneMore(front: seq<RR>, last: RR, qtype: u16, picked: seq<RR>, places: seq<nat>)
    requires Picks(front, qtype, picked, places)
    ensures last.rtype == qtype ==> Picks(front + [last], qtype, picked + [last], places + [|front|])
    ensures last.rtype != qtype ==> Picks(front + [last], qtype, picked, places)
  {
    var rrs := front + [last];
    assert forall j: nat :: j < |front| ==> rrs[j] == front[j];
    assert |front| in places + [|front|];
  }

  /** All records of the asked type and no others, each as often as it stands there, in order. */
  lemma {:induction false} MatchingExactly(rrs: seq<RR>, qtype: u16) returns (places: seq<nat>)
    ensures Picks(rrs, qtype, ExtractMatching(rrs, qtype), places)
    decreases |rrs|
  {
    hide Picks, ExtractMatching;
    if rrs == [] {
      places := [];
      PicksNone(qtype);
    } else {
      var front, last := rrs[..|rrs| - 1], rrs[|rrs| - 1];
      places := MatchingExactly(front, qtype);
      places := MatchingNext(front, last, qtype, places);
      assert rrs == front + [last];
    }
  }

  lemma {:induction false} PicksNone(qtype: u16)
    ensures Picks([], qtype, ExtractMatching([], qtype), [])
  {
  }

  lemma {:induction false} MatchingNext(front: seq<RR>, last: RR, qtype: u16, places: seq<nat>)
    returns (all: seq<nat>)
    requires Picks(front, qtype, ExtractMatching(front, qtype), places)
    ensures Picks(front + [last], qtype, ExtractMatching(front + [last], qtype), all)
  {
    hide Picks, ExtractMatching;
    MatchingJoin(front, [last], qtype);
    MatchingOne(last, qtype);
    PicksOneMore(front, last, qtype, ExtractMatching(front, qtype), places);
    if last.rtype == qtype {
      all := places + [|front|];
    } else {
      all := places;
      assert ExtractMatching(front, qtype) + [] == ExtractMatching(front, qtype);
    }
  }

  lemma {:induction false} NsNamesJoinFirst(rr: RR, rest: seq<RR>)
    ensures NsNames([rr] + rest) == (if rr.rdata.NS? then [rr.rdata.name] else []) + NsNames(rest)
  {
    assert ([rr] + rest)[1..] == rest;
  }

  lemma {:induction false} NsNamesJoin(a: seq<RR>, b: seq<RR>)
    ensures NsNames(a + b) == NsNames(a) + NsNames(b)
    decreases |a|
  {
    if a == [] {
      assert a + b == b;
    } else {
      hide NsNames;
      var rest := a[1..];
      assert a == [a[0]] + rest && a + b == [a[0]] + (rest + b);
      NsNamesJoinFirst(a[0], rest + b);
      NsNamesJoinFirst(a[0], rest);
      NsNamesJoin(rest, b);
      Associate(if a[0].rdata.NS? then [a[0].rdata.name] else [], NsNames(rest), NsNames(b));
    }
  }

  /** Every NS record gives its name, at its place, and no other record gives anything. */
  lemma {:induction false} NsNamesExactly(before: seq<RR>, rr: RR, after: seq<RR>)
    ensures NsNames([]) == []
    ensures NsNames(before + [rr] + after)
            == NsNames(before) + (if rr.rdata.NS? then [rr.rdata.name] else []) + NsNames(after)
  {
    NsNamesJoin(before + [rr], after);
    NsNamesJoin(before, [rr]);
    assert [rr][1..] == [];
  }

  lemma {:induction false} AddressesJoinFirst(rr: RR, rest: seq<RR>, name: Text)
    ensures Addresses([rr] + rest, name) == (if rr.rdata.A? then [(name, rr.rdata.ip)] else []) + Addresses(rest, name)
  {
    assert ([rr] + rest)[1..] == rest;
  }

  lemma {:induction false} AddressesJoin(a: seq<RR>, b: seq<RR>, name: Text)
    ensures Addresses(a + b, name) == Addresses(a, name) + Addresses(b, name)
    decreases |a|
  {
    if a == [] {
      assert a + b == b;
    } else {
      hide Addresses;
      var rest := a[1..];
      assert a == [a[0]] + rest && a + b == [a[0]] + (rest + b);
      AddressesJoinFirst(a[0], rest + b, name);
      AddressesJoinFirst(a[0], rest, name);
      AddressesJoin(rest, b, name);
      Associate(if a[0].rdata.A? then [(name, a[0].rdata.ip)] else [], Addresses(rest, name), Addresses(b, name));
    }
  }

  /** Every A record gives its address under the name, at its place, and no other record gives anything. */
  lemma {:induction false} AddressesExactly(before: seq<RR>, rr: RR, after: seq<RR>, name: Text)
    ensures Addresses([], name) == []
    ensures Addresses(before + [rr] + after, name)
            == Addresses(before, name) + (if rr.rdata.A? then [(name, rr.rdata.ip)] else []) + Addresses(after, name)
  {
    AddressesJoin(before + [rr], after, name);
    AddressesJoin(before, [rr], name);
    assert [rr][1..] == [];
  }

  /** The first CNAME, if there is one. */
  lemma {:induction false} FirstCname(rrs: seq<RR>, i: nat)
    requires i < |rrs| && rrs[i].rdata.CNAME? && forall j :: 0 <= j < i ==> !rrs[j].rdata.CNAME?
    ensures FindCname(rrs) == Some(rrs[i])
    decreases i
  {
    if i > 0 {
      FirstCname(rrs[1..], i - 1);
    }
  }

  /** Glue is the first address given for a name; there is none exactly without such a record. */
  lemma {:induction false} GlueExactly(rrs: seq<RR>, name: Text)
    ensures Glue(rrs, name).None? ==> forall i :: 0 <= i < |rrs| ==> !(rrs[i].rdata.A? && rrs[i].name == name)
    ensures Glue(rrs, name).Some? ==>
              exists i :: 0 <= i < |rrs| && rrs[i].rdata == RData.A(Glue(rrs, name).value) && rrs[i].name == name
                          && forall j :: 0 <= j < i ==> !(rrs[j].rdata.A? && rrs[j].name == name)
    decreases |rrs|
  {
    if rrs != [] && !(rrs[0].rdata.A? && rrs[0].name == name) {
      GlueExactly(rrs[1..], name);
      if Glue(rrs, name).Some? {
        var i :| 0 <= i < |rrs[1..]| && rrs[1..][i].rdata == RData.A(Glue(rrs, name).value) && rrs[1..][i].name == name
                 && forall j :: 0 <= j < i ==> !(rrs[1..][j].rdata.A? && rrs[1..][j].name == name);
        assert rrs[i + 1] == rrs[1..][i];
        forall j | 0 <= j < i + 1 ensures !(rrs[j].rdata.A? && rrs[j].name == name) {
          if j > 0 {
            assert rrs[j] == rrs[1..][j - 1];
          }
        }
      }
    }
  }

  /** An SOA is told by the type number alone, whatever its data are. */
  lemma {:induction false} SoaByNumber(before: seq<RR>, rr: RR, after: seq<RR>)
    ensures HasSoa(before + [rr] + after) <==> rr.rtype == 6 || HasSoa(before) || HasSoa(after)
    ensures !HasSoa([])
  {
    hide HasSoa;
    SoaInEither(before + [rr], after);
    SoaInEither(before, [rr]);
    SoaAlone(rr);
  }

  lemma {:induction false} SoaInEither(a: seq<RR>, b: seq<RR>)
    ensures HasSoa(a + b) <==> HasSoa(a) || HasSoa(b)
  {
    var all := a + b;
    if HasSoa(a) {
      var i :| 0 <= i < |a| && a[i].rtype == TYPE_SOA;
      assert all[i].rtype == TYPE_SOA;
    }
    if HasSoa(b) {
      var i :| 0 <= i < |b| && b[i].rtype == TYPE_SOA;
      assert all[|a| + i].rtype == TYPE_SOA;
    }
  }

  lemma {:induction false} SoaAlone(rr: RR)
    ensures (HasSoa([rr]) <==> rr.rtype == 6) && !HasSoa([])
  {
    assert [rr][0] == rr;
  }

  /** The minimum of the first SOA; a minute without one. */
  lemma {:induction false} SoaMinimumExactly(rrs: seq<RR>, i: nat)
    requires i <= |rrs| && forall j :: 0 <= j < i ==> !rrs[j].rdata.SOA?
    ensures i == |rrs| ==> SoaMinimum(rrs) == 60
    ensures i < |rrs| && rrs[i].rdata.SOA? ==> SoaMinimum(rrs) == rrs[i].rdata.minimum
    decreases i
  {
    if i > 0 {
      SoaMinimumExactly(rrs[1..], i - 1);
    }
  }

  predicate HasSoa(rrs: seq<RR>) {
    exists i :: 0 <= i < |rrs| && rrs[i].rtype == TYPE_SOA
  }

  function SoaMinimum(rrs: seq<RR>): u32 {
    if rrs == [] then 60 else if rrs[0].rdata.SOA? then rrs[0].rdata.minimum else SoaMinimum(rrs[1..])
  }

  function Join(pieces: seq<Text>, separator: byte): Text {
    if pieces == [] then []
    else if |pieces| == 1 then pieces[0]
    else pieces[0] + [separator] + Join(pieces[1..], separator)
  }

  function ServerNames(servers: seq<Server>): (names: seq<Text>)
    ensures |names| == |servers| && forall i :: 0 <= i < |names| ==> names[i] == servers[i].0
  {
    seq(|servers|, i requires 0 <= i < |servers| => servers[i].0)
  }

  // ---- What is promised --------------------------------------------------------------------------

  /** No reply names more than `n` name servers. */
  ghost predicate Bounded(network: Network, n: nat) {
    forall k, ip, name, t :: network(k, ip, name, t).Some? ==> |NsNames(network(k, ip, name, t).value.authorities)| <= n
  }

  /** The first CNAME of every reply is owned by the name that was asked. */
  ghost predicate Honest(network: Network) {
    forall k, ip, name, t :: network(k, ip, name, t).Some? ==>
      var c := FindCname(network(k, ip, name, t).value.answers); c.Some? ==> c.value.name == name
  }

  /** Nested resolutions still allowed below a depth. */
  function DepthLeft(depth: nat): nat {
    if depth >= MAX_GLUE_DEPTH then 0 else MAX_GLUE_DEPTH - depth
  }

  /** Upstream rounds of one iteration at a depth, its referral included. */
  function RoundsPerIteration(depth: nat, n: nat): nat
    decreases DepthLeft(depth), 0
  {
    if depth >= MAX_GLUE_DEPTH then 1 else 1 + n * MaxRounds(depth + 1, n)
  }

  /** R(3) = 30 and R(d) = 30 (1 + n R(d + 1)). */
  function MaxRounds(depth: nat, n: nat): nat
    decreases DepthLeft(depth), 1
  {
    MAX_ITERATIONS * RoundsPerIteration(depth, n)
  }

  /** What the resolver looks at: an NXDOMAIN reply counts as having no answers. */
  function ReplyOf(m: Message): Reply {
    Reply(if m.header.Rcode() == RCODE_NXDOMAIN then [] else m.answers, m.authorities, m.additionals)
  }

  /** Response code 3 is in the lowest four bits of the flags; it empties the answers and nothing else. */
  lemma {:induction false} NxdomainHasNoAnswers(m: Message)
    ensures ReplyOf(m).authorities == m.authorities && ReplyOf(m).additionals == m.additionals
    ensures m.header.flags % 16 == 3 ==> ReplyOf(m).answers == []
    ensures m.header.flags % 16 != 3 ==> ReplyOf(m).answers == m.answers
  {
  }

  /** Every record of a message is put into the cache, section by section. */
  ghost predicate Puts(log: seq<Put>, log': seq<Put>, m: Message) {
    var rrs := m.answers + m.authorities + m.additionals;
    && |log'| == |log| + |rrs| && log'[..|log|] == log
    && forall i :: 0 <= i < |rrs| ==> log'[|log| + i].rr == rrs[i]
  }

  /** Query `first + i` went to server `i` and got no reply. */
  ghost predicate Silent(network: Network, first: nat, name: Text, qtype: u16, servers: seq<Server>, i: nat)
    requires i < |servers|
  {
    network(first + i, servers[i].1, name, qtype).None?
  }

  /** Server `i` replied, the ones before it were silent, and nobody was asked after it. */
  ghost predicate AnswersAt(network: Network, first: nat, next: nat, name: Text, qtype: u16, servers: seq<Server>,
                            r: Reply, log: seq<Put>, log': seq<Put>, i: nat) {
    && i < |servers| && next == first + i + 1
    && (forall j :: 0 <= j < i ==> Silent(network, first, name, qtype, servers, j))
    && var reply := network(first + i, servers[i].1, name, qtype);
       reply.Some? && r == ReplyOf(reply.value) && Puts(log, log', reply.value)
  }

  /** The first server that replies decides the result and what is cached; without one nothing is. */
  ghost predicate FirstAnswer(network: Network, first: nat, next: nat, name: Text, qtype: u16, servers: seq<Server>,
                              r: Option<Reply>, log: seq<Put>, log': seq<Put>) {
    match r
    case None =>
      && next == first + |servers| && log' == log
      && forall j :: 0 <= j < |servers| ==> Silent(network, first, name, qtype, servers, j)
    case Some(reply) => exists i: nat :: AnswersAt(network, first, next, name, qtype, servers, reply, log, log', i)
  }

  // ---- Where records come from -------------------------------------------------------------------

  predicate InReply(network: Network, k: nat, ip: Ip4, name: Text, qtype: u16, rr: RR) {
    var reply := network(k, ip, name, qtype);
    reply.Some? && rr in reply.value.answers + reply.value.authorities + reply.value.additionals
  }

  ghost predicate Received(network: Network, rr: RR) {
    exists k, ip, name, qtype :: InReply(network, k, ip, name, qtype, rr)
  }

  /** The cache only grows, and only by records of replies. */
  ghost predicate FedBy(network: Network, log: seq<Put>, log': seq<Put>) {
    && |log| <= |log'| && log'[..|log|] == log
    && forall i :: |log| <= i < |log'| ==> Received(network, log'[i].rr)
  }

  /** The record was put under its name in some spelling, with this data and this lifetime. */
  predicate PutAt(log: seq<Put>, j: nat, rr: RR) {
    j < |log| && Concerns(log[j], KeyOf(rr), rr.rdata) && log[j].rr.ttl == rr.ttl
  }

  ghost predicate WasPut(log: seq<Put>, rr: RR) {
    exists j: nat :: PutAt(log, j, rr)
  }

  ghost predicate Recorded(log: seq<Put>, rrs: seq<RR>) {
    forall rr :: rr in rrs ==> WasPut(log, rr)
  }

  lemma {:induction false} FedTwice(network: Network, a: seq<Put>, b: seq<Put>, c: seq<Put>)
    requires FedBy(network, a, b) && FedBy(network, b, c)
    ensures FedBy(network, a, c)
  {
    hide Received;
    assert c[..|a|] == b[..|a|];
    forall i | |a| <= i < |c| ensures Received(network, c[i].rr) {
      if i < |b| {
        assert c[i] == b[i];
      }
    }
  }

  lemma {:induction false} FedNothing(network: Network, log: seq<Put>)
    ensures FedBy(network, log, log) && Recorded(log, [])
  {
    assert log[..|log|] == log;
  }

  lemma {:induction false} StillRecorded(network: Network, log: seq<Put>, log': seq<Put>, rrs: seq<RR>)
    requires FedBy(network, log, log') && Recorded(log, rrs)
    ensures Recorded(log', rrs)
  {
    hide Received, Concerns;
    forall rr | rr in rrs ensures WasPut(log', rr) {
      var j: nat :| PutAt(log, j, rr);
      assert log'[j] == log[j];
      assert PutAt(log', j, rr);
    }
  }

  lemma {:induction false} BothRecorded(log: seq<Put>, a: seq<RR>, b: seq<RR>)
    requires Recorded(log, a) && Recorded(log, b)
    ensures Recorded(log, a + b)
  {
  }

  lemma {:induction false} PartRecorded(log: seq<Put>, rrs: seq<RR>, part: seq<RR>)
    requires Recorded(log, rrs) && forall rr :: rr in part ==> rr in rrs
    ensures Recorded(log, part)
  {
  }

  lemma {:induction false} LastPutIsInLog(log: seq<Put>, key: Key, d: RData) returns (j: nat)
    requires LastPut(log, key, d).Some?
    ensures j < |log| && LastPut(log, key, d).value == log[j] && Concerns(log[j], key, d)
  {
    var last := |log| - 1;
    if Concerns(log[last], key, d) {
      j := last;
    } else {
      j := LastPutIsInLog(log[..last], key, d);
    }
  }

  /** What the cache returns was put into it. */
  lemma {:induction false} CachedRecorded(log: seq<Put>, key: Key, now: Time, rrs: seq<RR>)
    requires Answers(log, key, now, Some(rrs))
    ensures Recorded(log, rrs)
  {
    hide Alive, LastPut, Concerns;
    forall rr | rr in rrs ensures WasPut(log, rr) {
      var i :| 0 <= i < |rrs| && rrs[i] == rr;
      assert KeyOf(rrs[i]) == key;
      var j := LastPutIsInLog(log, key, rr.rdata);
      assert PutAt(log, j, rr);
    }
  }

  /** A reply that is put feeds the cache, and its answers are then recorded. */
  lemma {:induction false} ReplyRecorded(network: Network, k: nat, ip: Ip4, name: Text, qtype: u16,
                                         log: seq<Put>, log': seq<Put>)
    requires var reply := network(k, ip, name, qtype); reply.Some? && Puts(log, log', reply.value)
    ensures FedBy(network, log, log') && Recorded(log', network(k, ip, name, qtype).value.answers)
  {
    var m := network(k, ip, name, qtype).value;
    var rrs := m.answers + m.authorities + m.additionals;
    forall i | |log| <= i < |log'| ensures Received(network, log'[i].rr) {
      assert log'[|log| + (i - |log|)].rr == rrs[i - |log|];
      assert InReply(network, k, ip, name, qtype, log'[i].rr);
    }
    forall rr | rr in m.answers ensures WasPut(log', rr) {
      var i :| 0 <= i < |m.answers| && m.answers[i] == rr;
      assert rrs[i] == rr;
      assert PutAt(log', |log| + i, rr);
    }
  }

  // ---- What the cache says -------------------------------------------------------------------------

  ghost predicate Extends(log: seq<Put>, log': seq<Put>) {
    |log| <= |log'| && log'[..|log|] == log
  }

  lemma {:induction false} FedExtends(network: Network, log: seq<Put>, log': seq<Put>)
    requires FedBy(network, log, log')
    ensures Extends(log, log')
  {
    hide Received;
  }

  /** The cache gave this answer when its log had `n` puts. */
  ghost predicate CacheSaidAt(log: seq<Put>, key: Key, answer: Option<seq<RR>>, n: nat, now: Time) {
    n <= |log| && Answers(log[..n], key, now, answer)
  }

  ghost predicate CacheSaid(log: seq<Put>, key: Key, answer: Option<seq<RR>>) {
    exists n: nat, now: Time :: CacheSaidAt(log, key, answer, n, now)
  }

  lemma {:induction false} CacheSays(log: seq<Put>, key: Key, answer: Option<seq<RR>>, now: Time)
    requires Answers(log, key, now, answer)
    ensures CacheSaid(log, key, answer)
  {
    hide Answers;
    assert log[..|log|] == log;
    assert CacheSaidAt(log, key, answer, |log|, now);
  }

  lemma {:induction false} StillSaid(log: seq<Put>, log': seq<Put>, key: Key, answer: Option<seq<RR>>)
    requires Extends(log, log') && CacheSaid(log, key, answer)
    ensures CacheSaid(log', key, answer)
  {
    hide Answers;
    var n: nat, now: Time :| CacheSaidAt(log, key, answer, n, now);
    assert log'[..n] == log[..n];
    assert CacheSaidAt(log', key, answer, n, now);
  }

  function KeyFor(name: Text, qtype: u16): Key {
    Key(Lower(name), qtype, CLASS_IN)
  }

  function OrNone(answer: Option<seq<RR>>): seq<RR> {
    if answer.Some? then answer.value else []
  }

  // ---- Servers the cache knows -----------------------------------------------------------------------

  /** An NS record brings the cached addresses of its server; any other record brings nothing. */
  ghost predicate NsGives(log: seq<Put>, rr: RR, servers: seq<Server>) {
    if rr.rdata.NS? then
      exists a :: CacheSaid(log, KeyFor(rr.rdata.name, TYPE_A), a) && servers == Addresses(OrNone(a), rr.rdata.name)
    else servers == []
  }

  ghost predicate NsGive(log: seq<Put>, rrs: seq<RR>, servers: seq<Server>)
    decreases |rrs|
  {
    if rrs == [] then servers == []
    else
      var rest, last := rrs[..|rrs| - 1], rrs[|rrs| - 1];
      exists cut :: 0 <= cut <= |servers| && NsGive(log, rest, servers[..cut]) && NsGives(log, last, servers[cut..])
  }

  /** The servers of a zone: those of its cached NS records, in order. */
  ghost predicate ZoneGives(log: seq<Put>, zone: Text, servers: seq<Server>) {
    exists ns :: CacheSaid(log, KeyFor(zone, TYPE_NS), ns) && NsGive(log, OrNone(ns), servers)
  }

  function ZoneCount(name: Text): nat {
    |Split(TrimDots(name))| + 1
  }

  /** The zones tried for a name, longest first: every one but the root ends in two dots. */
  function ZoneAt(name: Text, i: nat): Text
    requires i < ZoneCount(name)
  {
    var labels := Split(TrimDots(name));
    if i == |labels| then [DOT] else Join(labels[i..], DOT) + [DOT, DOT]
  }

  /** The first zone that has servers decides; none has any exactly when there is no result. */
  ghost predicate ZoneDecides(log: seq<Put>, name: Text, servers: seq<Server>, i: nat) {
    && i < ZoneCount(name) && servers != [] && ZoneGives(log, ZoneAt(name, i), servers)
    && forall j :: 0 <= j < i ==> ZoneGives(log, ZoneAt(name, j), [])
  }

  ghost predicate ZoneServers(log: seq<Put>, name: Text, servers: Option<seq<Server>>) {
    match servers
    case None => forall i :: 0 <= i < ZoneCount(name) ==> ZoneGives(log, ZoneAt(name, i), [])
    case Some(s) => exists i: nat :: ZoneDecides(log, name, s, i)
  }

  lemma {:induction false} OneMoreNs(log: seq<Put>, rrs: seq<RR>, rr: RR, servers: seq<Server>, more: seq<Server>)
    requires NsGive(log, rrs, servers) && NsGives(log, rr, more)
    ensures NsGive(log, rrs + [rr], servers + more)
  {
    hide NsGives;
    var longer, all := rrs + [rr], servers + more;
    assert longer[..|longer| - 1] == rrs;
    assert all[..|servers|] == servers && all[|servers|..] == more;
  }

  lemma {:induction false} JoinLast(pieces: seq<Text>, separator: byte)
    requires pieces != []
    ensures Join(pieces + [[]], separator) == Join(pieces, separator) + [separator]
    decreases |pieces|
  {
    var all := pieces + [[]];
    assert all[0] == pieces[0] && all[1..] == pieces[1..] + [[]];
    if |pieces| == 1 {
      assert pieces[1..] + [[]] == [[]];
    } else {
      JoinLast(pieces[1..], separator);
      Associate(pieces[0] + [separator], Join(pieces[1..], separator), [separator]);
    }
  }

  /** Joining two lists puts one separator between them. */
  lemma {:induction false} JoinExactly(a: seq<Text>, b: seq<Text>, separator: byte)
    requires a != [] && b != []
    ensures Join(a + b, separator) == Join(a, separator) + [separator] + Join(b, separator)
    ensures |a| == 1 ==> Join(a, separator) == a[0]
    decreases |a|
  {
    assert (a + b)[0] == a[0] && (a + b)[1..] == a[1..] + b;
    if |a| == 1 {
      assert a[1..] + b == b;
    } else {
      JoinExactly(a[1..], b, separator);
      Associate(a[0] + [separator], Join(a[1..], separator), [separator]);
      Associate(a[0] + [separator], Join(a[1..], separator) + [separator], Join(b, separator));
    }
  }

  /** The zone strings as the program builds them. */
  lemma {:induction false} ZoneString(name: Text, i: nat)
    requires i < ZoneCount(name)
    ensures var labels := Split(TrimDots(name)) + [[]];
            (if i == |labels| - 1 then [DOT] else Join(labels[i..], DOT) + [DOT]) == ZoneAt(name, i)
  {
    hide Join, Split;
    var pieces := Split(TrimDots(name));
    var labels := pieces + [[]];
    if i < |pieces| {
      assert labels[i..] == pieces[i..] + [[]];
      JoinLast(pieces[i..], DOT);
      assert Join(pieces[i..], DOT) + [DOT] + [DOT] == Join(pieces[i..], DOT) + [DOT, DOT];
    }
  }

  lemma {:induction false} StillNsGives(log: seq<Put>, log': seq<Put>, rr: RR, servers: seq<Server>)
    requires Extends(log, log') && NsGives(log, rr, servers)
    ensures NsGives(log', rr, servers)
  {
    hide CacheSaid, Addresses, Extends;
    if rr.rdata.NS? {
      var a :| CacheSaid(log, KeyFor(rr.rdata.name, TYPE_A), a) && servers == Addresses(OrNone(a), rr.rdata.name);
      StillSaid(log, log', KeyFor(rr.rdata.name, TYPE_A), a);
    }
  }

  lemma {:induction false} StillNsGive(log: seq<Put>, log': seq<Put>, rrs: seq<RR>, servers: seq<Server>)
    requires Extends(log, log') && NsGive(log, rrs, servers)
    ensures NsGive(log', rrs, servers)
    decreases |rrs|
  {
    hide NsGives, Extends;
    if rrs != [] {
      var rest, last := rrs[..|rrs| - 1], rrs[|rrs| - 1];
      var cut :| 0 <= cut <= |servers| && NsGive(log, rest, servers[..cut]) && NsGives(log, last, servers[cut..]);
      StillNsGive(log, log', rest, servers[..cut]);
      StillNsGives(log, log', last, servers[cut..]);
    }
  }

  lemma {:induction false} StillZoneGives(log: seq<Put>, log': seq<Put>, zone: Text, servers: seq<Server>)
    requires Extends(log, log') && ZoneGives(log, zone, servers)
    ensures ZoneGives(log', zone, servers)
  {
    hide CacheSaid, NsGive, Extends;
    var ns :| CacheSaid(log, KeyFor(zone, TYPE_NS), ns) && NsGive(log, OrNone(ns), servers);
    StillSaid(log, log', KeyFor(zone, TYPE_NS), ns);
    StillNsGive(log, log', OrNone(ns), servers);
  }

  lemma {:induction false} StillZoneServers(log: seq<Put>, log': seq<Put>, name: Text, servers: Option<seq<Server>>)
    requires Extends(log, log') && ZoneServers(log, name, servers)
    ensures ZoneServers(log', name, servers)
  {
    hide ZoneGives, ZoneCount, ZoneAt, Extends;
    if servers.None? {
      forall i | 0 <= i < ZoneCount(name) ensures ZoneGives(log', ZoneAt(name, i), []) {
        StillZoneGives(log, log', ZoneAt(name, i), []);
      }
    } else {
      var i: nat :| ZoneDecides(log, name, servers.value, i);
      StillZoneGives(log, log', ZoneAt(name, i), servers.value);
      forall j | 0 <= j < i ensures ZoneGives(log', ZoneAt(name, j), []) {
        StillZoneGives(log, log', ZoneAt(name, j), []);
      }
      assert ZoneDecides(log', name, servers.value, i);
    }
  }

  // ---- Turns -----------------------------------------------------------------------------------------

  /** One turn of a resolution: what the cache said or the network replied, and what came of it. */
  datatype Turn =
    | Cached(rrs: seq<RR>)
    | Silence
    | Final(reply: Reply, rrs: seq<RR>)
    | Alias(reply: Reply, rr: RR, next: Option<seq<Server>>)
    | TooMany(reply: Reply)
    | Bare(reply: Reply)
    | Referral(reply: Reply, servers: seq<Server>)
    | DeadEnd(reply: Reply, servers: seq<Server>)
    | Denial(reply: Reply)
    | Useless(reply: Reply)

  /** The resolution goes on: servers were named, or a CNAME leads to a name with known servers. */
  predicate Continues(turn: Turn) {
    turn.Referral? || (turn.Alias? && turn.next.Some?)
  }

  /** The CNAMEs followed. */
  function ChainOf(turns: seq<Turn>): seq<RR> {
    if turns == [] then []
    else
      var last := turns[|turns| - 1];
      ChainOf(turns[..|turns| - 1]) + if last.Alias? then [last.rr] else []
  }

  function ServerKey(servers: seq<Server>): Text {
    Join(ServerNames(servers), 0x2C)
  }

  /** The referrals taken, by the names of their servers. */
  function VisitedOf(turns: seq<Turn>): set<Text> {
    if turns == [] then {}
    else
      var last := turns[|turns| - 1];
      VisitedOf(turns[..|turns| - 1]) + if last.Referral? then {ServerKey(last.servers)} else {}
  }

  /** The servers to ask next. */
  function AskedBy(roots: seq<Server>, turns: seq<Turn>): seq<Server> {
    if turns == [] then roots
    else
      var last := turns[|turns| - 1];
      if last.Referral? then last.servers
      else if last.Alias? && last.next.Some? then last.next.value
      else AskedBy(roots, turns[..|turns| - 1])
  }

  ghost predicate ReplyAt(
    network: Network, first: nat, name: Text, qtype: u16, servers: seq<Server>, reply: Reply, i: nat) {
    && i < |servers| && (forall j :: 0 <= j < i ==> Silent(network, first, name, qtype, servers, j))
    && var m := network(first + i, servers[i].1, name, qtype); m.Some? && reply == ReplyOf(m.value)
  }

  /** The first server that replied gave this reply. */
  ghost predicate ReplyGiven(network: Network, name: Text, qtype: u16, servers: seq<Server>, reply: Reply) {
    exists first: nat, i: nat :: ReplyAt(network, first, name, qtype, servers, reply, i)
  }

  ghost predicate AllSilent(network: Network, first: nat, name: Text, qtype: u16, servers: seq<Server>) {
    forall j :: 0 <= j < |servers| ==> Silent(network, first, name, qtype, servers, j)
  }

  ghost predicate NobodyReplied(network: Network, name: Text, qtype: u16, servers: seq<Server>) {
    exists first: nat :: AllSilent(network, first, name, qtype, servers)
  }

  lemma {:induction false} ReplyOrSilence(
    network: Network, first: nat, next: nat, name: Text, qtype: u16, servers: seq<Server>, r: Option<Reply>,
    log: seq<Put>, log': seq<Put>)
    requires FirstAnswer(network, first, next, name, qtype, servers, r, log, log')
    ensures r.None? ==> NobodyReplied(network, name, qtype, servers)
    ensures r.Some? ==> ReplyGiven(network, name, qtype, servers, r.value)
  {
    hide Silent, Puts, ReplyOf;
    if r.None? {
      assert AllSilent(network, first, name, qtype, servers);
    } else {
      var i: nat :| AnswersAt(network, first, next, name, qtype, servers, r.value, log, log', i);
      assert ReplyAt(network, first, name, qtype, servers, r.value, i);
    }
  }

  /** What a reply with answers means: the records asked for, else a CNAME to follow, else nothing more. */
  ghost predicate AnswersMean(qtype: u16, before: seq<Turn>, turn: Turn, log: seq<Put>)
    requires !turn.Cached? && !turn.Silence?
  {
    var matching, cname := ExtractMatching(turn.reply.answers, qtype), FindCname(turn.reply.answers);
    if matching != [] then turn.Final? && turn.rrs == matching
    else if qtype == TYPE_CNAME || cname.None? then turn.Bare?
    else if |ChainOf(before)| >= 16 then turn.TooMany?
    else turn.Alias? && turn.rr == cname.value && ZoneServers(log, cname.value.rdata.name, turn.next)
  }

  /**
   * What one turn may be, given the turns before it.  The cache comes first; then the first reply
   * decides: by its answers, else by the servers it names, else by its SOA.
   */
  ghost predicate TurnFits(
    network: Network, name: Text, qtype: u16, roots: seq<Server>, before: seq<Turn>, turn: Turn, log: seq<Put>,
    depth: nat)
    decreases DepthLeft(depth), 3, 0
  {
    var current, servers := LeadsTo(name, ChainOf(before)), AskedBy(roots, before);
    if turn.Cached? then CacheSaid(log, KeyFor(current, qtype), Some(turn.rrs))
    else
      && CacheSaid(log, KeyFor(current, qtype), None)
      && if turn.Silence? then NobodyReplied(network, current, qtype, servers)
         else
           && ReplyGiven(network, current, qtype, servers, turn.reply)
           && if turn.reply.answers != [] then AnswersMean(qtype, before, turn, log)
              else if NsNames(turn.reply.authorities) != [] then
                && (turn.Referral? || turn.DeadEnd?)
                && FromNames(network, NsNames(turn.reply.authorities), turn.reply.additionals, turn.servers, log, depth)
                && (turn.Referral? <==> turn.servers != [] && ServerKey(turn.servers) !in VisitedOf(before))
              else if HasSoa(turn.reply.authorities) then turn.Denial?
              else turn.Useless?
  }

  /** A whole resolution: at most thirty turns; each but the last goes on, and the last only as the thirtieth. */
  ghost predicate Told(
    network: Network, name: Text, qtype: u16, roots: Option<seq<Server>>, turns: seq<Turn>, log: seq<Put>, depth: nat)
    decreases DepthLeft(depth), 4, 0
  {
    && ZoneServers(log, [DOT], roots) && (roots.None? <==> turns == []) && |turns| <= MAX_ITERATIONS
    && (forall i :: 0 <= i < |turns| ==>
          TurnFits(network, name, qtype, roots.value, turns[..i], turns[i], log, depth))
    && (forall i :: 0 <= i < |turns| - 1 ==> Continues(turns[i]))
    && (turns != [] && Continues(turns[|turns| - 1]) ==> |turns| == MAX_ITERATIONS)
  }

  /** What the turns come to. */
  function Verdict(turns: seq<Turn>): Outcome {
    if turns == [] then Err
    else
      var chain := ChainOf(turns[..|turns| - 1]);
      match turns[|turns| - 1]
      case Cached(rrs) => Ok(chain + rrs)
      case Final(_, rrs) => Ok(chain + rrs)
      case Bare(_) => Ok(chain)
      case Denial(_) => Ok([])
      case _ => Err
  }

  /** Why a resolution fails: exactly these ways. */
  predicate Fails(turns: seq<Turn>) {
    || turns == []
    || var last := turns[|turns| - 1];
       || last.Silence? || last.TooMany? || last.DeadEnd? || last.Useless?
       || (last.Alias? && last.next.None?)
       || (|turns| == 30 && Continues(last))
  }

  /**
   * A resolution fails exactly without servers for the root or for a CNAME's target, when nobody
   * replies, at the seventeenth CNAME, when a referral is empty or repeated, when a reply says
   * nothing useful, or when the thirtieth turn still goes on.
   */
  lemma {:induction false} FailsExactly(
    network: Network, name: Text, qtype: u16, roots: Option<seq<Server>>, turns: seq<Turn>, log: seq<Put>, depth: nat)
    requires Told(network, name, qtype, roots, turns, log, depth)
    ensures Verdict(turns).Err? <==> Fails(turns)
  {
    hide TurnFits, ZoneServers, ChainOf;
  }

  /** When the first reply to the last question holds records of the asked type, all of them are the answer. */
  lemma {:induction false} AnswerIsReturned(
    network: Network, name: Text, qtype: u16, roots: seq<Server>, before: seq<Turn>, turn: Turn, log: seq<Put>,
    depth: nat, j: nat)
    requires TurnFits(network, name, qtype, roots, before, turn, log, depth) && !turn.Cached? && !turn.Silence?
    requires j < |turn.reply.answers| && turn.reply.answers[j].rtype == qtype
    ensures turn.Final? && turn.rrs == ExtractMatching(turn.reply.answers, qtype) && turn.reply.answers[j] in turn.rrs
    ensures Verdict(before + [turn]) == Ok(ChainOf(before) + turn.rrs)
  {
    hide FromNames, ZoneServers, CacheSaid, ReplyGiven, ChainOf, ExtractMatching;
    var places := MatchingExactly(turn.reply.answers, qtype);
    var i :| 0 <= i < |places| && places[i] == j;
    assert ExtractMatching(turn.reply.answers, qtype)[i] == turn.reply.answers[j];
    TurnAdded(roots, before, turn);
  }

  // ---- The servers of a referral -------------------------------------------------------------------

  /** The outcome of resolving a server's own address. */
  ghost predicate Nested(network: Network, name: Text, servers: seq<Server>, log: seq<Put>, depth: nat)
    decreases DepthLeft(depth), 5, 0
  {
    exists roots, turns ::
      && Told(network, name, TYPE_A, roots, turns, log, depth)
      && servers == if Verdict(turns).Ok? then Addresses(Verdict(turns).rrs, name) else []
  }

  /**
   * The servers one name brings: its glue alone if there is some; otherwise the addresses the
   * cache holds for it; otherwise, while depth remains, those its resolution finds.
   */
  ghost predicate FromName(
    network: Network, name: Text, additionals: seq<RR>, servers: seq<Server>, log: seq<Put>, depth: nat)
    decreases DepthLeft(depth), 1, 0
  {
    var glue := Glue(additionals, name);
    if glue.Some? then servers == [(name, glue.value)]
    else
      || (exists rrs :: CacheSaid(log, KeyFor(name, TYPE_A), Some(rrs)) && servers == Addresses(rrs, name))
      || (&& CacheSaid(log, KeyFor(name, TYPE_A), None)
          && if depth >= MAX_GLUE_DEPTH then servers == [] else Nested(network, name, servers, log, depth + 1))
  }

  /** The servers of a referral: name after name, what each one brings. */
  ghost predicate FromNames(
    network: Network, names: seq<Text>, additionals: seq<RR>, servers: seq<Server>, log: seq<Put>, depth: nat)
    decreases DepthLeft(depth), 2, |names|
  {
    if names == [] then servers == []
    else
      var rest, last := names[..|names| - 1], names[|names| - 1];
      exists cut :: 0 <= cut <= |servers| && FromNames(network, rest, additionals, servers[..cut], log, depth)
                    && FromName(network, last, additionals, servers[cut..], log, depth)
  }

  lemma {:induction false} NoServers(network: Network, additionals: seq<RR>, log: seq<Put>, depth: nat)
    ensures FromNames(network, [], additionals, [], log, depth)
  {
  }

  lemma {:induction false} OneMoreName(
    network: Network, names: seq<Text>, name: Text, additionals: seq<RR>, servers: seq<Server>, more: seq<Server>,
    log: seq<Put>, depth: nat)
    requires FromNames(network, names, additionals, servers, log, depth)
    requires FromName(network, name, additionals, more, log, depth)
    ensures FromNames(network, names + [name], additionals, servers + more, log, depth)
  {
    hide FromName;
    var longer, all := names + [name], servers + more;
    assert longer[..|longer| - 1] == names;
    assert all[..|servers|] == servers && all[|servers|..] == more;
  }

  lemma {:induction false} StillFromName(
    network: Network, log: seq<Put>, log': seq<Put>, name: Text, additionals: seq<RR>, servers: seq<Server>, depth: nat)
    requires Extends(log, log') && FromName(network, name, additionals, servers, log, depth)
    ensures FromName(network, name, additionals, servers, log', depth)
    decreases DepthLeft(depth), 1, 0
  {
    hide Extends, CacheSaid, Told, Glue, Addresses, Verdict;
    if Glue(additionals, name).None? {
      if exists rrs :: CacheSaid(log, KeyFor(name, TYPE_A), Some(rrs)) && servers == Addresses(rrs, name) {
        var rrs :| CacheSaid(log, KeyFor(name, TYPE_A), Some(rrs)) && servers == Addresses(rrs, name);
        StillSaid(log, log', KeyFor(name, TYPE_A), Some(rrs));
      } else {
        StillSaid(log, log', KeyFor(name, TYPE_A), None);
        if depth < MAX_GLUE_DEPTH {
          var roots, turns :|
            && Told(network, name, TYPE_A, roots, turns, log, depth + 1)
            && servers == if Verdict(turns).Ok? then Addresses(Verdict(turns).rrs, name) else [];
          StillTold(network, log, log', name, TYPE_A, roots, turns, depth + 1);
        }
      }
    }
  }

  lemma {:induction false} StillFromNames(
    network: Network, log: seq<Put>, log': seq<Put>, names: seq<Text>, additionals: seq<RR>, servers: seq<Server>,
    depth: nat)
    requires Extends(log, log') && FromNames(network, names, additionals, servers, log, depth)
    ensures FromNames(network, names, additionals, servers, log', depth)
    decreases DepthLeft(depth), 2, |names|
  {
    hide Extends, FromName;
    if names != [] {
      var rest, last := names[..|names| - 1], names[|names| - 1];
      var cut :| 0 <= cut <= |servers| && FromNames(network, rest, additionals, servers[..cut], log, depth)
                 && FromName(network, last, additionals, servers[cut..], log, depth);
      StillFromNames(network, log, log', rest, additionals, servers[..cut], depth);
      StillFromName(network, log, log', last, additionals, servers[cut..], depth);
    }
  }

  lemma {:induction false} StillFits(
    network: Network, log: seq<Put>, log': seq<Put>, name: Text, qtype: u16, roots: seq<Server>, before: seq<Turn>,
    turn: Turn, depth: nat)
    requires Extends(log, log') && TurnFits(network, name, qtype, roots, before, turn, log, depth)
    ensures TurnFits(network, name, qtype, roots, before, turn, log', depth)
    decreases DepthLeft(depth), 3, 0
  {
    hide Extends, CacheSaid, FromNames, ZoneServers, ReplyGiven, NobodyReplied, NsNames, ExtractMatching, FindCname,
         HasSoa, ChainOf, VisitedOf, AskedBy, LeadsTo, ServerKey;
    var key := KeyFor(LeadsTo(name, ChainOf(before)), qtype);
    if turn.Cached? {
      StillSaid(log, log', key, Some(turn.rrs));
    } else {
      StillSaid(log, log', key, None);
      if turn.Alias? {
        StillZoneServers(log, log', turn.rr.rdata.name, turn.next);
      } else if turn.Referral? || turn.DeadEnd? {
        StillFromNames(network, log, log', NsNames(turn.reply.authorities), turn.reply.additionals, turn.servers,
                       depth);
      }
    }
  }

  lemma {:induction false} StillTold(
    network: Network, log: seq<Put>, log': seq<Put>, name: Text, qtype: u16, roots: Option<seq<Server>>,
    turns: seq<Turn>, depth: nat)
    requires Extends(log, log') && Told(network, name, qtype, roots, turns, log, depth)
    ensures Told(network, name, qtype, roots, turns, log', depth)
    decreases DepthLeft(depth), 4, 0
  {
    hide Extends, TurnFits, ZoneServers, Continues;
    StillZoneServers(log, log', [DOT], roots);
    forall i | 0 <= i < |turns|
      ensures TurnFits(network, name, qtype, roots.value, turns[..i], turns[i], log', depth)
    {
      StillFits(network, log, log', name, qtype, roots.value, turns[..i], turns[i], depth);
    }
  }

  // ---- Turn by turn ----------------------------------------------------------------------------------

  /** Turns so far, all of which go on. */
  ghost predicate Telling(
    network: Network, name: Text, qtype: u16, roots: seq<Server>, turns: seq<Turn>, log: seq<Put>, depth: nat) {
    && ZoneServers(log, [DOT], Some(roots)) && |turns| <= MAX_ITERATIONS
    && (forall i :: 0 <= i < |turns| ==> TurnFits(network, name, qtype, roots, turns[..i], turns[i], log, depth))
    && (forall i :: 0 <= i < |turns| ==> Continues(turns[i]))
  }

  lemma {:induction false} TellingStarts(
    network: Network, name: Text, qtype: u16, roots: Option<seq<Server>>, log: seq<Put>, depth: nat)
    requires ZoneServers(log, [DOT], roots)
    ensures roots.None? ==> Told(network, name, qtype, None, [], log, depth) && Verdict([]) == Err
    ensures roots.Some? ==> Telling(network, name, qtype, roots.value, [], log, depth)
    ensures ChainOf([]) == [] && VisitedOf([]) == {}
    ensures roots.Some? ==> AskedBy(roots.value, []) == roots.value
  {
    hide ZoneServers, TurnFits;
  }

  lemma {:induction false} TellingLater(
    network: Network, name: Text, qtype: u16, roots: seq<Server>, turns: seq<Turn>, log: seq<Put>, log': seq<Put>,
    depth: nat)
    requires Telling(network, name, qtype, roots, turns, log, depth) && Extends(log, log')
    ensures Telling(network, name, qtype, roots, turns, log', depth)
  {
    hide ZoneServers, TurnFits, Extends, Continues;
    StillZoneServers(log, log', [DOT], Some(roots));
    forall i | 0 <= i < |turns| ensures TurnFits(network, name, qtype, roots, turns[..i], turns[i], log', depth) {
      StillFits(network, log, log', name, qtype, roots, turns[..i], turns[i], depth);
    }
  }

  /** One more turn: the story goes on or is told. */
  lemma {:induction false} Tell(
    network: Network, name: Text, qtype: u16, roots: seq<Server>, turns: seq<Turn>, turn: Turn, log: seq<Put>,
    depth: nat)
    requires Telling(network, name, qtype, roots, turns, log, depth) && |turns| < MAX_ITERATIONS
    requires TurnFits(network, name, qtype, roots, turns, turn, log, depth)
    ensures Continues(turn) ==> Telling(network, name, qtype, roots, turns + [turn], log, depth)
    ensures !Continues(turn) ==> Told(network, name, qtype, Some(roots), turns + [turn], log, depth)
  {
    hide ZoneServers, TurnFits, Continues;
    var all := turns + [turn];
    forall i | 0 <= i < |all| ensures TurnFits(network, name, qtype, roots, all[..i], all[i], log, depth) {
      if i < |turns| {
        assert all[..i] == turns[..i];
      } else {
        assert all[..i] == turns;
      }
    }
  }

  lemma {:induction false} TurnAdded(roots: seq<Server>, turns: seq<Turn>, turn: Turn)
    ensures ChainOf(turns + [turn]) == ChainOf(turns) + if turn.Alias? then [turn.rr] else []
    ensures VisitedOf(turns + [turn]) == VisitedOf(turns) + if turn.Referral? then {ServerKey(turn.servers)} else {}
    ensures Continues(turn) ==>
              AskedBy(roots, turns + [turn]) == if turn.Referral? then turn.servers else turn.next.value
    ensures Verdict(turns + [turn]) == match turn
                                       case Cached(rrs) => Ok(ChainOf(turns) + rrs)
                                       case Final(_, rrs) => Ok(ChainOf(turns) + rrs)
                                       case Bare(_) => Ok(ChainOf(turns))
                                       case Denial(_) => Ok([])
                                       case _ => Err
  {
    hide ServerKey;
    assert (turns + [turn])[..|turns|] == turns;
  }

  /** After thirty turns that all go on it is over. */
  lemma {:induction false} ToldAtLast(
    network: Network, name: Text, qtype: u16, roots: seq<Server>, turns: seq<Turn>, log: seq<Put>, depth: nat)
    requires Telling(network, name, qtype, roots, turns, log, depth) && |turns| == MAX_ITERATIONS
    ensures Told(network, name, qtype, Some(roots), turns, log, depth) && Verdict(turns) == Err
    ensures Continues(turns[|turns| - 1])
  {
    hide ZoneServers, TurnFits;
    assert Continues(turns[|turns| - 1]);
  }

  // ---- Negative entries ------------------------------------------------------------------------------

  /** A reply without NS records but with an SOA of this minimum, to a question of this type. */
  predicate SoaIn(network: Network, k: nat, ip: Ip4, asked: Text, qtype: u16, ttl: u32) {
    var reply := network(k, ip, asked, qtype);
    && reply.Some? && HasSoa(reply.value.authorities) && NsNames(reply.value.authorities) == []
    && SoaMinimum(reply.value.authorities) == ttl
  }

  ghost predicate SoaReceived(network: Network, qtype: u16, ttl: u32) {
    exists k, ip, asked :: SoaIn(network, k, ip, asked, qtype, ttl)
  }

  predicate NsIn(network: Network, k: nat, ip: Ip4, asked: Text, qtype: u16, ns: Text) {
    var reply := network(k, ip, asked, qtype);
    reply.Some? && ns in NsNames(reply.value.authorities)
  }

  ghost predicate NsReceived(network: Network, ns: Text) {
    exists k, ip, asked, qtype :: NsIn(network, k, ip, asked, qtype, ns)
  }

  /**
   * Where a negative entry may come from while `name` is resolved: a reply with an SOA, for as
   * long as it says, and under the name that was asked for, even when a CNAME has led elsewhere;
   * or likewise under the name of a server met on the way.
   */
  ghost predicate NegativeOk(network: Network, name: Text, qtype: u16, e: Negative) {
    && SoaReceived(network, e.key.rtype, e.ttl)
    && (|| e.key == Key(Lower(name), qtype, CLASS_IN)
        || exists ns :: NsReceived(network, ns) && e.key == Key(Lower(ns), TYPE_A, CLASS_IN))
  }

  ghost predicate NegativesFed(network: Network, name: Text, qtype: u16, log: seq<Negative>, log': seq<Negative>) {
    && |log| <= |log'| && log'[..|log|] == log
    && forall i :: |log| <= i < |log'| ==> NegativeOk(network, name, qtype, log'[i])
  }

  lemma {:induction false} NoNegatives(network: Network, name: Text, qtype: u16, log: seq<Negative>)
    ensures NegativesFed(network, name, qtype, log, log)
  {
    hide NegativeOk;
    assert log[..|log|] == log;
  }

  lemma {:induction false} NegativesTwice(
    network: Network, name: Text, qtype: u16, a: seq<Negative>, b: seq<Negative>, c: seq<Negative>)
    requires NegativesFed(network, name, qtype, a, b) && NegativesFed(network, name, qtype, b, c)
    ensures NegativesFed(network, name, qtype, a, c)
  {
    hide NegativeOk;
    assert c[..|a|] == b[..|a|];
    forall i | |a| <= i < |c| ensures NegativeOk(network, name, qtype, c[i]) {
      if i < |b| {
        assert c[i] == b[i];
      }
    }
  }

  /** What resolving a server's name leaves behind is allowed for the name the server came up for. */
  lemma {:induction false} NestedNegatives(
    network: Network, name: Text, qtype: u16, ns: Text, log: seq<Negative>, log': seq<Negative>)
    requires NsReceived(network, ns) && NegativesFed(network, ns, TYPE_A, log, log')
    ensures NegativesFed(network, name, qtype, log, log')
  {
    hide NsReceived, SoaReceived;
    forall i | |log| <= i < |log'| ensures NegativeOk(network, name, qtype, log'[i]) {
      assert NegativeOk(network, ns, TYPE_A, log'[i]);
    }
  }

  lemma {:induction false} OneNegative(
    network: Network, name: Text, qtype: u16, log: seq<Negative>, e: Negative, k: nat, ip: Ip4, asked: Text)
    requires SoaIn(network, k, ip, asked, qtype, e.ttl) && e.key == Key(Lower(name), qtype, CLASS_IN)
    ensures NegativesFed(network, name, qtype, log, log + [e])
  {
    hide SoaIn;
    assert SoaReceived(network, e.key.rtype, e.ttl);
    assert NegativeOk(network, name, qtype, e);
    var longer := log + [e];
    assert longer[..|log|] == log;
  }

  // ---- The shape of a result ---------------------------------------------------------------------

  /** Record `i` is owned by the target of the record before it, the first one by `name`. */
  predicate LinkedAt(rrs: seq<RR>, i: nat, name: Text)
    requires i < |rrs| && (i > 0 ==> rrs[i - 1].rdata.CNAME?)
  {
    rrs[i].name == if i == 0 then name else rrs[i - 1].rdata.name
  }

  /** The first `c` records are CNAMEs; in a linked chain each is owned by the target of the one before. */
  ghost predicate CnameChain(rrs: seq<RR>, c: nat, name: Text, linked: bool) {
    && c <= |rrs|
    && (forall i :: 0 <= i < c ==> rrs[i].rdata.CNAME?)
    && (linked ==> forall i :: 0 <= i < c ==> LinkedAt(rrs, i, name))
  }

  /** At most sixteen CNAMEs, then only records of the type that was asked for. */
  ghost predicate WellShaped(rrs: seq<RR>, c: nat, name: Text, qtype: u16, linked: bool) {
    && c <= MAX_CNAME_DEPTH && CnameChain(rrs, c, name, linked)
    && forall i :: c <= i < |rrs| ==> rrs[i].rtype == qtype
  }

  ghost predicate Shaped(rrs: seq<RR>, name: Text, qtype: u16, linked: bool) {
    exists c: nat :: WellShaped(rrs, c, name, qtype, linked)
  }

  /** Where a chain leads: the target of its last record, or the name it started from. */
  function LeadsTo(name: Text, chain: seq<RR>): Text {
    if chain == [] || !chain[|chain| - 1].rdata.CNAME? then name else chain[|chain| - 1].rdata.name
  }

  lemma {:induction false} ExtendChain(chain: seq<RR>, rr: RR, name: Text, linked: bool)
    requires CnameChain(chain, |chain|, name, linked) && rr.rdata.CNAME?
    requires linked ==> rr.name == LeadsTo(name, chain)
    ensures CnameChain(chain + [rr], |chain| + 1, name, linked)
    ensures LeadsTo(name, chain + [rr]) == rr.rdata.name
  {
    var longer := chain + [rr];
    forall i | 0 <= i < |longer| && linked ensures LinkedAt(longer, i, name) {
      if i < |chain| {
        assert LinkedAt(chain, i, name);
      }
    }
  }

  lemma {:induction false} FinishChain(chain: seq<RR>, rrs: seq<RR>, name: Text, qtype: u16, linked: bool)
    requires CnameChain(chain, |chain|, name, linked) && |chain| <= MAX_CNAME_DEPTH
    requires forall i :: 0 <= i < |rrs| ==> rrs[i].rtype == qtype
    ensures Shaped(chain + rrs, name, qtype, linked)
  {
    var all := chain + rrs;
    forall i | 0 <= i < |chain| && linked ensures LinkedAt(all, i, name) {
      assert LinkedAt(chain, i, name);
    }
    assert WellShaped(all, |chain|, name, qtype, linked);
  }

  lemma {:induction false} EmptyShaped(name: Text, qtype: u16, linked: bool)
    ensures Shaped([], name, qtype, linked)
  {
    assert WellShaped([], 0, name, qtype, linked);
  }

  lemma {:induction false} CachedType(log: seq<Put>, key: Key, now: Time, rrs: seq<RR>)
    requires Answers(log, key, now, Some(rrs))
    ensures forall i :: 0 <= i < |rrs| ==> rrs[i].rtype == key.rtype
  {
    hide Alive, LastPut;
    forall i | 0 <= i < |rrs| ensures rrs[i].rtype == key.rtype {
      assert KeyOf(rrs[i]) == key;
    }
  }

  // ---- A resolution under way ----------------------------------------------------------------------

  /** What the loop keeps: a chain of recorded CNAMEs, and caches fed by replies only. */
  ghost predicate Going(
    network: Network, name: Text, qtype: u16, log0: seq<Put>, log: seq<Put>, neg0: seq<Negative>, neg: seq<Negative>,
    chain: seq<RR>) {
    && |chain| <= MAX_CNAME_DEPTH && CnameChain(chain, |chain|, name, Honest(network)) && Recorded(log, chain)
    && FedBy(network, log0, log) && NegativesFed(network, name, qtype, neg0, neg)
  }

  /** What a resolution promises. */
  ghost predicate Resolved(
    network: Network, name: Text, qtype: u16, log0: seq<Put>, log: seq<Put>, neg0: seq<Negative>, neg: seq<Negative>,
    r: Outcome) {
    && FedBy(network, log0, log) && NegativesFed(network, name, qtype, neg0, neg)
    && (r.Ok? ==> Shaped(r.rrs, name, qtype, Honest(network)) && Recorded(log, r.rrs))
  }

  lemma {:induction false} GoingStarts(network: Network, name: Text, qtype: u16, log: seq<Put>, neg: seq<Negative>)
    ensures Going(network, name, qtype, log, log, neg, neg, []) && LeadsTo(name, []) == name
    ensures Resolved(network, name, qtype, log, log, neg, neg, Err)
  {
    hide FedBy, NegativesFed, CnameChain, Recorded, Shaped;
    FedNothing(network, log);
    NoNegatives(network, name, qtype, neg);
    NoChain(name, Honest(network));
  }

  lemma {:induction false} GoingOn(
    network: Network, name: Text, qtype: u16, log0: seq<Put>, log: seq<Put>, log': seq<Put>,
    neg0: seq<Negative>, neg: seq<Negative>, neg': seq<Negative>, chain: seq<RR>)
    requires Going(network, name, qtype, log0, log, neg0, neg, chain)
    requires FedBy(network, log, log') && NegativesFed(network, name, qtype, neg, neg')
    ensures Going(network, name, qtype, log0, log', neg0, neg', chain)
    ensures Resolved(network, name, qtype, log0, log', neg0, neg', Err)
  {
    hide FedBy, NegativesFed, CnameChain, Recorded, Shaped;
    FedTwice(network, log0, log, log');
    NegativesTwice(network, name, qtype, neg0, neg, neg');
    StillRecorded(network, log, log', chain);
  }

  lemma {:induction false} GoingFails(
    network: Network, name: Text, qtype: u16, log0: seq<Put>, log: seq<Put>, neg0: seq<Negative>, neg: seq<Negative>,
    chain: seq<RR>)
    requires Going(network, name, qtype, log0, log, neg0, neg, chain)
    ensures Resolved(network, name, qtype, log0, log, neg0, neg, Err)
  {
    hide FedBy, NegativesFed, CnameChain, Recorded, Shaped;
  }

  lemma {:induction false} GoingEnds(
    network: Network, name: Text, qtype: u16, log0: seq<Put>, log: seq<Put>, neg0: seq<Negative>, neg: seq<Negative>,
    chain: seq<RR>, rrs: seq<RR>)
    requires Going(network, name, qtype, log0, log, neg0, neg, chain) && Recorded(log, rrs)
    requires forall i :: 0 <= i < |rrs| ==> rrs[i].rtype == qtype
    ensures Resolved(network, name, qtype, log0, log, neg0, neg, Ok(chain + rrs))
  {
    hide FedBy, NegativesFed, CnameChain, Recorded, Shaped;
    FinishChain(chain, rrs, name, qtype, Honest(network));
    BothRecorded(log, chain, rrs);
  }

  /** A resolution may end with nothing at all. */
  lemma {:induction false} GoingEmpty(
    network: Network, name: Text, qtype: u16, log0: seq<Put>, log: seq<Put>, neg0: seq<Negative>, neg: seq<Negative>,
    chain: seq<RR>)
    requires Going(network, name, qtype, log0, log, neg0, neg, chain)
    ensures Resolved(network, name, qtype, log0, log, neg0, neg, Ok([]))
    ensures Resolved(network, name, qtype, log0, log, neg0, neg, Ok(chain))
  {
    hide FedBy, NegativesFed, CnameChain, Shaped;
    EmptyShaped(name, qtype, Honest(network));
    GoingEnds(network, name, qtype, log0, log, neg0, neg, chain, []);
    assert chain + [] == chain;
  }

  /** A CNAME, in an honest network one owned by the current name, extends the chain. */
  lemma {:induction false} GoingAlias(
    network: Network, name: Text, qtype: u16, log0: seq<Put>, log: seq<Put>, neg0: seq<Negative>, neg: seq<Negative>,
    chain: seq<RR>, rr: RR)
    requires Going(network, name, qtype, log0, log, neg0, neg, chain) && |chain| < MAX_CNAME_DEPTH
    requires rr.rdata.CNAME? && Recorded(log, [rr]) && (Honest(network) ==> rr.name == LeadsTo(name, chain))
    ensures Going(network, name, qtype, log0, log, neg0, neg, chain + [rr])
    ensures LeadsTo(name, chain + [rr]) == rr.rdata.name
  {
    hide FedBy, NegativesFed, CnameChain, Recorded, LeadsTo;
    ExtendChain(chain, rr, name, Honest(network));
    BothRecorded(log, chain, [rr]);
  }

  /** Some record under the key is alive. */
  ghost predicate Hit(log: seq<Put>, key: Key, now: Time) {
    exists d :: Alive(log, key, d, now)
  }

  /** The latest negative entry under the key has not expired. */
  predicate Denied(log: seq<Negative>, key: Key, now: Time) {
    var e := LastNegative(log, key);
    e.Some? && now < Expiry(e.value.at, e.value.ttl)
  }

  lemma {:induction false} HitExactly(log: seq<Put>, key: Key, now: Time, result: Option<seq<RR>>)
    requires Answers(log, key, now, result)
    ensures result.Some? <==> Hit(log, key, now)
  {
    hide Alive, LastPut;
    if result.Some? {
      assert Among(result.value, result.value[0].rdata);
    }
  }

  lemma {:induction false} ErrorIsEmpty(
    network: Network, name: Text, qtype: u16, log0: seq<Put>, log: seq<Put>, neg0: seq<Negative>, neg: seq<Negative>,
    r: Outcome)
    requires Resolved(network, name, qtype, log0, log, neg0, neg, r)
    ensures Resolved(network, name, qtype, log0, log, neg0, neg, Ok(if r.Ok? then r.rrs else []))
  {
    hide FedBy, NegativesFed, Shaped;
    EmptyShaped(name, qtype, Honest(network));
  }

  lemma {:induction false} Named(network: Network, k: nat, ip: Ip4, asked: Text, qtype: u16, ns: Text)
    requires network(k, ip, asked, qtype).Some? && ns in NsNames(network(k, ip, asked, qtype).value.authorities)
    ensures NsReceived(network, ns)
  {
    hide NsNames;
    assert NsIn(network, k, ip, asked, qtype, ns);
  }

  /** The last negative entry is the one a denial writes: under the name asked for, for the SOA's minimum. */
  ghost predicate DenialNoted(name: Text, qtype: u16, reply: Reply, neg: seq<Negative>) {
    && neg != []
    && neg[|neg| - 1].key == KeyFor(name, qtype) && neg[|neg| - 1].ttl == SoaMinimum(reply.authorities)
  }

  /** What a turn brings was put into the cache, and is what was asked for. */
  ghost predicate Sound(network: Network, current: Text, qtype: u16, turn: Turn, log: seq<Put>) {
    match turn
    case Cached(rrs) => Recorded(log, rrs) && forall i :: 0 <= i < |rrs| ==> rrs[i].rtype == qtype
    case Final(_, rrs) => Recorded(log, rrs) && forall i :: 0 <= i < |rrs| ==> rrs[i].rtype == qtype
    case Alias(_, rr, _) => Recorded(log, [rr]) && rr.rdata.CNAME? && (Honest(network) ==> rr.name == current)
    case _ => true
  }

  lemma {:induction false} ResolvedFeeds(
    network: Network, name: Text, qtype: u16, log0: seq<Put>, log: seq<Put>, neg0: seq<Negative>, neg: seq<Negative>,
    r: Outcome)
    requires Resolved(network, name, qtype, log0, log, neg0, neg, r)
    ensures FedBy(network, log0, log) && NegativesFed(network, name, qtype, neg0, neg)
  {
    hide FedBy, NegativesFed, Shaped, Recorded;
  }

  /** The turn a cached answer makes. */
  lemma {:induction false} CachedTurn(
    network: Network, name: Text, qtype: u16, roots: seq<Server>, turns: seq<Turn>, rrs: seq<RR>, log: seq<Put>,
    depth: nat)
    requires CacheSaid(log, KeyFor(LeadsTo(name, ChainOf(turns)), qtype), Some(rrs))
    ensures TurnFits(network, name, qtype, roots, turns, Cached(rrs), log, depth)
  {
    hide CacheSaid, ChainOf, LeadsTo;
  }

  lemma {:induction false} SilentTurn(
    network: Network, name: Text, qtype: u16, roots: seq<Server>, turns: seq<Turn>, log: seq<Put>, depth: nat)
    requires CacheSaid(log, KeyFor(LeadsTo(name, ChainOf(turns)), qtype), None)
    requires NobodyReplied(network, LeadsTo(name, ChainOf(turns)), qtype, AskedBy(roots, turns))
    ensures TurnFits(network, name, qtype, roots, turns, Silence, log, depth)
  {
    hide CacheSaid, ChainOf, LeadsTo, AskedBy, NobodyReplied;
  }

  /** A turn with a reply: the cache had nothing, this is the first reply, and it means the turn. */
  lemma {:induction false} RepliedTurn(
    network: Network, name: Text, qtype: u16, roots: seq<Server>, turns: seq<Turn>, turn: Turn, log: seq<Put>,
    depth: nat)
    requires !turn.Cached? && !turn.Silence?
    requires CacheSaid(log, KeyFor(LeadsTo(name, ChainOf(turns)), qtype), None)
    requires ReplyGiven(network, LeadsTo(name, ChainOf(turns)), qtype, AskedBy(roots, turns), turn.reply)
    requires if turn.reply.answers != [] then AnswersMean(qtype, turns, turn, log)
             else if NsNames(turn.reply.authorities) != [] then
               && (turn.Referral? || turn.DeadEnd?)
               && FromNames(network, NsNames(turn.reply.authorities), turn.reply.additionals, turn.servers, log, depth)
               && (turn.Referral? <==> turn.servers != [] && ServerKey(turn.servers) !in VisitedOf(turns))
             else if HasSoa(turn.reply.authorities) then turn.Denial?
             else turn.Useless?
    ensures TurnFits(network, name, qtype, roots, turns, turn, log, depth)
  {
    hide CacheSaid, ChainOf, LeadsTo, AskedBy, ReplyGiven, AnswersMean, NsNames, FromNames, ServerKey, VisitedOf,
         HasSoa;
  }

  lemma {:induction false} SoaAnswered(network: Network, k: nat, ip: Ip4, asked: Text, qtype: u16, authorities: seq<RR>)
    requires network(k, ip, asked, qtype).Some? && network(k, ip, asked, qtype).value.authorities == authorities
    requires HasSoa(authorities) && NsNames(authorities) == []
    ensures SoaIn(network, k, ip, asked, qtype, SoaMinimum(authorities))
  {
    hide NsNames, HasSoa, SoaMinimum;
  }

  /** Some query got this reply. */
  lemma {:induction false} Answerer(
    network: Network, first: nat, next: nat, name: Text, qtype: u16, servers: seq<Server>,
    r: Option<Reply>, log: seq<Put>, log': seq<Put>) returns (k: nat, ip: Ip4)
    requires r.Some? && FirstAnswer(network, first, next, name, qtype, servers, r, log, log')
    ensures network(k, ip, name, qtype).Some?
    ensures r.value.authorities == network(k, ip, name, qtype).value.authorities
    ensures r.value.answers == [] || r.value.answers == network(k, ip, name, qtype).value.answers
    ensures FedBy(network, log, log') && Recorded(log', r.value.answers)
  {
    hide Puts, FedBy, WasPut;
    var i: nat :| AnswersAt(network, first, next, name, qtype, servers, r.value, log, log', i);
    k, ip := first + i, servers[i].1;
    ReplyRecorded(network, k, ip, name, qtype, log, log');
  }

  lemma {:induction false} NoAnswer(
    network: Network, first: nat, next: nat, name: Text, qtype: u16, servers: seq<Server>,
    r: Option<Reply>, log: seq<Put>, log': seq<Put>)
    requires FirstAnswer(network, first, next, name, qtype, servers, r, log, log')
    ensures r.None? ==> log' == log
  {
    hide Silent, AnswersAt;
  }

  lemma {:induction false} NoChain(name: Text, linked: bool)
    ensures CnameChain([], 0, name, linked) && LeadsTo(name, []) == name
  {
  }

  lemma {:induction false} Multiply(a: nat, b: nat, each: nat)
    requires a <= b
    ensures a * each <= b * each
  {
  }

  /** One more iteration still fits the budget. */
  lemma {:induction false} Iterate(i: nat, each: nat)
    requires i < MAX_ITERATIONS
    ensures (i + 1) * each == i * each + each <= MAX_ITERATIONS * each
  {
    Multiply(i + 1, MAX_ITERATIONS, each);
  }

  lemma {:induction false} AtLeastOne(depth: nat, n: nat)
    ensures RoundsPerIteration(depth, n) >= 1
  {
  }

  lemma {:induction false} BoundedAt(network: Network, n: nat, k: nat, ip: Ip4, name: Text, t: u16)
    requires Bounded(network, n) && network(k, ip, name, t).Some?
    ensures |NsNames(network(k, ip, name, t).value.authorities)| <= n
  {
  }

  lemma {:induction false} HonestOwner(network: Network, k: nat, ip: Ip4, name: Text, t: u16)
    requires network(k, ip, name, t).Some?
    ensures var c := FindCname(network(k, ip, name, t).value.answers);
            Honest(network) && c.Some? ==> c.value.name == name
  {
  }

  /** The bound written out: cubic in the number of name servers, because referrals may nest three deep. */
  lemma {:induction false} BoundValues(n: nat)
    ensures MaxRounds(3, n) == 30
    ensures MaxRounds(0, n) == 30 + 900 * n + 27000 * (n * n) + 810000 * (n * n * n)
  {
    var r3, r2, r1 := MaxRounds(3, n), MaxRounds(2, n), MaxRounds(1, n);
    assert r3 == 30 && r2 == 30 + 900 * n;
    assert n * r2 == 30 * n + 900 * (n * n);
    assert r1 == 30 + 900 * n + 27000 * (n * n);
    assert n * (n * n) == n * n * n;
    assert n * r1 == 30 * n + 900 * (n * n) + 27000 * (n * n * n);
  }
}
