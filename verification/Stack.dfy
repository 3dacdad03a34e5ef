/**
 * The stack: connection table, address resolution and device put together.  `tap` is the log of
 * frames written to the device and `handed` the log of packets on their way to it.  A ghost
 * connection stands beside every block of the table, and the invariant says it is a state some
 * run of `TcpRuns` reaches: every theorem about runs holds of every connection of a running
 * stack, after every completed call.
 */
module Stack {
  import opened Wire
  import opened TcpSpec
  import opened TcpRuns
  import opened TcpTimers
  import opened TcpTable
  import opened Checksum
  import opened Packets
  import opened Arp
  import opened Link

  // ---- Mirror of the table ---------------------------------------------------------------

  ghost predicate Reaches(c: Conn, key: ConnKey, iss: u32, start: Time, events: seq<Timed>) {
    c == Run(Start(key, iss, start), events)
  }

  ghost predicate Reachable(c: Conn) {
    exists key, iss, start, events :: Reaches(c, key, iss, start, events)
  }

  lemma {:induction false} StartReachable(key: ConnKey, iss: u32, start: Time)
    ensures Reachable(Start(key, iss, start))
  {
    hide Start;
    assert Reaches(Start(key, iss, start), key, iss, start, []);
  }

  lemma {:induction false} StepReachable(c: Conn, e: Timed)
    requires Reachable(c)
    ensures Reachable(Step(c, e))
  {
    hide Step, Start;
    var key, iss, start, events :| Reaches(c, key, iss, start, events);
    var longer := events + [e];
    assert longer[..|longer| - 1] == events;
    assert Reaches(Step(c, e), key, iss, start, longer);
  }

  /** What a reachable connection is known to satisfy. */
  lemma {:induction false} ReachableFacts(c: Conn)
    requires Reachable(c)
    ensures NoStall(c.t) && SendSide(c.t, c.sent) && LogOk(c) && Live(c.t.state)
    ensures c.t.rto >= SECOND && c.t.retransmitCount <= MAX_RETRANSMITS
  {
    hide Run, Start, SendSide, LogOk;
    var key, iss, start, events :| Reaches(c, key, iss, start, events);
    NeverStalls(key, iss, start, events);
    RunKeepsSendSide(key, iss, start, events);
    RunKeepsLog(key, iss, start, events);
    LifecycleIsAcyclic(key, iss, start, events);
    RunKeepsBackOff(key, iss, start, events, c);
    RtoPositive(Retransmissions(c.log));
  }

  /** The ghost connections and the table describe the same blocks. */
  ghost predicate Mirrors(conns: map<ConnKey, Conn>, t: Table) {
    && conns.Keys == t.Keys
    && forall k :: k in conns ==> conns[k].t == t[k] && conns[k].present && Reachable(conns[k])
  }

  lemma {:induction false} MirrorsUpdate(conns: map<ConnKey, Conn>, t: Table, k: ConnKey, c: Conn)
    requires Mirrors(conns, t) && c.present && Reachable(c)
    ensures Mirrors(conns[k := c], t[k := c.t])
  {
    hide Reachable;
  }

  /** One stack step on connection `k`. */
  ghost function StepAt(conns: map<ConnKey, Conn>, k: ConnKey, event: Event, now: Time): map<ConnKey, Conn> {
    if k in conns then conns[k := Step(conns[k], Timed(now, event))] else conns
  }

  function Sent(t: Table, k: ConnKey, segments: seq<OutSegment>, now: Time): Table {
    if k in t && segments != [] then t[k := RecordSent(t[k], now)] else t
  }

  /** A step that is not a poll: the block takes the effect, then the timer is armed for what it emits. */
  lemma {:induction false} MirrorsStep(conns: map<ConnKey, Conn>, t: Table, k: ConnKey, event: Event, now: Time)
    requires Mirrors(conns, t) && !event.Poll? && k in t
    ensures var (t1, out) := Effect(t[k], event, now);
            Mirrors(StepAt(conns, k, event, now), Sent(t[k := t1], k, out, now))
  {
    hide Effect, Reachable;
    var (t1, out) := Effect(t[k], event, now);
    var c := Step(conns[k], Timed(now, event));
    StepReachable(conns[k], Timed(now, event));
    MirrorsUpdate(conns, t, k, c);
    assert t[k := c.t] == Sent(t[k := t1], k, out, now);
  }

  /** The table after a call on `k`, found or not, is mirrored by the connections after that step. */
  lemma {:induction false} MirrorsCall(
    conns: map<ConnKey, Conn>, t: Table, t': Table, k: ConnKey, event: Event, now: Time)
    requires Mirrors(conns, t) && !event.Poll?
    requires if k in t then t' == Sent(t[k := Effect(t[k], event, now).0], k, Effect(t[k], event, now).1, now)
             else t' == t
    ensures Mirrors(StepAt(conns, k, event, now), t')
  {
    hide Effect, Reachable, Step, Sent;
    if k in t {
      MirrorsStep(conns, t, k, event, now);
    }
  }

  lemma {:induction false} SentNothing(t: Table, k: ConnKey, now: Time)
    ensures Sent(t, k, [], now) == t
  {
  }

  ghost function PollAll(conns: map<ConnKey, Conn>, now: Time): map<ConnKey, Conn> {
    map k | k in conns && Step(conns[k], Timed(now, Poll)).present :: Step(conns[k], Timed(now, Poll))
  }

  lemma {:induction false} PollStep(c: Conn, now: Time)
    requires c.present
    ensures var (t1, out) := OnTimer(c.t, now);
            var d := Step(c, Timed(now, Poll));
            d.t == t1 && (d.present <==> Retained(t1, now)) && (out != [] ==> t1.retransmitAt.Some?)
  {
    hide BuildRetransmit;
  }

  lemma {:induction false} MirrorsPoll(conns: map<ConnKey, Conn>, t: Table, t1: Table, now: Time)
    requires Mirrors(conns, t)
    requires t1 == map k | k in t && Retained(OnTimer(t[k], now).0, now) :: OnTimer(t[k], now).0
    ensures Mirrors(PollAll(conns, now), t1)
  {
    hide Step, OnTimer, Retained, Reachable;
    forall k | k in conns
      ensures var d := Step(conns[k], Timed(now, Poll));
              && d.t == OnTimer(t[k], now).0
              && (d.present <==> Retained(OnTimer(t[k], now).0, now))
              && Reachable(d)
    {
      PollStep(conns[k], now);
      StepReachable(conns[k], Timed(now, Poll));
    }
  }

  lemma {:induction false} ListedHasSegments(list: seq<(ConnKey, OutSegment)>, i: nat)
    requires i < |list|
    ensures SegmentsFor(list, list[i].0) != []
    decreases |list|
  {
    if i < |list| - 1 {
      ListedHasSegments(list[..|list| - 1], i);
    }
  }

  /** Every connection a poll retransmits for has its timer armed again. */
  lemma {:induction false} RetransmittedIsArmed(
    before: Table, t1: Table, list: seq<(ConnKey, OutSegment)>, now: Time, i: nat)
    requires i < |list|
    requires t1 == map k | k in before && Retained(OnTimer(before[k], now).0, now) :: OnTimer(before[k], now).0
    requires forall k :: SegmentsFor(list, k) == if k in before then OnTimer(before[k], now).1 else []
    ensures list[i].0 in t1 ==> t1[list[i].0 := RecordSent(t1[list[i].0], now)] == t1
  {
    hide BuildRetransmit, Retained, SegmentsFor;
    ListedHasSegments(list, i);
  }

  // ---- From emissions to packets -----------------------------------------------------------

  /** The segments a step added to the log of a connection. */
  function NewSegments(c: Conn, d: Conn): seq<OutSegment> {
    if |d.log| < |c.log| then []
    else seq(|d.log| - |c.log|, i requires 0 <= i < |d.log| - |c.log| => d.log[|c.log| + i].segment)
  }

  lemma {:induction false} StepSegments(c: Conn, e: Timed)
    requires c.present
    ensures NewSegments(c, Step(c, e)) == Effect(c.t, e.event, e.now).1
  {
    hide Effect;
  }

  /** On a mirrored table the segments the block emits are those the connection logs. */
  lemma {:induction false} CallEmits(conns: map<ConnKey, Conn>, t: Table, k: ConnKey, event: Event, now: Time)
    requires Mirrors(conns, t)
    ensures k in conns <==> k in t
    ensures k in conns ==>
              && k in StepAt(conns, k, event, now)
              && NewSegments(conns[k], StepAt(conns, k, event, now)[k]) == Effect(t[k], event, now).1
  {
    hide Effect, Reachable, Step, NewSegments;
    if k in conns {
      StepSegments(conns[k], Timed(now, event));
    }
  }

  /** The source port of a packet: that of its connection, or one found among the connections to the peer. */
  datatype Source = Own(port: u16) | Found(keys: set<ConnKey>)

  function SourceOf(key: Option<ConnKey>, keys: set<ConnKey>): Source {
    if key.Some? then Own(key.value.localPort) else Found(keys)
  }

  function Talking(keys: set<ConnKey>, remoteIp: Ip, remotePort: u16): set<ConnKey> {
    set k | k in keys && k.remoteIp == remoteIp && k.remotePort == remotePort
  }

  /** The port of some connection to the same peer; zero exactly when there is none. */
  ghost predicate FoundPort(keys: set<ConnKey>, remoteIp: Ip, remotePort: u16, port: u16) {
    var talking := Talking(keys, remoteIp, remotePort);
    if talking == {} then port == 0 else exists k :: k in talking && k.localPort == port
  }

  function TcpPacket(ourIp: Ip, dstIp: Ip, srcPort: u16, s: OutSegment): Packet {
    var h := Header(srcPort, s.dstPort, s.seqNo, s.ackNo, s.flags, DEFAULT_WINDOW);
    BuildIpv4(ourIp, dstIp, IP_PROTO_TCP, 64, BuildTcpSegment(ourIp, dstIp, h, s.payload))
  }

  /** The packet for a segment, addressed to its peer; exact while the checksum input fits its accumulator. */
  predicate Carries(p: (Ip, Packet), ourIp: Ip, dstIp: Ip, srcPort: u16, s: OutSegment) {
    p.0 == dstIp && (32 + |s.payload| <= MAX_SUMMED ==> p.1 == TcpPacket(ourIp, dstIp, srcPort, s))
  }

  /** The same when there may be no connection to take the source port from. */
  ghost predicate CarriesFrom(p: (Ip, Packet), ourIp: Ip, dstIp: Ip, source: Source, s: OutSegment) {
    match source
    case Own(port) => Carries(p, ourIp, dstIp, port, s)
    case Found(keys) => exists port: u16 :: FoundPort(keys, dstIp, s.dstPort, port) && Carries(p, ourIp, dstIp, port, s)
  }

  /** Exactly these segments were handed over for sending, in this order. */
  ghost predicate HandedOver(before: seq<(Ip, Packet)>, after: seq<(Ip, Packet)>, ourIp: Ip, dstIp: Ip,
                             source: Source, segments: seq<OutSegment>) {
    && |after| == |before| + |segments| && after[..|before|] == before
    && forall i :: 0 <= i < |segments| ==> CarriesFrom(after[|before| + i], ourIp, dstIp, source, segments[i])
  }

  /** Exactly what a call on `k` made its connection log was handed over. */
  ghost predicate HandedStep(
    conns: map<ConnKey, Conn>, conns': map<ConnKey, Conn>, handed: seq<(Ip, Packet)>, handed': seq<(Ip, Packet)>,
    ourIp: Ip, k: ConnKey) {
    if k in conns
    then
      && k in conns'
      && HandedOver(handed, handed', ourIp, k.remoteIp, Own(k.localPort), NewSegments(conns[k], conns'[k]))
    else handed' == handed
  }

  lemma {:induction false} NothingHanded(before: seq<(Ip, Packet)>, ourIp: Ip, dstIp: Ip, source: Source)
    ensures HandedOver(before, before, ourIp, dstIp, source, [])
  {
  }

  lemma {:induction false} NothingMeansSame(before: seq<(Ip, Packet)>, after: seq<(Ip, Packet)>, ourIp: Ip, dstIp: Ip,
                                            source: Source)
    requires HandedOver(before, after, ourIp, dstIp, source, [])
    ensures after == before
  {
  }

  lemma {:induction false} OneMoreHanded(before: seq<(Ip, Packet)>, after: seq<(Ip, Packet)>, ourIp: Ip, dstIp: Ip,
                                         source: Source, segments: seq<OutSegment>, i: nat, p: (Ip, Packet))
    requires i < |segments| && HandedOver(before, after, ourIp, dstIp, source, segments[..i])
    requires CarriesFrom(p, ourIp, dstIp, source, segments[i])
    ensures HandedOver(before, after + [p], ourIp, dstIp, source, segments[..i + 1])
  {
    hide CarriesFrom;
    forall j | 0 <= j < i + 1 ensures CarriesFrom((after + [p])[|before| + j], ourIp, dstIp, source, segments[j]) {
      if j < i {
        assert segments[..i][j] == segments[j];
      }
    }
  }

  lemma {:induction false} OneMoreListed(before: seq<(Ip, Packet)>, after: seq<(Ip, Packet)>, ourIp: Ip,
                                         list: seq<(ConnKey, OutSegment)>, i: nat, p: (Ip, Packet))
    requires i < |list| && HandedList(before, after, ourIp, list[..i])
    requires Carries(p, ourIp, list[i].0.remoteIp, list[i].0.localPort, list[i].1)
    ensures HandedList(before, after + [p], ourIp, list[..i + 1])
  {
    hide Carries;
    forall j | 0 <= j < i + 1
      ensures Carries((after + [p])[|before| + j], ourIp, list[j].0.remoteIp, list[j].0.localPort, list[j].1)
    {
      if j < i {
        assert list[..i][j] == list[j];
      }
    }
  }

  /** The packets of a poll: one per listed segment, to the peer of its connection. */
  ghost predicate HandedList(
    before: seq<(Ip, Packet)>, after: seq<(Ip, Packet)>, ourIp: Ip, list: seq<(ConnKey, OutSegment)>) {
    && |after| == |before| + |list| && after[..|before|] == before
    && forall i :: 0 <= i < |list| ==>
         Carries(after[|before| + i], ourIp, list[i].0.remoteIp, list[i].0.localPort, list[i].1)
  }

  lemma {:induction false} NothingListed(before: seq<(Ip, Packet)>, ourIp: Ip)
    ensures HandedList(before, before, ourIp, [])
  {
  }

  /** The list holds, per connection, what its poll step logs. */
  ghost predicate ListsPolls(conns: map<ConnKey, Conn>, list: seq<(ConnKey, OutSegment)>, now: Time) {
    forall k :: SegmentsFor(list, k)
                == if k in conns then NewSegments(conns[k], Step(conns[k], Timed(now, Poll))) else []
  }

  lemma {:induction false} PollsListed(conns: map<ConnKey, Conn>, t: Table, list: seq<(ConnKey, OutSegment)>, now: Time)
    requires Mirrors(conns, t)
    requires forall k :: SegmentsFor(list, k) == if k in t then OnTimer(t[k], now).1 else []
    ensures ListsPolls(conns, list, now)
  {
    hide Step, OnTimer, NewSegments, SegmentsFor, Reachable;
    forall k | k in conns ensures NewSegments(conns[k], Step(conns[k], Timed(now, Poll))) == OnTimer(t[k], now).1 {
      StepSegments(conns[k], Timed(now, Poll));
      assert Effect(conns[k].t, Poll, now) == OnTimer(t[k], now);
    }
  }

  // ---- What a frame does -----------------------------------------------------------------------

  /** The segment in a TCP packet that passes its checksums, with its sender. */
  function SegmentIn(packet: seq<byte>): Option<(Ip, Header, seq<byte>)> {
    var p := ParseIpv4(packet);
    if p.Some? && p.value.0.protocol == IP_PROTO_TCP && VerifyTcpChecksum(p.value.0.src, p.value.0.dst, p.value.1)
    then
      var s := ParseTcp(p.value.1);
      if s.Some? then Some((p.value.0.src, s.value.0, s.value.1)) else None
    else None
  }

  /** What a valid TCP packet does to the connections; everything else leaves them alone. */
  ghost function ConnsAfterPacket(
    conns: map<ConnKey, Conn>, ourIp: Ip, packet: seq<byte>, now: Time): map<ConnKey, Conn> {
    match SegmentIn(packet)
    case Some((src, h, payload)) => StepAt(conns, ConnKey(ourIp, h.dstPort, src, h.srcPort), Segment(h, payload), now)
    case None => conns
  }

  ghost function ConnsAfterFrame(
    conns: map<ConnKey, Conn>, ourIp: Ip, frame: seq<byte>, now: Time): map<ConnKey, Conn> {
    var f := ParseFrame(frame);
    if f.Some? && f.value.0.ethertype == ETH_TYPE_IPV4 then ConnsAfterPacket(conns, ourIp, f.value.1, now) else conns
  }

  ghost function ConnsAfterFrames(
    conns: map<ConnKey, Conn>, ourIp: Ip, frames: seq<seq<byte>>, now: Time): map<ConnKey, Conn> {
    if frames == [] then conns
    else ConnsAfterFrame(ConnsAfterFrames(conns, ourIp, frames[..|frames| - 1], now), ourIp, frames[|frames| - 1], now)
  }

  /** A segment is answered by what its connection logs, or by the reset reply when there is none. */
  ghost predicate Replied(
    conns: map<ConnKey, Conn>, conns': map<ConnKey, Conn>, handed: seq<(Ip, Packet)>, handed': seq<(Ip, Packet)>,
    ourIp: Ip, src: Ip, h: Header, payload: seq<byte>) {
    var k := ConnKey(ourIp, h.dstPort, src, h.srcPort);
    if k in conns
    then k in conns' && HandedOver(handed, handed', ourIp, src, Own(h.dstPort), NewSegments(conns[k], conns'[k]))
    else HandedOver(handed, handed', ourIp, src, Found(conns.Keys), ResetReply(h, payload))
  }

  /** An echo request is answered by one echo reply to its sender, any other packet but a segment by nothing. */
  ghost predicate RepliedToOther(handed: seq<(Ip, Packet)>, handed': seq<(Ip, Packet)>, ourIp: Ip, packet: seq<byte>) {
    var p := ParseIpv4(packet);
    if p.Some? && p.value.0.protocol == IP_PROTO_ICMP && IsEchoRequest(p.value.1)
    then exists reply :: IsEchoReply(p.value.1, reply)
           && handed' == handed + [(p.value.0.src, BuildIpv4(ourIp, p.value.0.src, IP_PROTO_ICMP, 64, reply))]
    else handed' == handed
  }

  /** What is handed over for an IPv4 packet. */
  ghost predicate PacketAnswered(
    conns: map<ConnKey, Conn>, conns': map<ConnKey, Conn>, handed: seq<(Ip, Packet)>, handed': seq<(Ip, Packet)>,
    ourIp: Ip, packet: seq<byte>) {
    match SegmentIn(packet)
    case Some((src, h, payload)) => Replied(conns, conns', handed, handed', ourIp, src, h, payload)
    case None => RepliedToOther(handed, handed', ourIp, packet)
  }

  lemma {:induction false} AnswersAppended(
    conns: map<ConnKey, Conn>, conns': map<ConnKey, Conn>, handed: seq<(Ip, Packet)>, handed': seq<(Ip, Packet)>,
    ourIp: Ip, packet: seq<byte>)
    requires PacketAnswered(conns, conns', handed, handed', ourIp, packet)
    ensures handed <= handed'
  {
    hide SegmentIn, ParseIpv4, BuildIpv4, IsEchoReply, NewSegments, ResetReply;
  }

  /** Everything a frame does: to the link, and to the log of packets handed over. */
  ghost predicate FrameHandled(
    conns: map<ConnKey, Conn>, l: Link, handed: seq<(Ip, Packet)>, l': Link, handed': seq<(Ip, Packet)>,
    host: Host, now: Time, frame: seq<byte>) {
    var f := ParseFrame(frame);
    if f.Some? && f.value.0.ethertype == ETH_TYPE_ARP then
      ArpOnLink(l, l', host, now, f.value.1) && handed' == handed
    else if f.Some? && f.value.0.ethertype == ETH_TYPE_IPV4 then
      && PacketAnswered(conns, ConnsAfterPacket(conns, host.ip, f.value.1, now), handed, handed', host.ip, f.value.1)
      && PacketOnLink(l, l', host, now, f.value.0.src, f.value.1, Since(handed, handed'))
    else l' == l && handed' == handed
  }

  lemma {:induction false} FrameGrows(
    conns: map<ConnKey, Conn>, l: Link, handed: seq<(Ip, Packet)>, l': Link, handed': seq<(Ip, Packet)>,
    host: Host, now: Time, frame: seq<byte>)
    requires FrameHandled(conns, l, handed, l', handed', host, now, frame)
    ensures l.tap <= l'.tap && handed <= handed'
  {
    hide ParseFrame, ArpOnLink, PacketOnLink, PacketAnswered, ConnsAfterPacket;
    var f := ParseFrame(frame);
    if f.Some? && f.value.0.ethertype == ETH_TYPE_ARP {
      ArpGrows(l, l', host, now, f.value.1);
    } else if f.Some? && f.value.0.ethertype == ETH_TYPE_IPV4 {
      PacketGrows(l, l', host, now, f.value.0.src, f.value.1, Since(handed, handed'));
      AnswersAppended(conns, ConnsAfterPacket(conns, host.ip, f.value.1, now), handed, handed', host.ip, f.value.1);
    }
  }

  /** The frames one after the other, each handled on the connections the ones before left. */
  ghost predicate FramesHandled(
    conns: map<ConnKey, Conn>, l: Link, handed: seq<(Ip, Packet)>, l': Link, handed': seq<(Ip, Packet)>,
    host: Host, now: Time, frames: seq<seq<byte>>)
    decreases |frames|
  {
    if frames == [] then l' == l && handed' == handed
    else
      var rest, last := frames[..|frames| - 1], frames[|frames| - 1];
      exists l1, handed1 ::
        && FramesHandled(conns, l, handed, l1, handed1, host, now, rest)
        && FrameHandled(ConnsAfterFrames(conns, host.ip, rest, now), l1, handed1, l', handed', host, now, last)
  }

  lemma {:induction false} NoFrames(
    conns: map<ConnKey, Conn>, l: Link, handed: seq<(Ip, Packet)>, host: Host, now: Time)
    ensures FramesHandled(conns, l, handed, l, handed, host, now, [])
    ensures ConnsAfterFrames(conns, host.ip, [], now) == conns
  {
  }

  lemma {:induction false} OneMoreFrameHandled(
    conns: map<ConnKey, Conn>, l: Link, handed: seq<(Ip, Packet)>, l1: Link, handed1: seq<(Ip, Packet)>,
    l': Link, handed': seq<(Ip, Packet)>, host: Host, now: Time, frames: seq<seq<byte>>, i: nat)
    requires i < |frames| && FramesHandled(conns, l, handed, l1, handed1, host, now, frames[..i])
    requires FrameHandled(ConnsAfterFrames(conns, host.ip, frames[..i], now), l1, handed1, l', handed', host, now,
                          frames[i])
    ensures FramesHandled(conns, l, handed, l', handed', host, now, frames[..i + 1])
    ensures ConnsAfterFrames(conns, host.ip, frames[..i + 1], now)
            == ConnsAfterFrame(ConnsAfterFrames(conns, host.ip, frames[..i], now), host.ip, frames[i], now)
  {
    hide FrameHandled, ConnsAfterFrame;
    var longer := frames[..i + 1];
    assert longer[..|longer| - 1] == frames[..i] && longer[|longer| - 1] == frames[i];
  }

  lemma {:induction false} FramesGrow(
    conns: map<ConnKey, Conn>, l: Link, handed: seq<(Ip, Packet)>, l': Link, handed': seq<(Ip, Packet)>,
    host: Host, now: Time, frames: seq<seq<byte>>)
    requires FramesHandled(conns, l, handed, l', handed', host, now, frames)
    ensures l.tap <= l'.tap && handed <= handed'
    decreases |frames|
  {
    hide FrameHandled, ConnsAfterFrames;
    if frames != [] {
      var rest, last := frames[..|frames| - 1], frames[|frames| - 1];
      var l1, handed1 :|
        && FramesHandled(conns, l, handed, l1, handed1, host, now, rest)
        && FrameHandled(ConnsAfterFrames(conns, host.ip, rest, now), l1, handed1, l', handed', host, now, last);
      FramesGrow(conns, l, handed, l1, handed1, host, now, rest);
      FrameGrows(ConnsAfterFrames(conns, host.ip, rest, now), l1, handed1, l', handed', host, now, last);
    }
  }

  /** The packets of the segments all connections retransmit are handed over and sent. */
  ghost predicate Retransmitted(
    conns: map<ConnKey, Conn>, l: Link, handed: seq<(Ip, Packet)>, l': Link, handed': seq<(Ip, Packet)>,
    host: Host, now: Time) {
    && (exists list :: ListsPolls(conns, list, now) && HandedList(handed, handed', host.ip, list))
    && DeliversAll(l, l', host, now, Since(handed, handed'))
  }

  /** One iteration: overdue requests, then retransmissions, then the frames. */
  ghost predicate Polled(
    conns: map<ConnKey, Conn>, l: Link, handed: seq<(Ip, Packet)>, l': Link, handed': seq<(Ip, Packet)>,
    host: Host, now: Time, frames: seq<seq<byte>>) {
    exists l1, l2, handed1 ::
      && TickOnLink(l, l1, host, now)
      && Retransmitted(conns, l1, handed, l2, handed1, host, now)
      && FramesHandled(PollAll(conns, now), l2, handed1, l', handed', host, now, frames)
  }

  lemma {:induction false} PollComposed(
    conns: map<ConnKey, Conn>, l: Link, handed: seq<(Ip, Packet)>, l1: Link, l2: Link, handed1: seq<(Ip, Packet)>,
    l': Link, handed': seq<(Ip, Packet)>, host: Host, now: Time, frames: seq<seq<byte>>)
    requires TickOnLink(l, l1, host, now) && Retransmitted(conns, l1, handed, l2, handed1, host, now)
    requires FramesHandled(PollAll(conns, now), l2, handed1, l', handed', host, now, frames)
    ensures Polled(conns, l, handed, l', handed', host, now, frames)
    ensures l.tap <= l'.tap && handed <= handed'
  {
    hide DeliversAll, FramesHandled, ListsPolls, PollAll, Ticked, Requests, WhoHas;
    DeliversGrows(l1, l2, host, now, Since(handed, handed1));
    FramesGrow(PollAll(conns, now), l2, handed1, l', handed', host, now, frames);
  }

  /** A frame some other stack built for a segment arrives as exactly that segment. */
  lemma {:induction false} FrameArrivesAsSegment(
    conns: map<ConnKey, Conn>, ourIp: Ip, dstMac: Mac, srcMac: Mac, src: Ip, h: Header, payload: seq<byte>, now: Time)
    ensures ConnsAfterFrame(conns, ourIp, TcpFrame(dstMac, srcMac, src, ourIp, h, payload), now)
            == StepAt(conns, ConnKey(ourIp, h.dstPort, src, h.srcPort), Segment(h, payload), now)
  {
    hide TcpFrame, ParseFrame, ParseIpv4, ParseTcp, VerifyTcpChecksum, StepAt;
    LayersRoundTrip(dstMac, srcMac, src, ourIp, h, payload);
  }

  /** What the peer reads in a packet of ours: the segment, from our port, with the widest window. */
  lemma {:induction false} PacketReads(ourIp: Ip, dstIp: Ip, srcPort: u16, s: OutSegment)
    ensures SegmentIn(TcpPacket(ourIp, dstIp, srcPort, s))
            == Some((ourIp, Header(srcPort, s.dstPort, s.seqNo, s.ackNo, s.flags, 65535), s.payload))
  {
    hide BuildIpv4, BuildTcpSegment, ParseIpv4, ParseTcp, VerifyTcpChecksum;
    var h := Header(srcPort, s.dstPort, s.seqNo, s.ackNo, s.flags, DEFAULT_WINDOW);
    Ipv4RoundTrip(ourIp, dstIp, IP_PROTO_TCP, 64, BuildTcpSegment(ourIp, dstIp, h, s.payload));
    TcpSegmentValidates(ourIp, dstIp, h, s.payload);
    TcpRoundTrip(ourIp, dstIp, h, s.payload);
  }

  /**
   * Resets end an exchange: the packet that carries a reset reply arrives as a segment which a
   * host without such a connection does not answer.
   */
  lemma {:induction false} ResetsAreNotAnswered(h: Header, payload: seq<byte>, ourIp: Ip, dstIp: Ip, srcPort: u16)
    requires ResetReply(h, payload) != []
    ensures var arrived := SegmentIn(TcpPacket(ourIp, dstIp, srcPort, ResetReply(h, payload)[0]));
            && arrived.Some? && arrived.value.0 == ourIp
            && arrived.value.1.srcPort == srcPort && arrived.value.1.dstPort == h.srcPort
            && ResetReply(arrived.value.1, arrived.value.2) == []
  {
    hide TcpPacket, SegmentIn, Wrap;
    PacketReads(ourIp, dstIp, srcPort, ResetReply(h, payload)[0]);
  }

  // ---- The stack -------------------------------------------------------------------------

  class TcpStack {
    const tcp: TcpManager
    const arp: ArpCache
    const ourIp: Ip
    const ourMac: Mac
    var now: Time
    var tap: seq<seq<byte>>
    ghost var conns: map<ConnKey, Conn>
    ghost var handed: seq<(Ip, Packet)>   // every IPv4 packet handed over for sending, with its next hop
    ghost var trace: Trace                // when the frames of `tap` were written

    function Me(): Host {
      Host(ourIp, ourMac)
    }

    ghost function OnLink(): Link
      reads this`tap, arp
    {
      Link(arp.entries, arp.pending, tap)
    }

    /** The requests on the wire are those the queue remembers. */
    ghost predicate LinkValid()
      reads this`tap, this`trace, this`now, arp
    {
      arp.Valid() && Episodes(Me(), tap, trace, arp.asked, now)
    }

    /** So they are, and every packet handed over is accounted for. */
    ghost predicate LinkSound()
      reads this`tap, this`trace, this`handed, this`now, arp
    {
      LinkValid() && Accounts(handed, trace, arp.queued, arp.batches, tap)
    }

    /** Holds also half way through a call, while the mirror lags behind. */
    ghost predicate Sound()
      reads this`tap, this`trace, this`handed, this`now, tcp, arp
    {
      tcp.Valid() && LinkSound()
    }

    ghost predicate Valid()
      reads this, tcp, tcp.connections.Values, arp
    {
      Sound() && Mirrors(conns, tcp.Table())
    }

    /** No connection of a running stack stalls, backs off below a second or retries more than five times. */
    lemma {:induction false} EveryConnection(k: ConnKey)
      requires Valid() && k in tcp.connections
      ensures k in conns && conns[k].t == tcp.Table()[k] && Reachable(conns[k])
      ensures NoStall(tcp.Table()[k]) && SendSide(tcp.Table()[k], conns[k].sent)
      ensures tcp.Table()[k].rto >= SECOND && tcp.Table()[k].retransmitCount <= MAX_RETRANSMITS
    {
      hide Reachable, NoStall, SendSide, Tcb.View, Episodes;
      ReachableFacts(conns[k]);
    }

    /**
     * Since packets began to wait for an address, one to three requests for it were written, at
     * least three seconds apart: these are all the frames with such a request.
     */
    lemma {:induction false} EveryEpisode(ip: Ip)
      requires Valid() && ip in arp.pending
      ensures |trace.times| == |tap| && ip in trace.began && trace.began[ip] <= |tap|
      ensures var times := TimesOf(WhoHas(Me(), ip), tap, trace.times, trace.began[ip]);
              && 1 <= |times| <= 3 && |times| == arp.pending[ip].retries
              && times[|times| - 1] == arp.pending[ip].lastRequest
              && forall i :: 0 < i < |times| ==> times[i] >= times[i - 1] + 3 * SECOND
    {
      hide Mirrors, WhoHas, TimesOf, TcpManager.Table, TcpManager.Valid;
      arp.Episode(ip);
      AskedOnce(Me(), tap, trace, arp.asked, now, ip);
    }

    /**
     * Every packet ever handed over for a next hop is in a frame on the wire, waits in the queue or
     * was given up with a batch, exactly once; the packets on the wire are those that did not wait
     * and those that were released, each kind in the order it was handed over.
     */
    lemma {:induction false} EveryPacket(ip: Ip)
      requires Valid()
      ensures PacketsOn(tap) == Payloads(trace.outbound)
      ensures Interleaves(To(handed, ip), At(trace.direct, ip), At(arp.queued, ip))
      ensures Interleaves(To(trace.outbound, ip), At(trace.direct, ip), Freed(At(arp.batches, ip)))
      ensures At(arp.queued, ip) == Flatten(At(arp.batches, ip)) + Waiting(arp.pending, ip)
      ensures multiset(To(handed, ip))
              == multiset(To(trace.outbound, ip)) + multiset(Waiting(arp.pending, ip))
                 + multiset(GivenUp(At(arp.batches, ip)))
    {
      hide Mirrors, Episodes, PacketsOn, Payloads, Interleaves, To, Freed, GivenUp, Flatten, TcpManager.Table,
           TcpManager.Valid;
      BooksClose(handed, trace, arp.queued, arp.batches, arp.pending, tap, ip);
      assert Balanced(handed, trace, arp.queued, arp.batches, ip);
    }

    constructor (ip: Ip, mac: Mac, clock: Time)
      ensures Valid() && conns == map[] && tap == [] && handed == [] && now == clock
      ensures ourIp == ip && ourMac == mac && fresh(tcp) && fresh(arp) && fresh(tcp.connections.Values)
    {
      tcp := new TcpManager();
      arp := new ArpCache();
      ourIp, ourMac, now, tap, conns, handed := ip, mac, clock, [], map[], [];
      trace := Trace([], map[], map[], []);
      AccountsOpen();
    }

    /** The device takes a frame that asks for nobody. */
    method WriteFrame(frame: seq<byte>)
      requires LinkValid() && NoRequest(Me(), frame)
      modifies this`tap, this`trace
      ensures LinkValid() && tap == old(tap) + [frame]
      ensures trace == old(trace).(times := old(trace).times + [now])
    {
      hide Episodes, ArpCache.Valid, NoRequest;
      OtherFrame(Me(), tap, trace, arp.asked, now, frame);
      tap := tap + [frame];
      trace := trace.(times := trace.times + [now]);
    }

    /** The packet leaves for an address that is known. */
    method SendNow(dstIp: Ip, mac: Mac, packet: seq<byte>)
      requires LinkSound()
      modifies this`tap, this`trace, this`handed
      ensures LinkSound() && handed == old(handed) + [(dstIp, packet)]
      ensures tap == old(tap) + [BuildFrame(mac, ourMac, ETH_TYPE_IPV4, packet)]
    {
      hide BuildFrame, Episodes, ArpCache.Valid, NoRequest, Accounts, WentOut;
      PacketIsNoRequest(Me(), mac, packet);
      AccountsDirect(handed, trace, arp.queued, arp.batches, tap, (dstIp, packet), mac, ourMac);
      ghost var before, books, out := tap, handed, WentOut(trace, (dstIp, packet));
      WriteFrame(BuildFrame(mac, ourMac, ETH_TYPE_IPV4, packet));
      SameTimes(old(trace), (dstIp, packet), now);
      EpisodesBooked(Me(), tap, trace, out.(times := trace.times), arp.asked, now);
      handed := handed + [(dstIp, packet)];
      trace := out.(times := trace.times);
      AccountsFrame(handed, out, trace, arp.queued, arp.batches, tap, tap);
    }

    /** The packet waits for its address; the first one to wait asks for it. */
    method Enqueue(dstIp: Ip, packet: seq<byte>)
      requires LinkSound()
      modifies arp, this`tap, this`trace, this`handed
      ensures LinkSound() && handed == old(handed) + [(dstIp, packet)] && arp.entries == old(arp.entries)
      ensures if dstIp in old(arp.pending)
              then
                && tap == old(tap)
                && arp.pending == old(arp.pending)[dstIp := OneMoreWaits(old(arp.pending)[dstIp], packet)]
              else
                && tap == old(tap) + [WhoHas(Me(), dstIp)]
                && arp.pending == old(arp.pending)[dstIp := PendingEntry([packet], now, 1)]
    {
      hide WhoHas, Episodes, Accounts, ArpCache.Valid, At, PacketsOn;
      EpisodeStarts(Me(), tap, trace, arp.asked, now, dstIp);
      AccountsQueued(handed, trace, arp.queued, arp.batches, tap, (dstIp, packet));
      RequestWritten(tap, Me(), dstIp);
      var isNew := arp.QueuePacket(dstIp, packet, now);
      handed := handed + [(dstIp, packet)];
      if isNew {
        ghost var trace' := trace.(times := trace.times + [now], began := trace.began[dstIp := |tap|]);
        AccountsFrame(handed, trace, trace', arp.queued, arp.batches, tap, tap + [WhoHas(Me(), dstIp)]);
        trace := trace';
        tap := tap + [WhoHas(Me(), dstIp)];
        arp.RecordRequest(dstIp, now);
      }
    }

    /** The packet goes to the device when the address is known, to the queue otherwise. */
    method Resolve(dstIp: Ip, packet: seq<byte>)
      requires LinkSound()
      modifies arp, this`tap, this`trace, this`handed
      ensures LinkSound() && handed == old(handed) + [(dstIp, packet)]
      ensures Delivers(old(OnLink()), OnLink(), Me(), now, (dstIp, packet))
    {
      hide BuildFrame, WhoHas, LinkSound;
      var clock: Time :| clock >= now;
      ghost var target := DeliverAt(OnLink(), Me(), now, (dstIp, packet), clock);
      var mac := arp.Lookup(dstIp, clock);
      if mac.Some? {
        SendNow(dstIp, mac.value, packet);
      } else {
        Enqueue(dstIp, packet);
      }
      assert OnLink() == target;
    }

    /** `send_frame`: arm the timer of the connection, then resolve and send. */
    method SendFrame(dstIp: Ip, packet: seq<byte>, key: Option<ConnKey>)
      requires Sound()
      modifies tcp.connections.Values, arp, this`tap, this`trace, this`handed
      ensures handed == old(handed) + [(dstIp, packet)]
      ensures Delivers(old(OnLink()), OnLink(), Me(), now, (dstIp, packet))
      ensures Sound() && tcp.connections == old(tcp.connections)
      ensures tcp.Table() == if key.Some? && key.value in old(tcp.Table())
                             then old(tcp.Table())[key.value := RecordSent(old(tcp.Table())[key.value], now)]
                             else old(tcp.Table())
    {
      hide RecordSent, Delivers, LinkSound, TcpManager.Table, TcpManager.Valid;
      if key.Some? {
        tcp.RecordSent(key.value, now);
      }
      Resolve(dstIp, packet);
    }

    /** The source port of a reply without a connection: one that talks to the same peer, or zero. */
    method FindSrcPort(remoteIp: Ip, remotePort: u16) returns (port: u16)
      ensures FoundPort(tcp.connections.Keys, remoteIp, remotePort, port)
    {
      var matching := Talking(tcp.connections.Keys, remoteIp, remotePort);
      if matching == {} {
        return 0;
      }
      var k :| k in matching;
      return k.localPort;
    }

    /** The packet for a segment of ours. */
    method PacketFor(dstIp: Ip, srcPort: u16, s: OutSegment) returns (packet: Packet)
      ensures Carries((dstIp, packet), ourIp, dstIp, srcPort, s)
    {
      hide BuildTcpSegment, BuildIpv4;
      var h := Header(srcPort, s.dstPort, s.seqNo, s.ackNo, s.flags, DEFAULT_WINDOW);
      var bytes := FillTcpSegment(ourIp, dstIp, h, s.payload);
      packet := FillIpv4(ourIp, dstIp, IP_PROTO_TCP, 64, bytes);
    }

    method SendSegments(segments: seq<OutSegment>, key: Option<ConnKey>, dstIp: Ip)
      requires Sound()
      modifies tcp.connections.Values, arp, this`tap, this`trace, this`handed
      ensures HandedOver(old(handed), handed, ourIp, dstIp, SourceOf(key, tcp.connections.Keys), segments)
      ensures DeliversAll(old(OnLink()), OnLink(), Me(), now, Since(old(handed), handed))
      ensures Sound() && tcp.connections == old(tcp.connections)
      ensures tcp.Table() == if key.Some? then Sent(old(tcp.Table()), key.value, segments, now) else old(tcp.Table())
    {
      hide RecordSent, Carries, FoundPort, Episodes, Sent, HandedOver, Delivers, DeliversAll, Since, OnLink, Sound,
           TcpManager.Table, TcpManager.Valid, ArpCache.Valid;
      ghost var source := SourceOf(key, tcp.connections.Keys);
      if key.Some? {
        SentNothing(tcp.Table(), key.value, now);
      }
      NothingHanded(handed, ourIp, dstIp, source);
      DeliversNothing(OnLink(), Me(), now, handed);
      assert segments[..0] == [];
      for i := 0 to |segments|
        invariant Sound() && tcp.connections == old(tcp.connections) && |old(handed)| <= |handed|
        invariant tcp.Table() == if key.Some? then Sent(old(tcp.Table()), key.value, segments[..i], now)
                                 else old(tcp.Table())
        invariant HandedOver(old(handed), handed, ourIp, dstIp, source, segments[..i])
        invariant DeliversAll(old(OnLink()), OnLink(), Me(), now, Since(old(handed), handed))
      {
        var s := segments[i];
        var srcPort: u16;
        if key.Some? {
          srcPort := key.value.localPort;
        } else {
          srcPort := FindSrcPort(dstIp, s.dstPort);
        }
        var packet := PacketFor(dstIp, srcPort, s);
        OneMoreHanded(old(handed), handed, ourIp, dstIp, source, segments, i, (dstIp, packet));
        ghost var before, already := OnLink(), handed;
        SendFrame(dstIp, packet, key);
        DeliversOneMore(old(OnLink()), before, OnLink(), Me(), now, old(handed), already, (dstIp, packet));
        if key.Some? {
          SentTwice(old(tcp.Table()), key.value, segments[..i], segments[..i + 1], now);
        }
      }
      assert segments[..|segments|] == segments;
    }

    method Connect(remoteIp: Ip, remotePort: u16, iss: u32) returns (k: ConnKey)
      requires Valid()
      modifies this, tcp, tcp.connections.Values, arp
      ensures Valid() && now == old(now)
      ensures k == ConnKey(ourIp, k.localPort, remoteIp, remotePort) && NextPort(old(conns).Keys, k.localPort)
      ensures if k in old(conns) && (old(conns)[k].t.state.Established? || old(conns)[k].t.state.SynSent?)
              then conns == old(conns) && handed == old(handed)
              else
                && conns == old(conns)[k := Start(k, iss, now)]
                && HandedOver(old(handed), handed, ourIp, remoteIp, Own(k.localPort), [SynOf(Start(k, iss, now).t)])
      ensures DeliversAll(old(OnLink()), OnLink(), Me(), now, Since(old(handed), handed))
    {
      hide Start, Fresh, Mirrors, Sent, RecordSent, HandedOver, NextPort, DeliversAll, Since, OnLink, LinkSound, SynOf,
           TcpManager.Table, TcpManager.Valid;
      var out;
      ghost var before := tcp.Table();
      tcp.TableKeys();
      SameKeys(conns, before);
      k, out := tcp.InitiateConnect(ourIp, remoteIp, remotePort, iss, now);
      SameState(conns, before, k);
      ghost var middle := tcp.Table();
      SendSegments(out, Some(k), remoteIp);
      if out == [] {
        NothingMeansSame(old(handed), handed, ourIp, remoteIp, Own(k.localPort));
        SentNothing(middle, k, now);
      } else {
        StartBlock(k, iss, now);
        StartSent(before, k, iss, now, out);
        StartReachable(k, iss, now);
        MirrorsUpdate(conns, before, k, Start(k, iss, now));
        conns := conns[k := Start(k, iss, now)];
      }
    }

    /** Returns the length offered, whatever became of the data. */
    method Send(k: ConnKey, data: seq<byte>) returns (accepted: nat)
      requires Valid()
      modifies this, tcp.connections.Values, arp
      ensures Valid() && accepted == |data| && now == old(now)
      ensures conns == StepAt(old(conns), k, Event.Send(data), now)
      ensures HandedStep(old(conns), conns, old(handed), handed, ourIp, k)
      ensures DeliversAll(old(OnLink()), OnLink(), Me(), now, Since(old(handed), handed))
    {
      hide AppSend, Mirrors, Sent, StepAt, NewSegments, HandedOver, DeliversAll, Since, OnLink, LinkSound,
           TcpManager.Table, TcpManager.Valid;
      ghost var before := tcp.Table();
      var out := tcp.Send(k, data);
      SendSegments(out, Some(k), k.remoteIp);
      SentNothing(before, k, now);
      if k !in before {
        NothingMeansSame(old(handed), handed, ourIp, k.remoteIp, Own(k.localPort));
      }
      MirrorsCall(conns, before, tcp.Table(), k, Event.Send(data), now);
      CallEmits(conns, before, k, Event.Send(data), now);
      conns := StepAt(conns, k, Event.Send(data), now);
      accepted := |data|;
    }

    method Recv(k: ConnKey) returns (data: seq<byte>)
      requires Valid()
      modifies this, tcp.connections.Values
      ensures Valid() && now == old(now) && tap == old(tap) && handed == old(handed)
      ensures conns == StepAt(old(conns), k, Event.Recv, now)
      ensures k in conns ==> conns[k].drained == old(conns)[k].drained + data
    {
      hide Mirrors, Step, Effect, Sent, OnLink, LinkSound, TcpManager.Table, TcpManager.Valid, Drained;
      ghost var before := tcp.Table();
      SameState(conns, before, k);
      Presence(conns, before, k);
      data := tcp.DrainData(k);
      if k in before {
        RecvDrains(conns[k], now);
        SentNothing(before[k := Drained(before[k])], k, now);
      }
      MirrorsCall(conns, before, tcp.Table(), k, Event.Recv, now);
      conns := StepAt(conns, k, Event.Recv, now);
    }

    method Close(k: ConnKey)
      requires Valid()
      modifies this, tcp.connections.Values, arp
      ensures Valid() && now == old(now)
      ensures conns == StepAt(old(conns), k, Event.Close, now)
      ensures HandedStep(old(conns), conns, old(handed), handed, ourIp, k)
      ensures DeliversAll(old(OnLink()), OnLink(), Me(), now, Since(old(handed), handed))
    {
      hide AppClose, Mirrors, Sent, StepAt, NewSegments, HandedOver, DeliversAll, Since, OnLink, LinkSound,
           TcpManager.Table, TcpManager.Valid;
      ghost var before := tcp.Table();
      var out := tcp.Close(k, now);
      SendSegments(out, Some(k), k.remoteIp);
      SentNothing(before, k, now);
      if k !in before {
        NothingMeansSame(old(handed), handed, ourIp, k.remoteIp, Own(k.localPort));
      }
      MirrorsCall(conns, before, tcp.Table(), k, Event.Close, now);
      CallEmits(conns, before, k, Event.Close, now);
      conns := StepAt(conns, k, Event.Close, now);
    }

    /** A TCP segment that passed its checksum. */
    method HandleTcp(src: Ip, h: Header, payload: seq<byte>)
      requires Valid()
      modifies this, tcp.connections.Values, arp
      ensures Valid() && now == old(now)
      ensures conns == StepAt(old(conns), ConnKey(ourIp, h.dstPort, src, h.srcPort), Segment(h, payload), now)
      ensures Replied(old(conns), conns, old(handed), handed, ourIp, src, h, payload)
      ensures DeliversAll(old(OnLink()), OnLink(), Me(), now, Since(old(handed), handed))
    {
      hide Process, Mirrors, Sent, StepAt, NewSegments, HandedOver, ResetReply, DeliversAll, Since, OnLink, LinkSound,
           TcpManager.Table, TcpManager.Valid;
      ghost var before := tcp.Table();
      tcp.TableKeys();
      SameKeys(conns, before);
      var key, out := tcp.Process(ourIp, src, h, payload, now);
      SendSegments(out, key, src);
      ghost var k := ConnKey(ourIp, h.dstPort, src, h.srcPort);
      MirrorsCall(conns, before, tcp.Table(), k, Segment(h, payload), now);
      CallEmits(conns, before, k, Segment(h, payload), now);
      conns := StepAt(conns, k, Segment(h, payload), now);
    }

    /** An echo request is answered, anything else that is no segment ignored. */
    method HandleIcmp(ip: Ipv4Header, data: seq<byte>)
      requires Sound()
      modifies tcp.connections.Values, arp, this`tap, this`trace, this`handed
      ensures Sound() && tcp.connections == old(tcp.connections) && tcp.Table() == old(tcp.Table())
      ensures if IsEchoRequest(data)
              then exists reply :: IsEchoReply(data, reply)
                     && handed == old(handed) + [(ip.src, BuildIpv4(ourIp, ip.src, IP_PROTO_ICMP, 64, reply))]
              else handed == old(handed)
      ensures DeliversAll(old(OnLink()), OnLink(), Me(), now, Since(old(handed), handed))
    {
      hide BuildIpv4, IsEchoReply, IsEchoRequest, Delivers, DeliversAll, Since, OnLink, Sound, TcpManager.Table,
           TcpManager.Valid, ArpCache.Valid;
      DeliversNothing(OnLink(), Me(), now, handed);
      var reply := EchoReply(data);
      if reply.Some? {
        var packet := FillIpv4(ourIp, ip.src, IP_PROTO_ICMP, 64, reply.value);
        SendFrame(ip.src, packet, None);
        DeliversOneMore(old(OnLink()), old(OnLink()), OnLink(), Me(), now, old(handed), old(handed), (ip.src, packet));
      }
    }

    method HandleIpv4(hdr: EthernetHeader, payload: seq<byte>)
      requires Valid()
      modifies this, tcp.connections.Values, arp
      ensures Valid() && now == old(now)
      ensures conns == ConnsAfterPacket(old(conns), ourIp, payload, now)
      ensures PacketAnswered(old(conns), conns, old(handed), handed, ourIp, payload)
      ensures PacketOnLink(old(OnLink()), OnLink(), Me(), now, hdr.src, payload, Since(old(handed), handed))
    {
      hide Replied, Mirrors, Episodes, ParseIpv4, ParseTcp, VerifyTcpChecksum, StepAt, BuildIpv4, IsEchoReply,
           IsEchoRequest, DeliversAll, Since, PacketOnLink, TcpManager.Table, TcpManager.Valid, ArpCache.Valid;
      var parsed := ParseIpv4(payload);
      if parsed.None? {
        NoPacket(OnLink(), Me(), now, hdr.src, payload, handed);
        return;
      }
      var (ip, data) := parsed.value;
      var clock: Time :| clock >= now;
      arp.Learn(ip.src, hdr.src, clock);
      ghost var learned := OnLink();
      assert learned == LearnAt(old(OnLink()), ip.src, hdr.src, clock);
      DeliversNothing(learned, Me(), now, handed);
      if ip.protocol == IP_PROTO_ICMP {
        HandleIcmp(ip, data);
      } else if ip.protocol == IP_PROTO_TCP {
        if VerifyTcpChecksum(ip.src, ip.dst, data) {
          var segment := ParseTcp(data);
          if segment.Some? {
            HandleTcp(ip.src, segment.value.0, segment.value.1);
          }
        }
      }
      PacketLinked(old(OnLink()), OnLink(), Me(), now, hdr.src, payload, Since(old(handed), handed), clock);
    }

    /** Writes released packets in the order they were queued. */
    method WriteAll(mac: Mac, packets: seq<Packet>)
      requires LinkValid()
      modifies this`tap, this`trace
      ensures LinkValid() && tap == old(tap) + Frames(Me(), mac, packets)
      ensures trace == old(trace).(times := trace.times)
    {
      hide BuildFrame, NoRequest, LinkValid;
      assert tap + Frames(Me(), mac, packets[..0]) == tap;
      for i := 0 to |packets|
        invariant LinkValid() && tap == old(tap) + Frames(Me(), mac, packets[..i])
        invariant trace == old(trace).(times := trace.times)
      {
        PacketIsNoRequest(Me(), mac, packets[i]);
        OneMoreFrame(old(tap), Me(), mac, packets, i);
        WriteFrame(BuildFrame(mac, ourMac, ETH_TYPE_IPV4, packets[i]));
      }
      assert packets[..|packets|] == packets;
    }

    /** A reply: the address is cached and everything that waits for it leaves. */
    method Release(ip: Ip, mac: Mac, clock: Time)
      requires LinkSound()
      modifies arp, this`tap, this`trace
      ensures LinkSound() && arp.entries == old(arp.entries)[ip := CacheEntry(mac, clock + CACHE_TTL)]
      ensures arp.pending == old(arp.pending) - {ip}
      ensures tap == old(tap) + Frames(Me(), mac, Waiting(old(arp.pending), ip))
    {
      hide Episodes, Accounts, ArpCache.Valid, Frames, Towards, At, Waiting;
      EpisodesLater(Me(), tap, trace, arp.asked, {ip}, now, now);
      AccountsReleased(handed, trace, arp.queued, arp.batches, tap, ip, Waiting(arp.pending, ip), Me(), mac);
      ghost var booked := trace.(outbound := trace.outbound + Towards(ip, Waiting(arp.pending, ip)));
      var released := arp.Insert(ip, mac, clock);
      WriteAll(mac, released);
      EpisodesBooked(Me(), tap, trace, booked.(times := trace.times), arp.asked, now);
      trace := booked.(times := trace.times);
      AccountsFrame(handed, booked, trace, arp.queued, arp.batches, tap, tap);
    }

    method HandleArp(payload: seq<byte>)
      requires Valid()
      modifies this`tap, this`trace, arp
      ensures Valid() && ArpOnLink(old(OnLink()), OnLink(), Me(), now, payload)
    {
      hide Mirrors, BuildFrame, ParseArp, Episodes, Accounts, PacketsOn, IsAt, Frames, NoRequest, TcpManager.Table,
           TcpManager.Valid, ArpCache.Valid;
      var parsed := ParseArp(payload);
      if parsed.None? {
        return;
      }
      var p := parsed.value;
      var clock: Time :| clock >= now;
      var later: Time :| later >= clock;
      ghost var target := ArpAt(OnLink(), Me(), p, clock, later);
      arp.Learn(p.spa, p.sha, clock);
      if p.oper == ARP_OP_REQUEST && p.tpa == ourIp {
        ReplyIsNoRequest(Me(), p);
        ReplyWritten(tap, Me(), p);
        ghost var before, books := tap, trace;
        WriteFrame(IsAt(Me(), p));
        AccountsFrame(handed, books, trace, arp.queued, arp.batches, before, tap);
      } else if p.oper == ARP_OP_REPLY {
        Release(p.spa, p.sha, later);
      }
      assert OnLink() == target;
    }

    method Dispatch(data: seq<byte>)
      requires Valid()
      modifies this, tcp.connections.Values, arp
      ensures Valid() && now == old(now)
      ensures conns == ConnsAfterFrame(old(conns), ourIp, data, now)
      ensures FrameHandled(old(conns), old(OnLink()), old(handed), OnLink(), handed, Me(), now, data)
    {
      hide Valid, Sound, OnLink, ParseFrame, ConnsAfterPacket, PacketAnswered, PacketOnLink, ArpOnLink, Since,
           Mirrors, Episodes, TcpManager.Table, TcpManager.Valid, ArpCache.Valid;
      var frame := ParseFrame(data);
      if frame.None? {
        return;
      }
      if frame.value.0.ethertype == ETH_TYPE_ARP {
        HandleArp(frame.value.1);
      } else if frame.value.0.ethertype == ETH_TYPE_IPV4 {
        HandleIpv4(frame.value.0, frame.value.1);
      }
    }

    /** Asks again for what is overdue; what was asked for three times is dropped with its packets. */
    method ArpTick()
      requires Valid()
      modifies this`tap, this`trace, arp
      ensures Valid() && now == old(now) && conns == old(conns) && handed == old(handed)
      ensures TickOnLink(old(OnLink()), OnLink(), Me(), now)
    {
      hide Mirrors, WhoHas, Episodes, Accounts, DropAll, DueAgain, AskedAll, Ticked, Requests, Overdue, At, OnWire,
           TcpManager.Table, TcpManager.Valid, ArpCache.Valid;
      ghost var before, batches := arp.asked, arp.batches;
      var retry, timedOut := arp.Tick(now);
      ghost var gone := set ip | ip in timedOut;
      EpisodesLater(Me(), tap, trace, before, gone, now, now);
      AccountsDropped(handed, trace, arp.queued, batches, tap, old(arp.pending), gone);
      ghost var pending := arp.pending;
      Due(old(arp.pending), now, retry);
      AllAsked(old(arp.pending), retry, gone, now);
      NobodyAsked(pending, now, Me());
      assert retry[..0] == [];
      for i := 0 to |retry|
        invariant Valid() && now == old(now) && conns == old(conns) && handed == old(handed)
        invariant arp.entries == old(arp.entries) && arp.pending == AskedAll(pending, retry[..i], now)
        invariant tap == old(tap) + Requests(Me(), retry[..i])
      {
        OneMoreAsked(old(arp.pending), gone, retry, i, now);
        OneMoreRequest(old(tap), Me(), retry, i);
        Ask(retry[i]);
      }
      assert retry[..|retry|] == retry;
      assert OnLink() == TickAt(old(OnLink()), Me(), now, retry);
    }

    /** One more request of an episode that is overdue. */
    method Ask(ip: Ip)
      requires LinkSound() && ip in arp.pending && arp.pending[ip].retries < MAX_RETRIES
      requires arp.pending[ip].lastRequest + PENDING_RETRY_INTERVAL <= now
      modifies this`tap, this`trace, arp
      ensures LinkSound() && arp.entries == old(arp.entries) && tap == old(tap) + [WhoHas(Me(), ip)]
      ensures arp.pending == old(arp.pending)[ip := AskedAgain(old(arp.pending)[ip], now)]
    {
      hide WhoHas, Episodes, Accounts, PacketsOn, TimesOf, Spaced, ArpCache.Valid;
      arp.Episode(ip);
      AskedOnce(Me(), tap, trace, arp.asked, now, ip);
      EpisodeRetries(Me(), tap, trace, arp.asked, now, ip);
      RequestWritten(tap, Me(), ip);
      ghost var trace' := trace.(times := trace.times + [now]);
      AccountsFrame(handed, trace, trace', arp.queued, arp.batches, tap, tap + [WhoHas(Me(), ip)]);
      tap := tap + [WhoHas(Me(), ip)];
      trace := trace';
      arp.RecordRequest(ip, now);
    }

    method TcpRetransmit()
      requires Valid()
      modifies this, tcp, tcp.connections.Values, arp
      ensures Valid() && now == old(now)
      ensures conns == PollAll(old(conns), now)
      ensures Retransmitted(old(conns), old(OnLink()), old(handed), OnLink(), handed, Me(), now)
      ensures tcp.connections.Values <= old(tcp.connections.Values)
    {
      hide OnTimer, Retained, RecordSent, Mirrors, SegmentsFor, ListsPolls, HandedList, Delivers, DeliversAll, Since,
           OnLink, Carries, PollAll, LinkSound, TcpManager.Table, TcpManager.Valid;
      ghost var before := tcp.Table();
      var list := tcp.PollRetransmit(now);
      ghost var after := tcp.Table();
      MirrorsPoll(conns, before, after, now);
      PollsListed(conns, before, list, now);
      NothingListed(handed, ourIp);
      DeliversNothing(OnLink(), Me(), now, handed);
      assert list[..0] == [];
      for i := 0 to |list|
        invariant Sound() && now == old(now) && conns == old(conns) && |old(handed)| <= |handed|
        invariant tcp.connections.Values <= old(tcp.connections.Values)
        invariant tcp.Table() == after
        invariant HandedList(old(handed), handed, ourIp, list[..i])
        invariant DeliversAll(old(OnLink()), OnLink(), Me(), now, Since(old(handed), handed))
      {
        var (k, s) := list[i];
        RetransmittedIsArmed(before, after, list, now, i);
        var packet := PacketFor(k.remoteIp, k.localPort, s);
        OneMoreListed(old(handed), handed, ourIp, list, i, (k.remoteIp, packet));
        ghost var link, already := OnLink(), handed;
        SendFrame(k.remoteIp, packet, Some(k));
        DeliversOneMore(old(OnLink()), link, OnLink(), Me(), now, old(handed), already, (k.remoteIp, packet));
      }
      assert list[..|list|] == list;
      conns := PollAll(conns, now);
    }

    /** Time passes; nothing else does. */
    method SetClock(clock: Time)
      requires Valid() && clock >= now
      modifies this`now
      ensures Valid() && now == clock
    {
      hide Mirrors, Episodes, Accounts, TcpManager.Table, TcpManager.Valid, ArpCache.Valid;
      EpisodesLater(Me(), tap, trace, arp.asked, {}, now, clock);
      assert arp.asked - {} == arp.asked;
      now := clock;
    }

    /** One iteration: read the clock, retry, retransmit, then handle every frame the device holds. */
    method Poll(clock: Time, frames: seq<seq<byte>>)
      requires Valid() && clock >= now
      modifies this, tcp, tcp.connections.Values, arp
      ensures Valid() && now == clock
      ensures conns == ConnsAfterFrames(PollAll(old(conns), clock), ourIp, frames, clock)
      ensures Polled(old(conns), old(OnLink()), old(handed), OnLink(), handed, Me(), clock, frames)
      ensures old(tap) <= tap && old(handed) <= handed
    {
      hide Mirrors, PollAll, ConnsAfterFrame, ConnsAfterFrames, FrameHandled, FramesHandled, Retransmitted,
           TickOnLink, Polled, LinkSound, TcpManager.Table, TcpManager.Valid;
      SetClock(clock);
      ArpTick();
      ghost var ticked := OnLink();
      TcpRetransmit();
      ghost var polled, link, already := conns, OnLink(), handed;
      NoFrames(polled, link, already, Me(), clock);
      assert frames[..0] == [];
      for i := 0 to |frames|
        invariant Valid() && now == clock && tcp.connections.Values <= old(tcp.connections.Values)
        invariant conns == ConnsAfterFrames(polled, ourIp, frames[..i], clock)
        invariant FramesHandled(polled, link, already, OnLink(), handed, Me(), clock, frames[..i])
      {
        ghost var link1, handed1 := OnLink(), handed;
        Dispatch(frames[i]);
        OneMoreFrameHandled(polled, link, already, link1, handed1, OnLink(), handed, Me(), clock, frames, i);
      }
      assert frames[..|frames|] == frames;
      PollComposed(old(conns), old(OnLink()), old(handed), ticked, link, already, OnLink(), handed, Me(), clock,
                   frames);
    }
  }

  lemma {:induction false} SameState(conns: map<ConnKey, Conn>, t: Table, k: ConnKey)
    requires Mirrors(conns, t)
    ensures k in conns <==> k in t
    ensures k in conns ==> conns[k].t == t[k]
  {
    hide Reachable;
  }

  lemma {:induction false} Presence(conns: map<ConnKey, Conn>, t: Table, k: ConnKey)
    requires Mirrors(conns, t)
    ensures k in conns ==> conns[k].present
  {
    hide Reachable;
  }

  /** Inserting a fresh block and sending its SYN leaves the block a run starts with. */
  lemma {:induction false} StartSent(t: Table, k: ConnKey, iss: u32, now: Time, out: seq<OutSegment>)
    requires out != []
    ensures Sent(t[k := Fresh(k, iss, now)], k, out, now) == t[k := Start(k, iss, now).t]
  {
    hide Start, Fresh, RecordSent;
    StartBlock(k, iss, now);
  }

  lemma {:induction false} RecvDrains(c: Conn, now: Time)
    requires c.present
    ensures Step(c, Timed(now, Event.Recv)).drained == c.drained + c.t.recvBuffer
    ensures Effect(c.t, Event.Recv, now) == (Drained(c.t), [])
  {
    hide Step, AfterSending, Tag;
    StepParts(c, Timed(now, Event.Recv));
  }

  lemma {:induction false} SameKeys(conns: map<ConnKey, Conn>, t: Table)
    requires Mirrors(conns, t)
    ensures conns.Keys == t.Keys
  {
    hide Reachable;
  }

  lemma {:induction false} NoPacket(
    l: Link, host: Host, now: Time, mac: Mac, packet: seq<byte>, handed: seq<(Ip, Packet)>)
    requires ParseIpv4(packet).None?
    ensures PacketOnLink(l, l, host, now, mac, packet, Since(handed, handed))
  {
    hide ParseIpv4;
  }

  lemma {:induction false} SentTwice(t: Table, k: ConnKey, a: seq<OutSegment>, b: seq<OutSegment>, now: Time)
    requires |b| == |a| + 1
    ensures Sent(t, k, b, now) == if k in t then Sent(t, k, a, now)[k := RecordSent(Sent(t, k, a, now)[k], now)]
                                  else Sent(t, k, a, now)
    ensures k in Sent(t, k, a, now) <==> k in t
  {
  }

  lemma {:induction false} StartBlock(k: ConnKey, iss: u32, now: Time)
    ensures Start(k, iss, now).t == RecordSent(Fresh(k, iss, now), now) && Start(k, iss, now).present
    ensures SynOf(Start(k, iss, now).t) == SynOf(Fresh(k, iss, now))
  {
  }
}
