/**
 * The link below IPv4 as one value: address cache, queue of waiting packets and the frames
 * written so far.  Every call of the stack is specified by what it does to this value, and every
 * request for an address is accounted for on the wire.
 */
module Link {
  import opened Wire
  import opened TcpSpec
  import opened Packets
  import opened Arp

  datatype Host = Host(ip: Ip, mac: Mac)

  datatype Link = Link(entries: map<Ip, CacheEntry>, pending: map<Ip, PendingEntry>, tap: seq<seq<byte>>)

  // ---- Frames ------------------------------------------------------------------------------

  /** The answer to a request for our address. */
  function IsAt(host: Host, request: ArpPacket): seq<byte> {
    BuildFrame(request.sha, host.mac, ETH_TYPE_ARP,
               BuildArp(ArpPacket(ARP_OP_REPLY, host.mac, host.ip, request.sha, request.spa)))
  }

  function Request(host: Host, target: Ip): ArpPacket {
    ArpPacket(ARP_OP_REQUEST, host.mac, host.ip, ZERO_MAC, target)
  }

  function WhoHas(host: Host, target: Ip): seq<byte> {
    BuildFrame(BROADCAST_MAC, host.mac, ETH_TYPE_ARP, BuildArp(Request(host, target)))
  }

  /** The frames of packets that leave together. */
  function Frames(host: Host, mac: Mac, packets: seq<Packet>): (frames: seq<seq<byte>>)
    ensures |frames| == |packets|
    ensures forall i :: 0 <= i < |packets| ==> frames[i] == BuildFrame(mac, host.mac, ETH_TYPE_IPV4, packets[i])
  {
    seq(|packets|, i requires 0 <= i < |packets| => BuildFrame(mac, host.mac, ETH_TYPE_IPV4, packets[i]))
  }

  function Requests(host: Host, targets: seq<Ip>): (frames: seq<seq<byte>>)
    ensures |frames| == |targets|
    ensures forall i :: 0 <= i < |targets| ==> frames[i] == WhoHas(host, targets[i])
  {
    seq(|targets|, i requires 0 <= i < |targets| => WhoHas(host, targets[i]))
  }

  // ---- Sending a packet ----------------------------------------------------------------------

  function OneMoreWaits(entry: PendingEntry, packet: Packet): PendingEntry {
    entry.(packets := entry.packets + [packet])
  }

  /** The packet leaves if the address is known at `clock`; otherwise it waits, and a new queue asks. */
  function DeliverAt(l: Link, host: Host, now: Time, p: (Ip, Packet), clock: Time): Link {
    if p.0 in l.entries && l.entries[p.0].expires >= clock then
      l.(tap := l.tap + [BuildFrame(l.entries[p.0].mac, host.mac, ETH_TYPE_IPV4, p.1)])
    else if p.0 in l.pending then
      l.(pending := l.pending[p.0 := OneMoreWaits(l.pending[p.0], p.1)])
    else
      l.(pending := l.pending[p.0 := PendingEntry([p.1], now, 1)], tap := l.tap + [WhoHas(host, p.0)])
  }

  ghost predicate Delivers(l: Link, l': Link, host: Host, now: Time, p: (Ip, Packet)) {
    exists clock: Time :: clock >= now && l' == DeliverAt(l, host, now, p, clock)
  }

  /** The packets one after the other. */
  ghost predicate DeliversAll(l: Link, l': Link, host: Host, now: Time, packets: seq<(Ip, Packet)>)
    decreases |packets|
  {
    if packets == [] then l' == l
    else
      var rest, last := packets[..|packets| - 1], packets[|packets| - 1];
      exists mid :: DeliversAll(l, mid, host, now, rest) && Delivers(mid, l', host, now, last)
  }

  /** What was added to a log. */
  function Since<T>(before: seq<T>, after: seq<T>): seq<T> {
    if |before| <= |after| then after[|before|..] else []
  }

  lemma {:induction false} DeliversNothing(l: Link, host: Host, now: Time, handed: seq<(Ip, Packet)>)
    ensures DeliversAll(l, l, host, now, Since(handed, handed))
  {
  }

  lemma {:induction false} DeliversOneMore(
    l: Link, mid: Link, l': Link, host: Host, now: Time, before: seq<(Ip, Packet)>, handed: seq<(Ip, Packet)>,
    p: (Ip, Packet))
    requires |before| <= |handed| && DeliversAll(l, mid, host, now, Since(before, handed))
    requires Delivers(mid, l', host, now, p)
    ensures DeliversAll(l, l', host, now, Since(before, handed + [p]))
  {
    hide Delivers;
    var all := Since(before, handed + [p]);
    assert all == Since(before, handed) + [p];
    assert all[..|all| - 1] == Since(before, handed) && all[|all| - 1] == p;
  }

  lemma {:induction false} DeliversGrows(l: Link, l': Link, host: Host, now: Time, packets: seq<(Ip, Packet)>)
    requires DeliversAll(l, l', host, now, packets)
    ensures l.tap <= l'.tap && l'.entries == l.entries
    decreases |packets|
  {
    hide Delivers;
    if packets != [] {
      var rest, last := packets[..|packets| - 1], packets[|packets| - 1];
      var mid :| DeliversAll(l, mid, host, now, rest) && Delivers(mid, l', host, now, last);
      DeliversGrows(l, mid, host, now, rest);
      DeliveryGrows(mid, l', host, now, last);
    }
  }

  lemma {:induction false} DeliveryGrows(l: Link, l': Link, host: Host, now: Time, p: (Ip, Packet))
    requires Delivers(l, l', host, now, p)
    ensures l.tap <= l'.tap && l'.entries == l.entries
  {
    hide BuildFrame, WhoHas;
  }

  // ---- Frames that arrive ----------------------------------------------------------------------

  function LearnAt(l: Link, ip: Ip, mac: Mac, clock: Time): Link {
    if ip == ZERO_IP || mac == ZERO_MAC then l else l.(entries := l.entries[ip := CacheEntry(mac, clock + CACHE_TTL)])
  }

  /** What is learned is used for a minute; the zero addresses are never learned. */
  lemma {:induction false} LearnedForAMinute(
    l: Link, host: Host, now: Time, ip: Ip, mac: Mac, clock: Time, packet: Packet, later: Time)
    requires ip != [0, 0, 0, 0] && mac != [0, 0, 0, 0, 0, 0]
    ensures var l1 := LearnAt(l, ip, mac, clock);
            DeliverAt(l1, host, now, (ip, packet), later)
            == (if later <= clock + 60 * SECOND
                then l1.(tap := l1.tap + [BuildFrame(mac, host.mac, ETH_TYPE_IPV4, packet)])
                else DeliverAt(l1.(entries := map[]), host, now, (ip, packet), later).(entries := l1.entries))
    ensures LearnAt(l, [0, 0, 0, 0], mac, clock) == l && LearnAt(l, ip, [0, 0, 0, 0, 0, 0], clock) == l
  {
    hide BuildFrame, WhoHas;
  }

  /** An ARP packet: its sender is learned; a request for us is answered, a reply ends the episode. */
  function ArpAt(l: Link, host: Host, p: ArpPacket, clock: Time, later: Time): Link {
    var l1 := LearnAt(l, p.spa, p.sha, clock);
    if p.oper == ARP_OP_REQUEST && p.tpa == host.ip then l1.(tap := l1.tap + [IsAt(host, p)])
    else if p.oper == ARP_OP_REPLY then
      Link(l1.entries[p.spa := CacheEntry(p.sha, later + CACHE_TTL)], l1.pending - {p.spa},
           l1.tap + Frames(host, p.sha, Waiting(l1.pending, p.spa)))
    else l1
  }

  ghost predicate ArpOnLink(l: Link, l': Link, host: Host, now: Time, payload: seq<byte>) {
    var p := ParseArp(payload);
    if p.None? then l' == l
    else exists clock: Time, later: Time :: now <= clock <= later && l' == ArpAt(l, host, p.value, clock, later)
  }

  lemma {:induction false} ArpGrows(l: Link, l': Link, host: Host, now: Time, payload: seq<byte>)
    requires ArpOnLink(l, l', host, now, payload)
    ensures l.tap <= l'.tap
  {
    hide IsAt, Frames, ParseArp;
  }

  /** An IPv4 packet: its sender is learned, then the packets that answer it are sent. */
  ghost predicate PacketOnLink(
    l: Link, l': Link, host: Host, now: Time, mac: Mac, packet: seq<byte>, answers: seq<(Ip, Packet)>) {
    var p := ParseIpv4(packet);
    if p.None? then l' == l && answers == []
    else exists clock: Time ::
      clock >= now && DeliversAll(LearnAt(l, p.value.0.src, mac, clock), l', host, now, answers)
  }

  lemma {:induction false} PacketLinked(
    l: Link, l': Link, host: Host, now: Time, mac: Mac, packet: seq<byte>, answers: seq<(Ip, Packet)>, clock: Time)
    requires ParseIpv4(packet).Some? && clock >= now
    requires DeliversAll(LearnAt(l, ParseIpv4(packet).value.0.src, mac, clock), l', host, now, answers)
    ensures PacketOnLink(l, l', host, now, mac, packet, answers)
  {
    hide DeliversAll, ParseIpv4, LearnAt;
  }

  lemma {:induction false} PacketGrows(
    l: Link, l': Link, host: Host, now: Time, mac: Mac, packet: seq<byte>, answers: seq<(Ip, Packet)>)
    requires PacketOnLink(l, l', host, now, mac, packet, answers)
    ensures l.tap <= l'.tap
  {
    hide DeliversAll, ParseIpv4;
    var p := ParseIpv4(packet);
    if p.Some? {
      var clock: Time :| clock >= now && DeliversAll(LearnAt(l, p.value.0.src, mac, clock), l', host, now, answers);
      DeliversGrows(LearnAt(l, p.value.0.src, mac, clock), l', host, now, answers);
    }
  }

  // ---- Ticks ---------------------------------------------------------------------------------

  /** The addresses to ask for again, each once, in some order. */
  ghost predicate DueAgain(pending: map<Ip, PendingEntry>, now: Time, targets: seq<Ip>) {
    && (forall i, j :: 0 <= i < j < |targets| ==> targets[i] != targets[j])
    && (forall ip :: ip in targets <==> ip in pending && pending[ip].retries < MAX_RETRIES && Overdue(pending[ip], now))
  }

  lemma {:induction false} Due(pending: map<Ip, PendingEntry>, now: Time, targets: seq<Ip>)
    requires forall i, j :: 0 <= i < j < |targets| ==> targets[i] != targets[j]
    requires forall ip :: ip in targets <==>
               ip in pending && pending[ip].retries < MAX_RETRIES && Overdue(pending[ip], now)
    ensures DueAgain(pending, now, targets)
  {
  }

  /** The queue with some addresses asked for again. */
  function AskedAll(pending: map<Ip, PendingEntry>, targets: seq<Ip>, now: Time): map<Ip, PendingEntry> {
    map ip | ip in pending :: if ip in targets then AskedAgain(pending[ip], now) else pending[ip]
  }

  /** The queue after a tick: what was overdue is asked for once more or, after three requests, given up. */
  function Ticked(pending: map<Ip, PendingEntry>, now: Time): map<Ip, PendingEntry> {
    map ip | ip in pending && !(Overdue(pending[ip], now) && pending[ip].retries >= MAX_RETRIES) ::
      if Overdue(pending[ip], now) then AskedAgain(pending[ip], now) else pending[ip]
  }

  /** A tick, address by address: nothing within three seconds of a request, the fourth time it is given up. */
  lemma {:induction false} TickedExactly(pending: map<Ip, PendingEntry>, now: Time, ip: Ip)
    requires ip in pending
    ensures var e := pending[ip];
            if now < e.lastRequest + 3 * SECOND then ip in Ticked(pending, now) && Ticked(pending, now)[ip] == e
            else if e.retries < 3 then
              && ip in Ticked(pending, now)
              && Ticked(pending, now)[ip] == PendingEntry(e.packets, now, e.retries + 1)
            else ip !in Ticked(pending, now)
  {
  }

  function TickAt(l: Link, host: Host, now: Time, targets: seq<Ip>): Link {
    l.(pending := Ticked(l.pending, now), tap := l.tap + Requests(host, targets))
  }

  ghost predicate TickOnLink(l: Link, l': Link, host: Host, now: Time) {
    exists targets :: DueAgain(l.pending, now, targets) && l' == TickAt(l, host, now, targets)
  }

  lemma {:induction false} NobodyAsked(pending: map<Ip, PendingEntry>, now: Time, host: Host)
    ensures AskedAll(pending, [], now) == pending && Requests(host, []) == []
  {
  }

  lemma {:induction false} OneMoreAsked(
    pending: map<Ip, PendingEntry>, gone: set<Ip>, targets: seq<Ip>, i: nat, now: Time)
    requires DueAgain(pending, now, targets) && i < |targets|
    requires forall ip :: ip in gone ==> ip in pending && pending[ip].retries >= MAX_RETRIES
    ensures var pending := pending - gone;
            var p := AskedAll(pending, targets[..i], now);
            && targets[i] in p && p[targets[i]] == pending[targets[i]]
            && p[targets[i]].retries < MAX_RETRIES && p[targets[i]].lastRequest + PENDING_RETRY_INTERVAL <= now
            && AskedAll(pending, targets[..i + 1], now) == p[targets[i] := AskedAgain(pending[targets[i]], now)]
  {
    hide AskedAgain;
    assert targets[..i + 1] == targets[..i] + [targets[i]];
    assert targets[i] !in targets[..i];
    assert targets[i] in targets;
  }

  lemma {:induction false} OneMoreRequest(tap: seq<seq<byte>>, host: Host, targets: seq<Ip>, i: nat)
    requires i < |targets|
    ensures tap + Requests(host, targets[..i]) + [WhoHas(host, targets[i])] == tap + Requests(host, targets[..i + 1])
  {
    hide WhoHas;
    assert Requests(host, targets[..i]) + [WhoHas(host, targets[i])] == Requests(host, targets[..i + 1]);
  }

  lemma {:induction false} OneMoreFrame(tap: seq<seq<byte>>, host: Host, mac: Mac, packets: seq<Packet>, i: nat)
    requires i < |packets|
    ensures tap + Frames(host, mac, packets[..i]) + [BuildFrame(mac, host.mac, ETH_TYPE_IPV4, packets[i])]
            == tap + Frames(host, mac, packets[..i + 1])
  {
    hide BuildFrame;
    assert Frames(host, mac, packets[..i]) + [BuildFrame(mac, host.mac, ETH_TYPE_IPV4, packets[i])]
        == Frames(host, mac, packets[..i + 1]);
  }

  lemma {:induction false} AllAsked(pending: map<Ip, PendingEntry>, targets: seq<Ip>, gone: set<Ip>, now: Time)
    requires DueAgain(pending, now, targets)
    requires forall ip :: ip in gone <==>
               ip in pending && pending[ip].retries >= MAX_RETRIES && Overdue(pending[ip], now)
    ensures AskedAll(pending - gone, targets, now) == Ticked(pending, now)
  {
    hide AskedAgain, Overdue;
  }

  // ---- Requests on the wire ----------------------------------------------------------------------

  /**
   * History of the link: when every frame was written, how many there were when each episode under
   * way began, the packets that did not have to wait, and all packets that left, with next hops.
   */
  datatype Trace = Trace(
    times: seq<Time>, began: map<Ip, nat>, direct: map<Ip, seq<Packet>>, outbound: seq<(Ip, Packet)>)

  /** The times at which the frame `ask` was written, from frame `start` on. */
  function TimesOf(ask: seq<byte>, tap: seq<seq<byte>>, times: seq<Time>, start: nat): seq<Time>
    requires |times| == |tap|
    decreases |tap|
  {
    if |tap| <= start then []
    else
      var last := |tap| - 1;
      TimesOf(ask, tap[..last], times[..last], start) + if tap[last] == ask then [times[last]] else []
  }

  lemma {:induction false} TimesOfExtend(
    ask: seq<byte>, tap: seq<seq<byte>>, times: seq<Time>, start: nat, frame: seq<byte>, now: Time)
    requires |times| == |tap| && start <= |tap|
    ensures TimesOf(ask, tap + [frame], times + [now], start)
            == TimesOf(ask, tap, times, start) + if frame == ask then [now] else []
  {
    assert (tap + [frame])[..|tap|] == tap && (times + [now])[..|tap|] == times;
  }

  /**
   * The requests for `ip` written since its episode began are those at `times`: one to three, at
   * least three seconds apart, none later than `now`.
   */
  predicate OnWire(host: Host, tap: seq<seq<byte>>, trace: Trace, ip: Ip, times: seq<Time>, now: Time)
    requires |trace.times| == |tap|
  {
    && ip in trace.began && trace.began[ip] <= |tap|
    && TimesOf(WhoHas(host, ip), tap, trace.times, trace.began[ip]) == times
    && 1 <= |times| <= MAX_RETRIES && Spaced(times) && times[|times| - 1] <= now
  }

  /** Every episode under way, as the queue remembers it, is what stands on the wire. */
  ghost predicate Episodes(host: Host, tap: seq<seq<byte>>, trace: Trace, asked: map<Ip, seq<Time>>, now: Time) {
    |trace.times| == |tap| && forall ip :: ip in asked ==> OnWire(host, tap, trace, ip, asked[ip], now)
  }

  lemma {:induction false} RequestsDiffer(host: Host, a: Ip, b: Ip)
    requires WhoHas(host, a) == WhoHas(host, b)
    ensures a == b
  {
    hide BuildFrame, BuildArp, ParseFrame, ParseArp;
    var p, q := Request(host, a), Request(host, b);
    FrameRoundTrip(BROADCAST_MAC, host.mac, ETH_TYPE_ARP, BuildArp(p));
    FrameRoundTrip(BROADCAST_MAC, host.mac, ETH_TYPE_ARP, BuildArp(q));
    ArpRoundTrip(p);
    ArpRoundTrip(q);
  }

  /** What everybody reads in a request: who has this address, tell us at our addresses. */
  lemma {:induction false} RequestReads(host: Host, target: Ip)
    ensures var f := ParseFrame(WhoHas(host, target));
            && f.Some? && f.value.0 == EthernetHeader([0xFF, 0xFF, 0xFF, 0xFF, 0xFF, 0xFF], host.mac, 0x0806)
            && var p := ParseArp(f.value.1);
               && p.Some? && p.value.oper == 1 && p.value.sha == host.mac && p.value.spa == host.ip
               && p.value.tha == [0, 0, 0, 0, 0, 0] && p.value.tpa == target
  {
    hide BuildFrame, BuildArp, ParseFrame, ParseArp;
    FrameRoundTrip(BROADCAST_MAC, host.mac, ETH_TYPE_ARP, BuildArp(Request(host, target)));
    ArpRoundTrip(Request(host, target));
  }

  /** What the asker reads in the answer: our address is at our hardware address. */
  lemma {:induction false} ReplyReads(host: Host, request: ArpPacket)
    ensures var f := ParseFrame(IsAt(host, request));
            && f.Some? && f.value.0 == EthernetHeader(request.sha, host.mac, 0x0806)
            && var p := ParseArp(f.value.1);
               && p.Some? && p.value.oper == 2 && p.value.sha == host.mac && p.value.spa == host.ip
               && p.value.tha == request.sha && p.value.tpa == request.spa
  {
    hide BuildFrame, BuildArp, ParseFrame, ParseArp;
    var p := ArpPacket(ARP_OP_REPLY, host.mac, host.ip, request.sha, request.spa);
    FrameRoundTrip(request.sha, host.mac, ETH_TYPE_ARP, BuildArp(p));
    ArpRoundTrip(p);
  }

  /** The frame asks for nobody. */
  ghost predicate NoRequest(host: Host, frame: seq<byte>) {
    forall ip: Ip :: frame != WhoHas(host, ip)
  }

  lemma {:induction false} PacketIsNoRequest(host: Host, mac: Mac, packet: Packet)
    ensures NoRequest(host, BuildFrame(mac, host.mac, ETH_TYPE_IPV4, packet))
  {
    hide BuildFrame, BuildArp, ParseFrame;
    FrameRoundTrip(mac, host.mac, ETH_TYPE_IPV4, packet);
    forall ip: Ip ensures BuildFrame(mac, host.mac, ETH_TYPE_IPV4, packet) != WhoHas(host, ip) {
      FrameRoundTrip(BROADCAST_MAC, host.mac, ETH_TYPE_ARP, BuildArp(Request(host, ip)));
    }
  }

  lemma {:induction false} ReplyIsNoRequest(host: Host, request: ArpPacket)
    ensures NoRequest(host, IsAt(host, request))
  {
    hide BuildFrame, BuildArp, ParseFrame, ParseArp;
    var p := ArpPacket(ARP_OP_REPLY, host.mac, host.ip, request.sha, request.spa);
    FrameRoundTrip(request.sha, host.mac, ETH_TYPE_ARP, BuildArp(p));
    ArpRoundTrip(p);
    forall ip: Ip ensures IsAt(host, request) != WhoHas(host, ip) {
      var q := Request(host, ip);
      FrameRoundTrip(BROADCAST_MAC, host.mac, ETH_TYPE_ARP, BuildArp(q));
      ArpRoundTrip(q);
    }
  }

  lemma {:induction false} OtherFrame(
    host: Host, tap: seq<seq<byte>>, trace: Trace, asked: map<Ip, seq<Time>>, now: Time, frame: seq<byte>)
    requires Episodes(host, tap, trace, asked, now) && NoRequest(host, frame)
    ensures Episodes(host, tap + [frame], trace.(times := trace.times + [now]), asked, now)
  {
    hide WhoHas, TimesOf, Spaced;
    var tap', trace' := tap + [frame], trace.(times := trace.times + [now]);
    forall ip | ip in asked ensures OnWire(host, tap', trace', ip, asked[ip], now) {
      assert OnWire(host, tap, trace, ip, asked[ip], now);
      TimesOfExtend(WhoHas(host, ip), tap, trace.times, trace.began[ip], frame, now);
    }
  }

  /** A request for one address is none for another. */
  lemma {:induction false} OthersUnasked(
    host: Host, tap: seq<seq<byte>>, trace: Trace, asked: map<Ip, seq<Time>>, now: Time, target: Ip, other: Ip)
    requires Episodes(host, tap, trace, asked, now) && other in asked && other != target
    ensures OnWire(host, tap + [WhoHas(host, target)], trace.(times := trace.times + [now]), other, asked[other], now)
  {
    hide WhoHas, TimesOf, Spaced;
    assert OnWire(host, tap, trace, other, asked[other], now);
    TimesOfExtend(WhoHas(host, other), tap, trace.times, trace.began[other], WhoHas(host, target), now);
    if WhoHas(host, other) == WhoHas(host, target) {
      RequestsDiffer(host, other, target);
    }
  }

  lemma {:induction false} EpisodeStarts(
    host: Host, tap: seq<seq<byte>>, trace: Trace, asked: map<Ip, seq<Time>>, now: Time, ip: Ip)
    requires Episodes(host, tap, trace, asked, now)
    ensures var trace' := trace.(times := trace.times + [now], began := trace.began[ip := |tap|]);
            Episodes(host, tap + [WhoHas(host, ip)], trace',
                     asked[ip := []][ip := At(asked[ip := []], ip) + [now]], now)
  {
    hide WhoHas, TimesOf;
    var asked' := asked[ip := []][ip := At(asked[ip := []], ip) + [now]];
    var trace' := trace.(times := trace.times + [now], began := trace.began[ip := |tap|]);
    assert asked'[ip] == [now];
    TimesOfExtend(WhoHas(host, ip), tap, trace.times, |tap|, WhoHas(host, ip), now);
    TimesOfNothing(WhoHas(host, ip), tap, trace.times);
    forall other | other in asked'
      ensures OnWire(host, tap + [WhoHas(host, ip)], trace', other, asked'[other], now)
    {
      if other != ip {
        OthersUnasked(host, tap, trace, asked, now, ip, other);
      }
    }
  }

  lemma {:induction false} TimesOfNothing(ask: seq<byte>, tap: seq<seq<byte>>, times: seq<Time>)
    requires |times| == |tap|
    ensures TimesOf(ask, tap, times, |tap|) == []
  {
  }

  lemma {:induction false} EpisodeRetries(
    host: Host, tap: seq<seq<byte>>, trace: Trace, asked: map<Ip, seq<Time>>, now: Time, ip: Ip)
    requires Episodes(host, tap, trace, asked, now) && ip in asked && 0 < |asked[ip]| < MAX_RETRIES
    requires asked[ip][|asked[ip]| - 1] + PENDING_RETRY_INTERVAL <= now
    ensures Episodes(host, tap + [WhoHas(host, ip)], trace.(times := trace.times + [now]),
                     asked[ip := At(asked, ip) + [now]], now)
  {
    hide WhoHas, TimesOf;
    var asked' := asked[ip := At(asked, ip) + [now]];
    assert OnWire(host, tap, trace, ip, asked[ip], now);
    TimesOfExtend(WhoHas(host, ip), tap, trace.times, trace.began[ip], WhoHas(host, ip), now);
    forall other | other in asked'
      ensures OnWire(host, tap + [WhoHas(host, ip)], trace.(times := trace.times + [now]), other, asked'[other], now)
    {
      if other != ip {
        OthersUnasked(host, tap, trace, asked, now, ip, other);
      }
    }
  }

  lemma {:induction false} EpisodesLater(
    host: Host, tap: seq<seq<byte>>, trace: Trace, asked: map<Ip, seq<Time>>, gone: set<Ip>, now: Time, later: Time)
    requires Episodes(host, tap, trace, asked, now) && now <= later
    ensures Episodes(host, tap, trace, asked - gone, later)
  {
    hide WhoHas, TimesOf, Spaced;
    forall ip | ip in asked - gone ensures OnWire(host, tap, trace, ip, asked[ip], later) {
      assert OnWire(host, tap, trace, ip, asked[ip], now);
    }
  }

  lemma {:induction false} AskedOnce(
    host: Host, tap: seq<seq<byte>>, trace: Trace, asked: map<Ip, seq<Time>>, now: Time, ip: Ip)
    requires Episodes(host, tap, trace, asked, now) && ip in asked
    ensures OnWire(host, tap, trace, ip, asked[ip], now)
  {
    hide OnWire;
  }

  /** Episodes do not look at the books. */
  lemma {:induction false} EpisodesBooked(
    host: Host, tap: seq<seq<byte>>, trace: Trace, trace': Trace, asked: map<Ip, seq<Time>>, now: Time)
    requires Episodes(host, tap, trace, asked, now) && trace'.times == trace.times && trace'.began == trace.began
    ensures Episodes(host, tap, trace', asked, now)
  {
    hide WhoHas, TimesOf, Spaced;
    forall ip | ip in asked ensures OnWire(host, tap, trace', ip, asked[ip], now) {
      assert OnWire(host, tap, trace, ip, asked[ip], now);
    }
  }

  lemma {:induction false} SameTimes(trace: Trace, p: (Ip, Packet), now: Time)
    ensures WentOut(trace, p).times == trace.times && WentOut(trace, p).began == trace.began
  {
  }

  // ---- Every packet accounted for ------------------------------------------------------------------

  /** `all` is `a` and `b` put together, each in its own order. */
  predicate Interleaves(all: seq<Packet>, a: seq<Packet>, b: seq<Packet>)
    decreases |all|
  {
    if all == [] then a == [] && b == []
    else
      var rest, last := all[..|all| - 1], all[|all| - 1];
      || (a != [] && a[|a| - 1] == last && Interleaves(rest, a[..|a| - 1], b))
      || (b != [] && b[|b| - 1] == last && Interleaves(rest, a, b[..|b| - 1]))
  }

  lemma {:induction false} OneMoreLeft(all: seq<Packet>, a: seq<Packet>, b: seq<Packet>, p: Packet)
    requires Interleaves(all, a, b)
    ensures Interleaves(all + [p], a + [p], b)
  {
    assert (all + [p])[..|all|] == all && (a + [p])[..|a|] == a;
  }

  lemma {:induction false} OneMoreRight(all: seq<Packet>, a: seq<Packet>, b: seq<Packet>, p: Packet)
    requires Interleaves(all, a, b)
    ensures Interleaves(all + [p], a, b + [p])
  {
    assert (all + [p])[..|all|] == all && (b + [p])[..|b|] == b;
  }

  lemma {:induction false} ManyMoreRight(all: seq<Packet>, a: seq<Packet>, b: seq<Packet>, ps: seq<Packet>)
    requires Interleaves(all, a, b)
    ensures Interleaves(all + ps, a, b + ps)
    decreases |ps|
  {
    hide Interleaves;
    if ps == [] {
      assert all + ps == all && b + ps == b;
    } else {
      var front, last := ps[..|ps| - 1], ps[|ps| - 1];
      assert ps == front + [last];
      ManyMoreRight(all, a, b, front);
      OneMoreRight(all + front, a, b + front, last);
      Associate(all, front, [last]);
      Associate(b, front, [last]);
    }
  }

  lemma {:induction false} LastCounted(ps: seq<Packet>)
    requires ps != []
    ensures multiset(ps) == multiset(ps[..|ps| - 1]) + multiset{ps[|ps| - 1]}
  {
    assert ps == ps[..|ps| - 1] + [ps[|ps| - 1]];
  }

  lemma {:induction false} NothingLostBetween(all: seq<Packet>, a: seq<Packet>, b: seq<Packet>)
    requires Interleaves(all, a, b)
    ensures multiset(all) == multiset(a) + multiset(b)
    decreases |all|
  {
    if all != [] {
      var rest, last := all[..|all| - 1], all[|all| - 1];
      LastCounted(all);
      if a != [] && a[|a| - 1] == last && Interleaves(rest, a[..|a| - 1], b) {
        NothingLostBetween(rest, a[..|a| - 1], b);
        LastCounted(a);
      } else {
        NothingLostBetween(rest, a, b[..|b| - 1]);
        LastCounted(b);
      }
    }
  }

  /** The packets with one next hop. */
  function To(list: seq<(Ip, Packet)>, ip: Ip): seq<Packet> {
    if list == [] then []
    else To(list[..|list| - 1], ip) + if list[|list| - 1].0 == ip then [list[|list| - 1].1] else []
  }

  lemma {:induction false} ToExtend(list: seq<(Ip, Packet)>, p: (Ip, Packet), ip: Ip)
    ensures To(list + [p], ip) == if p.0 == ip then To(list, ip) + [p.1] else To(list, ip)
  {
    assert (list + [p])[..|list|] == list;
  }

  function Towards(ip: Ip, packets: seq<Packet>): (list: seq<(Ip, Packet)>)
    ensures |list| == |packets| && forall i :: 0 <= i < |packets| ==> list[i] == (ip, packets[i])
  {
    seq(|packets|, i requires 0 <= i < |packets| => (ip, packets[i]))
  }

  lemma {:induction false} TowardsLast(hop: Ip, packets: seq<Packet>, last: Packet)
    ensures Towards(hop, packets + [last]) == Towards(hop, packets) + [(hop, last)]
  {
  }

  lemma {:induction false} ToTowards(list: seq<(Ip, Packet)>, hop: Ip, packets: seq<Packet>, ip: Ip)
    ensures To(list + Towards(hop, packets), ip) == if hop == ip then To(list, ip) + packets else To(list, ip)
    decreases |packets|
  {
    if packets == [] {
      assert list + Towards(hop, packets) == list;
    } else {
      hide To, Towards;
      var front, last := packets[..|packets| - 1], packets[|packets| - 1];
      assert packets == front + [last];
      ToTowards(list, hop, front, ip);
      TowardsLast(hop, front, last);
      Associate(list, Towards(hop, front), [(hop, last)]);
      ToExtend(list + Towards(hop, front), (hop, last), ip);
      Associate(To(list, ip), front, [last]);
    }
  }

  function Payloads(list: seq<(Ip, Packet)>): (packets: seq<Packet>)
    ensures |packets| == |list| && forall i :: 0 <= i < |list| ==> packets[i] == list[i].1
  {
    seq(|list|, i requires 0 <= i < |list| => list[i].1)
  }

  /** The IPv4 packets in the frames written so far. */
  function PacketsOn(tap: seq<seq<byte>>): seq<Packet> {
    if tap == [] then []
    else
      var last := ParseFrame(tap[|tap| - 1]);
      PacketsOn(tap[..|tap| - 1])
      + if last.Some? && last.value.0.ethertype == ETH_TYPE_IPV4 then [last.value.1] else []
  }

  lemma {:induction false} PacketWritten(tap: seq<seq<byte>>, dst: Mac, src: Mac, packet: Packet)
    ensures PacketsOn(tap + [BuildFrame(dst, src, ETH_TYPE_IPV4, packet)]) == PacketsOn(tap) + [packet]
  {
    hide BuildFrame, ParseFrame;
    FrameRoundTrip(dst, src, ETH_TYPE_IPV4, packet);
    assert (tap + [BuildFrame(dst, src, ETH_TYPE_IPV4, packet)])[..|tap|] == tap;
  }

  lemma {:induction false} OtherWritten(tap: seq<seq<byte>>, dst: Mac, src: Mac, payload: seq<byte>)
    ensures PacketsOn(tap + [BuildFrame(dst, src, ETH_TYPE_ARP, payload)]) == PacketsOn(tap)
  {
    hide BuildFrame, ParseFrame;
    FrameRoundTrip(dst, src, ETH_TYPE_ARP, payload);
    assert (tap + [BuildFrame(dst, src, ETH_TYPE_ARP, payload)])[..|tap|] == tap;
  }

  lemma {:induction false} RequestWritten(tap: seq<seq<byte>>, host: Host, target: Ip)
    ensures PacketsOn(tap + [WhoHas(host, target)]) == PacketsOn(tap)
  {
    hide BuildArp, BuildFrame, PacketsOn;
    OtherWritten(tap, BROADCAST_MAC, host.mac, BuildArp(Request(host, target)));
  }

  lemma {:induction false} ReplyWritten(tap: seq<seq<byte>>, host: Host, request: ArpPacket)
    ensures PacketsOn(tap + [IsAt(host, request)]) == PacketsOn(tap)
  {
    hide BuildArp, BuildFrame, PacketsOn;
    OtherWritten(tap, request.sha, host.mac,
                 BuildArp(ArpPacket(ARP_OP_REPLY, host.mac, host.ip, request.sha, request.spa)));
  }

  lemma {:induction false} FramesWritten(tap: seq<seq<byte>>, host: Host, mac: Mac, packets: seq<Packet>)
    ensures PacketsOn(tap + Frames(host, mac, packets)) == PacketsOn(tap) + packets
    decreases |packets|
  {
    hide PacketsOn, BuildFrame;
    if packets == [] {
      assert tap + Frames(host, mac, packets) == tap;
    } else {
      var front, last := packets[..|packets| - 1], packets[|packets| - 1];
      assert packets == front + [last];
      FramesWritten(tap, host, mac, front);
      PacketWritten(tap + Frames(host, mac, front), mac, host.mac, last);
      OneMoreFrame(tap, host, mac, packets, |front|);
      assert packets[..|front|] == front && packets[..|front| + 1] == packets;
      Associate(PacketsOn(tap), front, [last]);
    }
  }

  /** The packets of the batches that were released. */
  function Freed(batches: seq<Batch>): seq<Packet> {
    if batches == [] then []
    else
      var last := batches[|batches| - 1];
      Freed(batches[..|batches| - 1]) + if last.Released? then last.packets else []
  }

  /** The packets of the batches that were given up. */
  function GivenUp(batches: seq<Batch>): seq<Packet> {
    if batches == [] then []
    else
      var last := batches[|batches| - 1];
      GivenUp(batches[..|batches| - 1]) + if last.Dropped? then last.packets else []
  }

  lemma {:induction false} FreedExtend(batches: seq<Batch>, b: Batch)
    ensures Freed(batches + [b]) == if b.Released? then Freed(batches) + b.packets else Freed(batches)
  {
    assert (batches + [b])[..|batches|] == batches;
  }

  lemma {:induction false} BatchesSplit(batches: seq<Batch>)
    ensures multiset(Flatten(batches)) == multiset(Freed(batches)) + multiset(GivenUp(batches))
    decreases |batches|
  {
    if batches != [] {
      BatchesSplit(batches[..|batches| - 1]);
    }
  }

  /**
   * The books for one next hop: what was handed over went out at once or was queued, and what is on
   * the wire went out at once or was released, everything in its order.
   */
  ghost predicate Balanced(
    handed: seq<(Ip, Packet)>, trace: Trace, queued: map<Ip, seq<Packet>>, batches: map<Ip, seq<Batch>>, ip: Ip) {
    && Interleaves(To(handed, ip), At(trace.direct, ip), At(queued, ip))
    && Interleaves(To(trace.outbound, ip), At(trace.direct, ip), Freed(At(batches, ip)))
  }

  ghost predicate Accounts(
    handed: seq<(Ip, Packet)>, trace: Trace, queued: map<Ip, seq<Packet>>, batches: map<Ip, seq<Batch>>,
    tap: seq<seq<byte>>) {
    && PacketsOn(tap) == Payloads(trace.outbound)
    && forall ip :: Balanced(handed, trace, queued, batches, ip)
  }

  lemma {:induction false} AccountsOpen()
    ensures Accounts([], Trace([], map[], map[], []), map[], map[], [])
  {
  }

  function WentOut(trace: Trace, p: (Ip, Packet)): Trace {
    trace.(direct := trace.direct[p.0 := At(trace.direct, p.0) + [p.1]], outbound := trace.outbound + [p])
  }

  lemma {:induction false} AccountsDirect(
    handed: seq<(Ip, Packet)>, trace: Trace, queued: map<Ip, seq<Packet>>, batches: map<Ip, seq<Batch>>,
    tap: seq<seq<byte>>, p: (Ip, Packet), dst: Mac, src: Mac)
    requires Accounts(handed, trace, queued, batches, tap)
    ensures Accounts(handed + [p], WentOut(trace, p), queued, batches, tap + [BuildFrame(dst, src, ETH_TYPE_IPV4, p.1)])
  {
    hide PacketsOn, BuildFrame, Interleaves, To, Freed;
    PacketWritten(tap, dst, src, p.1);
    assert Payloads(trace.outbound + [p]) == Payloads(trace.outbound) + [p.1];
    forall ip ensures Balanced(handed + [p], WentOut(trace, p), queued, batches, ip) {
      assert Balanced(handed, trace, queued, batches, ip);
      ToExtend(handed, p, ip);
      ToExtend(trace.outbound, p, ip);
      if ip == p.0 {
        OneMoreLeft(To(handed, ip), At(trace.direct, ip), At(queued, ip), p.1);
        OneMoreLeft(To(trace.outbound, ip), At(trace.direct, ip), Freed(At(batches, ip)), p.1);
      }
    }
  }

  lemma {:induction false} AccountsQueued(
    handed: seq<(Ip, Packet)>, trace: Trace, queued: map<Ip, seq<Packet>>, batches: map<Ip, seq<Batch>>,
    tap: seq<seq<byte>>, p: (Ip, Packet))
    requires Accounts(handed, trace, queued, batches, tap)
    ensures Accounts(handed + [p], trace, queued[p.0 := At(queued, p.0) + [p.1]], batches, tap)
  {
    hide PacketsOn, Interleaves, To, Freed;
    var handed', queued' := handed + [p], queued[p.0 := At(queued, p.0) + [p.1]];
    forall ip ensures Balanced(handed', trace, queued', batches, ip) {
      assert Balanced(handed, trace, queued, batches, ip);
      ToExtend(handed, p, ip);
      if ip == p.0 {
        OneMoreRight(To(handed, ip), At(trace.direct, ip), At(queued, ip), p.1);
      }
    }
  }

  /** Other frames, and times, do not touch the books. */
  lemma {:induction false} AccountsFrame(
    handed: seq<(Ip, Packet)>, trace: Trace, trace': Trace, queued: map<Ip, seq<Packet>>, batches: map<Ip, seq<Batch>>,
    tap: seq<seq<byte>>, tap': seq<seq<byte>>)
    requires Accounts(handed, trace, queued, batches, tap)
    requires PacketsOn(tap') == PacketsOn(tap) && trace'.direct == trace.direct && trace'.outbound == trace.outbound
    ensures Accounts(handed, trace', queued, batches, tap')
  {
    hide PacketsOn, Interleaves, To, Freed;
    forall ip ensures Balanced(handed, trace', queued, batches, ip) {
      assert Balanced(handed, trace, queued, batches, ip);
    }
  }

  lemma {:induction false} AccountsReleased(
    handed: seq<(Ip, Packet)>, trace: Trace, queued: map<Ip, seq<Packet>>, batches: map<Ip, seq<Batch>>,
    tap: seq<seq<byte>>, hop: Ip, packets: seq<Packet>, host: Host, mac: Mac)
    requires Accounts(handed, trace, queued, batches, tap)
    ensures Accounts(handed, trace.(outbound := trace.outbound + Towards(hop, packets)), queued,
                     batches[hop := At(batches, hop) + [Released(packets)]], tap + Frames(host, mac, packets))
  {
    hide PacketsOn, Interleaves, To, Freed, BuildFrame;
    var trace' := trace.(outbound := trace.outbound + Towards(hop, packets));
    var batches' := batches[hop := At(batches, hop) + [Released(packets)]];
    FramesWritten(tap, host, mac, packets);
    assert Payloads(trace'.outbound) == Payloads(trace.outbound) + packets;
    forall ip ensures Balanced(handed, trace', queued, batches', ip) {
      assert Balanced(handed, trace, queued, batches, ip);
      ToTowards(trace.outbound, hop, packets, ip);
      if ip == hop {
        FreedExtend(At(batches, ip), Released(packets));
        ManyMoreRight(To(trace.outbound, ip), At(trace.direct, ip), Freed(At(batches, ip)), packets);
      }
    }
  }

  lemma {:induction false} AccountsDropped(
    handed: seq<(Ip, Packet)>, trace: Trace, queued: map<Ip, seq<Packet>>, batches: map<Ip, seq<Batch>>,
    tap: seq<seq<byte>>, pending: map<Ip, PendingEntry>, gone: set<Ip>)
    requires Accounts(handed, trace, queued, batches, tap) && gone <= pending.Keys
    ensures Accounts(handed, trace, queued, DropAll(batches, pending, gone), tap)
  {
    hide PacketsOn, Interleaves, To, Freed;
    var batches' := DropAll(batches, pending, gone);
    forall ip ensures Balanced(handed, trace, queued, batches', ip) {
      assert Balanced(handed, trace, queued, batches, ip);
      if ip in gone {
        FreedExtend(At(batches, ip), Dropped(pending[ip].packets));
        assert At(batches', ip) == At(batches, ip) + [Dropped(pending[ip].packets)];
      } else {
        assert At(batches', ip) == At(batches, ip);
      }
    }
  }

  /** Every packet handed over is on the wire, waiting or given up, exactly once. */
  lemma {:induction false} BooksClose(
    handed: seq<(Ip, Packet)>, trace: Trace, queued: map<Ip, seq<Packet>>, batches: map<Ip, seq<Batch>>,
    pending: map<Ip, PendingEntry>, tap: seq<seq<byte>>, ip: Ip)
    requires Accounts(handed, trace, queued, batches, tap) && Conserved(queued, batches, pending)
    ensures multiset(To(handed, ip))
            == multiset(To(trace.outbound, ip)) + multiset(Waiting(pending, ip)) + multiset(GivenUp(At(batches, ip)))
  {
    hide PacketsOn, Interleaves, To, Freed, GivenUp, Flatten;
    assert Balanced(handed, trace, queued, batches, ip);
    NothingLostBetween(To(handed, ip), At(trace.direct, ip), At(queued, ip));
    NothingLostBetween(To(trace.outbound, ip), At(trace.direct, ip), Freed(At(batches, ip)));
    BatchesSplit(At(batches, ip));
    assert At(queued, ip) == Flatten(At(batches, ip)) + Waiting(pending, ip);
  }

  /**
   * Order between the two is not kept: once an address was learned from some other packet, later
   * packets leave at once while those that wait go on waiting.
   */
  lemma {:induction false} LaterPacketOvertakes(
    l: Link, host: Host, now: Time, ip: Ip, mac: Mac, packet: Packet, clock: Time)
    requires ip in l.pending && ip != ZERO_IP && mac != ZERO_MAC
    ensures var l' := DeliverAt(LearnAt(l, ip, mac, clock), host, now, (ip, packet), clock);
            && l'.tap == l.tap + [BuildFrame(mac, host.mac, ETH_TYPE_IPV4, packet)]
            && l'.pending == l.pending
  {
    hide BuildFrame, WhoHas;
  }
}
