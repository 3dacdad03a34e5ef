/**
 * Address resolution: the packet format, the cache, and the queue of packets that wait for an
 * address.  Ghost histories record every packet ever queued, every batch that left the queue and
 * the times of the requests of the episode under way.
 */
module Arp {
  import opened Wire
  import opened TcpSpec
  import opened Packets

  const ARP_PKT_LEN := 28
  const ARP_OP_REQUEST: u16 := 1
  const ARP_OP_REPLY: u16 := 2
  const CACHE_TTL: nat := 60 * SECOND
  const PENDING_RETRY_INTERVAL: nat := 3 * SECOND
  const MAX_RETRIES: nat := 3

  const ZERO_IP: Ip := [0, 0, 0, 0]
  const ZERO_MAC: Mac := [0, 0, 0, 0, 0, 0]

  // ---- Packets ---------------------------------------------------------------------------

  datatype ArpPacket = ArpPacket(oper: u16, sha: Mac, spa: Ip, tha: Mac, tpa: Ip)

  function ParseArp(data: seq<byte>): Option<ArpPacket> {
    if |data| < ARP_PKT_LEN then None
    else Some(ArpPacket(GetU16(data, 6), data[8..14], data[14..18], data[18..24], data[24..28]))
  }

  function BuildArp(p: ArpPacket): seq<byte> {
    PutU16(1) + PutU16(ETH_TYPE_IPV4) + [6, 4] + PutU16(p.oper) + p.sha + p.spa + p.tha + p.tpa
  }

  lemma {:induction false} ArpRoundTrip(p: ArpPacket)
    ensures ParseArp(BuildArp(p)) == Some(p)
  {
    hide PutU16, GetU16;
    var d := BuildArp(p);
    assert d[6..8] == PutU16(p.oper);
    U16RoundTrip(d, 6, p.oper);
    assert d[8..14] == p.sha && d[14..18] == p.spa && d[18..24] == p.tha && d[24..28] == p.tpa;
  }

  /** Where every field stands: Ethernet addresses of six bytes for IPv4 addresses of four. */
  lemma {:induction false} ArpLayout(p: ArpPacket)
    ensures var d := BuildArp(p);
            && |d| == 28 && GetU16(d, 0) == 1 && GetU16(d, 2) == 0x0800 && d[4] == 6 && d[5] == 4
            && GetU16(d, 6) == p.oper && d[8..14] == p.sha && d[14..18] == p.spa
            && d[18..24] == p.tha && d[24..] == p.tpa
  {
    hide PutU16, GetU16;
    var d := BuildArp(p);
    assert d[0..2] == PutU16(1) && d[2..4] == PutU16(0x0800) && d[6..8] == PutU16(p.oper);
    U16RoundTrip(d, 0, 1);
    U16RoundTrip(d, 2, 0x0800);
    U16RoundTrip(d, 6, p.oper);
  }

  /** Only what is too short is refused. */
  lemma {:induction false} ArpAccepted(d: seq<byte>)
    ensures ParseArp(d).None? <==> |d| < 28
  {
  }

  // ---- Histories -------------------------------------------------------------------------

  type Packet = seq<byte>

  datatype CacheEntry = CacheEntry(mac: Mac, expires: Time)
  datatype PendingEntry = PendingEntry(packets: seq<Packet>, lastRequest: Time, retries: nat)

  /** Packets that left the queue together: handed over for sending, or given up. */
  datatype Batch = Released(packets: seq<Packet>) | Dropped(packets: seq<Packet>)

  function At<T>(m: map<Ip, seq<T>>, ip: Ip): seq<T> {
    if ip in m then m[ip] else []
  }

  function Flatten(batches: seq<Batch>): seq<Packet> {
    if batches == [] then [] else Flatten(batches[..|batches| - 1]) + batches[|batches| - 1].packets
  }

  lemma {:induction false} FlattenExtend(batches: seq<Batch>, b: Batch)
    ensures Flatten(batches + [b]) == Flatten(batches) + b.packets
  {
    assert (batches + [b])[..|batches|] == batches;
  }

  function Waiting(pending: map<Ip, PendingEntry>, ip: Ip): seq<Packet> {
    if ip in pending then pending[ip].packets else []
  }

  /** Nothing is lost, duplicated or reordered: what was queued is what left plus what waits. */
  ghost predicate Conserved(
    queued: map<Ip, seq<Packet>>, batches: map<Ip, seq<Batch>>, pending: map<Ip, PendingEntry>) {
    forall ip :: At(queued, ip) == Flatten(At(batches, ip)) + Waiting(pending, ip)
  }

  /** Requests of one episode: each at least the retry interval after the one before. */
  predicate Spaced(times: seq<Time>) {
    forall i :: 0 < i < |times| ==> times[i] >= times[i - 1] + PENDING_RETRY_INTERVAL
  }

  /** The episode of a pending address: its counter and last time are those of its requests. */
  ghost predicate Counted(pending: map<Ip, PendingEntry>, asked: map<Ip, seq<Time>>) {
    && pending.Keys == asked.Keys
    && forall ip :: ip in pending ==>
         && |asked[ip]| == pending[ip].retries
         && (asked[ip] != [] ==> asked[ip][|asked[ip]| - 1] == pending[ip].lastRequest)
  }

  /** An entry with one more request. */
  function AskedAgain(entry: PendingEntry, now: Time): PendingEntry {
    entry.(lastRequest := now, retries := entry.retries + 1)
  }

  predicate Overdue(p: PendingEntry, now: Time) {
    p.lastRequest + PENDING_RETRY_INTERVAL <= now
  }

  function DropAll(batches: map<Ip, seq<Batch>>, pending: map<Ip, PendingEntry>, gone: set<Ip>): map<Ip, seq<Batch>>
    requires gone <= pending.Keys
  {
    map ip | ip in batches.Keys + gone ::
      if ip in gone then At(batches, ip) + [Dropped(pending[ip].packets)] else batches[ip]
  }

  lemma {:induction false} DropConserves(
    queued: map<Ip, seq<Packet>>, batches: map<Ip, seq<Batch>>, pending: map<Ip, PendingEntry>, gone: set<Ip>)
    requires Conserved(queued, batches, pending) && gone <= pending.Keys
    ensures Conserved(queued, DropAll(batches, pending, gone), pending - gone)
  {
    hide Flatten;
    var batches' := DropAll(batches, pending, gone);
    forall ip
      ensures At(queued, ip) == Flatten(At(batches', ip)) + Waiting(pending - gone, ip)
    {
      assert At(queued, ip) == Flatten(At(batches, ip)) + Waiting(pending, ip);
      if ip in gone {
        FlattenExtend(At(batches, ip), Dropped(pending[ip].packets));
        assert At(batches', ip) == At(batches, ip) + [Dropped(pending[ip].packets)];
        assert Waiting(pending - gone, ip) == [];
      } else {
        assert At(batches', ip) == At(batches, ip) && Waiting(pending - gone, ip) == Waiting(pending, ip);
      }
    }
  }

  lemma {:induction false} ReleaseConserves(
    queued: map<Ip, seq<Packet>>, batches: map<Ip, seq<Batch>>, pending: map<Ip, PendingEntry>, ip: Ip)
    requires Conserved(queued, batches, pending)
    ensures Conserved(queued, batches[ip := At(batches, ip) + [Released(Waiting(pending, ip))]], pending - {ip})
  {
    hide Flatten;
    FlattenExtend(At(batches, ip), Released(Waiting(pending, ip)));
    var batches' := batches[ip := At(batches, ip) + [Released(Waiting(pending, ip))]];
    forall other
      ensures At(queued, other) == Flatten(At(batches', other)) + Waiting(pending - {ip}, other)
    {
      assert At(queued, other) == Flatten(At(batches, other)) + Waiting(pending, other);
    }
  }

  lemma {:induction false} QueueConserves(
    queued: map<Ip, seq<Packet>>, batches: map<Ip, seq<Batch>>, pending: map<Ip, PendingEntry>,
    ip: Ip, packet: Packet, entry: PendingEntry)
    requires Conserved(queued, batches, pending) && entry.packets == Waiting(pending, ip) + [packet]
    ensures Conserved(queued[ip := At(queued, ip) + [packet]], batches, pending[ip := entry])
  {
    hide Flatten;
    var queued', pending' := queued[ip := At(queued, ip) + [packet]], pending[ip := entry];
    forall other
      ensures At(queued', other) == Flatten(At(batches, other)) + Waiting(pending', other)
    {
      assert At(queued, other) == Flatten(At(batches, other)) + Waiting(pending, other);
    }
  }

  lemma {:induction false} NewQueueCounted(
    pending: map<Ip, PendingEntry>, asked: map<Ip, seq<Time>>, ip: Ip, entry: PendingEntry)
    requires Counted(pending, asked) && entry.retries == 0
    ensures Counted(pending[ip := entry], asked[ip := []])
  {
  }

  lemma {:induction false} OldQueueCounted(
    pending: map<Ip, PendingEntry>, asked: map<Ip, seq<Time>>, ip: Ip, packets: seq<Packet>)
    requires Counted(pending, asked) && ip in pending
    ensures Counted(pending[ip := pending[ip].(packets := packets)], asked)
  {
  }

  lemma {:induction false} RequestCounted(
    pending: map<Ip, PendingEntry>, asked: map<Ip, seq<Time>>, ip: Ip, now: Time, entry: PendingEntry)
    requires Counted(pending, asked) && entry.lastRequest == now && entry.retries == |At(asked, ip)| + 1
    ensures Counted(pending[ip := entry], asked[ip := At(asked, ip) + [now]])
  {
  }

  lemma {:induction false} LessCounted(pending: map<Ip, PendingEntry>, asked: map<Ip, seq<Time>>, gone: set<Ip>)
    requires Counted(pending, asked)
    ensures Counted(pending - gone, asked - gone)
  {
  }

  lemma {:induction false} CountedAt(pending: map<Ip, PendingEntry>, asked: map<Ip, seq<Time>>, ip: Ip)
    requires Counted(pending, asked)
    ensures |At(asked, ip)| == if ip in pending then pending[ip].retries else 0
  {
  }

  /** Asking leaves what waits alone. */
  lemma {:induction false} RequestConserves(
    queued: map<Ip, seq<Packet>>, batches: map<Ip, seq<Batch>>, pending: map<Ip, PendingEntry>, ip: Ip,
    entry: PendingEntry)
    requires Conserved(queued, batches, pending) && entry.packets == Waiting(pending, ip)
    ensures Conserved(queued, batches, pending[ip := entry])
  {
    hide Flatten;
    forall other ensures At(queued, other) == Flatten(At(batches, other)) + Waiting(pending[ip := entry], other) {
      assert At(queued, other) == Flatten(At(batches, other)) + Waiting(pending, other);
    }
  }

  // ---- The cache -------------------------------------------------------------------------

  class ArpCache {
    var entries: map<Ip, CacheEntry>
    var pending: map<Ip, PendingEntry>
    ghost var queued: map<Ip, seq<Packet>>
    ghost var batches: map<Ip, seq<Batch>>
    ghost var asked: map<Ip, seq<Time>>

    ghost predicate Valid()
      reads this
    {
      Conserved(queued, batches, pending) && Counted(pending, asked)
    }

    /** The episode of a pending address, as its entry counts it. */
    lemma {:induction false} Episode(ip: Ip)
      requires Valid() && ip in pending
      ensures ip in asked && |asked[ip]| == pending[ip].retries
      ensures asked[ip] != [] ==> asked[ip][|asked[ip]| - 1] == pending[ip].lastRequest
    {
    }

    constructor ()
      ensures Valid() && asked == map[] && entries == map[] && pending == map[] && queued == map[] && batches == map[]
    {
      entries, pending, queued, batches, asked := map[], map[], map[], map[], map[];
    }

    method Lookup(ip: Ip, clock: Time) returns (mac: Option<Mac>)
      ensures mac == if ip in entries && entries[ip].expires >= clock then Some(entries[ip].mac) else None
    {
      if ip !in entries {
        return None;
      }
      var entry := entries[ip];
      if entry.expires < clock {
        return None;
      }
      return Some(entry.mac);
    }

    /** Releases everything that waits for `ip`, as one batch. */
    method Insert(ip: Ip, mac: Mac, clock: Time) returns (released: seq<Packet>)
      requires Valid()
      modifies this
      ensures Valid()
      ensures entries == old(entries)[ip := CacheEntry(mac, clock + CACHE_TTL)]
      ensures released == Waiting(old(pending), ip) && pending == old(pending) - {ip}
      ensures queued == old(queued)
      ensures batches == old(batches)[ip := At(old(batches), ip) + [Released(released)]]
      ensures asked == old(asked) - {ip}
    {
      hide Conserved, Counted;
      ReleaseConserves(queued, batches, pending, ip);
      LessCounted(pending, asked, {ip});
      entries := entries[ip := CacheEntry(mac, clock + CACHE_TTL)];
      released := if ip in pending then pending[ip].packets else [];
      pending := pending - {ip};
      batches := batches[ip := At(batches, ip) + [Released(released)]];
      asked := asked - {ip};
    }

    /** Learns an address from any packet and leaves the queue alone. */
    method Learn(ip: Ip, mac: Mac, clock: Time)
      requires Valid()
      modifies this`entries
      ensures Valid()
      ensures entries == if ip == ZERO_IP || mac == ZERO_MAC then old(entries)
                         else old(entries)[ip := CacheEntry(mac, clock + CACHE_TTL)]
    {
      if ip == ZERO_IP || mac == ZERO_MAC {
        return;
      }
      entries := entries[ip := CacheEntry(mac, clock + CACHE_TTL)];
    }

    method QueuePacket(ip: Ip, packet: Packet, now: Time) returns (isNew: bool)
      requires Valid()
      modifies this
      ensures Valid() && entries == old(entries)
      ensures isNew <==> ip !in old(pending)
      ensures pending == old(pending)[ip := if isNew then PendingEntry([packet], now, 0)
                                            else old(pending)[ip].(packets := old(pending)[ip].packets + [packet])]
      ensures queued == old(queued)[ip := At(old(queued), ip) + [packet]]
      ensures batches == old(batches)
      ensures asked == if isNew then old(asked)[ip := []] else old(asked)
    {
      hide Conserved, Counted, At;
      isNew := ip !in pending;
      var entry := if isNew then PendingEntry([], now, 0) else pending[ip];
      entry := entry.(packets := entry.packets + [packet]);
      assert isNew ==> entry.packets == [packet];
      QueueConserves(queued, batches, pending, ip, packet, entry);
      if isNew {
        NewQueueCounted(pending, asked, ip, entry);
      } else {
        OldQueueCounted(pending, asked, ip, entry.packets);
      }
      pending := pending[ip := entry];
      queued := queued[ip := At(queued, ip) + [packet]];
      if isNew {
        asked := asked[ip := []];
      }
    }

    /** The first loop of `tick`; the map yields its addresses in some order. */
    method Scan(now: Time) returns (retry: seq<Ip>, timedOut: seq<Ip>)
      ensures forall i, j :: 0 <= i < j < |retry| ==> retry[i] != retry[j]
      ensures forall ip :: ip in retry <==>
                ip in pending && pending[ip].retries < MAX_RETRIES && Overdue(pending[ip], now)
      ensures forall ip :: ip in timedOut <==>
                ip in pending && pending[ip].retries >= MAX_RETRIES && Overdue(pending[ip], now)
    {
      retry, timedOut := [], [];
      var todo := pending.Keys;
      while todo != {}
        invariant todo <= pending.Keys
        invariant forall i, j :: 0 <= i < j < |retry| ==> retry[i] != retry[j]
        invariant forall ip :: ip in retry <==>
                    ip in pending && ip !in todo && pending[ip].retries < MAX_RETRIES && Overdue(pending[ip], now)
        invariant forall ip :: ip in timedOut <==>
                    ip in pending && ip !in todo && pending[ip].retries >= MAX_RETRIES && Overdue(pending[ip], now)
        decreases |todo|
      {
        var ip :| ip in todo;
        if pending[ip].retries >= MAX_RETRIES {
          if Overdue(pending[ip], now) {
            timedOut := timedOut + [ip];
          }
        } else if Overdue(pending[ip], now) {
          retry := retry + [ip];
        }
        todo := todo - {ip};
      }
    }

    /** `tick`: which addresses to ask for again, and which to give up with everything queued for them. */
    method Tick(now: Time) returns (retry: seq<Ip>, timedOut: seq<Ip>)
      requires Valid()
      modifies this
      ensures Valid() && entries == old(entries) && queued == old(queued)
      ensures forall i, j :: 0 <= i < j < |retry| ==> retry[i] != retry[j]
      ensures forall ip :: ip in retry <==>
                ip in old(pending) && old(pending)[ip].retries < MAX_RETRIES && Overdue(old(pending)[ip], now)
      ensures forall ip :: ip in timedOut <==>
                ip in old(pending) && old(pending)[ip].retries >= MAX_RETRIES && Overdue(old(pending)[ip], now)
      ensures var gone := set ip | ip in timedOut;
              && pending == old(pending) - gone && asked == old(asked) - gone
              && batches == DropAll(old(batches), old(pending), gone)
    {
      hide Conserved, Counted, DropAll, Overdue;
      retry, timedOut := Scan(now);
      ghost var gone := set ip | ip in timedOut;
      DropConserves(queued, batches, pending, gone);
      LessCounted(pending, asked, gone);
      batches := DropAll(batches, pending, gone);
      asked := asked - gone;
      var left := pending;
      for i := 0 to |timedOut|
        invariant left == pending - set j | 0 <= j < i :: timedOut[j]
      {
        left := left - {timedOut[i]};
      }
      pending := left;
      assert gone == set j | 0 <= j < |timedOut| :: timedOut[j];
    }

    method RecordRequest(ip: Ip, now: Time)
      requires Valid()
      modifies this
      ensures Valid() && entries == old(entries) && queued == old(queued) && batches == old(batches)
      ensures pending == old(pending)[ip := if ip in old(pending) then AskedAgain(old(pending)[ip], now)
                                            else PendingEntry([], now, 1)]
      ensures asked == old(asked)[ip := At(old(asked), ip) + [now]]
    {
      hide Conserved, Counted, At;
      ghost var before := pending;
      CountedAt(pending, asked, ip);
      if ip in pending {
        var entry := pending[ip];
        pending := pending[ip := entry.(lastRequest := now, retries := entry.retries + 1)];
      } else {
        pending := pending[ip := PendingEntry([], now, 1)];
      }
      RequestConserves(queued, batches, before, ip, pending[ip]);
      RequestCounted(before, asked, ip, now, pending[ip]);
      asked := asked[ip := At(asked, ip) + [now]];
    }
  }
}
