/**
 * The resolver's cache.  Beside the map it keeps a log of every record put and when; the
 * invariant ties the map to the log, and `Get` is specified by the log alone.
 */
module DnsCache {
  import opened Wire
  import opened Text
  import opened DnsMessage

  datatype Key = Key(name: Text, rtype: u16, class_: u16)
  datatype Entry = Entry(rr: RR, expires: Time)
  datatype Put = Put(at: Time, rr: RR)
  datatype Negative = Negative(at: Time, key: Key, ttl: u32)

  function KeyOf(rr: RR): Key {
    Key(Lower(rr.name), rr.rtype, rr.class_)
  }

  function Expiry(at: Time, ttl: u32): Time {
    at + ttl * SECOND
  }

  // ---- The log -------------------------------------------------------------------------------

  predicate Concerns(p: Put, key: Key, d: RData) {
    KeyOf(p.rr) == key && p.rr.rdata == d
  }

  /** The most recent put of this RDATA under this key. */
  function LastPut(log: seq<Put>, key: Key, d: RData): Option<Put> {
    if log == [] then None
    else if Concerns(log[|log| - 1], key, d) then Some(log[|log| - 1])
    else LastPut(log[..|log| - 1], key, d)
  }

  predicate Alive(log: seq<Put>, key: Key, d: RData, now: Time) {
    var p := LastPut(log, key, d);
    p.Some? && Expiry(p.value.at, p.value.rr.ttl) > now
  }

  predicate Among(rrs: seq<RR>, d: RData) {
    exists i :: 0 <= i < |rrs| && rrs[i].rdata == d
  }

  /** What a lookup has to return, in terms of the log: one record per live RDATA, with its latest TTL. */
  ghost predicate Answers(log: seq<Put>, key: Key, now: Time, result: Option<seq<RR>>) {
    && (result.None? ==> forall d :: !Alive(log, key, d, now))
    && (result.Some? ==>
          && result.value != []
          && (forall i, j :: 0 <= i < j < |result.value| ==> result.value[i].rdata != result.value[j].rdata)
          && (forall i :: 0 <= i < |result.value| ==> KeyOf(result.value[i]) == key)
          && (forall i :: 0 <= i < |result.value| ==>
                var p := LastPut(log, key, result.value[i].rdata); p.Some? && p.value.rr.ttl == result.value[i].ttl)
          && (forall d :: Among(result.value, d) <==> Alive(log, key, d, now)))
  }

  /** The most recent negative entry under a key. */
  function LastNegative(log: seq<Negative>, key: Key): Option<Negative> {
    if log == [] then None
    else if log[|log| - 1].key == key then Some(log[|log| - 1])
    else LastNegative(log[..|log| - 1], key)
  }

  // ---- Vectors of entries ----------------------------------------------------------------------

  /** `retain(|e| e.expires > now)` */
  function Purge(entries: seq<Entry>, now: Time): seq<Entry> {
    if entries == [] then []
    else (if entries[0].expires > now then [entries[0]] else []) + Purge(entries[1..], now)
  }

  /** Index of the first entry with this RDATA, or the length. */
  function Find(entries: seq<Entry>, d: RData): (k: nat)
    ensures k <= |entries|
    ensures k < |entries| ==> entries[k].rr.rdata == d
    ensures forall j :: 0 <= j < k ==> entries[j].rr.rdata != d
  {
    if entries == [] || entries[0].rr.rdata == d then 0 else 1 + Find(entries[1..], d)
  }

  /** Refresh the entry with the same RDATA in place, keeping its owner name, or append a new one. */
  function Refresh(entries: seq<Entry>, rr: RR, expires: Time): seq<Entry> {
    var k := Find(entries, rr.rdata);
    if k < |entries| then entries[k := Entry(entries[k].rr.(ttl := rr.ttl), expires)]
    else entries + [Entry(rr, expires)]
  }

  predicate Holds(entries: seq<Entry>, d: RData) {
    exists i :: 0 <= i < |entries| && entries[i].rr.rdata == d
  }

  /** An entry says what the last put of its RDATA under `key` said. */
  predicate Current(e: Entry, key: Key, log: seq<Put>) {
    var p := LastPut(log, key, e.rr.rdata);
    KeyOf(e.rr) == key && p.Some? && e.expires == Expiry(p.value.at, p.value.rr.ttl) && e.rr.ttl == p.value.rr.ttl
  }

  predicate Distinct(entries: seq<Entry>) {
    forall i, j :: 0 <= i < j < |entries| ==> entries[i].rr.rdata != entries[j].rr.rdata
  }

  /** The entries under one key against the log: current, without duplicates, nothing live missing. */
  ghost predicate Agrees(entries: seq<Entry>, key: Key, log: seq<Put>, now: Time) {
    && Distinct(entries)
    && (forall i :: 0 <= i < |entries| ==> Current(entries[i], key, log))
    && (forall d :: Alive(log, key, d, now) ==> Holds(entries, d))
  }

  function EntriesAt(records: map<Key, seq<Entry>>, key: Key): seq<Entry> {
    if key in records then records[key] else []
  }

  ghost predicate Refines(records: map<Key, seq<Entry>>, log: seq<Put>, now: Time) {
    forall key :: Agrees(EntriesAt(records, key), key, log, now)
  }

  // ---- Purging -----------------------------------------------------------------------------------

  lemma {:induction false} PurgeMembers(entries: seq<Entry>, now: Time)
    ensures forall e :: e in Purge(entries, now) <==> e in entries && e.expires > now
    decreases |entries|
  {
    if entries != [] {
      PurgeMembers(entries[1..], now);
      assert entries == [entries[0]] + entries[1..];
    }
  }

  lemma {:induction false} PurgeDistinct(entries: seq<Entry>, now: Time)
    requires Distinct(entries)
    ensures Distinct(Purge(entries, now))
    decreases |entries|
  {
    if entries != [] {
      var rest := Purge(entries[1..], now);
      PurgeDistinct(entries[1..], now);
      PurgeMembers(entries[1..], now);
      forall i | 0 <= i < |rest| ensures rest[i].rr.rdata != entries[0].rr.rdata {
        assert rest[i] in entries[1..];
        var j :| 0 <= j < |entries[1..]| && entries[1..][j] == rest[i];
        assert entries[j + 1] == rest[i];
      }
    }
  }

  lemma {:induction false} PurgeAgrees(entries: seq<Entry>, key: Key, log: seq<Put>, before: Time, now: Time)
    requires Agrees(entries, key, log, before) && before <= now
    ensures Agrees(Purge(entries, now), key, log, now)
    ensures forall d :: Holds(Purge(entries, now), d) <==> Alive(log, key, d, now)
  {
    hide LastPut, Purge, Expiry;
    var kept := Purge(entries, now);
    PurgeMembers(entries, now);
    PurgeDistinct(entries, now);
    forall i | 0 <= i < |kept| ensures Current(kept[i], key, log) && Alive(log, key, kept[i].rr.rdata, now) {
      assert kept[i] in entries;
    }
    forall d | Alive(log, key, d, now) ensures Holds(kept, d) {
      assert Alive(log, key, d, before);
      var i :| 0 <= i < |entries| && entries[i].rr.rdata == d;
      assert Current(entries[i], key, log);
      assert entries[i] in kept;
    }
  }

  lemma {:induction false} RefinesLater(records: map<Key, seq<Entry>>, log: seq<Put>, before: Time, now: Time)
    requires Refines(records, log, before) && before <= now
    ensures Refines(records, log, now)
  {
    hide LastPut;
    forall key ensures Agrees(EntriesAt(records, key), key, log, now) {
      assert Agrees(EntriesAt(records, key), key, log, before);
      forall d | Alive(log, key, d, now) ensures Holds(EntriesAt(records, key), d) {
        assert Alive(log, key, d, before);
      }
    }
  }

  // ---- Putting -------------------------------------------------------------------------------------

  lemma {:induction false} LastPutExtend(log: seq<Put>, p: Put, key: Key, d: RData)
    ensures LastPut(log + [p], key, d) == if Concerns(p, key, d) then Some(p) else LastPut(log, key, d)
  {
    assert (log + [p])[..|log|] == log;
  }

  lemma {:induction false} PutAgrees(entries: seq<Entry>, key: Key, log: seq<Put>, before: Time, p: Put)
    requires Agrees(entries, key, log, before) && KeyOf(p.rr) == key && before <= p.at
    ensures Agrees(Refresh(entries, p.rr, Expiry(p.at, p.rr.ttl)), key, log + [p], p.at)
  {
    hide LastPut, Expiry, Find;
    var k := Find(entries, p.rr.rdata);
    var r := Refresh(entries, p.rr, Expiry(p.at, p.rr.ttl));
    forall i | 0 <= i < |r| ensures Current(r[i], key, log + [p]) {
      LastPutExtend(log, p, key, r[i].rr.rdata);
      if i != k {
        assert r[i] == entries[i] && Current(entries[i], key, log);
      } else if k < |entries| {
        assert Current(entries[k], key, log);
      }
    }
    forall d | Alive(log + [p], key, d, p.at) ensures Holds(r, d) {
      LastPutExtend(log, p, key, d);
      if d == p.rr.rdata {
        assert r[k].rr.rdata == d;
      } else {
        assert Alive(log, key, d, before);
        var i :| 0 <= i < |entries| && entries[i].rr.rdata == d;
        assert r[i].rr.rdata == d;
      }
    }
  }

  /** A put under another key changes nothing for this one. */
  lemma {:induction false} OtherKeyAgrees(entries: seq<Entry>, key: Key, log: seq<Put>, before: Time, p: Put)
    requires Agrees(entries, key, log, before) && KeyOf(p.rr) != key && before <= p.at
    ensures Agrees(entries, key, log + [p], p.at)
  {
    hide LastPut, Expiry;
    forall d ensures LastPut(log + [p], key, d) == LastPut(log, key, d) {
      LastPutExtend(log, p, key, d);
    }
    forall d | Alive(log + [p], key, d, p.at) ensures Holds(entries, d) {
      assert Alive(log, key, d, before);
    }
  }

  lemma {:induction false} PutRefines(records: map<Key, seq<Entry>>, log: seq<Put>, before: Time, p: Put)
    requires Refines(records, log, before) && before <= p.at
    ensures var key := KeyOf(p.rr);
            Refines(records[key := Refresh(EntriesAt(records, key), p.rr, Expiry(p.at, p.rr.ttl))], log + [p], p.at)
  {
    hide Agrees, Refresh, Expiry, KeyOf;
    var mine := KeyOf(p.rr);
    var records' := records[mine := Refresh(EntriesAt(records, mine), p.rr, Expiry(p.at, p.rr.ttl))];
    forall key ensures Agrees(EntriesAt(records', key), key, log + [p], p.at) {
      assert Agrees(EntriesAt(records, key), key, log, before);
      if key == mine {
        PutAgrees(EntriesAt(records, key), key, log, before, p);
      } else {
        OtherKeyAgrees(EntriesAt(records, key), key, log, before, p);
      }
    }
  }

  lemma {:induction false} PurgeRefines(records: map<Key, seq<Entry>>, log: seq<Put>, before: Time, now: Time, key: Key)
    requires Refines(records, log, before) && before <= now && key in records
    ensures var kept := Purge(records[key], now);
            Refines(if kept == [] then records - {key} else records[key := kept], log, now)
  {
    hide Agrees, Purge;
    RefinesLater(records, log, before, now);
    var kept := Purge(records[key], now);
    var records' := if kept == [] then records - {key} else records[key := kept];
    forall k ensures Agrees(EntriesAt(records', k), k, log, now) {
      assert Agrees(EntriesAt(records, k), k, log, before) && Agrees(EntriesAt(records, k), k, log, now);
      if k == key {
        PurgeAgrees(records[key], key, log, before, now);
        assert EntriesAt(records', k) == kept;
      }
    }
  }

  // ---- Answers -------------------------------------------------------------------------------------

  function RecordsOf(entries: seq<Entry>): (rrs: seq<RR>)
    ensures |rrs| == |entries| && forall i :: 0 <= i < |rrs| ==> rrs[i] == entries[i].rr
  {
    seq(|entries|, i requires 0 <= i < |entries| => entries[i].rr)
  }

  lemma {:induction false} PurgedAnswers(entries: seq<Entry>, key: Key, log: seq<Put>, before: Time, now: Time)
    requires Agrees(entries, key, log, before) && before <= now
    ensures var kept := Purge(entries, now);
            Answers(log, key, now, if kept == [] then None else Some(RecordsOf(kept)))
  {
    hide LastPut, Purge, Alive;
    var kept := Purge(entries, now);
    PurgeAgrees(entries, key, log, before, now);
    if kept == [] {
      forall d ensures !Alive(log, key, d, now) {
        assert !Holds(kept, d);
      }
    } else {
      var rrs := RecordsOf(kept);
      forall i | 0 <= i < |rrs|
        ensures KeyOf(rrs[i]) == key
        ensures var p := LastPut(log, key, rrs[i].rdata); p.Some? && p.value.rr.ttl == rrs[i].ttl
      {
        assert Current(kept[i], key, log);
      }
      forall d ensures Among(rrs, d) <==> Holds(kept, d) {
        if Holds(kept, d) {
          var i :| 0 <= i < |kept| && kept[i].rr.rdata == d;
          assert rrs[i].rdata == d;
        }
      }
    }
  }

  lemma {:induction false} NothingAnswers(key: Key, log: seq<Put>, before: Time, now: Time)
    requires Agrees([], key, log, before) && before <= now
    ensures Answers(log, key, now, None)
  {
    PurgedAnswers([], key, log, before, now);
  }

  /**
   * Any two lookups the same log allows return the same RDATA with the same TTLs under the same
   * folded key, whatever was purged before; order and spelling are another matter, below.
   */
  lemma {:induction false} PurgingUnobservable(log: seq<Put>, key: Key, now: Time, a: seq<RR>, b: seq<RR>, i: nat)
    requires Answers(log, key, now, Some(a)) && Answers(log, key, now, Some(b)) && i < |a|
    ensures exists j :: 0 <= j < |b| && b[j].rdata == a[i].rdata && b[j].ttl == a[i].ttl && KeyOf(b[j]) == KeyOf(a[i])
    ensures |a| == |b|
  {
    hide LastPut, Alive;
    assert Among(a, a[i].rdata) && Among(b, a[i].rdata);
    SameSize(a, b);
  }

  lemma {:induction false} SameSize(a: seq<RR>, b: seq<RR>)
    requires forall i, j :: 0 <= i < j < |a| ==> a[i].rdata != a[j].rdata
    requires forall i, j :: 0 <= i < j < |b| ==> b[i].rdata != b[j].rdata
    requires forall d :: Among(a, d) <==> Among(b, d)
    ensures |a| == |b|
  {
    DistinctCount(a);
    DistinctCount(b);
    forall d ensures d in DataOf(a) <==> d in DataOf(b) {
      assert Among(a, d) <==> Among(b, d);
    }
    assert DataOf(a) == DataOf(b);
  }

  function DataOf(a: seq<RR>): set<RData> {
    set i | 0 <= i < |a| :: a[i].rdata
  }

  lemma {:induction false} DataOfLast(a: seq<RR>, last: RR)
    requires forall i :: 0 <= i < |a| ==> a[i].rdata != last.rdata
    ensures DataOf(a + [last]) == DataOf(a) + {last.rdata} && last.rdata !in DataOf(a)
  {
    var all := a + [last];
    forall d ensures d in DataOf(all) <==> d in DataOf(a) + {last.rdata} {
      if d in DataOf(a) {
        var i :| 0 <= i < |a| && a[i].rdata == d;
        assert all[i].rdata == d;
      }
      assert all[|a|].rdata == last.rdata;
    }
  }

  ghost predicate DistinctData(a: seq<RR>) {
    forall i, j :: 0 <= i < j < |a| ==> a[i].rdata != a[j].rdata
  }

  lemma {:induction false} DistinctFront(front: seq<RR>, last: RR)
    requires DistinctData(front + [last])
    ensures DistinctData(front) && forall i :: 0 <= i < |front| ==> front[i].rdata != last.rdata
  {
    var all := front + [last];
    forall i, j | 0 <= i < j < |front| ensures front[i].rdata != front[j].rdata {
      assert all[i] == front[i] && all[j] == front[j];
    }
    forall i | 0 <= i < |front| ensures front[i].rdata != last.rdata {
      assert all[i] == front[i] && all[|front|] == last;
    }
  }

  lemma {:induction false} DistinctCount(a: seq<RR>)
    requires DistinctData(a)
    ensures |DataOf(a)| == |a|
    decreases |a|
  {
    if a != [] {
      hide DataOf, DistinctData;
      var front, last := a[..|a| - 1], a[|a| - 1];
      assert a == front + [last];
      DistinctFront(front, last);
      DistinctCount(front);
      DataOfLast(front, last);
    }
  }

  /** A record lives from its put for exactly as many seconds as its TTL says, under its name in any case. */
  lemma {:induction false} LivesExactly(log: seq<Put>, p: Put, name: Text, now: Time)
    requires Lower(name) == Lower(p.rr.name)
    ensures Alive(log + [p], Key(Lower(name), p.rr.rtype, p.rr.class_), p.rr.rdata, now)
            <==> now < p.at + 1_000_000_000 * p.rr.ttl
  {
    hide LastPut;
    LastPutExtend(log, p, KeyOf(p.rr), p.rr.rdata);
  }

  // ---- When purging shows ----------------------------------------------------------------------------

  lemma {:induction false} PurgeAppend(a: seq<Entry>, b: seq<Entry>, now: Time)
    ensures Purge(a + b, now) == Purge(a, now) + Purge(b, now)
    decreases |a|
  {
    if a == [] {
      assert a + b == b;
    } else {
      var rest, head := a[1..], if a[0].expires > now then [a[0]] else [];
      assert (a + b)[0] == a[0] && (a + b)[1..] == rest + b;
      PurgeAppend(rest, b, now);
      Associate(head, Purge(rest, now), Purge(b, now));
    }
  }

  lemma {:induction false} PurgeTwice(entries: seq<Entry>, before: Time, now: Time)
    requires before <= now
    ensures Purge(Purge(entries, before), now) == Purge(entries, now)
    decreases |entries|
  {
    if entries != [] {
      PurgeTwice(entries[1..], before, now);
      var head := if entries[0].expires > before then [entries[0]] else [];
      PurgeAppend(head, Purge(entries[1..], before), now);
      assert head != [] ==> head[1..] == [];
    }
  }

  /** The vector around an entry. */
  lemma {:induction false} PurgeAround(entries: seq<Entry>, k: nat, now: Time)
    requires k < |entries|
    ensures Purge(entries, now)
            == Purge(entries[..k], now) + Purge([entries[k]], now) + Purge(entries[k + 1..], now)
    ensures Purge([entries[k]], now) == if entries[k].expires > now then [entries[k]] else []
  {
    hide Purge;
    assert entries == entries[..k] + [entries[k]] + entries[k + 1..];
    PurgeAppend(entries[..k] + [entries[k]], entries[k + 1..], now);
    PurgeAppend(entries[..k], [entries[k]], now);
    PurgeOne(entries[k], now);
  }

  lemma {:induction false} PurgeOne(e: Entry, now: Time)
    ensures Purge([e], now) == if e.expires > now then [e] else []
  {
    assert [e][1..] == [];
  }

  /** The record a put leaves behind: a held one keeps the spelling of its owner. */
  function Kept(entries: seq<Entry>, rr: RR): RR {
    var k := Find(entries, rr.rdata);
    if k < |entries| then entries[k].rr.(ttl := rr.ttl) else rr
  }

  /** What lives behind the place a put goes to. */
  function Behind(entries: seq<Entry>, rr: RR, now: Time): seq<Entry> {
    var k := Find(entries, rr.rdata);
    if k < |entries| then Purge(entries[k + 1..], now) else []
  }

  /** What lives before the place a put goes to. */
  function Before(entries: seq<Entry>, rr: RR, now: Time): seq<Entry> {
    Purge(entries[..Find(entries, rr.rdata)], now)
  }

  /** What lives after a put: the record the put leaves stands between what lives before and behind its place. */
  lemma {:induction false} LiveAfterPut(entries: seq<Entry>, rr: RR, expires: Time, now: Time)
    ensures Purge(Refresh(entries, rr, expires), now)
            == Before(entries, rr, now) + Purge([Entry(Kept(entries, rr), expires)], now) + Behind(entries, rr, now)
    ensures Purge([Entry(Kept(entries, rr), expires)], now)
            == if expires > now then [Entry(Kept(entries, rr), expires)] else []
  {
    hide Purge, Find;
    var k, r := Find(entries, rr.rdata), Refresh(entries, rr, expires);
    PurgeAround(r, k, now);
    assert r[..k] == entries[..k];
    assert r[k] == Entry(Kept(entries, rr), expires);
    if k < |entries| {
      assert r[k + 1..] == entries[k + 1..];
    } else {
      assert r[k + 1..] == [];
      PurgeNothing(now);
    }
  }

  lemma {:induction false} PurgeNothing(now: Time)
    ensures Purge([], now) == []
  {
  }

  /** Nothing that lives around the place of a put has its RDATA. */
  lemma {:induction false} OthersAround(entries: seq<Entry>, rr: RR, now: Time)
    requires Distinct(entries)
    ensures forall e :: e in Before(entries, rr, now) || e in Behind(entries, rr, now) ==> e.rr.rdata != rr.rdata
  {
    hide Purge, Find;
    var k := Find(entries, rr.rdata);
    PurgeMembers(entries[..k], now);
    if k < |entries| {
      PurgeMembers(entries[k + 1..], now);
    }
  }

  /** Without the record that is put, what lives is what lives before and behind its place. */
  lemma {:induction false} LiveWithout(entries: seq<Entry>, rr: RR, now: Time)
    requires Distinct(entries)
    ensures Before(entries, rr, now) + Behind(entries, rr, now) == Without(Purge(entries, now), rr.rdata)
  {
    hide Purge, Find, Without, Distinct;
    var k := Find(entries, rr.rdata);
    var before, behind := Before(entries, rr, now), Behind(entries, rr, now);
    OthersAround(entries, rr, now);
    WithoutNothing(before, rr.rdata);
    WithoutNothing(behind, rr.rdata);
    if k < |entries| {
      var own := Purge([entries[k]], now);
      PurgeAround(entries, k, now);
      WithoutAppend(before + own, behind, rr.rdata);
      WithoutAppend(before, own, rr.rdata);
      WithoutOne(entries[k]);
      assert before + [] + behind == before + behind;
    } else {
      assert entries[..k] == entries;
      assert before + [] == before;
    }
  }

  /** The entries with other RDATA. */
  function Without(entries: seq<Entry>, d: RData): seq<Entry> {
    if entries == [] then []
    else (if entries[0].rr.rdata != d then [entries[0]] else []) + Without(entries[1..], d)
  }

  lemma {:induction false} WithoutAppend(a: seq<Entry>, b: seq<Entry>, d: RData)
    ensures Without(a + b, d) == Without(a, d) + Without(b, d)
    decreases |a|
  {
    if a == [] {
      assert a + b == b;
    } else {
      var rest, head := a[1..], if a[0].rr.rdata != d then [a[0]] else [];
      assert (a + b)[0] == a[0] && (a + b)[1..] == rest + b;
      WithoutAppend(rest, b, d);
      Associate(head, Without(rest, d), Without(b, d));
    }
  }

  lemma {:induction false} WithoutNothing(a: seq<Entry>, d: RData)
    requires forall e :: e in a ==> e.rr.rdata != d
    ensures Without(a, d) == a
    decreases |a|
  {
    if a != [] {
      WithoutNothing(a[1..], d);
      assert a == [a[0]] + a[1..];
    }
  }

  lemma {:induction false} WithoutOne(e: Entry)
    ensures Without([e], e.rr.rdata) == [] && Without([], e.rr.rdata) == []
  {
    assert [e][1..] == [];
  }

  /** The put goes to the same place, under the same spelling, in both vectors. */
  predicate SamePlace(a: seq<Entry>, b: seq<Entry>, rr: RR, now: Time) {
    Kept(a, rr) == Kept(b, rr) && |Behind(a, rr, now)| == |Behind(b, rr, now)|
  }

  /**
   * One put on two vectors that answer alike.  They still answer alike exactly when the put is
   * dead on arrival or goes to the same place in both.
   */
  lemma {:induction false} PutShowsExactly(a: seq<Entry>, b: seq<Entry>, rr: RR, expires: Time, now: Time)
    requires Distinct(a) && Distinct(b) && Purge(a, now) == Purge(b, now)
    ensures var (a', b') := (Purge(Refresh(a, rr, expires), now), Purge(Refresh(b, rr, expires), now));
            && (RecordsOf(a') == RecordsOf(b') <==> (expires > now ==> SamePlace(a, b, rr, now)))
            && (RecordsOf(a') == RecordsOf(b') <==> a' == b')
  {
    hide Purge, Refresh, Before, Behind, Kept, Without, Distinct;
    LiveAfterPut(a, rr, expires, now);
    LiveAfterPut(b, rr, expires, now);
    LiveWithout(a, rr, now);
    LiveWithout(b, rr, now);
    OthersAround(a, rr, now);
    if expires > now {
      KeptData(a, rr);
      KeptData(b, rr);
      InsertedAlike(Before(a, rr, now), Behind(a, rr, now), Entry(Kept(a, rr), expires),
                    Before(b, rr, now), Behind(b, rr, now), Entry(Kept(b, rr), expires));
    } else {
      assert Before(a, rr, now) + [] + Behind(a, rr, now) == Before(a, rr, now) + Behind(a, rr, now);
      assert Before(b, rr, now) + [] + Behind(b, rr, now) == Before(b, rr, now) + Behind(b, rr, now);
    }
  }

  lemma {:induction false} KeptData(entries: seq<Entry>, rr: RR)
    ensures Kept(entries, rr).rdata == rr.rdata && Kept(entries, rr).ttl == rr.ttl
  {
  }

  /** One entry inserted into the same vector twice: alike exactly at the same place. */
  lemma {:induction false} InsertedAlike(
    a1: seq<Entry>, a2: seq<Entry>, x: Entry, b1: seq<Entry>, b2: seq<Entry>, y: Entry)
    requires a1 + a2 == b1 + b2 && x.rr.rdata == y.rr.rdata && x.expires == y.expires
    requires forall e :: e in a1 + a2 ==> e.rr.rdata != x.rr.rdata
    ensures RecordsOf(a1 + [x] + a2) == RecordsOf(b1 + [y] + b2) <==> x == y && |a2| == |b2|
    ensures RecordsOf(a1 + [x] + a2) == RecordsOf(b1 + [y] + b2) <==> a1 + [x] + a2 == b1 + [y] + b2
  {
    var a, b := a1 + [x] + a2, b1 + [y] + b2;
    if |a2| == |b2| {
      assert a1 == (a1 + a2)[..|a1|] && b1 == (b1 + b2)[..|b1|] && a2 == (a1 + a2)[|a1|..] && b2 == (b1 + b2)[|b1|..];
      if x == y {
        assert a == b;
      } else {
        assert RecordsOf(a)[|a1|] == x.rr && RecordsOf(b)[|a1|] == y.rr;
      }
    } else {
      var k := |a1|;
      assert RecordsOf(a)[k] == x.rr;
      assert k != |b1|;
      var e := b[k];
      assert e in b1 + b2 by {
        if k < |b1| {
          assert (b1 + b2)[k] == e;
        } else {
          assert (b1 + b2)[k - 1] == e;
        }
      }
      assert RecordsOf(b)[k] == e.rr;
    }
  }

  /** What happens to the vector under one key: puts and lookups at their times. */
  datatype Access = Store(at: Time, rr: RR) | Look(at: Time)

  function Apply(entries: seq<Entry>, access: Access): seq<Entry> {
    match access
    case Store(at, rr) => Refresh(entries, rr, Expiry(at, rr.ttl))
    case Look(at) => Purge(entries, at)
  }

  /** Exactly the vector under one key goes through an access. */
  ghost predicate Accessed(records: map<Key, seq<Entry>>, records': map<Key, seq<Entry>>, key: Key, access: Access) {
    && EntriesAt(records', key) == Apply(EntriesAt(records, key), access)
    && forall k :: k != key ==> EntriesAt(records', k) == EntriesAt(records, k)
  }

  function ApplyAll(entries: seq<Entry>, accesses: seq<Access>): seq<Entry> {
    if accesses == [] then entries
    else Apply(ApplyAll(entries, accesses[..|accesses| - 1]), accesses[|accesses| - 1])
  }

  /** What a lookup answers at a time. */
  function Shown(entries: seq<Entry>, now: Time): seq<RR> {
    RecordsOf(Purge(entries, now))
  }

  predicate InOrder(start: Time, accesses: seq<Access>) {
    && (forall i :: 0 <= i < |accesses| ==> start <= accesses[i].at)
    && (forall i, j :: 0 <= i < j < |accesses| ==> accesses[i].at <= accesses[j].at)
  }

  /** Access `i` leaves both vectors answering alike. */
  predicate AlikeAfter(a: seq<Entry>, b: seq<Entry>, accesses: seq<Access>, i: nat)
    requires i < |accesses|
  {
    Shown(ApplyAll(a, accesses[..i + 1]), accesses[i].at) == Shown(ApplyAll(b, accesses[..i + 1]), accesses[i].at)
  }

  /** Access `i`, if it is a put that lives at all, goes to the same place in both vectors. */
  predicate AlikePlaced(a: seq<Entry>, b: seq<Entry>, accesses: seq<Access>, i: nat)
    requires i < |accesses|
  {
    accesses[i].Store? && accesses[i].rr.ttl > 0 ==>
      SamePlace(ApplyAll(a, accesses[..i]), ApplyAll(b, accesses[..i]), accesses[i].rr, accesses[i].at)
  }

  lemma {:induction false} RefreshDistinct(entries: seq<Entry>, rr: RR, expires: Time)
    requires Distinct(entries)
    ensures Distinct(Refresh(entries, rr, expires))
  {
    hide Find;
  }

  lemma {:induction false} ApplyAllDistinct(entries: seq<Entry>, accesses: seq<Access>)
    requires Distinct(entries)
    ensures Distinct(ApplyAll(entries, accesses))
    decreases |accesses|
  {
    hide Distinct, Refresh, Purge;
    if accesses != [] {
      var rest, last := accesses[..|accesses| - 1], accesses[|accesses| - 1];
      ApplyAllDistinct(entries, rest);
      if last.Store? {
        RefreshDistinct(ApplyAll(entries, rest), last.rr, Expiry(last.at, last.rr.ttl));
      } else {
        PurgeDistinct(ApplyAll(entries, rest), last.at);
      }
    }
  }

  /** One access on two vectors that answer alike. */
  lemma {:induction false} AccessShows(a: seq<Entry>, b: seq<Entry>, before: Time, access: Access)
    requires Distinct(a) && Distinct(b) && Purge(a, before) == Purge(b, before) && before <= access.at
    ensures Shown(Apply(a, access), access.at) == Shown(Apply(b, access), access.at)
            <==> (access.Store? && access.rr.ttl > 0 ==> SamePlace(a, b, access.rr, access.at))
    ensures Shown(Apply(a, access), access.at) == Shown(Apply(b, access), access.at)
            <==> Purge(Apply(a, access), access.at) == Purge(Apply(b, access), access.at)
  {
    hide Purge, Refresh, Distinct, SamePlace;
    PurgeTwice(a, before, access.at);
    PurgeTwice(b, before, access.at);
    match access
    case Store(at, rr) => PutShowsExactly(a, b, rr, Expiry(at, rr.ttl), at);
    case Look(at) =>
      PurgeTwice(a, at, at);
      PurgeTwice(b, at, at);
  }

  ghost predicate RunAlike(a: seq<Entry>, b: seq<Entry>, accesses: seq<Access>) {
    forall i :: 0 <= i < |accesses| ==> AlikeAfter(a, b, accesses, i)
  }

  ghost predicate RunPlaced(a: seq<Entry>, b: seq<Entry>, accesses: seq<Access>) {
    forall i :: 0 <= i < |accesses| ==> AlikePlaced(a, b, accesses, i)
  }

  lemma {:induction false} AlikeEarlier(a: seq<Entry>, b: seq<Entry>, accesses: seq<Access>, more: seq<Access>, i: nat)
    requires i < |accesses|
    ensures AlikeAfter(a, b, accesses + more, i) <==> AlikeAfter(a, b, accesses, i)
    ensures AlikePlaced(a, b, accesses + more, i) <==> AlikePlaced(a, b, accesses, i)
  {
    hide ApplyAll, Shown, SamePlace;
    var all := accesses + more;
    assert all[..i + 1] == accesses[..i + 1] && all[..i] == accesses[..i];
  }

  /** A run and one more access. */
  lemma {:induction false} OneMoreAccess(a: seq<Entry>, b: seq<Entry>, accesses: seq<Access>, last: Access)
    ensures var all := accesses + [last];
            && (RunAlike(a, b, all) <==> RunAlike(a, b, accesses) && AlikeAfter(a, b, all, |accesses|))
            && (RunPlaced(a, b, all) <==> RunPlaced(a, b, accesses) && AlikePlaced(a, b, all, |accesses|))
  {
    hide AlikeAfter, AlikePlaced;
    var all := accesses + [last];
    forall i | 0 <= i < |accesses|
      ensures AlikeAfter(a, b, all, i) <==> AlikeAfter(a, b, accesses, i)
      ensures AlikePlaced(a, b, all, i) <==> AlikePlaced(a, b, accesses, i)
    {
      AlikeEarlier(a, b, accesses, [last], i);
    }
  }

  lemma {:induction false} ApplyLast(entries: seq<Entry>, accesses: seq<Access>, last: Access)
    ensures ApplyAll(entries, accesses + [last]) == Apply(ApplyAll(entries, accesses), last)
  {
    hide Apply;
    assert (accesses + [last])[..|accesses|] == accesses;
  }

  /** The last access of a run whose earlier part left both vectors answering alike. */
  lemma {:induction false} LastAccessShows(
    a: seq<Entry>, b: seq<Entry>, before: Time, accesses: seq<Access>, last: Access)
    requires Distinct(a) && Distinct(b) && before <= last.at
    requires Purge(ApplyAll(a, accesses), before) == Purge(ApplyAll(b, accesses), before)
    ensures var all := accesses + [last];
            && (AlikeAfter(a, b, all, |accesses|) <==> AlikePlaced(a, b, all, |accesses|))
            && (AlikeAfter(a, b, all, |accesses|) ==>
                  Purge(ApplyAll(a, all), last.at) == Purge(ApplyAll(b, all), last.at))
  {
    hide Purge, Apply, ApplyAll, Shown, SamePlace, Distinct;
    var all := accesses + [last];
    assert all[..|accesses| + 1] == all && all[..|accesses|] == accesses;
    ApplyAllDistinct(a, accesses);
    ApplyAllDistinct(b, accesses);
    ApplyLast(a, accesses, last);
    ApplyLast(b, accesses, last);
    AccessShows(ApplyAll(a, accesses), ApplyAll(b, accesses), before, last);
  }

  /**
   * Whole runs.  Two vectors that answer alike keep answering alike after every access of a run
   * exactly when every put of the run that lives goes to the same place in both.
   */
  lemma {:induction false} RunShowsExactly(a: seq<Entry>, b: seq<Entry>, start: Time, accesses: seq<Access>)
    requires Distinct(a) && Distinct(b) && Purge(a, start) == Purge(b, start) && InOrder(start, accesses)
    ensures RunAlike(a, b, accesses) <==> RunPlaced(a, b, accesses)
    ensures RunAlike(a, b, accesses) ==>
              var now := LastTime(start, accesses);
              Purge(ApplyAll(a, accesses), now) == Purge(ApplyAll(b, accesses), now)
    decreases |accesses|
  {
    hide Purge, Apply, AlikeAfter, AlikePlaced, Distinct;
    if accesses != [] {
      hide RunAlike, RunPlaced, ApplyAll;
      var rest, last := accesses[..|accesses| - 1], accesses[|accesses| - 1];
      assert accesses == rest + [last];
      RunShowsExactly(a, b, start, rest);
      OneMoreAccess(a, b, rest, last);
      if RunAlike(a, b, rest) {
        LastAccessShows(a, b, LastTime(start, rest), rest, last);
      }
    }
  }

  function LastTime(start: Time, accesses: seq<Access>): Time {
    if accesses == [] then start else accesses[|accesses| - 1].at
  }

  /** A lookup at `start` that purged, against none: the two vectors answer alike at first. */
  lemma {:induction false} PurgedRunShowsExactly(entries: seq<Entry>, start: Time, accesses: seq<Access>)
    requires Distinct(entries) && InOrder(start, accesses)
    ensures RunAlike(entries, Purge(entries, start), accesses) <==> RunPlaced(entries, Purge(entries, start), accesses)
  {
    hide RunAlike, RunPlaced, Distinct, Purge;
    PurgeTwice(entries, start, start);
    PurgeDistinct(entries, start);
    RunShowsExactly(entries, Purge(entries, start), start, accesses);
  }

  /**
   * A purge followed by one put shows exactly when the put brings back an entry that had expired
   * at the purge, and that entry was followed by a live one or was owned under another spelling.
   */
  lemma {:induction false} PurgeShowsExactly(entries: seq<Entry>, rr: RR, expires: Time, purged: Time, now: Time)
    requires Distinct(entries) && purged <= now
    ensures var k := Find(entries, rr.rdata);
            Shown(Refresh(Purge(entries, purged), rr, expires), now) == Shown(Refresh(entries, rr, expires), now)
            <==> (expires > now && k < |entries| && entries[k].expires <= purged ==>
                    Purge(entries[k + 1..], now) == [] && entries[k].rr.(ttl := rr.ttl) == rr)
  {
    hide Purge, Find, Refresh;
    var kept := Purge(entries, purged);
    PurgeTwice(entries, purged, now);
    PurgeDistinct(entries, purged);
    PutShowsExactly(kept, entries, rr, expires, now);
    FindInPurged(entries, rr, purged, now);
  }

  /** Where a put goes after a purge: to the same place if the entry lives, to the end otherwise. */
  lemma {:induction false} FindInPurged(entries: seq<Entry>, rr: RR, purged: Time, now: Time)
    requires Distinct(entries) && purged <= now
    ensures var (k, kept) := (Find(entries, rr.rdata), Purge(entries, purged));
            if k < |entries| && entries[k].expires > purged
            then Kept(kept, rr) == Kept(entries, rr) && Behind(kept, rr, now) == Behind(entries, rr, now)
            else Kept(kept, rr) == rr && Behind(kept, rr, now) == []
  {
    hide Purge, Find, Distinct;
    var k, kept := Find(entries, rr.rdata), Purge(entries, purged);
    PurgeMembers(entries, purged);
    PurgeDistinct(entries, purged);
    if k < |entries| && entries[k].expires > purged {
      PurgeAround(entries, k, purged);
      var at := |Purge(entries[..k], purged)|;
      assert kept[at] == entries[k] && kept[at + 1..] == Purge(entries[k + 1..], purged);
      PurgeTwice(entries[k + 1..], purged, now);
      FoundOnce(kept, at);
    } else {
      forall j | 0 <= j < |kept| ensures kept[j].rr.rdata != rr.rdata {
        assert kept[j] in entries && kept[j].expires > purged;
        if kept[j].rr.rdata == rr.rdata {
          OnlyHolder(entries, kept[j]);
        }
      }
      FoundAt(kept, rr.rdata, |kept|);
    }
  }

  lemma {:induction false} FoundOnce(entries: seq<Entry>, at: nat)
    requires Distinct(entries) && at < |entries|
    ensures Find(entries, entries[at].rr.rdata) == at
  {
    FoundAt(entries, entries[at].rr.rdata, at);
  }

  lemma {:induction false} OnlyHolder(entries: seq<Entry>, e: Entry)
    requires Distinct(entries) && e in entries
    ensures var k := Find(entries, e.rr.rdata); k < |entries| && entries[k] == e
  {
    hide Find;
    var i :| 0 <= i < |entries| && entries[i] == e;
    FoundAt(entries, e.rr.rdata, i);
  }

  lemma {:induction false} RefreshNew(entries: seq<Entry>, rr: RR, expires: Time)
    requires forall j :: 0 <= j < |entries| ==> entries[j].rr.rdata != rr.rdata
    ensures Refresh(entries, rr, expires) == entries + [Entry(rr, expires)]
  {
    FoundAt(entries, rr.rdata, |entries|);
  }

  lemma {:induction false} RefreshFirst(e: Entry, more: seq<Entry>, rr: RR, expires: Time)
    requires e.rr.rdata == rr.rdata
    ensures Refresh([e] + more, rr, expires) == [Entry(e.rr.(ttl := rr.ttl), expires)] + more
  {
    FoundAt([e] + more, rr.rdata, 0);
  }

  lemma {:induction false} PurgeTwo(e: Entry, f: Entry, now: Time)
    ensures Purge([e, f], now) == Purge([e], now) + Purge([f], now)
  {
    hide Purge;
    assert [e, f] == [e] + [f];
    PurgeAppend([e], [f], now);
  }

  function Address(name: Text, last: byte, ttl: u32): RR {
    RR(name, TYPE_A, CLASS_IN, ttl, RData.A([10, 0, 0, last]))
  }

  /** A record for one second and one for nine, and the first put again when its second is over. */
  function TwoPuts(): seq<Access> {
    [Store(0, Address([0x61], 1, 1)), Store(0, Address([0x61], 2, 9))]
  }

  lemma {:induction false} AfterTwoPuts()
    ensures ApplyAll([], TwoPuts())
            == [Entry(Address([0x61], 1, 1), SECOND), Entry(Address([0x61], 2, 9), 9 * SECOND)]
  {
    hide Refresh, ApplyAll;
    var a, b := Address([0x61], 1, 1), Address([0x61], 2, 9);
    assert TwoPuts() == [] + [Store(0, a)] + [Store(0, b)];
    ApplyNothing([]);
    ApplyLast([], [], Store(0, a));
    ApplyLast([], [] + [Store(0, a)], Store(0, b));
    RefreshNew([], a, SECOND);
    assert [] + [Entry(a, SECOND)] == [Entry(a, SECOND)];
    assert a.rdata.ip[3] == 1 && b.rdata.ip[3] == 2;
    RefreshNew([Entry(a, SECOND)], b, 9 * SECOND);
  }

  lemma {:induction false} ApplyNothing(entries: seq<Entry>)
    ensures ApplyAll(entries, []) == entries
  {
  }

  /** A purge shows in the order: a record put again after it was purged moves to the end. */
  lemma {:induction false} PurgingVisibleInOrder()
    ensures var (a, b) := (Address([0x61], 1, 1), Address([0x61], 2, 9));
            && Shown(ApplyAll([], TwoPuts() + [Store(SECOND, a)]), SECOND) == [a, b]
            && Shown(ApplyAll([], TwoPuts() + [Look(SECOND)] + [Store(SECOND, a)]), SECOND) == [b, a]
  {
    hide Refresh, ApplyAll, Purge;
    var a, b := Address([0x61], 1, 1), Address([0x61], 2, 9);
    var e, f, again := Entry(a, SECOND), Entry(b, 9 * SECOND), Entry(a, 2 * SECOND);
    AfterTwoPuts();
    PurgeOne(e, SECOND);
    PurgeOne(f, SECOND);
    PurgeOne(again, SECOND);
    ApplyLast([], TwoPuts(), Store(SECOND, a));
    assert [e, f] == [e] + [f];
    RefreshFirst(e, [f], a, 2 * SECOND);
    assert [again] + [f] == [again, f];
    PurgeTwo(again, f, SECOND);
    ApplyLast([], TwoPuts(), Look(SECOND));
    PurgeTwo(e, f, SECOND);
    assert [] + [f] == [f];
    ApplyLast([], TwoPuts() + [Look(SECOND)], Store(SECOND, a));
    assert a.rdata.ip[3] == 1 && b.rdata.ip[3] == 2;
    RefreshNew([f], a, 2 * SECOND);
    assert [f] + [again] == [f, again];
    PurgeTwo(f, again, SECOND);
  }

  /** A purge shows in the spelling: without it the record keeps the owner it was first put under. */
  lemma {:induction false} PurgingVisibleInSpelling()
    ensures var (big, small) := (Address([0x41], 1, 1), Address([0x61], 1, 1));
            && KeyOf(big) == KeyOf(small)
            && Shown(ApplyAll([], [Store(0, big)] + [Store(SECOND, small)]), SECOND) == [big]
            && Shown(ApplyAll([], [Store(0, big)] + [Look(SECOND)] + [Store(SECOND, small)]), SECOND) == [small]
  {
    assert Lower([0x41]) == Lower([0x61]);
    hide Refresh, ApplyAll, Purge, Lower;
    var big, small := Address([0x41], 1, 1), Address([0x61], 1, 1);
    var e := Entry(big, SECOND);
    assert [Store(0, big)] == [] + [Store(0, big)];
    ApplyNothing([]);
    ApplyLast([], [], Store(0, big));
    RefreshNew([], big, SECOND);
    assert [] + [e] == [e];
    ApplyLast([], [Store(0, big)], Store(SECOND, small));
    assert [e] + [] == [e] && [Entry(big, 2 * SECOND)] + [] == [Entry(big, 2 * SECOND)];
    RefreshFirst(e, [], small, 2 * SECOND);
    PurgeOne(Entry(big, 2 * SECOND), SECOND);
    ApplyLast([], [Store(0, big)], Look(SECOND));
    PurgeOne(e, SECOND);
    ApplyLast([], [Store(0, big)] + [Look(SECOND)], Store(SECOND, small));
    RefreshNew([], small, 2 * SECOND);
    assert [] + [Entry(small, 2 * SECOND)] == [Entry(small, 2 * SECOND)];
    PurgeOne(Entry(small, 2 * SECOND), SECOND);
  }

  // ---- The cache -----------------------------------------------------------------------------------

  /** The negative map holds, for every key, the expiry of its most recent entry. */
  ghost predicate NegativesRefine(negatives: map<Key, Time>, log: seq<Negative>) {
    forall key ::
      var n := LastNegative(log, key);
      (key in negatives <==> n.Some?) && (n.Some? ==> negatives[key] == Expiry(n.value.at, n.value.ttl))
  }

  class Cache {
    var records: map<Key, seq<Entry>>
    var negatives: map<Key, Time>
    var now: Time
    ghost var log: seq<Put>
    ghost var negativeLog: seq<Negative>

    ghost predicate Valid()
      reads this
    {
      Refines(records, log, now) && NegativesRefine(negatives, negativeLog)
    }

    constructor (start: Time)
      ensures Valid() && log == [] && negativeLog == [] && now == start
    {
      records, negatives, now := map[], map[], start;
      log, negativeLog := [], [];
    }

    /** `Instant::now()`: some time not before the previous reading. */
    method ReadClock() returns (t: Time)
      requires Valid()
      modifies this`now
      ensures Valid() && t == now >= old(now)
    {
      hide Refines;
      t :| t >= now;
      RefinesLater(records, log, now, t);
      now := t;
    }

    /** Drops what has expired under the key, then returns what is left. */
    method Get(name: Text, qtype: u16, qclass: u16) returns (result: Option<seq<RR>>)
      requires Valid()
      modifies this`records, this`now
      ensures Valid() && now >= old(now)
      ensures Answers(log, Key(Lower(name), qtype, qclass), now, result)
      ensures Accessed(old(records), records, Key(Lower(name), qtype, qclass), Look(now))
      ensures result == var rrs := Shown(old(EntriesAt(records, Key(Lower(name), qtype, qclass))), now);
                        if rrs == [] then None else Some(rrs)
    {
      hide Refines, Answers, Purge, Agrees, LastPut;
      var key := Key(Lower(name), qtype, qclass);
      var t := ReadClock();
      AgreesAt(records, log, now, key);
      if key in records {
        PurgedAnswers(records[key], key, log, now, now);
        PurgeRefines(records, log, now, now, key);
        var entries := Retain(records[key], t);
        if entries == [] {
          records := records - {key};
          return None;
        }
        records := records[key := entries];
        return Some(RecordsOf(entries));
      } else {
        NothingAnswers(key, log, now, now);
        PurgeNothing(now);
        return None;
      }
    }

    /** Finds the entry with the same RDATA and refreshes it, or appends a new one. */
    method PutRecord(rr: RR)
      requires Valid()
      modifies this`records, this`now, this`log
      ensures Valid() && now >= old(now)
      ensures log == old(log) + [Put(now, rr)]
      ensures Accessed(old(records), records, KeyOf(rr), Store(now, rr))
    {
      hide Refines, Find, Expiry;
      var key := KeyOf(rr);
      var t := ReadClock();
      PutRefines(records, log, now, Put(now, rr));
      var entries := if key in records then records[key] else [];
      var expires := Expiry(t, rr.ttl);
      log := log + [Put(now, rr)];
      for i := 0 to |entries|
        invariant forall j :: 0 <= j < i ==> entries[j].rr.rdata != rr.rdata
      {
        if entries[i].rr.rdata == rr.rdata {
          FoundAt(entries, rr.rdata, i);
          records := records[key := entries[i := Entry(entries[i].rr.(ttl := rr.ttl), expires)]];
          return;
        }
      }
      FoundAt(entries, rr.rdata, |entries|);
      records := records[key := entries + [Entry(rr, expires)]];
    }

    method PutAll(rrs: seq<RR>)
      requires Valid()
      modifies this`records, this`now, this`log
      ensures Valid() && now >= old(now)
      ensures |log| == |old(log)| + |rrs| && log[..|old(log)|] == old(log)
      ensures forall i :: 0 <= i < |rrs| ==> log[|old(log)| + i].rr == rrs[i]
    {
      hide Refines, Accessed;
      for i := 0 to |rrs|
        invariant Valid() && now >= old(now)
        invariant |log| == |old(log)| + i && log[..|old(log)|] == old(log)
        invariant forall j :: 0 <= j < i ==> log[|old(log)| + j].rr == rrs[j]
      {
        PutRecord(rrs[i]);
      }
    }

    method PutNxdomain(name: Text, qtype: u16, qclass: u16, ttl: u32)
      requires Valid()
      modifies this`negatives, this`now, this`negativeLog
      ensures Valid() && now >= old(now)
      ensures negativeLog == old(negativeLog) + [Negative(now, Key(Lower(name), qtype, qclass), ttl)]
    {
      hide Refines, Expiry;
      var key := Key(Lower(name), qtype, qclass);
      var t := ReadClock();
      NegativeRefines(negatives, negativeLog, Negative(t, key, ttl));
      negatives := negatives[key := Expiry(t, ttl)];
      negativeLog := negativeLog + [Negative(t, key, ttl)];
    }

    /** True exactly while the most recent negative entry under the key has not expired. */
    method IsNxdomain(name: Text, qtype: u16, qclass: u16) returns (hit: bool)
      requires Valid()
      modifies this`now
      ensures Valid() && now >= old(now)
      ensures var n := LastNegative(negativeLog, Key(Lower(name), qtype, qclass));
              hit <==> n.Some? && now < Expiry(n.value.at, n.value.ttl)
    {
      hide Refines, LastNegative, Expiry;
      var key := Key(Lower(name), qtype, qclass);
      var t := ReadClock();
      hit := key in negatives && t < negatives[key];
    }
  }

  lemma {:induction false} AgreesAt(records: map<Key, seq<Entry>>, log: seq<Put>, now: Time, key: Key)
    requires Refines(records, log, now)
    ensures Agrees(EntriesAt(records, key), key, log, now)
  {
    hide Agrees;
  }

  lemma {:induction false} FoundAt(entries: seq<Entry>, d: RData, i: nat)
    requires i <= |entries| && (i < |entries| ==> entries[i].rr.rdata == d)
    requires forall j :: 0 <= j < i ==> entries[j].rr.rdata != d
    ensures Find(entries, d) == i
  {
    hide Find;
    var k := Find(entries, d);
  }

  lemma {:induction false} NegativeRefines(negatives: map<Key, Time>, log: seq<Negative>, n: Negative)
    requires NegativesRefine(negatives, log)
    ensures NegativesRefine(negatives[n.key := Expiry(n.at, n.ttl)], log + [n])
  {
    hide Expiry;
    var longer := log + [n];
    assert longer[..|longer| - 1] == log;
  }

  /** The loop behind `retain`. */
  method Retain(entries: seq<Entry>, now: Time) returns (kept: seq<Entry>)
    ensures kept == Purge(entries, now)
  {
    hide Purge;
    PurgeNothing(now);
    kept := [];
    assert entries[..0] == [];
    for i := 0 to |entries|
      invariant kept == Purge(entries[..i], now)
    {
      assert entries[..i + 1] == entries[..i] + [entries[i]];
      PurgeAppend(entries[..i], [entries[i]], now);
      PurgeOne(entries[i], now);
      if entries[i].expires > now {
        kept := kept + [entries[i]];
      }
    }
    assert entries[..|entries|] == entries;
  }
}
