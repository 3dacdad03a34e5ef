/**
 * The iterative resolver as a class over its cache and network, proved against `ResolverSpec`.
 */
module Resolver {
  import opened Wire
  import opened Text
  import opened DnsMessage
  import opened DnsCache
  import opened ResolverSpec

  class Resolver {
    const cache: Cache
    const network: Network
    var queries: nat
    ghost var rounds: nat

    constructor (cache: Cache, network: Network)
      ensures this.cache == cache && this.network == network && queries == 0 && rounds == 0
    {
      this.cache, this.network := cache, network;
      queries, rounds := 0, 0;
    }

    /** Every address the cache knows for the name servers of a zone. */
    method NsIps(zone: Text) returns (result: seq<Server>)
      requires cache.Valid()
      modifies cache`records, cache`now
      ensures cache.Valid() && ZoneGives(cache.log, zone, result)
    {
      hide Cache.Valid, Answers, CacheSaid, Addresses, NsGives;
      var ns := cache.Get(zone, TYPE_NS, CLASS_IN);
      CacheSays(cache.log, KeyFor(zone, TYPE_NS), ns, cache.now);
      var rrs := OrNone(ns);
      result := [];
      assert rrs[..0] == [];
      for i := 0 to |rrs|
        invariant cache.Valid() && NsGive(cache.log, rrs[..i], result)
      {
        var more: seq<Server> := NsAddresses(rrs[i]);
        OneMoreNs(cache.log, rrs[..i], rrs[i], result, more);
        assert rrs[..i + 1] == rrs[..i] + [rrs[i]];
        result := result + more;
      }
      assert rrs[..|rrs|] == rrs;
    }

    /** The cached addresses of one name server. */
    method NsAddresses(rr: RR) returns (servers: seq<Server>)
      requires cache.Valid()
      modifies cache`records, cache`now
      ensures cache.Valid() && NsGives(cache.log, rr, servers)
    {
      hide Cache.Valid, Answers, CacheSaid, Addresses;
      servers := [];
      if rr.rdata.NS? {
        var name := rr.rdata.name;
        var a := cache.Get(name, TYPE_A, CLASS_IN);
        CacheSays(cache.log, KeyFor(name, TYPE_A), a, cache.now);
        servers := Addresses(OrNone(a), name);
      }
    }

    /** Zone strings as the program builds them: all but the root end in two dots. */
    method Nameservers(name: Text) returns (servers: Option<seq<Server>>)
      requires cache.Valid()
      modifies cache`records, cache`now
      ensures cache.Valid() && ZoneServers(cache.log, name, servers)
    {
      hide Cache.Valid, ZoneGives, Join, Split, ZoneAt;
      var labels := Split(TrimDots(name)) + [[]];
      for i := 0 to |labels|
        invariant cache.Valid()
        invariant forall j :: 0 <= j < i ==> ZoneGives(cache.log, ZoneAt(name, j), [])
      {
        var zone := if i == |labels| - 1 then [DOT] else Join(labels[i..], DOT) + [DOT];
        ZoneString(name, i);
        var ips := NsIps(zone);
        if ips != [] {
          assert ZoneDecides(cache.log, name, ips, i);
          return Some(ips);
        }
      }
      return None;
    }

    /** Puts the three sections of a reply into the cache. */
    method CacheReply(m: Message)
      requires cache.Valid()
      modifies cache`records, cache`now, cache`log
      ensures cache.Valid()
      ensures Puts(old(cache.log), cache.log, m)
    {
      hide Cache.Valid;
      cache.PutAll(m.answers);
      cache.PutAll(m.authorities);
      cache.PutAll(m.additionals);
    }

    /** Asks the servers in turn; the first answer goes into the cache and is returned. */
    method QueryBestServer(name: Text, qtype: u16, servers: seq<Server>) returns (r: Option<Reply>)
      requires cache.Valid()
      modifies this, cache
      ensures cache.Valid() && rounds == old(rounds) + 1
      ensures FirstAnswer(network, old(queries), queries, name, qtype, servers, r, old(cache.log), cache.log)
      ensures cache.negativeLog == old(cache.negativeLog)
    {
      hide Cache.Valid, Puts, ReplyOf;
      rounds := rounds + 1;
      for i := 0 to |servers|
        invariant cache.Valid() && rounds == old(rounds) + 1 && queries == old(queries) + i
        invariant cache.log == old(cache.log) && cache.negativeLog == old(cache.negativeLog)
        invariant forall j :: 0 <= j < i ==> Silent(network, old(queries), name, qtype, servers, j)
      {
        var reply := network(queries, servers[i].1, name, qtype);
        queries := queries + 1;
        if reply.Some? {
          CacheReply(reply.value);
          r := Some(ReplyOf(reply.value));
          assert AnswersAt(network, old(queries), queries, name, qtype, servers, r.value, old(cache.log), cache.log, i);
          return;
        }
      }
      return None;
    }

    /**
     * Servers of a referral: glue, then the cache, then a nested resolution while depth remains.
     * `k`, `ip`, `asked` and `qtype` name the query the reply answered, `name` what is being resolved.
     */
    method ExtractReferral(
      reply: Reply, depth: nat, ghost n: nat, ghost k: nat, ghost ip: Ip4, ghost asked: Text, ghost qtype: u16,
      ghost name: Text) returns (servers: Option<seq<Server>>)
      requires cache.Valid() && Bounded(network, n) && |NsNames(reply.authorities)| <= n
      requires network(k, ip, asked, qtype).Some? && network(k, ip, asked, qtype).value.authorities == reply.authorities
      modifies this, cache
      ensures cache.Valid() && rounds + 1 <= old(rounds) + RoundsPerIteration(depth, n)
      ensures FedBy(network, old(cache.log), cache.log)
      ensures NegativesFed(network, name, qtype, old(cache.negativeLog), cache.negativeLog)
      ensures servers.None? <==> NsNames(reply.authorities) == []
      ensures servers.Some? ==>
                FromNames(network, NsNames(reply.authorities), reply.additionals, servers.value, cache.log, depth)
      ensures servers.None? ==> cache.log == old(cache.log) && cache.negativeLog == old(cache.negativeLog)
      decreases DepthLeft(depth), 1
    {
      hide Cache.Valid, Bounded, MaxRounds, Resolved, FromName, FromNames, NsNames, FedBy, NegativesFed, NsReceived;
      var names := NsNames(reply.authorities);
      NoServers(network, reply.additionals, cache.log, depth);
      FedNothing(network, cache.log);
      NoNegatives(network, name, qtype, cache.negativeLog);
      if names == [] {
        return None;
      }
      ghost var each := if depth >= MAX_GLUE_DEPTH then 0 else MaxRounds(depth + 1, n);
      var result: seq<Server> := [];
      for i := 0 to |names|
        invariant cache.Valid() && rounds <= old(rounds) + i * each && FedBy(network, old(cache.log), cache.log)
        invariant NegativesFed(network, name, qtype, old(cache.negativeLog), cache.negativeLog)
        invariant FromNames(network, names[..i], reply.additionals, result, cache.log, depth)
      {
        assert names[..i + 1] == names[..i] + [names[i]];
        assert (i + 1) * each == i * each + each;
        ghost var log, neg := cache.log, cache.negativeLog;
        var more := ServersOf(names[i], reply.additionals, depth, n);
        FedTwice(network, old(cache.log), log, cache.log);
        Named(network, k, ip, asked, qtype, names[i]);
        NestedNegatives(network, name, qtype, names[i], neg, cache.negativeLog);
        NegativesTwice(network, name, qtype, old(cache.negativeLog), neg, cache.negativeLog);
        FedExtends(network, log, cache.log);
        StillFromNames(network, log, cache.log, names[..i], reply.additionals, result, depth);
        OneMoreName(network, names[..i], names[i], reply.additionals, result, more, cache.log, depth);
        result := result + more;
      }
      Multiply(|names|, n, each);
      assert names[..|names|] == names;
      return Some(result);
    }

    /** The servers under one name. */
    method ServersOf(name: Text, additionals: seq<RR>, depth: nat, ghost n: nat) returns (more: seq<Server>)
      requires cache.Valid() && Bounded(network, n)
      modifies this, cache
      ensures cache.Valid() && FedBy(network, old(cache.log), cache.log)
      ensures NegativesFed(network, name, TYPE_A, old(cache.negativeLog), cache.negativeLog)
      ensures rounds <= old(rounds) + if depth >= MAX_GLUE_DEPTH then 0 else MaxRounds(depth + 1, n)
      ensures FromName(network, name, additionals, more, cache.log, depth)
      decreases DepthLeft(depth), 0
    {
      hide Cache.Valid, Bounded, MaxRounds, Resolved, Told, CacheSaid, Glue, Addresses, Answers, FedBy, NegativesFed,
           Verdict;
      FedNothing(network, cache.log);
      NoNegatives(network, name, TYPE_A, cache.negativeLog);
      var glue := Glue(additionals, name);
      if glue.Some? {
        return [(name, glue.value)];
      }
      var cached := cache.Get(name, TYPE_A, CLASS_IN);
      CacheSays(cache.log, KeyFor(name, TYPE_A), cached, cache.now);
      if cached.Some? {
        return Addresses(cached.value, name);
      }
      if depth >= MAX_GLUE_DEPTH {
        return [];
      }
      ghost var log, roots, turns := cache.log, None, [];
      var nested;
      nested, roots, turns := ResolveIterative(name, TYPE_A, depth + 1, n);
      ResolvedFeeds(network, name, TYPE_A, log, cache.log, old(cache.negativeLog), cache.negativeLog, nested);
      FedExtends(network, log, cache.log);
      StillSaid(log, cache.log, KeyFor(name, TYPE_A), None);
      more := if nested.Ok? then Addresses(nested.rrs, name) else [];
      assert Nested(network, name, more, cache.log, depth + 1);
    }

    /**
     * `resolve_iterative`: from the servers of the root, turn by turn.  `turns` tells what happened,
     * and what happened decides the outcome.
     */
    method ResolveIterative(name: Text, qtype: u16, depth: nat, ghost n: nat)
      returns (r: Outcome, ghost roots: Option<seq<Server>>, ghost turns: seq<Turn>)
      requires cache.Valid() && Bounded(network, n)
      modifies this, cache
      ensures cache.Valid() && rounds <= old(rounds) + MaxRounds(depth, n)
      ensures Resolved(network, name, qtype, old(cache.log), cache.log, old(cache.negativeLog), cache.negativeLog, r)
      ensures Told(network, name, qtype, roots, turns, cache.log, depth) && r == Verdict(turns)
      ensures turns != [] && turns[|turns| - 1].Denial? ==>
                DenialNoted(name, qtype, turns[|turns| - 1].reply, cache.negativeLog)
      decreases DepthLeft(depth), 4
    {
      hide Cache.Valid, Bounded, Going, Resolved, RoundsPerIteration, Telling, Told, Verdict, TurnFits, FedBy,
           NegativesFed, ZoneServers, Extends;
      ghost var log0, neg0 := cache.log, cache.negativeLog;
      GoingStarts(network, name, qtype, log0, neg0);
      ghost var each := RoundsPerIteration(depth, n);
      turns := [];
      var start := Nameservers([DOT]);
      roots := start;
      TellingStarts(network, name, qtype, roots, cache.log, depth);
      if start.None? {
        return Err, roots, turns;
      }
      var servers := start.value;
      var visited: set<Text> := {};
      var current := name;
      var cnameDepth := 0;
      var chain: seq<RR> := [];
      for i := 0 to MAX_ITERATIONS
        invariant cache.Valid() && rounds <= old(rounds) + i * each
        invariant |chain| == cnameDepth <= MAX_CNAME_DEPTH && current == LeadsTo(name, chain)
        invariant Going(network, name, qtype, log0, cache.log, neg0, cache.negativeLog, chain)
        invariant Telling(network, name, qtype, start.value, turns, cache.log, depth) && |turns| == i
        invariant chain == ChainOf(turns) && visited == VisitedOf(turns) && servers == AskedBy(start.value, turns)
      {
        Iterate(i, each);
        ghost var log, neg := cache.log, cache.negativeLog;
        var turn := OneTurn(name, current, qtype, servers, visited, cnameDepth, depth, n, start.value, turns);
        FedExtends(network, log, cache.log);
        TellingLater(network, name, qtype, start.value, turns, log, cache.log, depth);
        Tell(network, name, qtype, start.value, turns, turn, cache.log, depth);
        TurnAdded(start.value, turns, turn);
        GoingOn(network, name, qtype, log0, log, cache.log, neg0, neg, cache.negativeLog, chain);
        turns := turns + [turn];
        match turn {
          case Cached(rrs) =>
            GoingEnds(network, name, qtype, log0, cache.log, neg0, cache.negativeLog, chain, rrs);
            return Ok(chain + rrs), roots, turns;
          case Final(_, rrs) =>
            GoingEnds(network, name, qtype, log0, cache.log, neg0, cache.negativeLog, chain, rrs);
            return Ok(chain + rrs), roots, turns;
          case Bare(_) =>
            GoingEmpty(network, name, qtype, log0, cache.log, neg0, cache.negativeLog, chain);
            return Ok(chain), roots, turns;
          case Denial(_) =>
            GoingEmpty(network, name, qtype, log0, cache.log, neg0, cache.negativeLog, chain);
            return Ok([]), roots, turns;
          case Alias(_, rr, next) =>
            GoingAlias(network, name, qtype, log0, cache.log, neg0, cache.negativeLog, chain, rr);
            cnameDepth := cnameDepth + 1;
            current := rr.rdata.name;
            chain := chain + [rr];
            GoingFails(network, name, qtype, log0, cache.log, neg0, cache.negativeLog, chain);
            if next.None? {
              return Err, roots, turns;
            }
            servers := next.value;
          case Referral(_, named) =>
            visited := visited + {ServerKey(named)};
            servers := named;
          case _ => return Err, roots, turns;
        }
      }
      ToldAtLast(network, name, qtype, start.value, turns, cache.log, depth);
      GoingFails(network, name, qtype, log0, cache.log, neg0, cache.negativeLog, chain);
      return Err, roots, turns;
    }

    /** One pass of the loop: the cache, else the first reply and what it means. */
    method OneTurn(
      name: Text, current: Text, qtype: u16, servers: seq<Server>, visited: set<Text>, cnameDepth: nat, depth: nat,
      ghost n: nat, ghost roots: seq<Server>, ghost before: seq<Turn>) returns (turn: Turn)
      requires cache.Valid() && Bounded(network, n)
      requires current == LeadsTo(name, ChainOf(before)) && servers == AskedBy(roots, before)
      requires visited == VisitedOf(before) && cnameDepth == |ChainOf(before)|
      modifies this, cache
      ensures cache.Valid() && rounds <= old(rounds) + RoundsPerIteration(depth, n)
      ensures FedBy(network, old(cache.log), cache.log)
      ensures NegativesFed(network, name, qtype, old(cache.negativeLog), cache.negativeLog)
      ensures TurnFits(network, name, qtype, roots, before, turn, cache.log, depth)
      ensures Sound(network, current, qtype, turn, cache.log)
      ensures turn.Alias? ==> cnameDepth < MAX_CNAME_DEPTH
      ensures turn.Denial? ==> DenialNoted(name, qtype, turn.reply, cache.negativeLog)
      decreases DepthLeft(depth), 3
    {
      hide Cache.Valid, Bounded, Honest, Answers, RoundsPerIteration, HasSoa, SoaMinimum, LeadsTo, FindCname,
           FirstAnswer, FromNames, ReplyOf, ReplyGiven, NobodyReplied, CacheSaid, ZoneServers, ExtractMatching,
           NsNames, FedBy, NegativesFed, Recorded, TurnFits, ChainOf, VisitedOf, AskedBy, ServerKey, Extends;
      FedNothing(network, cache.log);
      NoNegatives(network, name, qtype, cache.negativeLog);
      AtLeastOne(depth, n);
      var cached := cache.Get(current, qtype, CLASS_IN);
      CacheSays(cache.log, KeyFor(current, qtype), cached, cache.now);
      if cached.Some? {
        CachedType(cache.log, KeyFor(current, qtype), cache.now, cached.value);
        CachedRecorded(cache.log, KeyFor(current, qtype), cache.now, cached.value);
        CachedTurn(network, name, qtype, roots, before, cached.value, cache.log, depth);
        return Cached(cached.value);
      }
      ghost var asked, log := queries, cache.log;
      var upstream := QueryBestServer(current, qtype, servers);
      ReplyOrSilence(network, asked, queries, current, qtype, servers, upstream, log, cache.log);
      NoAnswer(network, asked, queries, current, qtype, servers, upstream, log, cache.log);
      if upstream.None? {
        SilentTurn(network, name, qtype, roots, before, cache.log, depth);
        return Silence;
      }
      var reply := upstream.value;
      ghost var k, ip := Answerer(network, asked, queries, current, qtype, servers, upstream, log, cache.log);
      ghost var now := cache.log;
      if reply.answers != [] {
        turn := ReadAnswers(reply, current, qtype, cnameDepth, k, ip, before);
      } else {
        BoundedAt(network, n, k, ip, current, qtype);
        turn := ReadAuthorities(name, current, qtype, reply, visited, depth, n, k, ip, before);
        FedTwice(network, log, now, cache.log);
      }
      FedExtends(network, log, cache.log);
      StillSaid(log, cache.log, KeyFor(current, qtype), None);
      RepliedTurn(network, name, qtype, roots, before, turn, cache.log, depth);
    }

    /** A reply with answers: the records asked for, else a CNAME, else nothing. */
    method ReadAnswers(
      reply: Reply, current: Text, qtype: u16, cnameDepth: nat, ghost k: nat, ghost ip: Ip4, ghost before: seq<Turn>)
      returns (turn: Turn)
      requires cache.Valid() && reply.answers != [] && Recorded(cache.log, reply.answers)
      requires network(k, ip, current, qtype).Some? && network(k, ip, current, qtype).value.answers == reply.answers
      requires cnameDepth == |ChainOf(before)|
      modifies cache`records, cache`now
      ensures cache.Valid() && !turn.Cached? && !turn.Silence? && turn.reply == reply
      ensures AnswersMean(qtype, before, turn, cache.log) && Sound(network, current, qtype, turn, cache.log)
      ensures turn.Alias? ==> cnameDepth < MAX_CNAME_DEPTH
    {
      hide Cache.Valid, Honest, FindCname, ExtractMatching, ZoneServers, Recorded, ChainOf;
      var matching := ExtractMatching(reply.answers, qtype);
      if matching != [] {
        PartRecorded(cache.log, reply.answers, matching);
        return Final(reply, matching);
      }
      if qtype != TYPE_CNAME {
        var cname := FindCname(reply.answers);
        if cname.Some? {
          if cnameDepth >= MAX_CNAME_DEPTH {
            return TooMany(reply);
          }
          HonestOwner(network, k, ip, current, qtype);
          PartRecorded(cache.log, reply.answers, [cname.value]);
          var next := Nameservers(cname.value.rdata.name);
          return Alias(reply, cname.value, next);
        }
      }
      return Bare(reply);
    }

    /** A reply without answers: the servers it names, else its SOA, else nothing. */
    method ReadAuthorities(
      name: Text, current: Text, qtype: u16, reply: Reply, visited: set<Text>, depth: nat, ghost n: nat, ghost k: nat,
      ghost ip: Ip4, ghost before: seq<Turn>) returns (turn: Turn)
      requires cache.Valid() && Bounded(network, n) && |NsNames(reply.authorities)| <= n && reply.answers == []
      requires network(k, ip, current, qtype).Some?
      requires network(k, ip, current, qtype).value.authorities == reply.authorities
      requires visited == VisitedOf(before)
      modifies this, cache
      ensures cache.Valid() && rounds + 1 <= old(rounds) + RoundsPerIteration(depth, n)
      ensures FedBy(network, old(cache.log), cache.log)
      ensures NegativesFed(network, name, qtype, old(cache.negativeLog), cache.negativeLog)
      ensures !turn.Cached? && !turn.Silence? && turn.reply == reply && !turn.Alias? && !turn.Final?
      ensures if NsNames(reply.authorities) != [] then
                && (turn.Referral? || turn.DeadEnd?)
                && FromNames(network, NsNames(reply.authorities), reply.additionals, turn.servers, cache.log, depth)
                && (turn.Referral? <==> turn.servers != [] && ServerKey(turn.servers) !in VisitedOf(before))
              else if HasSoa(reply.authorities) then turn.Denial?
              else turn.Useless?
      ensures turn.Denial? ==> DenialNoted(name, qtype, reply, cache.negativeLog)
      decreases DepthLeft(depth), 2
    {
      hide Cache.Valid, Bounded, RoundsPerIteration, HasSoa, SoaMinimum, FromNames, NsNames, FedBy, NegativesFed,
           VisitedOf, ServerKey;
      FedNothing(network, cache.log);
      var referral := ExtractReferral(reply, depth, n, k, ip, current, qtype, name);
      if referral.Some? {
        if referral.value == [] {
          return DeadEnd(reply, []);
        }
        if ServerKey(referral.value) in visited {
          return DeadEnd(reply, referral.value);
        }
        return Referral(reply, referral.value);
      }
      if HasSoa(reply.authorities) {
        ghost var neg := cache.negativeLog;
        cache.PutNxdomain(name, qtype, CLASS_IN, SoaMinimum(reply.authorities));
        ghost var e := cache.negativeLog[|neg|];
        SoaAnswered(network, k, ip, current, qtype, reply.authorities);
        OneNegative(network, name, qtype, neg, e, k, ip, current);
        return Denial(reply);
      }
      return Useless(reply);
    }

    /**
     * `resolve`: the caches first, then iteration from the root; an error is an empty answer.  The
     * caches are asked at times `at` and `later`; a live answer or a live negative entry there
     * costs nothing and changes nothing.
     */
    method Resolve(name: Text, qtype: u16, ghost n: nat) returns (rrs: seq<RR>, ghost at: Time, ghost later: Time)
      requires cache.Valid() && Bounded(network, n)
      modifies this, cache
      ensures cache.Valid() && rounds <= old(rounds) + MaxRounds(0, n) && old(cache.now) <= at <= later
      ensures Resolved(network, Lower(name), qtype, old(cache.log), cache.log,
                       old(cache.negativeLog), cache.negativeLog, Ok(rrs))
      ensures Hit(old(cache.log), KeyFor(name, qtype), at) ==>
                && rounds == old(rounds) && queries == old(queries)
                && cache.log == old(cache.log) && cache.negativeLog == old(cache.negativeLog)
                && Answers(old(cache.log), KeyFor(name, qtype), at, Some(rrs))
      ensures !Hit(old(cache.log), KeyFor(name, qtype), at)
              && Denied(old(cache.negativeLog), KeyFor(name, qtype), later) ==>
                && rounds == old(rounds) && queries == old(queries)
                && cache.log == old(cache.log) && cache.negativeLog == old(cache.negativeLog) && rrs == []
      ensures !Hit(old(cache.log), KeyFor(name, qtype), at)
              && !Denied(old(cache.negativeLog), KeyFor(name, qtype), later) ==>
                exists roots, turns ::
                  && Told(network, Lower(name), qtype, roots, turns, cache.log, 0)
                  && rrs == if Verdict(turns).Ok? then Verdict(turns).rrs else []
    {
      hide Cache.Valid, Bounded, Honest, Going, Resolved, Answers, MaxRounds, LastNegative, Hit, Told, Verdict;
      var key := Lower(name);
      LowerIdempotent(name);
      GoingStarts(network, key, qtype, cache.log, cache.negativeLog);
      GoingEmpty(network, key, qtype, cache.log, cache.log, cache.negativeLog, cache.negativeLog, []);
      var cached := cache.Get(key, qtype, CLASS_IN);
      at, later := cache.now, cache.now;
      HitExactly(cache.log, KeyFor(name, qtype), at, cached);
      if cached.Some? {
        CachedType(cache.log, KeyFor(name, qtype), cache.now, cached.value);
        CachedRecorded(cache.log, KeyFor(name, qtype), cache.now, cached.value);
        GoingEnds(network, key, qtype, cache.log, cache.log, cache.negativeLog, cache.negativeLog, [], cached.value);
        assert [] + cached.value == cached.value;
        rrs := cached.value;
        return;
      }
      var negative := cache.IsNxdomain(key, qtype, CLASS_IN);
      later := cache.now;
      if negative {
        rrs := [];
        return;
      }
      ghost var log0, neg0 := cache.log, cache.negativeLog;
      var outcome;
      ghost var roots, turns;
      outcome, roots, turns := ResolveIterative(key, qtype, 0, n);
      ErrorIsEmpty(network, key, qtype, log0, cache.log, neg0, cache.negativeLog, outcome);
      rrs := if outcome.Ok? then outcome.rrs else [];
    }
  }
}
