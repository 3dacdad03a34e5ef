/** The retransmission timer over whole runs: it is never off while something is outstanding, it
    backs off as announced, and it takes a connection that hears nothing out of the table. */
module TcpTimers {
  import opened Wire
  import opened TcpSpec
  import opened TcpRuns

  // ---- No silent stall ---------------------------------------------------------------

  /** Something unacknowledged on a live connection means an armed timer. */
  predicate NoStall(t: TcbView) {
    t.state != Closed && t.sndUna != t.sndNxt ==> t.retransmitAt.Some?
  }

  lemma {:induction false} AdvanceKeepsNoStall(t: TcbView, event: Event, now: Time)
    requires NoStall(t)
    ensures NoStall(Advance(t, event, now).0)
  {
    hide Process, Wrap, SegLen, BuildRetransmit, AfterSending;
    var (t1, out) := Effect(t, event, now);
    AfterSendingFrame(t1, out, now);
    if event.Segment? {
      SegmentKeepsNoStall(t, event.h, event.payload, now);
    }
  }

  lemma {:induction false} SegmentKeepsNoStall(t: TcbView, h: Header, payload: seq<byte>, now: Time)
    requires NoStall(t)
    ensures NoStall(Process(t, h, payload, now).0)
  {
    hide Wrap, WrapSub, Has, SegLen, AcceptAck, AcceptData;
    AcceptAckFrame(t, h.ackNo);
    AcceptDataFrame(t, h, payload);
    AcceptDataFrame(t.(sndUna := h.ackNo, retransmitAt := None, retransmitCount := 0, state := FinWait2), h, payload);
  }

  /** After every completed step of every run the timer is armed if anything is outstanding. */
  lemma {:induction false} NeverStalls(key: ConnKey, iss: u32, now: Time, events: seq<Timed>)
    ensures NoStall(Run(Start(key, iss, now), events).t)
    decreases |events|
  {
    hide Advance;
    if events != [] {
      var before, e := events[..|events| - 1], events[|events| - 1];
      NeverStalls(key, iss, now, before);
      AdvanceKeepsNoStall(Run(Start(key, iss, now), before).t, e.event, e.now);
    }
  }

  // ---- Back-off ----------------------------------------------------------------------

  function Pow2(k: nat): (r: nat)
    ensures r >= 1
  {
    if k == 0 then 1 else 2 * Pow2(k - 1)
  }

  /** Retransmissions over the whole life of the connection. */
  function Retransmissions(log: seq<Emission>): nat {
    if log == [] then 0 else Retransmissions(log[..|log| - 1]) + Bit(log[|log| - 1].byTimer)
  }

  lemma {:induction false} RetransmissionsExtend(log: seq<Emission>, out: seq<OutSegment>, byTimer: bool)
    requires |out| <= 1
    ensures Retransmissions(log + Tag(out, byTimer)) == Retransmissions(log) + if byTimer then |out| else 0
  {
    var all := log + Tag(out, byTimer);
    if |out| == 0 {
      assert all == log;
    } else {
      assert all[..|all| - 1] == log;
    }
  }

  ghost predicate BackOff(t: TcbView, k: nat) {
    t.rto == Min(Pow2(k), 60) * SECOND && t.retransmitCount <= MAX_RETRANSMITS
  }

  lemma {:induction false} EffectKeepsBackOff(t: TcbView, event: Event, now: Time, k: nat)
    requires Live(t.state) && BackOff(t, k)
    ensures var (t1, out) := Effect(t, event, now);
            && |out| <= 1
            && BackOff(t1, if event.Poll? then k + |out| else k)
  {
    hide Process, Wrap, SegLen, BuildRetransmit;
    if event.Segment? {
      SegmentKeepsBackOff(t, event.h, event.payload, now);
      SegmentEmits(t, event.h, event.payload, now);
    }
  }

  lemma {:induction false} SegmentKeepsBackOff(t: TcbView, h: Header, payload: seq<byte>, now: Time)
    ensures var t1 := Process(t, h, payload, now).0; t1.rto == t.rto && t1.retransmitCount <= t.retransmitCount
  {
    hide Wrap, WrapSub, Has, SegLen, AcceptAck, AcceptData;
    AcceptAckFrame(t, h.ackNo);
    AcceptDataFrame(t, h, payload);
    AcceptDataFrame(t.(sndUna := h.ackNo, retransmitAt := None, retransmitCount := 0, state := FinWait2), h, payload);
  }

  lemma {:induction false} StepKeepsBackOff(b: Conn, e: Timed)
    requires Live(b.t.state) && BackOff(b.t, Retransmissions(b.log))
    ensures BackOff(Step(b, e).t, Retransmissions(Step(b, e).log))
  {
    hide Effect, Pow2;
    EffectKeepsBackOff(b.t, e.event, e.now, Retransmissions(b.log));
    RetransmissionsExtend(b.log, Effect(b.t, e.event, e.now).1, e.event.Poll?);
  }

  lemma {:induction false} RunKeepsBackOff(key: ConnKey, iss: u32, now: Time, events: seq<Timed>, c: Conn)
    requires c == Run(Start(key, iss, now), events)
    ensures BackOff(c.t, Retransmissions(c.log))
    decreases |events|
  {
    if events == [] {
      assert c.log[..0] == [] && Retransmissions([]) == 0 && Pow2(0) == 1;
    } else {
      hide Effect, Start;
      var before, e := events[..|events| - 1], events[|events| - 1];
      var b := Run(Start(key, iss, now), before);
      RunKeepsBackOff(key, iss, now, before, b);
      LifecycleIsAcyclic(key, iss, now, before);
      StepKeepsBackOff(b, e);
    }
  }

  /** The expiry test `retain` makes for TimeWait never fires: the loop before it has re-armed the timer. */
  lemma {:induction false} TimeWaitExpiryIsDead(
    key: ConnKey, iss: u32, now: Time, events: seq<Timed>, c: Conn, poll: Time)
    requires c == Run(Start(key, iss, now), events)
    ensures var t1 := OnTimer(c.t, poll).0; Retained(t1, poll) <==> t1.state != Closed
  {
    RunKeepsBackOff(key, iss, now, events, c);
    RtoPositive(Retransmissions(c.log));
  }

  lemma {:induction false} RtoPositive(k: nat)
    ensures Min(Pow2(k), 60) * SECOND >= SECOND
  {
  }

  // ---- Connections that hear nothing ---------------------------------------------------

  /** An event that neither brings a segment nor makes a connection in state `s` say anything new. */
  predicate Quiet(s: State, event: Event) {
    event.Poll? || event.Recv? || (event.Send? && s != Established)
  }

  /** How many polls of the run found the connection present and its deadline passed. */
  function Crossings(c: Conn, events: seq<Timed>): nat
    decreases |events|
  {
    if events == [] then 0
    else
      var before, e := events[..|events| - 1], events[|events| - 1];
      var b := Run(c, before);
      Crossings(c, before) + Bit(b.present && e.event.Poll? && Crosses(b.t, e.now))
  }

  /** Where a quiet connection stands after `n` crossings, having started from `c`. */
  ghost predicate QuietAfter(c: Conn, d: Conn, n: nat) {
    && n <= 6 - c.t.retransmitCount
    && (d.present <==> n < 6 - c.t.retransmitCount)
    && |d.log| == |c.log| + Min(n, 5 - c.t.retransmitCount)
    && c.log <= d.log
    && (forall i :: |c.log| <= i < |d.log| ==> d.log[i].byTimer)
    && (d.present ==>
          && d.t.state == c.t.state && d.t.iss == c.t.iss && d.t.key == c.t.key
          && d.t.retransmitAt.Some? && d.t.rto >= SECOND
          && d.t.retransmitCount == c.t.retransmitCount + n)
  }

  lemma {:induction false} QuietStep(c: Conn, d: Conn, n: nat, e: Timed)
    requires c.t.retransmitCount <= MAX_RETRANSMITS && c.t.state != Closed
    requires QuietAfter(c, d, n) && Quiet(c.t.state, e.event)
    ensures QuietAfter(c, Step(d, e), n + Bit(d.present && e.event.Poll? && Crosses(d.t, e.now)))
  {
    hide BuildRetransmit;
  }

  /**
   * An armed connection that hears nothing leaves the table at exactly its `6 - count`-th
   * deadline-crossing poll, whatever its state, having emitted one retransmission at each
   * crossing but the last.
   */
  lemma {:induction false} QuietConnectionLeaves(c: Conn, events: seq<Timed>)
    requires c.present && c.t.state != Closed && c.t.retransmitAt.Some?
    requires c.t.rto >= SECOND && c.t.retransmitCount <= MAX_RETRANSMITS
    requires forall i :: 0 <= i < |events| ==> Quiet(c.t.state, events[i].event)
    ensures QuietAfter(c, Run(c, events), Crossings(c, events))
    decreases |events|
  {
    hide Step, Crosses;
    if events != [] {
      var before, e := events[..|events| - 1], events[|events| - 1];
      QuietConnectionLeaves(c, before);
      QuietStep(c, Run(c, before), Crossings(c, before), e);
    }
  }

  /** After `n` crossings of a fresh connect the next deadline is at least `2^n` seconds after it. */
  ghost predicate SynDeadline(d: Conn, start: Time, n: nat) {
    d.present ==>
      && d.t.state == SynSent
      && d.t.retransmitCount == n <= 5
      && d.t.rto == Pow2(n) * SECOND
      && d.t.retransmitAt.Some? && d.t.retransmitAt.value >= start + Pow2(n) * SECOND
  }

  lemma {:induction false} SynDeadlineStep(d: Conn, start: Time, n: nat, e: Timed)
    requires SynDeadline(d, start, n) && Quiet(SynSent, e.event)
    ensures SynDeadline(Step(d, e), start, n + Bit(d.present && e.event.Poll? && Crosses(d.t, e.now)))
    ensures d.present && !Step(d, e).present ==> e.now >= start + 32 * SECOND
  {
    hide BuildRetransmit;
    assert Pow2(5) == 32;
    assert n <= 4 ==> Pow2(n) <= 16 by {
      if n <= 4 { Pow2Monotone(n, 4); assert Pow2(4) == 16; }
    }
  }

  lemma {:induction false} Pow2Monotone(a: nat, b: nat)
    requires a <= b
    ensures Pow2(a) <= Pow2(b)
    decreases b
  {
    if a < b {
      Pow2Monotone(a, b - 1);
    }
  }

  lemma {:induction false} SilentConnectDeadline(key: ConnKey, iss: u32, start: Time, events: seq<Timed>)
    requires forall i :: 0 <= i < |events| ==> Quiet(SynSent, events[i].event)
    ensures SynDeadline(Run(Start(key, iss, start), events), start, Crossings(Start(key, iss, start), events))
    ensures (forall i :: 0 <= i < |events| ==> events[i].now < start + 32 * SECOND) ==>
              Run(Start(key, iss, start), events).present
    decreases |events|
  {
    hide Step, Crosses;
    if events != [] {
      var before, e := events[..|events| - 1], events[|events| - 1];
      SilentConnectDeadline(key, iss, start, before);
      SynDeadlineStep(Run(Start(key, iss, start), before), start, Crossings(Start(key, iss, start), before), e);
    }
  }

  /**
   * A connect nobody answers: the log is the SYN and one SYN retransmission per crossing up to
   * five, the connection leaves at its sixth crossing, and not within 32 seconds.
   */
  lemma {:induction false} SilentConnect(key: ConnKey, iss: u32, start: Time, events: seq<Timed>, c: Conn, n: nat)
    requires c == Run(Start(key, iss, start), events) && n == Crossings(Start(key, iss, start), events)
    requires forall i :: 0 <= i < |events| ==> Quiet(SynSent, events[i].event)
    ensures n <= 6 && (c.present <==> n < 6)
    ensures |c.log| == 1 + Min(n, 5)
    ensures forall i :: 0 <= i < |c.log| ==>
              c.log[i] == Emission(OutSegment(SYN, iss, 0, [], key.remotePort), i > 0)
    ensures (forall i :: 0 <= i < |events| ==> events[i].now < start + 32 * SECOND) ==> c.present
  {
    QuietConnectionLeaves(Start(key, iss, start), events);
    SilentConnectDeadline(key, iss, start, events);
    SilentLogIsSyns(key, iss, start, events);
  }

  lemma {:induction false} SilentStepLogsSyn(d: Conn, e: Timed)
    requires (d.present ==> d.t.state == SynSent) && Quiet(SynSent, e.event)
    ensures var d1 := Step(d, e);
            forall i :: |d.log| <= i < |d1.log| ==> d1.log[i].segment == SynOf(d.t)
  {
  }

  lemma {:induction false} SilentLogIsSyns(key: ConnKey, iss: u32, start: Time, events: seq<Timed>)
    requires forall i :: 0 <= i < |events| ==> Quiet(SynSent, events[i].event)
    ensures var c := Run(Start(key, iss, start), events);
            forall i :: 0 <= i < |c.log| ==> c.log[i].segment == OutSegment(SYN, iss, 0, [], key.remotePort)
    decreases |events|
  {
    if events != [] {
      var before, e := events[..|events| - 1], events[|events| - 1];
      SilentLogIsSyns(key, iss, start, before);
      QuietConnectionLeaves(Start(key, iss, start), before);
      SilentStepLogsSyn(Run(Start(key, iss, start), before), e);
    }
  }

  // ---- Connections that only receive -----------------------------------------------------

  /** Acknowledging data arms the timer although nothing is outstanding. */
  lemma {:induction false} ReceivedDataArmsIdleConnection(c: Conn, h: Header, payload: seq<byte>, now: Time)
    requires c.present && c.t.state == Established && c.t.sndUna == c.t.sndNxt
    requires h.flags == ACK && h.ackNo == c.t.sndNxt && h.seqNo == c.t.rcvNxt && 0 < |payload| < MODULUS
    ensures var d := Step(c, Timed(now, Segment(h, payload)));
            d.present && d.t.state == Established && d.t.sndUna == d.t.sndNxt && d.t.retransmitAt.Some?
  {
    hide Wrap;
    assert SegLen(payload) == |payload| by { SegLenShort(payload); }
    WrapSubZero(h.ackNo, c.t.sndUna);
  }

  /** No segment can touch the timer: nothing is outstanding, or acknowledgments are not looked at any more. */
  predicate Unheeding(t: TcbView) {
    (t.state == Established && t.sndUna == t.sndNxt) || t.state == CloseWait || t.state == TimeWait
  }

  /** Nothing but segments, polls and calls without effect in state `s`. */
  predicate Passive(s: State, event: Event) {
    match event
    case Send(_) => s != Established
    case Close => s == TimeWait
    case _ => true
  }

  /** Armed and unheeding, `n` crossings after `c`. */
  ghost predicate UnheedingAfter(c: Conn, d: Conn, n: nat) {
    && n <= 6 - c.t.retransmitCount
    && (d.present <==> n < 6 - c.t.retransmitCount)
    && (d.present ==>
          && Unheeding(d.t) && (c.t.state != Established ==> d.t.state == c.t.state)
          && d.t.retransmitAt.Some? && d.t.rto >= SECOND
          && d.t.retransmitCount == c.t.retransmitCount + n)
  }

  /** With nothing outstanding, in CloseWait and in TimeWait no segment touches the timer. */
  lemma {:induction false} SegmentLeavesTimer(t: TcbView, h: Header, payload: seq<byte>, now: Time)
    requires Unheeding(t)
    ensures var t1 := Process(t, h, payload, now).0;
            && Unheeding(t1) && (t.state != Established ==> t1.state == t.state) && t1.rto == t.rto
            && t1.retransmitAt == t.retransmitAt && t1.retransmitCount == t.retransmitCount
  {
    hide Wrap, WrapSub;
    WrapSubZero(h.ackNo, t.sndUna);
  }

  lemma {:induction false} UnheedingStep(c: Conn, d: Conn, n: nat, e: Timed)
    requires c.t.retransmitCount <= MAX_RETRANSMITS && UnheedingAfter(c, d, n) && Passive(c.t.state, e.event)
    requires Unheeding(c.t)
    ensures UnheedingAfter(c, Step(d, e), n + Bit(d.present && e.event.Poll? && Crosses(d.t, e.now)))
  {
    hide BuildRetransmit, Process;
    if d.present && e.event.Segment? {
      SegmentLeavesTimer(d.t, e.event.h, e.event.payload, e.now);
    }
  }

  /**
   * A connection that only receives, or has left the states that look at acknowledgments, is
   * removed at its `6 - count`-th crossing whatever the peer sends meanwhile.
   */
  lemma {:induction false} ReceiverIsRemoved(c: Conn, events: seq<Timed>)
    requires c.present && Unheeding(c.t) && c.t.retransmitAt.Some?
    requires c.t.rto >= SECOND && c.t.retransmitCount <= MAX_RETRANSMITS
    requires forall i :: 0 <= i < |events| ==> Passive(c.t.state, events[i].event)
    ensures Run(c, events).present <==> Crossings(c, events) < 6 - c.t.retransmitCount
    ensures UnheedingAfter(c, Run(c, events), Crossings(c, events))
    decreases |events|
  {
    hide Step, Crosses;
    if events != [] {
      var before, e := events[..|events| - 1], events[|events| - 1];
      ReceiverIsRemoved(c, before);
      var d := Run(c, before);
      if d.present {
        UnheedingStep(c, d, Crossings(c, before), e);
      } else {
        RemovedStays(d, e);
      }
    }
  }

  // ---- The states at the end ---------------------------------------------------------------

  /** CloseWait and TimeWait are entered with the timer armed, FinWait2 with the timer off. */
  predicate EndTimers(t: TcbView) {
    && (t.state == CloseWait || t.state == TimeWait ==> t.retransmitAt.Some?)
    && (t.state == FinWait2 ==> t.retransmitAt.None?)
  }

  lemma {:induction false} AdvanceKeepsEndTimers(t: TcbView, event: Event, now: Time)
    requires EndTimers(t)
    ensures EndTimers(Advance(t, event, now).0)
  {
    hide Process, Wrap, SegLen, BuildRetransmit, AfterSending;
    var (t1, out) := Effect(t, event, now);
    AfterSendingFrame(t1, out, now);
    if event.Segment? {
      SegmentKeepsEndTimers(t, event.h, event.payload, now);
    }
  }

  /** Whoever enters CloseWait acknowledges, which arms the timer; FinWait2 is entered in silence. */
  lemma {:induction false} SegmentKeepsEndTimers(t: TcbView, h: Header, payload: seq<byte>, now: Time)
    requires EndTimers(t)
    ensures var (t1, out) := Process(t, h, payload, now);
            && (t1.state == CloseWait || t1.state == TimeWait ==> t1.retransmitAt.Some? || out != [])
            && (t1.state == FinWait2 ==> t1.retransmitAt.None? && out == [])
  {
    hide Wrap, WrapSub, Has, SegLen, AcceptAck, AcceptData;
    AcceptAckFrame(t, h.ackNo);
    AcceptDataFrame(t, h, payload);
    AcceptDataFrame(t.(sndUna := h.ackNo, retransmitAt := None, retransmitCount := 0, state := FinWait2), h, payload);
  }

  lemma {:induction false} RunKeepsEndTimers(key: ConnKey, iss: u32, now: Time, events: seq<Timed>)
    ensures EndTimers(Run(Start(key, iss, now), events).t)
    decreases |events|
  {
    hide Advance;
    if events != [] {
      var before, e := events[..|events| - 1], events[|events| - 1];
      RunKeepsEndTimers(key, iss, now, before);
      AdvanceKeepsEndTimers(Run(Start(key, iss, now), before).t, e.event, e.now);
    }
  }

  /**
   * Every connection that reaches TimeWait leaves through the retransmission limit, at exactly its
   * `6 - count`-th crossing, whatever segments arrive and calls are made; so does every one in
   * CloseWait, with or without data outstanding, unless the application closes it.
   */
  lemma {:induction false} WaitingConnectionLeaves(
    key: ConnKey, iss: u32, start: Time, events: seq<Timed>, c: Conn, more: seq<Timed>)
    requires c == Run(Start(key, iss, start), events) && c.present
    requires c.t.state == TimeWait
             || (c.t.state == CloseWait && forall i :: 0 <= i < |more| ==> !more[i].event.Close?)
    ensures Run(c, more).present <==> Crossings(c, more) < 6 - c.t.retransmitCount
    ensures Run(c, more).present ==> Run(c, more).t.state == c.t.state
  {
    hide Run, Start, Crossings;
    RunKeepsEndTimers(key, iss, start, events);
    RunKeepsBackOff(key, iss, start, events, c);
    RtoPositive(Retransmissions(c.log));
    ReceiverIsRemoved(c, more);
  }

  /** Nothing that takes a connection out of FinWait2: no call to close, no FIN in order. */
  predicate NoFin(t: TcbView, event: Event) {
    !event.Close? && (event.Segment? ==> !(Has(event.h.flags, FIN) && event.h.seqNo == t.rcvNxt))
  }

  /** One step in FinWait2: it lasts exactly until a FIN in order or a close. */
  lemma {:induction false} FinWait2Step(c: Conn, e: Timed)
    requires c.present && c.t.state == FinWait2 && c.t.retransmitAt.None?
    ensures Step(c, e).t.state == FinWait2 <==> NoFin(c.t, e.event)
    ensures NoFin(c.t, e.event) ==> Step(c, e).present && Step(c, e).t.retransmitAt.None? && Step(c, e).log == c.log
  {
    hide Wrap, WrapSub;
  }

  /**
   * FinWait2 has no timer.  A connection that reaches it stays in the table for as long as the
   * peer's FIN is not taken and the application does not close again, however much time passes.
   */
  lemma {:induction false} FinWait2WaitsForEver(
    key: ConnKey, iss: u32, start: Time, events: seq<Timed>, c: Conn, more: seq<Timed>)
    requires c == Run(Start(key, iss, start), events) && c.present && c.t.state == FinWait2
    requires forall i :: 0 <= i < |more| ==> NoFin(Run(c, more[..i]).t, more[i].event)
    ensures var d := Run(c, more);
            d.present && d.t.state == FinWait2 && d.t.retransmitAt.None? && d.log == c.log
    decreases |more|
  {
    hide Step, Start, NoFin;
    if more == [] {
      RunKeepsEndTimers(key, iss, start, events);
    } else {
      var before, e := more[..|more| - 1], more[|more| - 1];
      forall i | 0 <= i < |before| ensures NoFin(Run(c, before[..i]).t, before[i].event) {
        assert before[..i] == more[..i];
      }
      FinWait2WaitsForEver(key, iss, start, events, c, before);
      FinWait2Step(Run(c, before), e);
    }
  }
}
