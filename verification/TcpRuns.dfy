/**
 * Whole runs of one TCP connection.  A run starts with the block `initiate_connect` inserts and
 * takes any sequence of incoming segments, application calls and clock polls, each followed by
 * what the stack does with the segments it emits.  The connection carries three logs: the bytes
 * the application sent, the bytes it drained and every segment that left.
 */
module TcpRuns {
  import opened Wire
  import opened TcpSpec

  /** A segment that left, and whether the retransmission timer sent it. */
  datatype Emission = Emission(segment: OutSegment, byTimer: bool)

  datatype Conn = Conn(
    t: TcbView,
    present: bool,           // still in the connection table
    sent: seq<byte>,         // accepted from the application by `send`
    drained: seq<byte>,      // handed to the application by `recv`
    log: seq<Emission>)

  datatype Event =
    | Segment(h: Header, payload: seq<byte>)
    | Send(data: seq<byte>)
    | Recv
    | Close
    | Poll

  datatype Timed = Timed(now: Time, event: Event)

  function Start(key: ConnKey, iss: u32, now: Time): Conn {
    var t := Fresh(key, iss, now);
    Conn(AfterSending(t, [SynOf(t)], now), true, [], [], [Emission(SynOf(t), false)])
  }

  function Tag(segments: seq<OutSegment>, byTimer: bool): (log: seq<Emission>)
    ensures |log| == |segments|
    ensures forall i :: 0 <= i < |log| ==> log[i] == Emission(segments[i], byTimer)
  {
    seq(|segments|, i requires 0 <= i < |segments| => Emission(segments[i], byTimer))
  }

  function Effect(t: TcbView, event: Event, now: Time): (TcbView, seq<OutSegment>) {
    match event
    case Segment(h, payload) => Process(t, h, payload, now)
    case Send(data) => AppSend(t, data)
    case Recv => (Drained(t), [])
    case Close => AppClose(t, now)
    case Poll => OnTimer(t, now)
  }

  /** The block and the segments after one step, the timer already armed for what was sent. */
  function Advance(t: TcbView, event: Event, now: Time): (TcbView, seq<OutSegment>) {
    var (t1, out) := Effect(t, event, now);
    (AfterSending(t1, out, now), out)
  }

  /** What the application has handed over after an event. */
  function SentAfter(t: TcbView, sent: seq<byte>, event: Event): seq<byte> {
    if event.Send? && t.state == Established then sent + event.data else sent
  }

  /** One completed stack step, seen from one connection. */
  function Step(c: Conn, e: Timed): Conn {
    if !c.present then c
    else
      var (t1, out) := Advance(c.t, e.event, e.now);
      Conn(t1,
           e.event.Poll? ==> Retained(t1, e.now),
           SentAfter(c.t, c.sent, e.event),
           if e.event.Recv? then c.drained + c.t.recvBuffer else c.drained,
           c.log + Tag(out, e.event.Poll?))
  }

  /** The connection after a whole run. */
  function Run(c: Conn, events: seq<Timed>): Conn
    decreases |events|
  {
    if events == [] then c
    else Step(Run(c, events[..|events| - 1]), events[|events| - 1])
  }

  /** A removed connection takes no further step. */
  lemma {:induction false} RemovedStays(c: Conn, e: Timed)
    requires !c.present
    ensures Step(c, e) == c
  {
    hide Advance, Tag;
  }

  /** Block and logs after one step, in terms of the effect of its event. */
  lemma {:induction false} StepParts(c: Conn, e: Timed)
    requires c.present
    ensures var (t1, out) := Effect(c.t, e.event, e.now);
            && Step(c, e).t == AfterSending(t1, out, e.now)
            && Step(c, e).sent == SentAfter(c.t, c.sent, e.event)
            && Step(c, e).log == c.log + Tag(out, e.event.Poll?)
            && Step(c, e).drained == (if e.event.Recv? then c.drained + c.t.recvBuffer else c.drained)
            && Step(c, e).present == (e.event.Poll? ==> Retained(Step(c, e).t, e.now))
  {
    hide Effect, AfterSending, SentAfter, Tag, Retained;
  }

  /** Arming the timer changes nothing but the deadline. */
  lemma {:induction false} AfterSendingFrame(t: TcbView, out: seq<OutSegment>, now: Time)
    ensures AfterSending(t, out, now) == t.(retransmitAt := AfterSending(t, out, now).retransmitAt)
    ensures out == [] || t.retransmitAt.Some? ==> AfterSending(t, out, now) == t
    ensures out != [] ==> AfterSending(t, out, now).retransmitAt.Some?
  {
  }

  /** Everything delivered in order so far: drained by the application or waiting for it. */
  function Delivered(c: Conn): seq<byte> {
    c.drained + c.t.recvBuffer
  }

  // ---- Life cycle --------------------------------------------------------------------

  /** Progress of a connection through its life; Listen and SynReceived have no rank. */
  function Rank(s: State): nat
    requires s != Listen && s != SynReceived
  {
    match s
    case SynSent => 0
    case Established => 1
    case CloseWait | FinWait1 => 2
    case FinWait2 | Closing | LastAck => 3
    case TimeWait => 4
    case Closed => 5
  }

  predicate Live(s: State) {
    s != Listen && s != SynReceived
  }

  /** From one state to another, never back. */
  predicate Onward(s: State, s': State) {
    Live(s) && Live(s') && (s' == s || Rank(s) < Rank(s'))
  }

  lemma {:induction false} SegmentOnward(t: TcbView, h: Header, payload: seq<byte>, now: Time)
    requires Live(t.state)
    ensures Onward(t.state, Process(t, h, payload, now).0.state)
  {
    hide Wrap, WrapSub, Has, SegLen, AcceptAck, AcceptData;
    AcceptAckFrame(t, h.ackNo);
    AcceptDataFrame(t, h, payload);
    AcceptDataFrame(t.(sndUna := h.ackNo, retransmitAt := None, retransmitCount := 0, state := FinWait2), h, payload);
  }

  /** An acknowledgment touches the send side and the timer only, and only shortens the buffer. */
  lemma {:induction false} AcceptAckFrame(t: TcbView, ackNo: u32)
    ensures var t1 := AcceptAck(t, ackNo);
            && t1 == t.(sendBuffer := t1.sendBuffer, sndUna := t1.sndUna, retransmitAt := t1.retransmitAt,
                        retransmitCount := t1.retransmitCount)
            && |t1.sendBuffer| <= |t.sendBuffer| && t1.retransmitCount <= t.retransmitCount
            && (t1 == t || t1.sndUna == t1.sndNxt)
  {
    hide Wrap, WrapSub;
    WrapSubZero(ackNo, t.sndNxt);
  }

  /** Data touches the receive side only. */
  lemma {:induction false} AcceptDataFrame(t: TcbView, h: Header, payload: seq<byte>)
    ensures var t1 := AcceptData(t, h, payload); t1 == t.(recvBuffer := t1.recvBuffer, rcvNxt := t1.rcvNxt)
  {
    hide Wrap, SegLen;
  }

  lemma {:induction false} EffectOnward(t: TcbView, event: Event, now: Time)
    requires Live(t.state)
    ensures Onward(t.state, Effect(t, event, now).0.state)
  {
    hide Wrap, Process, BuildRetransmit, Crosses;
    if event.Segment? {
      SegmentOnward(t, event.h, event.payload, now);
    }
  }

  lemma {:induction false} AdvanceRaisesRank(t: TcbView, event: Event, now: Time)
    requires Live(t.state)
    ensures var t1 := Advance(t, event, now).0;
            Live(t1.state) && (t1.state == t.state || Rank(t.state) < Rank(t1.state))
  {
    hide Effect, AfterSending, Rank;
    EffectOnward(t, event, now);
    AfterSendingFrame(Effect(t, event, now).0, Effect(t, event, now).1, now);
  }

  /** How often the state differs from one step of the run to the next. */
  function StateChanges(c: Conn, events: seq<Timed>): nat
    decreases |events|
  {
    if events == [] then 0
    else
      var before := events[..|events| - 1];
      StateChanges(c, before) + Bit(Run(c, events).t.state != Run(c, before).t.state)
  }

  /** No run reaches Listen or SynReceived, and the state changes at most five times. */
  lemma {:induction false} LifecycleIsAcyclic(key: ConnKey, iss: u32, now: Time, events: seq<Timed>)
    ensures var c := Run(Start(key, iss, now), events);
            Live(c.t.state) && StateChanges(Start(key, iss, now), events) <= Rank(c.t.state) <= 5
    decreases |events|
  {
    hide Step, Start, Rank;
    if events == [] {
      StartFacts(key, iss, now);
    } else {
      var before, e := events[..|events| - 1], events[|events| - 1];
      LifecycleIsAcyclic(key, iss, now, before);
      StepOnward(Run(Start(key, iss, now), before), e);
      RankBound(Run(Start(key, iss, now), events).t.state);
    }
  }

  lemma {:induction false} RankBound(s: State)
    requires Live(s)
    ensures Rank(s) <= 5
  {
  }

  lemma {:induction false} StepOnward(c: Conn, e: Timed)
    requires Live(c.t.state)
    ensures Onward(c.t.state, Step(c, e).t.state)
  {
    hide Effect, AfterSending, Rank, Tag;
    if c.present {
      StepParts(c, e);
      EffectOnward(c.t, e.event, e.now);
      AfterSendingFrame(Effect(c.t, e.event, e.now).0, Effect(c.t, e.event, e.now).1, e.now);
    }
  }

  /** The block a run starts from. */
  lemma {:induction false} StartFacts(key: ConnKey, iss: u32, now: Time)
    ensures var c := Start(key, iss, now);
            && c.t == Fresh(key, iss, now) && c.present && c.sent == [] && c.drained == []
            && c.log == [Emission(SynOf(c.t), false)] && c.t.state == SynSent && Rank(c.t.state) == 0
  {
  }

  // ---- Send side ---------------------------------------------------------------------

  /** The sequence number of application byte `p`: the stream starts after the SYN. */
  function SeqOf(iss: u32, p: int): u32 {
    Wrap(iss + 1 + p)
  }

  lemma {:induction false} SeqAdvance(iss: u32, p: int, n: int)
    ensures Wrap(SeqOf(iss, p) + n) == SeqOf(iss, p + n)
  {
    hide Wrap;
    WrapSum(iss + 1 + p, n);
  }

  lemma {:induction false} SeqDistance(iss: u32, p: int, q: int)
    ensures WrapSub(SeqOf(iss, p), SeqOf(iss, q)) == Wrap(p - q)
  {
    hide Wrap, WrapSub;
    WrapDifference(iss + 1 + p, iss + 1 + q);
  }

  /** Our FIN has been counted in `sndNxt` and the block still matters. */
  predicate FinCounted(s: State) {
    s.FinWait1? || s.FinWait2? || s.Closing? || s.LastAck? || s.TimeWait?
  }

  /** The application may still write, or its data may still be retransmitted. */
  predicate DataPhase(s: State) {
    s.Established? || s.CloseWait?
  }

  /** States in which `sndUna` tells what is outstanding. */
  predicate Accounted(s: State) {
    s.SynSent? || s.Established? || s.CloseWait? || s.FinWait1? || s.Closing? || s.LastAck?
  }

  /** A SYN or a FIN is among what is outstanding. */
  predicate ControlOutstanding(s: State) {
    s.SynSent? || s.FinWait1? || s.Closing? || s.LastAck?
  }

  /** Where every number of the send side stands, in terms of what the application sent. */
  ghost predicate SendSide(t: TcbView, sent: seq<byte>) {
    && Live(t.state)
    && |t.sendBuffer| <= |sent|
    && t.sendBuffer == sent[|sent| - |t.sendBuffer|..]
    && (t.state == SynSent ==> sent == [] && t.sndUna == SeqOf(t.iss, -1))
    && (t.state != Closed ==> t.sndNxt == SeqOf(t.iss, |sent| + Bit(FinCounted(t.state))))
    && (Accounted(t.state) && t.state != SynSent ==> t.sndUna == SeqOf(t.iss, |sent| - |t.sendBuffer|))
  }

  /** With `n` bytes outstanding the distance is `n` mod 2^32, and trimming that many closes it. */
  lemma {:induction false} AckArithmetic(iss: u32, p: int, n: nat)
    ensures WrapSub(SeqOf(iss, p), SeqOf(iss, p - n)) == Wrap(n) <= n
    ensures SeqOf(iss, p - (n - Wrap(n))) == SeqOf(iss, p)
  {
    hide Wrap, WrapSub;
    SeqDistance(iss, p, p - n);
    WrapCut(n);
    WrapShift(iss + 1 + p, iss + 1 + p - (n - Wrap(n)), -(n / 0x1_0000_0000));
  }

  lemma {:induction false} AcceptAckKeepsSendSide(t: TcbView, sent: seq<byte>, ackNo: u32)
    requires SendSide(t, sent) && t.state == Established
    ensures SendSide(AcceptAck(t, ackNo), sent)
    ensures AcceptAck(t, ackNo).state == Established
  {
    hide SeqOf, Wrap, WrapSub;
    var t1 := AcceptAck(t, ackNo);
    if t1 != t {
      WrapSubZero(ackNo, t.sndNxt);
      AckArithmetic(t.iss, |sent|, |t.sendBuffer|);
      assert t1.sendBuffer == t.sendBuffer[Wrap(|t.sendBuffer|)..];
    }
  }

  /** Only an acknowledgment of everything sent changes anything; partial ones are ignored. */
  lemma {:induction false} OnlyFullAckCounts(t: TcbView, ackNo: u32)
    ensures AcceptAck(t, ackNo) != t <==> ackNo == t.sndNxt && t.sndNxt != t.sndUna
  {
    hide WrapSub;
    WrapSubZero(ackNo, t.sndUna);
    WrapSubZero(ackNo, t.sndNxt);
  }

  lemma {:induction false} EstablishedKeepsSendSide(t: TcbView, sent: seq<byte>, h: Header, payload: seq<byte>)
    requires SendSide(t, sent) && t.state == Established
    ensures SendSide(ProcessEstablished(t, h, payload).0, sent)
  {
    hide SeqOf, Wrap, AcceptAck, Has, SegLen;
    AcceptAckKeepsSendSide(t, sent, h.ackNo);
  }

  lemma {:induction false} FinWait1KeepsSendSide(t: TcbView, sent: seq<byte>, h: Header, payload: seq<byte>, now: Time)
    requires SendSide(t, sent) && t.state == FinWait1
    ensures SendSide(ProcessFinWait1(t, h, payload, now).0, sent)
  {
    hide SeqOf, Wrap, Has, SegLen;
  }

  lemma {:induction false} SegmentKeepsSendSide(t: TcbView, sent: seq<byte>, h: Header, payload: seq<byte>, now: Time)
    requires SendSide(t, sent)
    ensures SendSide(Process(t, h, payload, now).0, sent)
  {
    hide SeqOf, Wrap, Has, SegLen, ProcessEstablished, ProcessFinWait1;
    WrapSubSynSent(t);
    match t.state
    case Established => EstablishedKeepsSendSide(t, sent, h, payload);
    case FinWait1 => FinWait1KeepsSendSide(t, sent, h, payload, now);
    case _ =>
  }

  /** Acknowledging the SYN brings `sndUna` to the start of the stream. */
  lemma {:induction false} WrapSubSynSent(t: TcbView)
    ensures SeqOf(t.iss, 0) == Wrap(t.iss + 1)
  {
  }

  lemma {:induction false} AppSendKeepsSendSide(t: TcbView, sent: seq<byte>, data: seq<byte>)
    requires SendSide(t, sent)
    ensures SendSide(AppSend(t, data).0, if t.state == Established then sent + data else sent)
  {
    hide SeqOf, Wrap;
    if t.state == Established {
      var t1 := AppSend(t, data).0;
      SeqAdvance(t.iss, |sent|, |data|);
      WrapSum(|data|, t.sndNxt);
      assert t1.sendBuffer == (sent + data)[|sent + data| - |t1.sendBuffer|..];
    }
  }

  lemma {:induction false} AppCloseKeepsSendSide(t: TcbView, sent: seq<byte>, now: Time)
    requires SendSide(t, sent)
    ensures SendSide(AppClose(t, now).0, sent)
  {
    hide SeqOf, Wrap;
    SeqAdvance(t.iss, |sent|, 1);
  }

  lemma {:induction false} EffectKeepsSendSide(t: TcbView, sent: seq<byte>, event: Event, now: Time)
    requires SendSide(t, sent)
    ensures SendSide(Effect(t, event, now).0, SentAfter(t, sent, event))
  {
    hide Process, AppSend, AppClose, BuildRetransmit, Crosses, SeqOf;
    match event
    case Segment(h, payload) => SegmentKeepsSendSide(t, sent, h, payload, now);
    case Send(data) => AppSendKeepsSendSide(t, sent, data);
    case Close => AppCloseKeepsSendSide(t, sent, now);
    case _ =>
  }

  lemma {:induction false} AfterSendingKeepsSendSide(t: TcbView, sent: seq<byte>, out: seq<OutSegment>, now: Time)
    requires SendSide(t, sent)
    ensures SendSide(AfterSending(t, out, now), sent)
  {
    hide AfterSending, SeqOf;
    AfterSendingFrame(t, out, now);
  }

  lemma {:induction false} StepKeepsSendSide(c: Conn, e: Timed)
    requires SendSide(c.t, c.sent)
    ensures SendSide(Step(c, e).t, Step(c, e).sent)
  {
    hide Step, Effect, AfterSending, SentAfter, SendSide, Tag;
    if c.present {
      StepParts(c, e);
      EffectKeepsSendSide(c.t, c.sent, e.event, e.now);
      var (t1, out) := Effect(c.t, e.event, e.now);
      AfterSendingKeepsSendSide(t1, SentAfter(c.t, c.sent, e.event), out, e.now);
    } else {
      RemovedStays(c, e);
    }
  }

  lemma {:induction false} RunKeepsSendSide(key: ConnKey, iss: u32, now: Time, events: seq<Timed>)
    ensures var c := Run(Start(key, iss, now), events); SendSide(c.t, c.sent)
    decreases |events|
  {
    hide Step, Start, SendSide;
    if events == [] {
      StartSendSide(key, iss, now);
    } else {
      RunKeepsSendSide(key, iss, now, events[..|events| - 1]);
      StepKeepsSendSide(Run(Start(key, iss, now), events[..|events| - 1]), events[|events| - 1]);
    }
  }

  lemma {:induction false} StartSendSide(key: ConnKey, iss: u32, now: Time)
    ensures SendSide(Start(key, iss, now).t, Start(key, iss, now).sent)
  {
  }

  lemma {:induction false} OutstandingInSequenceSpace(t: TcbView, sent: seq<byte>)
    requires SendSide(t, sent) && Accounted(t.state)
    ensures WrapSub(t.sndNxt, t.sndUna) == Wrap(|t.sendBuffer| + Bit(ControlOutstanding(t.state)))
  {
    hide SeqOf, Wrap, WrapSub;
    SeqDistance(t.iss, |sent| + Bit(FinCounted(t.state)),
                if t.state == SynSent then -1 else |sent| - |t.sendBuffer|);
  }

  /**
   * Send-space accounting.  In every reachable state the buffer is a suffix of what the
   * application sent, and what is outstanding in sequence space is that buffer plus one for an
   * unacknowledged SYN or FIN.
   */
  lemma {:induction false} SendSpaceAccounting(key: ConnKey, iss: u32, now: Time, events: seq<Timed>, c: Conn)
    requires c == Run(Start(key, iss, now), events)
    ensures && (exists cut :: 0 <= cut <= |c.sent| && c.t.sendBuffer == c.sent[cut..])
            && (Accounted(c.t.state) ==>
                  WrapSub(c.t.sndNxt, c.t.sndUna)
                  == Wrap(|c.t.sendBuffer| + Bit(ControlOutstanding(c.t.state))))
  {
    hide SeqOf, Wrap, WrapSub, Run, Start;
    RunKeepsSendSide(key, iss, now, events);
    var cut := |c.sent| - |c.t.sendBuffer|;
    assert 0 <= cut <= |c.sent| && c.t.sendBuffer == c.sent[cut..];
    if Accounted(c.t.state) {
      OutstandingInSequenceSpace(c.t, c.sent);
    }
  }

  // ---- What leaves -------------------------------------------------------------------

  /** The payload of `segment` is the run of application bytes its sequence number names. */
  ghost predicate CarriesStream(segment: OutSegment, iss: u32, sent: seq<byte>) {
    segment.payload == [] ||
    exists p: nat :: CarriesAt(segment, iss, sent, p)
  }

  ghost predicate CarriesAt(segment: OutSegment, iss: u32, sent: seq<byte>, p: nat) {
    && p + |segment.payload| <= |sent|
    && segment.payload == sent[p..p + |segment.payload|]
    && segment.seqNo == SeqOf(iss, p)
  }

  lemma {:induction false} CarriesStreamGrows(segment: OutSegment, iss: u32, sent: seq<byte>, more: seq<byte>)
    requires CarriesStream(segment, iss, sent)
    ensures CarriesStream(segment, iss, sent + more)
  {
    hide SeqOf;
    if segment.payload != [] {
      var p: nat :| CarriesAt(segment, iss, sent, p);
      assert CarriesAt(segment, iss, sent + more, p) by {
        assert (sent + more)[p..p + |segment.payload|] == sent[p..p + |segment.payload|];
      }
    }
  }

  /** One emission, judged against the state of the connection that has it in its log. */
  ghost predicate EmissionOk(e: Emission, t: TcbView, sent: seq<byte>) {
    && (Has(e.segment.flags, SYN) ==> e.segment.seqNo == t.iss && e.segment.payload == [])
    && (Has(e.segment.flags, FIN) ==>
          && !Has(e.segment.flags, SYN)
          && Frozen(t.state)
          && e.segment.seqNo == SeqOf(t.iss, |sent|)
          && e.segment.payload == [])
    && (!e.byTimer || |t.sendBuffer| == |sent| ==> CarriesStream(e.segment, t.iss, sent))
  }

  /** The offset `build_retransmit` computes is the acknowledged count, although the buffer was drained. */
  lemma {:induction false} RetransmitOffset(t: TcbView, sent: seq<byte>)
    requires SendSide(t, sent) && DataPhase(t.state)
    ensures WrapSub(t.sndUna, Wrap(t.iss + 1)) == Wrap(|sent| - |t.sendBuffer|)
  {
    hide Wrap, WrapSub;
    SeqDistance(t.iss, |sent| - |t.sendBuffer|, 0);
  }

  /** Nothing acknowledged yet: the buffer is the whole stream. */
  lemma {:induction false} RetransmissionCarriesStream(t: TcbView, sent: seq<byte>)
    requires SendSide(t, sent) && DataPhase(t.state) && |t.sendBuffer| == |sent|
    ensures RetransmitPayload(t) == sent
    ensures CarriesStream(BuildRetransmit(t), t.iss, sent)
  {
    hide WrapSub, SeqOf, Wrap, Has;
    RetransmitOffset(t, sent);
    WrapZero();
    assert t.sendBuffer == sent && sent[0..] == sent;
    assert CarriesAt(BuildRetransmit(t), t.iss, sent, 0);
  }

  /** Which flags the segments of the program carry. */
  lemma {:induction false} FlagFacts()
    ensures !Has(ACK, SYN) && !Has(ACK, FIN) && !Has(PSH + ACK, SYN) && !Has(PSH + ACK, FIN)
    ensures !Has(FIN + ACK, SYN) && Has(FIN + ACK, FIN) && Has(SYN, SYN) && !Has(SYN, FIN)
    ensures !Has(RST, SYN) && !Has(RST, FIN)
  {
  }

  /** What is sent again in each kind of state. */
  lemma {:induction false} RetransmitFacts(t: TcbView)
    requires Live(t.state)
    ensures var m := BuildRetransmit(t);
            if t.state == SynSent then m.flags == SYN && m.seqNo == t.iss && m.payload == []
            else if DataPhase(t.state) then m.flags == ACK || m.flags == PSH + ACK
            else if ControlOutstanding(t.state) then
              m.flags == FIN + ACK && m.seqNo == WrapSub(t.sndNxt, 1) && m.payload == []
            else m.flags == ACK && m.payload == []
  {
    hide WrapSub, RetransmitPayload;
  }

  lemma {:induction false} RetransmissionEmissionOk(t: TcbView, sent: seq<byte>)
    requires SendSide(t, sent)
    ensures EmissionOk(Emission(BuildRetransmit(t), true), t, sent)
  {
    hide SeqOf, Wrap, WrapSub, BuildRetransmit, Has, CarriesStream;
    FlagFacts();
    RetransmitFacts(t);
    if DataPhase(t.state) {
      if |t.sendBuffer| == |sent| {
        RetransmissionCarriesStream(t, sent);
      }
    } else {
      FinBefore(t.iss, |sent|);
      CarriesNothing(BuildRetransmit(t), t.iss, sent);
    }
  }

  lemma {:induction false} CarriesNothing(segment: OutSegment, iss: u32, sent: seq<byte>)
    ensures segment.payload == [] ==> CarriesStream(segment, iss, sent)
  {
    hide CarriesAt;
  }

  /** What one effect may emit: at most one segment, well formed, with data only in the data phase. */
  ghost predicate EmitsWell(t: TcbView, t1: TcbView, out: seq<OutSegment>, byTimer: bool, sent: seq<byte>) {
    && |out| <= 1
    && forall i :: 0 <= i < |out| ==>
         EmissionOk(Emission(out[i], byTimer), t1, sent) && (out[i].payload != [] ==> DataPhase(t.state))
  }

  lemma {:induction false} EmitsOne(t: TcbView, t1: TcbView, out: OutSegment, byTimer: bool, sent: seq<byte>)
    requires EmissionOk(Emission(out, byTimer), t1, sent) && (out.payload != [] ==> DataPhase(t.state))
    ensures EmitsWell(t, t1, [out], byTimer, sent)
  {
    hide EmissionOk;
  }

  lemma {:induction false} EmitsNothing(t: TcbView, t1: TcbView, byTimer: bool, sent: seq<byte>)
    ensures EmitsWell(t, t1, [], byTimer, sent)
  {
    hide EmissionOk;
  }

  /** A pure acknowledgment is always well formed. */
  lemma {:induction false} AckEmissionOk(segment: OutSegment, t: TcbView, sent: seq<byte>)
    requires (segment.flags == ACK || segment.flags == RST) && segment.payload == []
    ensures EmissionOk(Emission(segment, false), t, sent)
  {
    hide Has, CarriesStream, SeqOf;
    FlagFacts();
    CarriesNothing(segment, t.iss, sent);
  }

  lemma {:induction false} TimerEmissionOk(t: TcbView, sent: seq<byte>, now: Time)
    requires SendSide(t, sent)
    ensures EmitsWell(t, OnTimer(t, now).0, OnTimer(t, now).1, true, sent)
  {
    hide SeqOf, BuildRetransmit, EmissionOk, EmitsWell, Crosses;
    var (t1, out) := OnTimer(t, now);
    if out == [] {
      EmitsNothing(t, t1, true, sent);
    } else {
      RetransmissionEmissionOk(t1, sent);
      RetransmissionHasData(t1);
      EmitsOne(t, t1, BuildRetransmit(t1), true, sent);
    }
  }

  lemma {:induction false} RetransmissionHasData(t: TcbView)
    ensures BuildRetransmit(t).payload != [] ==> DataPhase(t.state)
  {
    hide WrapSub, RetransmitPayload;
  }

  /** A segment is answered by a pure acknowledgment or not at all. */
  lemma {:induction false} SegmentEmits(t: TcbView, h: Header, payload: seq<byte>, now: Time)
    requires Live(t.state)
    ensures var out := Process(t, h, payload, now).1;
            out == [] || (|out| == 1 && out[0].flags == ACK && out[0].payload == [])
  {
    hide Wrap, WrapSub, Has, SegLen, AcceptAck, AcceptData, EnterTimeWait;
  }

  lemma {:induction false} SegmentEmissionOk(t: TcbView, sent: seq<byte>, h: Header, payload: seq<byte>, now: Time)
    requires Live(t.state)
    ensures EmitsWell(t, Process(t, h, payload, now).0, Process(t, h, payload, now).1, false, sent)
  {
    hide Process, EmissionOk, EmitsWell;
    var (t1, out) := Process(t, h, payload, now);
    SegmentEmits(t, h, payload, now);
    if out == [] {
      EmitsNothing(t, t1, false, sent);
    } else {
      AckEmissionOk(out[0], t1, sent);
      EmitsOne(t, t1, out[0], false, sent);
      assert out == [out[0]];
    }
  }

  lemma {:induction false} AppSendEmissionOk(t: TcbView, sent: seq<byte>, data: seq<byte>)
    requires SendSide(t, sent)
    ensures EmitsWell(t, AppSend(t, data).0, AppSend(t, data).1, false, SentAfter(t, sent, Send(data)))
  {
    hide SeqOf, Has, EmitsWell, Wrap, SegLen;
    var (t1, out) := AppSend(t, data);
    FlagFacts();
    if t.state == Established {
      assert CarriesAt(out[0], t.iss, sent + data, |sent|);
      EmitsOne(t, t1, out[0], false, sent + data);
    } else {
      EmitsNothing(t, t1, false, sent);
    }
  }

  lemma {:induction false} AppCloseEmissionOk(t: TcbView, sent: seq<byte>, now: Time)
    requires SendSide(t, sent)
    ensures EmitsWell(t, AppClose(t, now).0, AppClose(t, now).1, false, sent)
  {
    hide SeqOf, Wrap, Has, EmitsWell, CarriesStream;
    var (t1, out) := AppClose(t, now);
    FlagFacts();
    if out == [] {
      EmitsNothing(t, t1, false, sent);
    } else {
      CarriesNothing(out[0], t.iss, sent);
      EmitsOne(t, t1, out[0], false, sent);
    }
  }

  /** Every segment a step emits is well formed, and data leaves only in the data phase. */
  lemma {:induction false} EffectEmissionsOk(t: TcbView, sent: seq<byte>, event: Event, now: Time)
    requires SendSide(t, sent)
    ensures EmitsWell(t, Effect(t, event, now).0, Effect(t, event, now).1, event.Poll?, SentAfter(t, sent, event))
  {
    hide Process, AppSend, AppClose, OnTimer, EmitsWell, SeqOf;
    match event
    case Segment(h, payload) => SegmentEmissionOk(t, sent, h, payload, now);
    case Send(data) => AppSendEmissionOk(t, sent, data);
    case Poll => TimerEmissionOk(t, sent, now);
    case Close => AppCloseEmissionOk(t, sent, now);
    case Recv => EmitsNothing(t, Drained(t), false, sent);
  }

  /** The FIN is out, or nothing matters any more. */
  predicate Frozen(s: State) {
    FinCounted(s) || s == Closed
  }

  /** What an effect keeps of a block: its number, and all of the buffer that is not acknowledged. */
  ghost predicate KeepsSending(t: TcbView, t1: TcbView, more: nat) {
    && t1.iss == t.iss
    && |t1.sendBuffer| <= |t.sendBuffer| + more
    && (Frozen(t.state) ==> Frozen(t1.state))
  }

  lemma {:induction false} OnwardKeepsFrozen(s: State, s': State)
    requires Onward(s, s') && Frozen(s)
    ensures Frozen(s')
  {
  }

  lemma {:induction false} SegmentKeepsSending(t: TcbView, h: Header, payload: seq<byte>, now: Time)
    requires Live(t.state)
    ensures KeepsSending(t, Process(t, h, payload, now).0, 0)
  {
    hide Wrap, WrapSub, Has, SegLen, AcceptAck, AcceptData, Onward, Frozen;
    AcceptAckFrame(t, h.ackNo);
    AcceptDataFrame(t, h, payload);
    AcceptDataFrame(t.(sndUna := h.ackNo, retransmitAt := None, retransmitCount := 0, state := FinWait2), h, payload);
    SegmentOnward(t, h, payload, now);
    if Frozen(t.state) {
      OnwardKeepsFrozen(t.state, Process(t, h, payload, now).0.state);
    }
  }

  lemma {:induction false} EffectKeepsSending(t: TcbView, event: Event, now: Time)
    requires Live(t.state)
    ensures KeepsSending(t, Effect(t, event, now).0, if event.Send? && t.state == Established then |event.data| else 0)
  {
    hide Process, Wrap, SegLen, BuildRetransmit, Crosses;
    if event.Segment? {
      SegmentKeepsSending(t, event.h, event.payload, now);
    }
  }

  /** A step never lets the stream or the acknowledged part shrink, and freezes both at the FIN. */
  lemma {:induction false} StepMonotone(c: Conn, e: Timed)
    requires Live(c.t.state)
    ensures var c1 := Step(c, e);
            && c1.t.iss == c.t.iss
            && c.sent <= c1.sent
            && |c.sent| - |c.t.sendBuffer| <= |c1.sent| - |c1.t.sendBuffer|
            && (Frozen(c.t.state) ==> c1.sent == c.sent && Frozen(c1.t.state))
  {
    hide Step, Effect, AfterSending, Tag;
    if c.present {
      StepParts(c, e);
      EffectKeepsSending(c.t, e.event, e.now);
      AfterSendingFrame(Effect(c.t, e.event, e.now).0, Effect(c.t, e.event, e.now).1, e.now);
    } else {
      RemovedStays(c, e);
    }
  }

  lemma {:induction false} EmissionStaysOk(m: Emission, c: Conn, e: Timed)
    requires SendSide(c.t, c.sent) && EmissionOk(m, c.t, c.sent)
    ensures EmissionOk(m, Step(c, e).t, Step(c, e).sent)
  {
    hide Step, SeqOf, Has, CarriesStream;
    StepMonotone(c, e);
    StepKeepsSendSide(c, e);
    var c1 := Step(c, e);
    if CarriesStream(m.segment, c.t.iss, c.sent) {
      var more := c1.sent[|c.sent|..];
      assert c1.sent == c.sent + more;
      CarriesStreamGrows(m.segment, c.t.iss, c.sent, more);
    }
  }

  /** The whole log of a connection: every emission is well formed and nothing follows a FIN. */
  ghost predicate LogOk(c: Conn) {
    && (forall i :: 0 <= i < |c.log| ==> EmissionOk(c.log[i], c.t, c.sent))
    && (forall i, j :: 0 <= i < j < |c.log| && Has(c.log[i].segment.flags, FIN) ==>
          c.log[j].segment.payload == [])
  }

  lemma {:induction false} EmissionAfterSending(
    m: Emission, t: TcbView, out: seq<OutSegment>, now: Time, sent: seq<byte>)
    requires EmissionOk(m, t, sent)
    ensures EmissionOk(m, AfterSending(t, out, now), sent)
  {
    hide AfterSending, Has, CarriesStream, SeqOf;
    AfterSendingFrame(t, out, now);
  }

  /** What a step adds to the log. */
  lemma {:induction false} NewEmissionOk(c: Conn, e: Timed, i: nat)
    requires SendSide(c.t, c.sent) && |c.log| <= i < |Step(c, e).log|
    ensures EmissionOk(Step(c, e).log[i], Step(c, e).t, Step(c, e).sent)
    ensures Step(c, e).log[i].segment.payload != [] ==> DataPhase(c.t.state)
  {
    hide Step, Effect, AfterSending, SentAfter, EmissionOk, SendSide;
    if c.present {
      StepParts(c, e);
      EffectEmissionsOk(c.t, c.sent, e.event, e.now);
      var (t1, out) := Effect(c.t, e.event, e.now);
      var j := i - |c.log|;
      assert Step(c, e).log[i] == Emission(out[j], e.event.Poll?);
      EmissionAfterSending(Emission(out[j], e.event.Poll?), t1, out, e.now, SentAfter(c.t, c.sent, e.event));
    } else {
      RemovedStays(c, e);
    }
  }

  lemma {:induction false} LogGrows(c: Conn, e: Timed)
    ensures c.log <= Step(c, e).log
  {
    hide Step, Effect, AfterSending, SentAfter, Tag;
    if c.present {
      StepParts(c, e);
    } else {
      RemovedStays(c, e);
    }
  }

  lemma {:induction false} StepKeepsLog(c: Conn, e: Timed)
    requires SendSide(c.t, c.sent) && LogOk(c)
    ensures LogOk(Step(c, e))
  {
    hide Step, EmissionOk, SendSide, Has;
    var c1 := Step(c, e);
    LogGrows(c, e);
    forall i | 0 <= i < |c1.log| ensures EmissionOk(c1.log[i], c1.t, c1.sent) {
      if i < |c.log| {
        EmissionStaysOk(c.log[i], c, e);
      } else {
        NewEmissionOk(c, e, i);
      }
    }
    forall i, j | 0 <= i < j < |c1.log| && Has(c1.log[i].segment.flags, FIN)
      ensures c1.log[j].segment.payload == []
    {
      if |c.log| <= j {
        NewEmissionOk(c, e, j);
        if i < |c.log| {
          FinFreezes(c.log[i], c.t, c.sent);
        } else {
          OneNewEmission(c, e);
        }
      }
    }
  }

  lemma {:induction false} FinFreezes(m: Emission, t: TcbView, sent: seq<byte>)
    requires EmissionOk(m, t, sent) && Has(m.segment.flags, FIN)
    ensures !DataPhase(t.state)
  {
    hide Has, CarriesStream, SeqOf;
  }

  lemma {:induction false} OneNewEmission(c: Conn, e: Timed)
    requires SendSide(c.t, c.sent)
    ensures |Step(c, e).log| <= |c.log| + 1
  {
    hide Step, Effect, AfterSending, SentAfter, EmissionOk, SendSide;
    if c.present {
      StepParts(c, e);
      EffectEmissionsOk(c.t, c.sent, e.event, e.now);
    } else {
      RemovedStays(c, e);
    }
  }

  lemma {:induction false} RunKeepsLog(key: ConnKey, iss: u32, now: Time, events: seq<Timed>)
    ensures LogOk(Run(Start(key, iss, now), events))
    decreases |events|
  {
    hide Step, Start, LogOk, SendSide;
    if events == [] {
      StartLogOk(key, iss, now);
    } else {
      var before := events[..|events| - 1];
      RunKeepsLog(key, iss, now, before);
      RunKeepsSendSide(key, iss, now, before);
      StepKeepsLog(Run(Start(key, iss, now), before), events[|events| - 1]);
    }
  }

  lemma {:induction false} StartLogOk(key: ConnKey, iss: u32, now: Time)
    ensures LogOk(Start(key, iss, now))
  {
    hide Has, SeqOf, Wrap;
    FlagFacts();
  }

  lemma {:induction false} RunKeepsIss(key: ConnKey, iss: u32, now: Time, events: seq<Timed>)
    ensures Run(Start(key, iss, now), events).t.iss == iss
    decreases |events|
  {
    hide Step, Start;
    if events == [] {
      StartFacts(key, iss, now);
    } else {
      var before := events[..|events| - 1];
      RunKeepsIss(key, iss, now, before);
      LifecycleIsAcyclic(key, iss, now, before);
      StepMonotone(Run(Start(key, iss, now), before), events[|events| - 1]);
    }
  }

  /**
   * Transmission consistency.  In every run every byte handed out by `send` leaves under its own
   * number, and as long as no application byte has been acknowledged so does every byte of
   * every retransmission.
   */
  lemma {:induction false} TransmissionConsistency(
    key: ConnKey, iss: u32, now: Time, events: seq<Timed>, c: Conn, i: nat)
    requires c == Run(Start(key, iss, now), events) && i < |c.log|
    ensures !c.log[i].byTimer || |c.t.sendBuffer| == |c.sent| ==> CarriesStream(c.log[i].segment, iss, c.sent)
  {
    hide Run, Start, CarriesStream, Has, SeqOf;
    RunKeepsLog(key, iss, now, events);
    RunKeepsIss(key, iss, now, events);
  }

  lemma {:induction false} RetransmitPayloadAt(t: TcbView, offset: u32)
    requires offset == WrapSub(t.sndUna, Wrap(t.iss + 1))
    ensures RetransmitPayload(t) == t.sendBuffer <==> offset == 0 || t.sendBuffer == []
  {
    hide Wrap, WrapSub;
    if 0 < offset < |t.sendBuffer| {
      assert |t.sendBuffer[offset..]| < |t.sendBuffer|;
    }
  }

  lemma {:induction false} RetransmitPayloadWhole(t: TcbView, sent: seq<byte>)
    requires SendSide(t, sent) && DataPhase(t.state)
    ensures RetransmitPayload(t) == t.sendBuffer <==> Wrap(|sent| - |t.sendBuffer|) == 0 || t.sendBuffer == []
  {
    hide *;
    RetransmitOffset(t, sent);
    RetransmitPayloadAt(t, WrapSub(t.sndUna, Wrap(t.iss + 1)));
  }

  lemma {:induction false} RetransmissionRight(t: TcbView, sent: seq<byte>, acked: int)
    requires SendSide(t, sent) && DataPhase(t.state) && acked == |sent| - |t.sendBuffer|
    ensures BuildRetransmit(t).seqNo == SeqOf(t.iss, acked)
    ensures BuildRetransmit(t).payload == sent[acked..] <==> Wrap(acked) == 0 || acked == |sent|
  {
    hide WrapSub, SeqOf, Wrap, RetransmitPayload, Has;
    RetransmitPayloadWhole(t, sent);
  }

  /** Whatever is outstanding besides a FIN is left out of the FIN's retransmission. */
  lemma {:induction false} FinRetransmission(t: TcbView, sent: seq<byte>)
    requires SendSide(t, sent) && ControlOutstanding(t.state) && t.state != SynSent
    ensures BuildRetransmit(t).seqNo == SeqOf(t.iss, |sent|) && BuildRetransmit(t).payload == []
  {
    hide WrapSub, SeqOf, Wrap, BuildRetransmit;
    RetransmitFacts(t);
    FinBefore(t.iss, |sent|);
  }

  lemma {:induction false} FinBefore(iss: u32, n: int)
    ensures WrapSub(SeqOf(iss, n + 1), 1) == SeqOf(iss, n)
  {
    hide Wrap, SeqOf;
    SeqAdvance(iss, n + 1, -1);
  }

  /**
   * When a retransmission is right.  In any reachable Established or CloseWait state it carries
   * the whole unacknowledged stream exactly when the acknowledged count is a multiple of 2^32
   * (none, in practice) or nothing is outstanding.  Once a FIN is outstanding it carries the FIN
   * alone, so it is right exactly when no data was left: data unacknowledged at close is never
   * sent again.
   */
  lemma {:induction false} RetransmissionRightExactly(
    key: ConnKey, iss: u32, now: Time, events: seq<Timed>, c: Conn, acked: int)
    requires c == Run(Start(key, iss, now), events) && Accounted(c.t.state)
    requires acked == |c.sent| - |c.t.sendBuffer|
    ensures 0 <= acked
    ensures BuildRetransmit(c.t).payload == c.sent[acked..]
            <==> acked == |c.sent| || (DataPhase(c.t.state) && Wrap(acked) == 0)
    ensures BuildRetransmit(c.t).seqNo
            == SeqOf(iss, if DataPhase(c.t.state) then acked else if c.t.state == SynSent then -1 else |c.sent|)
  {
    hide SeqOf, Wrap, Run, Start, BuildRetransmit;
    RunKeepsSendSide(key, iss, now, events);
    RunKeepsIss(key, iss, now, events);
    if DataPhase(c.t.state) {
      RetransmissionRight(c.t, c.sent, acked);
    } else if c.t.state == SynSent {
      SynRetransmission(c.t);
    } else {
      FinRetransmission(c.t, c.sent);
    }
  }

  lemma {:induction false} SynRetransmission(t: TcbView)
    requires t.state == SynSent
    ensures BuildRetransmit(t).seqNo == SeqOf(t.iss, -1) && BuildRetransmit(t).payload == []
  {
  }

  // ---- A run that goes wrong -----------------------------------------------------------

  lemma {:induction false} RunExtend(c: Conn, events: seq<Timed>, e: Timed)
    ensures Run(c, events + [e]) == Step(Run(c, events), e)
  {
    hide Step;
    assert (events + [e])[..|events|] == events;
  }

  /** The peer's SYN+ACK to a connect with initial number 0. */
  function SynAck(key: ConnKey): Event {
    Segment(Header(key.remotePort, key.localPort, 0, 1, SYN + ACK, 0), [])
  }

  function AckUpTo(key: ConnKey, ackNo: u32): Event {
    Segment(Header(key.remotePort, key.localPort, 1, ackNo, ACK, 0), [])
  }

  /** An Established connection with initial number 0, its peer's numbers at 1 and nothing received. */
  predicate Stands(c: Conn, sent: seq<byte>, una: u32, nxt: u32, buffer: seq<byte>, at: Option<Time>) {
    && c.present && c.sent == sent && c.drained == []
    && c.t.state == Established && c.t.iss == 0 && c.t.sndUna == una && c.t.sndNxt == nxt && c.t.rcvNxt == 1
    && c.t.rto == SECOND && c.t.retransmitAt == at && c.t.retransmitCount == 0
    && c.t.sendBuffer == buffer && c.t.recvBuffer == []
  }

  function Armed(at: Option<Time>, now: Time): Option<Time> {
    if at.None? then Some(now + SECOND) else at
  }

  lemma {:induction false} AfterSendingArms(t: TcbView, out: seq<OutSegment>, now: Time)
    requires out != [] && t.rto == SECOND
    ensures AfterSending(t, out, now) == t.(retransmitAt := Armed(t.retransmitAt, now))
  {
  }

  lemma {:induction false} SynAckTaken(t: TcbView, key: ConnKey, now: Time)
    requires t.state == SynSent && t.sndNxt == 1
    ensures SynAck(key).Segment?
    ensures var (t1, out) := Effect(t, SynAck(key), now);
            && t1 == t.(irs := 0, rcvNxt := 1, sndUna := 1, sndWnd := 0, state := Established,
                        retransmitAt := None, retransmitCount := 0)
            && |out| == 1
  {
  }

  /** The handshake takes a fresh connect to Established with nothing outstanding. */
  lemma {:induction false} Handshake(key: ConnKey, now: Time)
    ensures Stands(Run(Start(key, 0, now), [Timed(now, SynAck(key))]), [], 1, 1, [], Some(now + SECOND))
  {
    hide Run, Step, Start, Effect, AfterSending, SynAck, Tag, Wrap;
    var c, e := Start(key, 0, now), Timed(now, SynAck(key));
    RunNothing(c);
    RunExtend(c, [], e);
    assert [] + [e] == [e];
    StartFacts(key, 0, now);
    WrapSmall(1);
    StepParts(c, e);
    SynAckTaken(c.t, key, now);
    var (t1, out) := Effect(c.t, SynAck(key), now);
    AfterSendingArms(t1, out, now);
  }

  lemma {:induction false} RunNothing(c: Conn)
    ensures Run(c, []) == c
  {
  }

  lemma {:induction false} StandsAfterSend(
    c: Conn, sent: seq<byte>, una: u32, nxt: u32, buffer: seq<byte>, at: Option<Time>, data: seq<byte>, now: Time)
    requires Stands(c, sent, una, nxt, buffer, at) && nxt + |data| < MODULUS
    ensures Stands(Step(c, Timed(now, Send(data))), sent + data, una, nxt + |data|, buffer + data, Armed(at, now))
  {
    hide Step, AfterSending, Tag, Wrap, SegLen;
    var e := Timed(now, Send(data));
    StepParts(c, e);
    SegLenShort(data);
    WrapSmall(nxt + |data|);
    var (t1, out) := Effect(c.t, e.event, now);
    AfterSendingArms(t1, out, now);
  }

  lemma {:induction false} AckOfAll(t: TcbView, nxt: u32, n: nat)
    requires t.sndUna < nxt == t.sndNxt && nxt - t.sndUna == n == |t.sendBuffer|
    ensures AcceptAck(t, nxt) == t.(sendBuffer := [], sndUna := nxt, retransmitAt := None, retransmitCount := 0)
  {
    hide Wrap;
    WrapSmall(nxt - t.sndUna);
    WrapZero();
    assert t.sendBuffer[n..] == [];
  }

  lemma {:induction false} StandsAfterAck(
    c: Conn, sent: seq<byte>, una: u32, nxt: u32, buffer: seq<byte>, at: Option<Time>, key: ConnKey, now: Time)
    requires Stands(c, sent, una, nxt, buffer, at) && una < nxt && nxt - una == |buffer|
    ensures Stands(Step(c, Timed(now, AckUpTo(key, nxt))), sent, nxt, nxt, [], None)
  {
    hide Step, AfterSending, Tag, AcceptAck;
    var e := Timed(now, AckUpTo(key, nxt));
    StepParts(c, e);
    AckOfAll(c.t, nxt, |buffer|);
    SegLenShort([]);
    AfterSendingFrame(c.t.(sendBuffer := [], sndUna := nxt, retransmitAt := None, retransmitCount := 0), [], now);
  }

  /** One byte is sent and acknowledged, two more are sent, and a second later the timer fires. */
  function AckedRun(key: ConnKey, now: Time): seq<Timed> {
    [Timed(now, SynAck(key)), Timed(now, Send([7])), Timed(now, AckUpTo(key, 2)), Timed(now, Send([8, 9])),
     Timed(now + SECOND, Poll)]
  }

  /** Sending one byte on a fresh connection and having it acknowledged, then sending two more. */
  lemma {:induction false} OneByteAcknowledged(key: ConnKey, now: Time)
    ensures Stands(Run(Start(key, 0, now), AckedRun(key, now)[..4]), [7, 8, 9], 2, 4, [8, 9], Some(now + SECOND))
  {
    hide Run, Step, Start, Stands, SynAck, AckUpTo;
    var start, all := Start(key, 0, now), AckedRun(key, now);
    Handshake(key, now);
    assert all[..1] == [Timed(now, SynAck(key))];
    assert all[..2] == all[..1] + [all[1]] && all[..3] == all[..2] + [all[2]] && all[..4] == all[..3] + [all[3]];
    RunExtend(start, all[..1], all[1]);
    StandsAfterSend(Run(start, all[..1]), [], 1, 1, [], Some(now + SECOND), [7], now);
    assert [] + [7] == [7];
    RunExtend(start, all[..2], all[2]);
    StandsAfterAck(Run(start, all[..2]), [7], 1, 2, [7], Some(now + SECOND), key, now);
    RunExtend(start, all[..3], all[3]);
    StandsAfterSend(Run(start, all[..3]), [7], 2, 2, [], None, [8, 9], now);
    assert [7] + [8, 9] == [7, 8, 9] && [] + [8, 9] == [8, 9];
  }

  lemma {:induction false} WrongPayload(t: TcbView, now: Time)
    requires t.state == Established && t.iss == 0 && t.sndUna == 2 && t.sendBuffer == [8, 9]
    requires t.retransmitAt == Some(now) && t.retransmitCount == 0
    ensures var (t1, out) := OnTimer(t, now);
            && |out| == 1 && out[0].seqNo == 2 && out[0].payload == [9] && out[0].flags == PSH + ACK
            && t1.sendBuffer == [8, 9]
  {
    assert [8, 9][1..] == [9];
  }

  /**
   * The failure is real.  One byte is sent and acknowledged, two more are sent: the
   * retransmission then carries only the last one, under the number of the one before.
   */
  lemma {:induction false} RetransmissionWrongAfterAck(key: ConnKey, now: Time)
    ensures var c := Run(Start(key, 0, now), AckedRun(key, now));
            && c.sent == [7, 8, 9] && c.t.sendBuffer == [8, 9] && c.log != []
            && var last := c.log[|c.log| - 1];
               && last.byTimer && last.segment.seqNo == SeqOf(0, 1) && last.segment.payload == [9]
               && last.segment.flags == PSH + ACK
  {
    hide Run, Step, Start, OnTimer, AfterSending, SeqOf;
    var start, all := Start(key, 0, now), AckedRun(key, now);
    OneByteAcknowledged(key, now);
    assert all == all[..4] + [all[4]];
    RunExtend(start, all[..4], all[4]);
    var c := Run(start, all[..4]);
    StepParts(c, all[4]);
    WrongPayload(c.t, now + SECOND);
    var (t1, out) := OnTimer(c.t, now + SECOND);
    AfterSendingFrame(t1, out, now + SECOND);
    SecondByte();
  }

  /** The first byte of that run is in its log, under its number. */
  lemma {:induction false} FirstByteLogged(key: ConnKey, now: Time)
    ensures var c := Run(Start(key, 0, now), AckedRun(key, now));
            exists i :: 0 <= i < |c.log| && c.log[i].segment.seqNo == 1 && c.log[i].segment.payload == [7]
                        && c.log[i].segment.flags == PSH + ACK && !c.log[i].byTimer
  {
    hide Run, Step, Start, SynAck, AckUpTo, AfterSending;
    var start, all := Start(key, 0, now), AckedRun(key, now);
    Handshake(key, now);
    assert all[..1] == [Timed(now, SynAck(key))];
    assert all[..2] == all[..1] + [all[1]];
    RunExtend(start, all[..1], all[1]);
    var c := Run(start, all[..1]);
    StepParts(c, all[1]);
    var i := |c.log|;
    assert Run(start, all[..2]).log[i].segment.payload == [7];
    LogKept(start, all, 2);
  }

  /** What is in the log stays there. */
  lemma {:induction false} LogKept(c: Conn, events: seq<Timed>, n: nat)
    requires n <= |events|
    ensures Run(c, events[..n]).log <= Run(c, events).log
    decreases |events|
  {
    hide Step;
    if n == |events| {
      assert events[..n] == events;
    } else {
      var before := events[..|events| - 1];
      LogKept(c, before, n);
      assert before[..n] == events[..n];
      LogGrows(Run(c, before), events[|events| - 1]);
    }
  }

  lemma {:induction false} SecondByte()
    ensures SeqOf(0, 1) == 2
  {
  }

  /** Every SYN carries the initial number; every FIN carries one number, and no data follows it. */
  lemma {:induction false} ControlNumbersFixed(
    key: ConnKey, iss: u32, now: Time, events: seq<Timed>, c: Conn, i: nat, j: nat)
    requires c == Run(Start(key, iss, now), events) && i < |c.log| && j < |c.log|
    ensures Has(c.log[i].segment.flags, SYN) ==> c.log[i].segment.seqNo == iss
    ensures Has(c.log[i].segment.flags, FIN) && Has(c.log[j].segment.flags, FIN) ==>
              c.log[i].segment.seqNo == c.log[j].segment.seqNo
    ensures Has(c.log[i].segment.flags, FIN) && i < j ==> c.log[j].segment.payload == []
  {
    hide Run, Start, CarriesStream, Has, SeqOf;
    RunKeepsLog(key, iss, now, events);
    RunKeepsIss(key, iss, now, events);
  }
}
