/**
 * What every step must do.  The laws of `TcpRuns` and `TcpDelivery` say what never happens; these
 * say, field by field and for every segment, call and poll, what does: the next state, what is
 * read, what is answered, what is acknowledged and when the timer fires next.
 */
module TcpDuties {
  import opened Wire
  import opened TcpSpec
  import opened TcpRuns
  import opened TcpDelivery

  // ---- Segments: what they mean in each state ------------------------------------------------

  predicate AcksAll(t: TcbView, h: Header) {
    Has(h.flags, ACK) && h.ackNo == t.sndNxt
  }

  /** The answer a connect waits for. */
  predicate Connects(t: TcbView, h: Header) {
    t.state == SynSent && Has(h.flags, SYN) && AcksAll(t, h)
  }

  /** The peer's FIN is taken: in order, except in FinWait1, where order is not looked at. */
  predicate TakesFin(t: TcbView, h: Header) {
    Has(h.flags, FIN) &&
    match t.state
    case Established | FinWait2 => h.seqNo == t.rcvNxt
    case FinWait1 => !Has(h.flags, ACK) || h.ackNo == t.sndNxt
    case _ => false
  }

  /** The application will read the payload: it is in order, and no FIN is taken with it after our own. */
  predicate Reads(t: TcbView, h: Header, payload: seq<byte>) {
    SegLen(payload) > 0 && h.seqNo == t.rcvNxt &&
    match t.state
    case Established | CloseWait => true
    case FinWait1 | FinWait2 => !TakesFin(t, h)
    case _ => false
  }

  /** A pure acknowledgment goes back.  Data that arrives after our own FIN is not acknowledged. */
  predicate Answered(t: TcbView, h: Header, payload: seq<byte>) {
    match t.state
    case SynSent => Connects(t, h)
    case Established => (SegLen(payload) > 0 || Has(h.flags, SYN) || Has(h.flags, FIN)) && h.seqNo == t.rcvNxt
    case CloseWait => SegLen(payload) > 0 && h.seqNo == t.rcvNxt
    case _ => TakesFin(t, h)
  }

  /** The acknowledgment settles everything outstanding. */
  predicate Settles(t: TcbView, h: Header) {
    match t.state
    case SynSent => Connects(t, h)
    case Established => AcksAll(t, h) && t.sndUna != t.sndNxt
    case FinWait1 => AcksAll(t, h)
    case _ => false
  }

  /** The way through the states, as RFC 793 draws it, where the code has it. */
  function NextState(t: TcbView, h: Header): State {
    match t.state
    case SynSent =>
      if Connects(t, h) then Established
      else if Has(h.flags, RST) && !(Has(h.flags, SYN) && Has(h.flags, ACK)) then Closed
      else SynSent
    case Established => if TakesFin(t, h) then CloseWait else Established
    case FinWait1 =>
      if TakesFin(t, h) then if Has(h.flags, ACK) then TimeWait else Closing
      else if AcksAll(t, h) then FinWait2
      else FinWait1
    case FinWait2 => if TakesFin(t, h) then TimeWait else FinWait2
    case Closing => if AcksAll(t, h) then TimeWait else Closing
    case LastAck => if Has(h.flags, ACK) then Closed else LastAck
    case s => s
  }

  /** How far the peer's numbers are taken. */
  function NextDue(t: TcbView, h: Header, payload: seq<byte>): u32 {
    if Connects(t, h) then Wrap(h.seqNo + 1)
    else if t.state == Established && Answered(t, h, payload) then
      Wrap(h.seqNo + SegLen(payload) + Bit(Has(h.flags, SYN)) + Bit(Has(h.flags, FIN)))
    else if TakesFin(t, h) then Wrap(h.seqNo + SegLen(payload) + 1)
    else if Reads(t, h, payload) then Wrap(t.rcvNxt + SegLen(payload))
    else t.rcvNxt
  }

  /** The deadline before what is sent arms the timer again. */
  function DeadlineAfter(t: TcbView, h: Header, now: Time): Option<Time> {
    if NextState(t, h) == TimeWait && t.state != TimeWait then Some(now + 60 * SECOND)
    else if Settles(t, h) || (t.state == LastAck && Has(h.flags, ACK)) then None
    else t.retransmitAt
  }

  function CountAfter(t: TcbView, h: Header): nat {
    if Settles(t, h) || (t.state == Closing && AcksAll(t, h)) then 0 else t.retransmitCount
  }

  /** What of the buffer is left: nothing that was acknowledged. */
  function BufferAfter(t: TcbView, h: Header): seq<byte> {
    if t.state == Established && Settles(t, h)
    then t.sendBuffer[Min(WrapSub(h.ackNo, t.sndUna), |t.sendBuffer|)..]
    else t.sendBuffer
  }

  /** The whole block after a segment, field by field. */
  predicate Becomes(t: TcbView, h: Header, payload: seq<byte>, now: Time, t1: TcbView) {
    && t1.key == t.key && t1.iss == t.iss && t1.sndNxt == t.sndNxt && t1.rto == t.rto
    && t1.state == NextState(t, h)
    && t1.irs == (if Connects(t, h) then h.seqNo else t.irs)
    && t1.sndWnd == (if Connects(t, h) then h.window else t.sndWnd)
    && t1.sndUna == (if Settles(t, h) then h.ackNo else t.sndUna)
    && t1.rcvNxt == NextDue(t, h, payload)
    && t1.recvBuffer == (if Reads(t, h, payload) then t.recvBuffer + payload else t.recvBuffer)
    && t1.sendBuffer == BufferAfter(t, h)
    && t1.retransmitAt == DeadlineAfter(t, h, now) && t1.retransmitCount == CountAfter(t, h)
  }

  predicate Replies(t: TcbView, h: Header, payload: seq<byte>, out: seq<OutSegment>) {
    out == if Answered(t, h, payload)
           then [OutSegment(ACK, t.sndNxt, NextDue(t, h, payload), [], t.key.remotePort)]
           else []
  }

  lemma {:induction false} SynSentDuty(t: TcbView, h: Header, payload: seq<byte>, now: Time)
    requires t.state == SynSent
    ensures Becomes(t, h, payload, now, ProcessSynSent(t, h).0) && Replies(t, h, payload, ProcessSynSent(t, h).1)
  {
    hide Wrap, SegLen, Has;
  }

  lemma {:induction false} AckDuty(t: TcbView, h: Header)
    requires t.state == Established
    ensures var t1 := if Has(h.flags, ACK) then AcceptAck(t, h.ackNo) else t;
            t1 == t.(sndUna := if Settles(t, h) then h.ackNo else t.sndUna, sendBuffer := BufferAfter(t, h),
                     retransmitAt := if Settles(t, h) then None else t.retransmitAt,
                     retransmitCount := CountAfter(t, h))
  {
    hide Wrap, WrapSub, Has;
    WrapSubZero(h.ackNo, t.sndUna);
    WrapSubZero(h.ackNo, t.sndNxt);
  }

  lemma {:induction false} EstablishedDuty(t: TcbView, h: Header, payload: seq<byte>, now: Time)
    requires t.state == Established
    ensures Becomes(t, h, payload, now, ProcessEstablished(t, h, payload).0)
    ensures Replies(t, h, payload, ProcessEstablished(t, h, payload).1)
  {
    hide Wrap, WrapSub, SegLen, Has, AcceptAck, BufferAfter;
    AckDuty(t, h);
  }

  lemma {:induction false} CloseWaitDuty(t: TcbView, h: Header, payload: seq<byte>, now: Time)
    requires t.state == CloseWait
    ensures Becomes(t, h, payload, now, ProcessCloseWait(t, h, payload).0)
    ensures Replies(t, h, payload, ProcessCloseWait(t, h, payload).1)
  {
    hide Wrap, WrapSub, SegLen, Has;
  }

  lemma {:induction false} FinWait1Duty(t: TcbView, h: Header, payload: seq<byte>, now: Time)
    requires t.state == FinWait1
    ensures Becomes(t, h, payload, now, ProcessFinWait1(t, h, payload, now).0)
    ensures Replies(t, h, payload, ProcessFinWait1(t, h, payload, now).1)
  {
    hide Wrap, WrapSub, SegLen, Has;
  }

  lemma {:induction false} FinWait2Duty(t: TcbView, h: Header, payload: seq<byte>, now: Time)
    requires t.state == FinWait2
    ensures Becomes(t, h, payload, now, ProcessFinWait2(t, h, payload, now).0)
    ensures Replies(t, h, payload, ProcessFinWait2(t, h, payload, now).1)
  {
    hide Wrap, WrapSub, SegLen, Has;
  }

  lemma {:induction false} LastStatesDuty(t: TcbView, h: Header, payload: seq<byte>, now: Time)
    requires t.state.Closing? || t.state.LastAck? || t.state.TimeWait? || t.state.Closed?
    ensures Becomes(t, h, payload, now, Process(t, h, payload, now).0)
    ensures Replies(t, h, payload, Process(t, h, payload, now).1)
  {
    hide Wrap, WrapSub, SegLen, Has;
  }

  /** The state no run reaches: an acknowledgment of our SYN establishes the connection, nothing else changes it. */
  lemma {:induction false} SynReceivedDuty(t: TcbView, h: Header, now: Time)
    ensures AcksAll(t, h) ==>
              ProcessSynReceived(t, h, now)
              == (t.(state := Established, rcvNxt := Wrap(h.seqNo + 1), sndUna := t.sndNxt, retransmitAt := None,
                     retransmitCount := 0), [])
    ensures !AcksAll(t, h) ==>
              && ProcessSynReceived(t, h, now).0 == t
              && ProcessSynReceived(t, h, now).1
                 == if t.retransmitAt.Some? && t.retransmitAt.value <= now
                    then [OutSegment(SYN + ACK, t.iss, t.rcvNxt, [], t.key.remotePort)] else []
  {
    hide Wrap, Has;
  }

  /** Every segment in every state of a live connection. */
  lemma {:induction false} ProcessDuty(t: TcbView, h: Header, payload: seq<byte>, now: Time)
    requires Live(t.state)
    ensures Becomes(t, h, payload, now, Process(t, h, payload, now).0)
    ensures Replies(t, h, payload, Process(t, h, payload, now).1)
  {
    hide ProcessSynSent, ProcessEstablished, ProcessCloseWait, ProcessFinWait1, ProcessFinWait2, ProcessClosing,
         ProcessLastAck, Becomes, Replies;
    match t.state
    case SynSent => SynSentDuty(t, h, payload, now);
    case Established => EstablishedDuty(t, h, payload, now);
    case CloseWait => CloseWaitDuty(t, h, payload, now);
    case FinWait1 => FinWait1Duty(t, h, payload, now);
    case FinWait2 => FinWait2Duty(t, h, payload, now);
    case _ => LastStatesDuty(t, h, payload, now);
  }

  // ---- Segments: what a step does --------------------------------------------------------------

  /** The timer after a step that sent something or not. */
  function ArmedFor(at: Option<Time>, sends: bool, now: Time, rto: nat): Option<Time> {
    if sends && at.None? then Some(now + rto) else at
  }

  lemma {:induction false} ArmedForSent(t: TcbView, out: seq<OutSegment>, now: Time)
    ensures AfterSending(t, out, now) == t.(retransmitAt := ArmedFor(t.retransmitAt, out != [], now, t.rto))
  {
  }

  /**
   * One step with a segment: the application gets exactly the payload that is due, exactly the
   * segments that call for it are acknowledged, at once and by one segment, and everything else
   * of the connection becomes what the tables above say.
   */
  lemma {:induction false} SegmentDuty(c: Conn, h: Header, payload: seq<byte>, now: Time)
    requires c.present && Live(c.t.state)
    ensures var d := Step(c, Timed(now, Segment(h, payload)));
            && d.present && d.sent == c.sent && d.drained == c.drained
            && Delivered(d) == (if Reads(c.t, h, payload) then Delivered(c) + payload else Delivered(c))
            && d.log == (if Answered(c.t, h, payload)
                         then c.log + [Emission(OutSegment(ACK, c.t.sndNxt, d.t.rcvNxt, [], c.t.key.remotePort), false)]
                         else c.log)
            && Becomes(c.t, h, payload, now, d.t.(retransmitAt := DeadlineAfter(c.t, h, now)))
            && d.t.retransmitAt == ArmedFor(DeadlineAfter(c.t, h, now), Answered(c.t, h, payload), now, c.t.rto)
  {
    hide Step, Process, AfterSending, Answered, Reads, NextDue, NextState, DeadlineAfter, CountAfter, BufferAfter,
         Connects, Settles;
    var e := Timed(now, Segment(h, payload));
    StepParts(c, e);
    ProcessDuty(c.t, h, payload, now);
    var (t1, out) := Process(c.t, h, payload, now);
    ArmedForSent(t1, out, now);
    assert c.drained + (c.t.recvBuffer + payload) == Delivered(c) + payload;
    assert c.log + Tag([], false) == c.log;
  }

  // ---- Progress over runs ------------------------------------------------------------------------

  /** Data can still be read. */
  predicate Reading(s: State) {
    s.Established? || s.FinWait1? || s.FinWait2?
  }

  /** A segment of data alone. */
  predicate PlainData(h: Header, payload: seq<byte>) {
    !Has(h.flags, SYN) && !Has(h.flags, FIN) && |payload| < MODULUS
  }

  /**
   * Progress: in order, data is read at once in Established, FinWait1 and FinWait2, and the number
   * due moves on by its length; out of order, nothing is.
   */
  lemma {:induction false} InOrderIsRead(c: Conn, h: Header, payload: seq<byte>, now: Time)
    requires c.present && Reading(c.t.state) && PlainData(h, payload)
    ensures var d := Step(c, Timed(now, Segment(h, payload)));
            && d.present && Reading(d.t.state)
            && if h.seqNo == c.t.rcvNxt
               then Delivered(d) == Delivered(c) + payload && d.t.rcvNxt == Wrap(c.t.rcvNxt + |payload|)
               else Delivered(d) == Delivered(c) && d.t.rcvNxt == c.t.rcvNxt
  {
    hide Step, Wrap, SegLen, Has, DeadlineAfter, CountAfter, BufferAfter;
    SegmentDuty(c, h, payload, now);
    SegLenShort(payload);
    WrapWord(c.t.rcvNxt);
    assert payload == [] ==> Delivered(c) + payload == Delivered(c);
  }

  lemma {:induction false} WrapWord(n: u32)
    ensures Wrap(n + 0) == n
  {
  }

  /** The event brings no SYN, no FIN and no close. */
  predicate Undisturbed(event: Event) {
    match event
    case Segment(h, payload) => PlainData(h, payload)
    case Close => false
    case _ => true
  }

  /** The bytes read from a run of arrivals, starting where number `due` is next. */
  function InOrder(events: seq<Timed>, due: u32): seq<byte>
    decreases |events|
  {
    if events == [] then []
    else
      var before, e := events[..|events| - 1], events[|events| - 1].event;
      var got := InOrder(before, due);
      if e.Segment? && e.h.seqNo == Wrap(due + |got|) then got + e.payload else got
  }

  /** Anything else leaves what was delivered and what is due alone. */
  lemma {:induction false} OtherStepKeeps(c: Conn, e: Timed)
    requires c.present && Reading(c.t.state) && !e.event.Segment? && !e.event.Close?
    ensures var d := Step(c, e);
            && Delivered(d) == Delivered(c) && d.t.rcvNxt == c.t.rcvNxt
            && (d.present ==> Reading(d.t.state))
  {
    hide Step, AfterSending, BuildRetransmit, Tag, Wrap, SegLen;
    StepParts(c, e);
    var (t1, out) := Effect(c.t, e.event, e.now);
    AfterSendingFrame(t1, out, e.now);
    assert c.drained + c.t.recvBuffer + [] == c.drained + c.t.recvBuffer;
  }

  lemma {:induction false} AbsentStays(c: Conn, events: seq<Timed>)
    requires Run(c, events).present && events != []
    ensures Run(c, events[..|events| - 1]).present
  {
    hide Step;
    var b := Run(c, events[..|events| - 1]);
    if !b.present {
      RemovedStays(b, events[|events| - 1]);
    }
  }

  /**
   * Progress over runs.  While a connection is there, what it delivers over any run of arrivals,
   * reads, sends and polls is exactly the data that arrived in order, all of it.
   */
  lemma {:induction false} DeliversWhatArrives(c: Conn, events: seq<Timed>, d: Conn)
    requires c.present && Reading(c.t.state) && d == Run(c, events) && d.present
    requires forall i :: 0 <= i < |events| ==> Undisturbed(events[i].event)
    ensures Reading(d.t.state)
    ensures Delivered(d) == Delivered(c) + InOrder(events, c.t.rcvNxt)
    ensures d.t.rcvNxt == Wrap(c.t.rcvNxt + |InOrder(events, c.t.rcvNxt)|)
    decreases |events|
  {
    hide Step, Wrap, Has, Delivered, Reading;
    if events == [] {
      WrapWord(c.t.rcvNxt);
      assert Delivered(c) + [] == Delivered(c);
    } else {
      var before, e := events[..|events| - 1], events[|events| - 1];
      var b, got := Run(c, before), InOrder(before, c.t.rcvNxt);
      AbsentStays(c, events);
      DeliversWhatArrives(c, before, b);
      if e.event.Segment? {
        InOrderIsRead(b, e.event.h, e.event.payload, e.now);
        Associate(Delivered(c), got, e.event.payload);
        WrapSum(c.t.rcvNxt + |got|, |e.event.payload|);
      } else {
        OtherStepKeeps(b, e);
      }
    }
  }

  /** The pieces of a stream, one after the other, as segments numbered from `due`. */
  function Pieces(key: ConnKey, pieces: seq<seq<byte>>, due: u32, now: Time): seq<Timed>
    decreases |pieces|
  {
    if pieces == [] then []
    else
      var before, last := pieces[..|pieces| - 1], pieces[|pieces| - 1];
      Pieces(key, before, due, now) + [PieceAt(key, last, Wrap(due + |Joined(before)|), now)]
  }

  function PieceAt(key: ConnKey, piece: seq<byte>, seqNo: u32, now: Time): Timed {
    Timed(now, Segment(Header(key.remotePort, key.localPort, seqNo, 0, PSH, 0), piece))
  }

  function Joined(pieces: seq<seq<byte>>): seq<byte> {
    if pieces == [] then [] else Joined(pieces[..|pieces| - 1]) + pieces[|pieces| - 1]
  }

  /** Arrivals that bring neither SYN nor FIN. */
  ghost predicate AllPlain(events: seq<Timed>) {
    forall i :: 0 <= i < |events| ==> events[i].event.Segment? && Undisturbed(events[i].event)
  }

  lemma {:induction false} InOrderNext(events: seq<Timed>, e: Timed, due: u32)
    requires e.event.Segment? && e.event.h.seqNo == Wrap(due + |InOrder(events, due)|)
    ensures InOrder(events + [e], due) == InOrder(events, due) + e.event.payload
  {
    hide Wrap;
    assert (events + [e])[..|events|] == events;
  }

  lemma {:induction false} PlainPiece(key: ConnKey, piece: seq<byte>, seqNo: u32, now: Time)
    requires |piece| < MODULUS
    ensures Undisturbed(PieceAt(key, piece, seqNo, now).event)
  {
  }

  lemma {:induction false} PiecesInOrder(key: ConnKey, pieces: seq<seq<byte>>, due: u32, now: Time)
    requires forall i :: 0 <= i < |pieces| ==> |pieces[i]| < MODULUS
    ensures InOrder(Pieces(key, pieces, due, now), due) == Joined(pieces)
    ensures AllPlain(Pieces(key, pieces, due, now))
    decreases |pieces|
  {
    hide Wrap, InOrder, Undisturbed;
    if pieces == [] {
      InOrderNothing(due);
    } else {
      var before, last := pieces[..|pieces| - 1], pieces[|pieces| - 1];
      PiecesInOrder(key, before, due, now);
      var e := PieceAt(key, last, Wrap(due + |Joined(before)|), now);
      InOrderNext(Pieces(key, before, due, now), e, due);
      PlainPiece(key, last, Wrap(due + |Joined(before)|), now);
    }
  }

  lemma {:induction false} InOrderNothing(due: u32)
    ensures InOrder([], due) == []
  {
  }

  lemma {:induction false} ArrivalsStay(c: Conn, events: seq<Timed>)
    requires c.present && forall i :: 0 <= i < |events| ==> events[i].event.Segment?
    ensures Run(c, events).present
    decreases |events|
  {
    if events != [] {
      hide Step;
      ArrivalsStay(c, events[..|events| - 1]);
      StepParts(Run(c, events[..|events| - 1]), events[|events| - 1]);
    }
  }

  /** A stream that arrives piece by piece is delivered whole, before and after our own FIN. */
  lemma {:induction false} WholeStreamDelivered(c: Conn, pieces: seq<seq<byte>>, now: Time)
    requires c.present && Reading(c.t.state) && forall i :: 0 <= i < |pieces| ==> |pieces[i]| < MODULUS
    ensures Delivered(Run(c, Pieces(c.t.key, pieces, c.t.rcvNxt, now))) == Delivered(c) + Joined(pieces)
  {
    hide Run, Delivered, InOrder, Pieces, Joined, Reading;
    var events := Pieces(c.t.key, pieces, c.t.rcvNxt, now);
    PiecesInOrder(c.t.key, pieces, c.t.rcvNxt, now);
    ArrivalsStay(c, events);
    DeliversWhatArrives(c, events, Run(c, events));
  }

  // ---- Calls -----------------------------------------------------------------------------------

  /** Sending in Established: exactly one segment, with exactly the data, under its number; otherwise nothing. */
  lemma {:induction false} SendDuty(c: Conn, data: seq<byte>, now: Time)
    requires c.present
    ensures var d := Step(c, Timed(now, Send(data)));
            if c.t.state == Established then
              && d.present && d.sent == c.sent + data && d.drained == c.drained
              && d.log
                 == c.log + [Emission(OutSegment(PSH + ACK, c.t.sndNxt, c.t.rcvNxt, data, c.t.key.remotePort), false)]
              && d.t == c.t.(sndNxt := Wrap(c.t.sndNxt + |data|), sendBuffer := c.t.sendBuffer + data,
                             retransmitAt := ArmedFor(c.t.retransmitAt, true, now, c.t.rto))
            else d == c
  {
    hide Step, AfterSending, Wrap;
    var e := Timed(now, Send(data));
    StepParts(c, e);
    var (t1, out) := Effect(c.t, e.event, now);
    ArmedForSent(t1, out, now);
    WrapSum(|data|, c.t.sndNxt);
    assert c.log + Tag([], false) == c.log;
  }

  /** Our FIN is to be sent. */
  predicate Finishes(s: State) {
    s.Established? || s.CloseWait?
  }

  /** Closing gives the connection up. */
  predicate Aborts(s: State) {
    s.SynSent? || s.FinWait1? || s.FinWait2? || s.Closing? || s.LastAck?
  }

  /**
   * Closing: exactly one FIN at once, or exactly one reset, or nothing, by state; the FIN starts
   * its own timer.
   */
  lemma {:induction false} CloseDuty(c: Conn, now: Time)
    requires c.present && Live(c.t.state)
    ensures var d := Step(c, Timed(now, Close));
            && d.present && d.sent == c.sent && d.drained == c.drained && Delivered(d) == Delivered(c)
            && if Finishes(c.t.state) then
                 && d.log
                    == c.log + [Emission(OutSegment(FIN + ACK, c.t.sndNxt, c.t.rcvNxt, [], c.t.key.remotePort), false)]
                 && d.t == c.t.(state := if c.t.state == Established then FinWait1 else LastAck,
                                sndNxt := Wrap(c.t.sndNxt + 1), retransmitAt := Some(now + c.t.rto))
               else if Aborts(c.t.state) then
                 && d.log == c.log + [Emission(OutSegment(RST, c.t.sndNxt, 0, [], c.t.key.remotePort), false)]
                 && d.t == c.t.(state := Closed, retransmitAt := ArmedFor(c.t.retransmitAt, true, now, c.t.rto))
               else d == c
  {
    hide Step, AfterSending, Wrap;
    var e := Timed(now, Close);
    StepParts(c, e);
    var (t1, out) := Effect(c.t, e.event, now);
    ArmedForSent(t1, out, now);
    assert c.log + Tag([], false) == c.log;
  }

  /** In every run the FIN of a close goes out at once, under the number right behind everything sent. */
  lemma {:induction false} CloseSendsFin(key: ConnKey, iss: u32, start: Time, events: seq<Timed>, c: Conn, now: Time)
    requires c == Run(Start(key, iss, start), events) && c.present && Finishes(c.t.state)
    ensures Step(c, Timed(now, Close)).log
            == c.log + [Emission(OutSegment(FIN + ACK, SeqOf(iss, |c.sent|), c.t.rcvNxt, [], key.remotePort), false)]
  {
    hide Run, Start, Step, SeqOf, Wrap;
    RunKeepsSendSide(key, iss, start, events);
    RunKeepsIss(key, iss, start, events);
    RunKeepsKey(key, iss, start, events);
    CloseDuty(c, now);
  }

  /** Reading takes everything and sends nothing. */
  lemma {:induction false} RecvDuty(c: Conn, now: Time)
    requires c.present
    ensures Step(c, Timed(now, Recv)) == c.(drained := c.drained + c.t.recvBuffer, t := c.t.(recvBuffer := []))
  {
    hide Step, AfterSending;
    var e := Timed(now, Recv);
    StepParts(c, e);
    ArmedForSent(Drained(c.t), [], now);
    assert c.log + Tag([], false) == c.log;
  }

  // ---- Polls -----------------------------------------------------------------------------------

  /** What is sent again. */
  predicate SentAgain(t: TcbView, m: OutSegment) {
    && m.dstPort == t.key.remotePort
    && match t.state
       case SynSent => m.flags == SYN && m.seqNo == t.iss && m.ackNo == 0 && m.payload == []
       case Established | CloseWait =>
         && m.flags == (if m.payload == [] then ACK else PSH + ACK) && m.seqNo == t.sndUna && m.ackNo == t.rcvNxt
       case FinWait1 | Closing | LastAck =>
         m.flags == FIN + ACK && Wrap(m.seqNo + 1) == t.sndNxt && m.ackNo == t.rcvNxt && m.payload == []
       case _ => m.flags == ACK && m.seqNo == t.sndUna && m.ackNo == t.rcvNxt && m.payload == []
  }

  lemma {:induction false} RetransmitDuty(t: TcbView)
    requires Live(t.state)
    ensures SentAgain(t, BuildRetransmit(t))
  {
    hide Wrap, RetransmitPayload;
    WrapBack(t.sndNxt);
  }

  lemma {:induction false} WrapBack(n: u32)
    ensures Wrap(WrapSub(n, 1) + 1) == n
  {
    WrapSum(n - 1, 1);
    WrapSmall(n);
  }

  /**
   * A poll before the deadline does nothing but drop a closed connection.  At the deadline the
   * sixth time gives up; any other sends one segment again, waits the current back-off and doubles
   * it up to a minute.
   */
  lemma {:induction false} PollDuty(c: Conn, now: Time)
    requires c.present && Live(c.t.state) && c.t.rto > 0
    ensures var d := Step(c, Timed(now, Poll));
            if c.t.retransmitAt.None? || now < c.t.retransmitAt.value then
              d == c.(present := c.t.state != Closed)
            else if c.t.retransmitCount >= 5 then
              d == c.(present := false, t := c.t.(state := Closed))
            else
              && d.sent == c.sent && d.drained == c.drained && d.present == (c.t.state != Closed)
              && d.t == c.t.(retransmitAt := Some(now + c.t.rto), rto := Min(2 * c.t.rto, 60 * SECOND),
                             retransmitCount := c.t.retransmitCount + 1)
              && |d.log| == |c.log| + 1 && d.log[..|c.log|] == c.log && d.log[|c.log|].byTimer
              && SentAgain(d.t, d.log[|c.log|].segment)
  {
    hide Step, AfterSending, BuildRetransmit, SentAgain;
    var e := Timed(now, Poll);
    StepParts(c, e);
    var (t1, out) := Effect(c.t, e.event, now);
    ArmedForSent(t1, out, now);
    RetransmitDuty(t1);
    assert c.log + Tag([], true) == c.log;
  }

  /** What `retain` drops: closed blocks, and those in TimeWait whose deadline has come. */
  lemma {:induction false} RetainDuty(t: TcbView, now: Time)
    ensures !Retained(t, now) <==>
              t.state == Closed || (t.state == TimeWait && t.retransmitAt.Some? && t.retransmitAt.value <= now)
  {
  }

  // ---- Over every run --------------------------------------------------------------------------

  lemma {:induction false} EffectKeepsKey(t: TcbView, event: Event, now: Time)
    requires Live(t.state)
    ensures Effect(t, event, now).0.key == t.key
    ensures forall i :: 0 <= i < |Effect(t, event, now).1| ==> Effect(t, event, now).1[i].dstPort == t.key.remotePort
  {
    hide Process, BuildRetransmit, Wrap, SegLen, Crosses;
    if event.Segment? {
      hide NextState, NextDue, DeadlineAfter, CountAfter, BufferAfter, Connects, Settles, Reads, Answered;
      ProcessDuty(t, event.h, event.payload, now);
    } else if event.Poll? {
      RetransmitDuty(OnTimer(t, now).0);
    }
  }

  lemma {:induction false} StepKeepsKey(c: Conn, e: Timed)
    requires Live(c.t.state)
    ensures Step(c, e).t.key == c.t.key
    ensures forall i :: |c.log| <= i < |Step(c, e).log| ==> Step(c, e).log[i].segment.dstPort == c.t.key.remotePort
  {
    hide Step, Effect, AfterSending;
    if c.present {
      StepParts(c, e);
      EffectKeepsKey(c.t, e.event, e.now);
      var (t1, out) := Effect(c.t, e.event, e.now);
      AfterSendingFrame(t1, out, e.now);
    } else {
      RemovedStays(c, e);
    }
  }

  lemma {:induction false} RunKeepsKey(key: ConnKey, iss: u32, start: Time, events: seq<Timed>)
    ensures Run(Start(key, iss, start), events).t.key == key
    decreases |events|
  {
    hide Step, Start;
    if events == [] {
      StartFacts(key, iss, start);
    } else {
      var before := events[..|events| - 1];
      RunKeepsKey(key, iss, start, before);
      LifecycleIsAcyclic(key, iss, start, before);
      StepKeepsKey(Run(Start(key, iss, start), before), events[|events| - 1]);
    }
  }

  /** Everything a connection ever emits goes to its peer's port. */
  lemma {:induction false} EmissionsToPeer(key: ConnKey, iss: u32, start: Time, events: seq<Timed>, i: nat)
    requires i < |Run(Start(key, iss, start), events).log|
    ensures Run(Start(key, iss, start), events).log[i].segment.dstPort == key.remotePort
    decreases |events|
  {
    hide Step, Start;
    if events == [] {
      StartFacts(key, iss, start);
    } else {
      var before, e := events[..|events| - 1], events[|events| - 1];
      var b := Run(Start(key, iss, start), before);
      LifecycleIsAcyclic(key, iss, start, before);
      RunKeepsKey(key, iss, start, before);
      StepKeepsKey(b, e);
      LogGrows(b, e);
      if i < |b.log| {
        EmissionsToPeer(key, iss, start, before, i);
      }
    }
  }
}
