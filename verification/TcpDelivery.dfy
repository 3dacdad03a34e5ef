/**
 * What the application reads.  The peer owns one byte stream; the network may lose, duplicate,
 * reorder and re-cut its segments.  Whatever arrives, the application sees a prefix of that stream.
 */
module TcpDelivery {
  import opened Wire
  import opened TcpSpec
  import opened TcpRuns

  /** The peer's stream and the number of its SYN. */
  datatype Peer = Peer(iss: u32, stream: seq<byte>)

  /** The payload is the slice of the stream at `off`, and a FIN sits right behind the stream. */
  predicate SliceAt(peer: Peer, h: Header, payload: seq<byte>, off: nat) {
    && off + |payload| <= |peer.stream|
    && payload == peer.stream[off..off + |payload|]
    && h.seqNo == SeqOf(peer.iss, off)
    && (Has(h.flags, FIN) ==> off + |payload| == |peer.stream|)
  }

  /** A segment the peer may have sent: its SYN, a bare acknowledgment or a slice of its stream. */
  ghost predicate FromPeer(peer: Peer, h: Header, payload: seq<byte>) {
    if Has(h.flags, SYN) then h.seqNo == peer.iss && payload == [] && !Has(h.flags, FIN)
    else (payload == [] && !Has(h.flags, FIN)) || exists off: nat :: SliceAt(peer, h, payload, off)
  }

  ghost predicate EventFromPeer(peer: Peer, event: Event) {
    event.Segment? ==> FromPeer(peer, event.h, event.payload)
  }

  /** Sequence numbers of the peer's SYN, bytes and FIN do not collide. */
  predicate Short(peer: Peer) {
    |peer.stream| < MODULUS - 2
  }

  /** Where the receive side stands: `got` is everything delivered so far. */
  ghost predicate ReceiveSide(t: TcbView, got: seq<byte>, peer: Peer) {
    match t.state
    case SynSent => got == []
    case Established | FinWait1 | FinWait2 =>
      && t.irs == peer.iss
      && got <= peer.stream
      && t.rcvNxt == SeqOf(peer.iss, |got|)
    case CloseWait | LastAck =>
      && t.irs == peer.iss
      && got == peer.stream
      && t.rcvNxt == SeqOf(peer.iss, |got| + 1)
    case Closing | TimeWait => got <= peer.stream && t.rcvNxt == SeqOf(peer.iss, |peer.stream| + 1)
    case Closed => got <= peer.stream
    case Listen | SynReceived => false
  }

  /** Within a short stream a sequence number names one position. */
  lemma {:induction false} SeqOfInjective(iss: u32, p: int, q: int)
    requires -1 <= p < MODULUS - 1 && -1 <= q < MODULUS - 1
    requires SeqOf(iss, p) == SeqOf(iss, q)
    ensures p == q
  {
    SeqDistance(iss, p, q);
    WrapSubZero(SeqOf(iss, p), SeqOf(iss, q));
  }

  lemma {:induction false} SynNumber(iss: u32)
    ensures SeqOf(iss, -1) == iss
  {
  }

  lemma {:induction false} FirstNumber(iss: u32)
    ensures SeqOf(iss, 0) == Wrap(iss + 1)
  {
    hide Wrap;
  }

  /** A slice that starts at `rcvNxt` starts exactly where delivery stands. */
  lemma {:induction false} InOrderSlice(peer: Peer, h: Header, payload: seq<byte>, off: nat, n: nat)
    requires Short(peer) && SliceAt(peer, h, payload, off) && n <= |peer.stream| + 1
    requires h.seqNo == SeqOf(peer.iss, n)
    ensures off == n
    ensures peer.stream[..off] + payload == peer.stream[..off + |payload|]
  {
    SeqOfInjective(peer.iss, off, n);
  }

  lemma {:induction false} PeerPayloadShort(peer: Peer, h: Header, payload: seq<byte>)
    requires Short(peer) && FromPeer(peer, h, payload)
    ensures SegLen(payload) == |payload|
  {
    if payload != [] {
      var off: nat :| SliceAt(peer, h, payload, off);
    }
    SegLenShort(payload);
  }

  lemma {:induction false} AcceptDataDelivers(t: TcbView, got: seq<byte>, peer: Peer, h: Header, payload: seq<byte>)
    requires Short(peer) && FromPeer(peer, h, payload)
    requires got <= peer.stream && t.rcvNxt == SeqOf(peer.iss, |got|)
    ensures var t1 := AcceptData(t, h, payload);
            var more := if t1.recvBuffer == t.recvBuffer then [] else payload;
            && t1.recvBuffer == t.recvBuffer + more
            && got + more <= peer.stream
            && t1.rcvNxt == SeqOf(peer.iss, |got + more|)
  {
    hide SeqOf, Wrap, WrapSub, SegLen;
    PeerPayloadShort(peer, h, payload);
    if payload != [] && h.seqNo == t.rcvNxt {
      var off: nat :| SliceAt(peer, h, payload, off);
      InOrderSlice(peer, h, payload, off, |got|);
      SeqAdvance(peer.iss, |got|, |payload|);
    }
  }

  /** The segment takes up sequence space that starts exactly where delivery stands. */
  predicate Due(t: TcbView, h: Header, payload: seq<byte>) {
    (SegLen(payload) > 0 || Has(h.flags, SYN) || Has(h.flags, FIN)) && h.seqNo == t.rcvNxt
  }

  /** A segment that is not due leaves the receive side alone. */
  lemma {:induction false} NotDue(t: TcbView, h: Header, payload: seq<byte>)
    requires !Due(t, h, payload)
    ensures var t1 := ProcessEstablished(t, h, payload).0;
            t1.state == t.state && t1.irs == t.irs && t1.rcvNxt == t.rcvNxt && t1.recvBuffer == t.recvBuffer
  {
    hide Wrap, SegLen, AcceptAck, Has;
    AcceptAckFrame(t, h.ackNo);
  }

  lemma {:induction false} DueTaken(t: TcbView, h: Header, payload: seq<byte>)
    requires Due(t, h, payload) && t.state == Established && SegLen(payload) == |payload|
    ensures var t1 := ProcessEstablished(t, h, payload).0;
            && t1.state == (if Has(h.flags, FIN) then CloseWait else Established) && t1.irs == t.irs
            && t1.rcvNxt == Wrap(h.seqNo + |payload| + Bit(Has(h.flags, SYN)) + Bit(Has(h.flags, FIN)))
            && t1.recvBuffer == t.recvBuffer + payload
  {
    hide Wrap, SegLen, AcceptAck, Has;
    AcceptAckFrame(t, h.ackNo);
    assert payload == [] ==> t.recvBuffer + payload == t.recvBuffer;
  }

  /** The peer's SYN is never due again, and what is due is the slice right behind what was delivered. */
  lemma {:induction false} DueIsNext(t: TcbView, got: seq<byte>, peer: Peer, h: Header, payload: seq<byte>)
    requires Short(peer) && FromPeer(peer, h, payload) && Due(t, h, payload)
    requires got <= peer.stream && t.rcvNxt == SeqOf(peer.iss, |got|)
    ensures !Has(h.flags, SYN) && SliceAt(peer, h, payload, |got|)
    ensures got + payload <= peer.stream
  {
    hide SeqOf, Wrap, SegLen, Has;
    PeerPayloadShort(peer, h, payload);
    if Has(h.flags, SYN) {
      SynNumber(peer.iss);
      SeqOfInjective(peer.iss, -1, |got|);
    } else {
      var off: nat :| SliceAt(peer, h, payload, off);
      InOrderSlice(peer, h, payload, off, |got|);
      assert got == peer.stream[..off];
    }
  }

  lemma {:induction false} EstablishedDelivers(t: TcbView, got: seq<byte>, peer: Peer, h: Header, payload: seq<byte>)
    requires Short(peer) && FromPeer(peer, h, payload)
    requires t.state == Established && ReceiveSide(t, got, peer)
    ensures var t1 := ProcessEstablished(t, h, payload).0;
            var more := if t1.recvBuffer == t.recvBuffer then [] else payload;
            t1.recvBuffer == t.recvBuffer + more && ReceiveSide(t1, got + more, peer)
  {
    hide SeqOf, Wrap, SegLen, Has, FromPeer, ProcessEstablished, Due;
    assert got + [] == got;
    if Due(t, h, payload) {
      PeerPayloadShort(peer, h, payload);
      DueTaken(t, h, payload);
      DueIsNext(t, got, peer, h, payload);
      SeqAdvance(peer.iss, |got|, |payload|);
      SeqAdvance(peer.iss, |got|, |payload| + 1);
    } else {
      NotDue(t, h, payload);
    }
  }

  /** The peer's FIN sits right behind its stream, whatever slice carries it. */
  lemma {:induction false} FinNumber(peer: Peer, h: Header, payload: seq<byte>)
    requires Short(peer) && FromPeer(peer, h, payload) && Has(h.flags, FIN)
    ensures Wrap(h.seqNo + SegLen(payload) + 1) == SeqOf(peer.iss, |peer.stream| + 1)
  {
    hide SeqOf, Wrap, SegLen, Has;
    PeerPayloadShort(peer, h, payload);
    var off: nat :| SliceAt(peer, h, payload, off);
    SeqAdvance(peer.iss, off, |payload| + 1);
  }

  lemma {:induction false} CloseWaitIgnores(t: TcbView, got: seq<byte>, peer: Peer, h: Header, payload: seq<byte>)
    requires Short(peer) && FromPeer(peer, h, payload)
    requires t.state == CloseWait && ReceiveSide(t, got, peer)
    ensures ProcessCloseWait(t, h, payload).0 == t
  {
    hide SeqOf, Wrap, SegLen;
    PeerPayloadShort(peer, h, payload);
    if payload != [] && h.seqNo == t.rcvNxt {
      var off: nat :| SliceAt(peer, h, payload, off);
      InOrderSlice(peer, h, payload, off, |got| + 1);
    }
  }

  /** One segment from the peer: what it adds to the receive buffer, and where delivery then stands. */
  lemma {:induction false} SegmentDelivers(
    t: TcbView, got: seq<byte>, peer: Peer, h: Header, payload: seq<byte>, now: Time)
    requires Short(peer) && FromPeer(peer, h, payload) && ReceiveSide(t, got, peer)
    ensures var t1 := Process(t, h, payload, now).0;
            var more := if t1.recvBuffer == t.recvBuffer then [] else payload;
            t1.recvBuffer == t.recvBuffer + more && ReceiveSide(t1, got + more, peer)
  {
    hide SeqOf, Wrap, WrapSub, SegLen, Has, FromPeer, ProcessEstablished, ProcessCloseWait, ProcessFinWait1,
         ProcessSynSent, AcceptData;
    assert got + [] == got;
    match t.state
    case Established => EstablishedDelivers(t, got, peer, h, payload);
    case CloseWait => CloseWaitIgnores(t, got, peer, h, payload);
    case SynSent => SynSentDelivers(t, got, peer, h, payload);
    case FinWait1 => FinWait1Delivers(t, got, peer, h, payload, now);
    case FinWait2 =>
      AcceptDataDelivers(t, got, peer, h, payload);
      AcceptDataFrame(t, h, payload);
      if Has(h.flags, FIN) {
        FinNumber(peer, h, payload);
      }
    case _ =>
  }

  lemma {:induction false} SynSentDelivers(t: TcbView, got: seq<byte>, peer: Peer, h: Header, payload: seq<byte>)
    requires FromPeer(peer, h, payload) && t.state == SynSent && ReceiveSide(t, got, peer)
    ensures var t1 := ProcessSynSent(t, h).0; t1.recvBuffer == t.recvBuffer && ReceiveSide(t1, got, peer)
  {
    hide SeqOf, Wrap, Has, SliceAt;
    FirstNumber(peer.iss);
  }

  lemma {:induction false} FinWait1Delivers(
    t: TcbView, got: seq<byte>, peer: Peer, h: Header, payload: seq<byte>, now: Time)
    requires Short(peer) && FromPeer(peer, h, payload)
    requires t.state == FinWait1 && ReceiveSide(t, got, peer)
    ensures var t1 := ProcessFinWait1(t, h, payload, now).0;
            var more := if t1.recvBuffer == t.recvBuffer then [] else payload;
            t1.recvBuffer == t.recvBuffer + more && ReceiveSide(t1, got + more, peer)
  {
    hide SeqOf, Wrap, AcceptData, SegLen, Has, FromPeer;
    assert got + [] == got;
    if Has(h.flags, FIN) {
      FinNumber(peer, h, payload);
    }
    var t1 := t.(sndUna := h.ackNo, retransmitAt := None, retransmitCount := 0, state := FinWait2);
    AcceptDataDelivers(t, got, peer, h, payload);
    AcceptDataFrame(t, h, payload);
    AcceptDataDelivers(t1, got, peer, h, payload);
    AcceptDataFrame(t1, h, payload);
  }

  /** Whatever is not a segment leaves the receive side where it stands. */
  lemma {:induction false} OtherEffectDelivers(t: TcbView, got: seq<byte>, peer: Peer, event: Event, now: Time)
    requires !event.Segment? && ReceiveSide(t, got, peer)
    ensures var t1 := Effect(t, event, now).0;
            ReceiveSide(t1, got, peer) && t1.recvBuffer == if event.Recv? then [] else t.recvBuffer
  {
    hide SeqOf, Wrap, SegLen, BuildRetransmit, Crosses;
  }

  lemma {:induction false} ArmedDelivers(t: TcbView, got: seq<byte>, peer: Peer, out: seq<OutSegment>, now: Time)
    requires ReceiveSide(t, got, peer)
    ensures ReceiveSide(AfterSending(t, out, now), got, peer)
    ensures AfterSending(t, out, now).recvBuffer == t.recvBuffer
  {
    hide AfterSending, SeqOf;
    AfterSendingFrame(t, out, now);
  }

  lemma {:induction false} StepDelivers(c: Conn, peer: Peer, e: Timed)
    requires Short(peer) && EventFromPeer(peer, e.event) && ReceiveSide(c.t, Delivered(c), peer)
    ensures ReceiveSide(Step(c, e).t, Delivered(Step(c, e)), peer)
    ensures Delivered(c) <= Delivered(Step(c, e))
  {
    hide Step, Process, AppSend, AppClose, OnTimer, AfterSending, ReceiveSide, FromPeer, Tag, SentAfter;
    if c.present {
      StepParts(c, e);
      var (t1, out) := Effect(c.t, e.event, e.now);
      if e.event.Segment? {
        SegmentDelivers(c.t, Delivered(c), peer, e.event.h, e.event.payload, e.now);
        var more := if t1.recvBuffer == c.t.recvBuffer then [] else e.event.payload;
        assert c.drained + (c.t.recvBuffer + more) == Delivered(c) + more;
        ArmedDelivers(t1, Delivered(c) + more, peer, out, e.now);
      } else {
        OtherEffectDelivers(c.t, Delivered(c), peer, e.event, e.now);
        assert Delivered(c) + [] == Delivered(c);
        ArmedDelivers(t1, Delivered(c), peer, out, e.now);
      }
    } else {
      RemovedStays(c, e);
    }
  }

  /**
   * Reliable prefix delivery.  Over every run fed by one peer, what the application drained
   * followed by what waits for it is a prefix of the peer's stream.  `rcvNxt` counts exactly
   * those bytes while the peer's FIN is awaited, and the whole stream and the FIN afterwards.
   */
  lemma {:induction false} ReliablePrefix(
    key: ConnKey, iss: u32, now: Time, events: seq<Timed>, peer: Peer, c: Conn, got: seq<byte>)
    requires c == Run(Start(key, iss, now), events) && got == Delivered(c)
    requires Short(peer) && forall i :: 0 <= i < |events| ==> EventFromPeer(peer, events[i].event)
    ensures ReceiveSide(c.t, got, peer) && got <= peer.stream
    ensures c.t.state.Established? || c.t.state.FinWait1? || c.t.state.FinWait2? ==>
              |got| == WrapSub(c.t.rcvNxt, Wrap(c.t.irs + 1))
    ensures c.t.state.CloseWait? || c.t.state.LastAck? ==>
              got == peer.stream && |got| + 1 == WrapSub(c.t.rcvNxt, Wrap(c.t.irs + 1))
    decreases |events|
  {
    hide Step, Start, SeqOf, Wrap, WrapSub, EventFromPeer;
    if events == [] {
      StartFacts(key, iss, now);
    } else {
      var before := events[..|events| - 1];
      var b := Run(Start(key, iss, now), before);
      ReliablePrefix(key, iss, now, before, peer, b, Delivered(b));
      StepDelivers(b, peer, events[|events| - 1]);
    }
    CountDelivered(peer.iss, |got|);
    CountDelivered(peer.iss, |got| + 1);
  }

  lemma {:induction false} CountDelivered(iss: u32, n: nat)
    ensures n < MODULUS ==> WrapSub(SeqOf(iss, n), Wrap(iss + 1)) == n
  {
    hide Wrap, WrapSub, SeqOf;
    SeqDistance(iss, n, 0);
    FirstNumber(iss);
    if n < MODULUS {
      WrapSmall(n);
    }
  }

  // ---- From end to end -----------------------------------------------------------------------------

  /** Delivery over a run from any connection, not only a fresh one. */
  lemma {:induction false} RunDelivers(c: Conn, events: seq<Timed>, peer: Peer)
    requires Short(peer) && ReceiveSide(c.t, Delivered(c), peer)
    requires forall i :: 0 <= i < |events| ==> EventFromPeer(peer, events[i].event)
    ensures ReceiveSide(Run(c, events).t, Delivered(Run(c, events)), peer)
    decreases |events|
  {
    hide Step, ReceiveSide, EventFromPeer, Delivered;
    if events != [] {
      var before := events[..|events| - 1];
      RunDelivers(c, before, peer);
      StepDelivers(Run(c, before), peer, events[|events| - 1]);
    }
  }

  /** A segment arrives as it was emitted, under whatever ports, acknowledgment and window. */
  predicate Copies(h: Header, payload: seq<byte>, m: Emission) {
    h.seqNo == m.segment.seqNo && h.flags == m.segment.flags && payload == m.segment.payload
  }

  /** The emission was made by `send`, or none of the stream had been acknowledged. */
  predicate Faithful(m: Emission, c: Conn) {
    !m.byTimer || |c.t.sendBuffer| == |c.sent|
  }

  lemma {:induction false} EmissionFromPeer(m: Emission, t: TcbView, sent: seq<byte>, h: Header, payload: seq<byte>)
    requires EmissionOk(m, t, sent) && Copies(h, payload, m)
    requires !m.byTimer || |t.sendBuffer| == |sent|
    ensures FromPeer(Peer(t.iss, sent), h, payload)
  {
    hide Has, SeqOf;
    var peer := Peer(t.iss, sent);
    if !Has(h.flags, SYN) {
      if Has(h.flags, FIN) {
        assert SliceAt(peer, h, payload, |sent|);
      } else if payload != [] {
        var p: nat :| CarriesAt(m.segment, t.iss, sent, p);
        assert SliceAt(peer, h, payload, p);
      }
    }
  }

  /**
   * What a connection emits is what its own stream allows a peer to send: every segment of every
   * run that is not a retransmission after an acknowledgment.
   */
  lemma {:induction false} EmissionsFromStream(
    key: ConnKey, iss: u32, now: Time, events: seq<Timed>, c: Conn, i: nat, h: Header, payload: seq<byte>)
    requires c == Run(Start(key, iss, now), events) && i < |c.log|
    requires Copies(h, payload, c.log[i]) && Faithful(c.log[i], c)
    ensures FromPeer(Peer(iss, c.sent), h, payload)
  {
    hide Run, Start, EmissionOk, FromPeer;
    RunKeepsLog(key, iss, now, events);
    RunKeepsIss(key, iss, now, events);
    EmissionFromPeer(c.log[i], c.t, c.sent, h, payload);
  }

  /** The event is no segment, or a copy of a faithful emission of `c`. */
  ghost predicate EmittedBy(c: Conn, event: Event) {
    event.Segment? ==> exists i :: 0 <= i < |c.log| && Copies(event.h, event.payload, c.log[i]) && Faithful(c.log[i], c)
  }

  /** A connection of the program on the other side, Established, before the first byte of the stream. */
  predicate Listening(r: Conn, iss: u32) {
    r.t.state == Established && r.t.irs == iss && r.t.rcvNxt == SeqOf(iss, 0) && Delivered(r) == []
  }

  /**
   * From end to end.  Whatever selection of a connection's emissions reaches the other side, in
   * any order and any number of times, what is read there is a prefix of what was sent here, and
   * all of it once the FIN was taken in CloseWait; retransmissions count while nothing was
   * acknowledged.
   */
  lemma {:induction false} EndToEnd(
    key: ConnKey, iss: u32, now: Time, events: seq<Timed>, c: Conn, r: Conn, arrivals: seq<Timed>)
    requires c == Run(Start(key, iss, now), events) && |c.sent| < MODULUS - 2 && Listening(r, iss)
    requires forall i :: 0 <= i < |arrivals| ==> EmittedBy(c, arrivals[i].event)
    ensures var r1 := Run(r, arrivals);
            Delivered(r1) <= c.sent && (r1.t.state.CloseWait? || r1.t.state.LastAck? ==> Delivered(r1) == c.sent)
  {
    hide Run, Start, FromPeer, SeqOf, Delivered, Copies, Faithful;
    var peer := Peer(iss, c.sent);
    forall j | 0 <= j < |arrivals| ensures EventFromPeer(peer, arrivals[j].event) {
      var event := arrivals[j].event;
      assert EmittedBy(c, event);
      if event.Segment? {
        var i :| 0 <= i < |c.log| && Copies(event.h, event.payload, c.log[i]) && Faithful(c.log[i], c);
        EmissionsFromStream(key, iss, now, events, c, i, event.h, event.payload);
      }
    }
    RunDelivers(r, arrivals, peer);
  }

  /** A segment in order is read. */
  lemma {:induction false} InOrderRead(r: Conn, h: Header, payload: seq<byte>, now: Time)
    requires r.present && r.t.state == Established && h.seqNo == r.t.rcvNxt && h.flags == PSH + ACK
    requires 0 < |payload| < MODULUS
    ensures var r1 := Step(r, Timed(now, Segment(h, payload)));
            && r1.present && r1.t.state == Established && Delivered(r1) == Delivered(r) + payload
            && r1.t.rcvNxt == Wrap(h.seqNo + |payload|)
  {
    hide Step, ProcessEstablished, AfterSending, Tag, Wrap, SegLen, Has;
    var e := Timed(now, Segment(h, payload));
    StepParts(r, e);
    SegLenShort(payload);
    FlagFacts();
    DueTaken(r.t, h, payload);
    var (t1, out) := Effect(r.t, e.event, now);
    AfterSendingFrame(t1, out, now);
    assert r.drained + (r.t.recvBuffer + payload) == Delivered(r) + payload;
  }

  /** The first byte and the wrong retransmission of the run above, as they arrive. */
  function WrongArrivals(now: Time): seq<Timed> {
    [Timed(now, Segment(Header(0, 0, 1, 0, PSH + ACK, 0), [7])),
     Timed(now, Segment(Header(0, 0, 2, 0, PSH + ACK, 0), [9]))]
  }

  /** Both are copies of emissions of that run. */
  lemma {:induction false} WrongArrivalsEmitted(key: ConnKey, now: Time)
    ensures var c, a := Run(Start(key, 0, now), AckedRun(key, now)), WrongArrivals(now);
            && (exists i :: 0 <= i < |c.log| && Copies(a[0].event.h, a[0].event.payload, c.log[i]))
            && (exists i :: 0 <= i < |c.log| && Copies(a[1].event.h, a[1].event.payload, c.log[i]))
  {
    hide Run, Start;
    var c := Run(Start(key, 0, now), AckedRun(key, now));
    FirstByteLogged(key, now);
    RetransmissionWrongAfterAck(key, now);
    SecondByte();
    assert Copies(WrongArrivals(now)[1].event.h, WrongArrivals(now)[1].event.payload, c.log[|c.log| - 1]);
  }

  /** The condition is needed: fed with that retransmission the other side reads what was never sent. */
  lemma {:induction false} WrongRetransmissionRead(r: Conn, now: Time)
    requires Listening(r, 0) && r.present
    ensures Delivered(Run(r, WrongArrivals(now))) == [7, 9] && !([7, 9] <= [7, 8, 9])
  {
    hide Run, Step, Delivered;
    var a := WrongArrivals(now);
    assert a == [] + [a[0]] + [a[1]];
    RunNothing(r);
    RunExtend(r, [], a[0]);
    RunExtend(r, [] + [a[0]], a[1]);
    InOrderRead(r, a[0].event.h, [7], now);
    InOrderRead(Step(r, a[0]), a[1].event.h, [9], now);
    assert [] + [7] + [9] == [7, 9];
    assert [7, 9][1] != [7, 8, 9][1];
  }

  // ---- Acknowledgments -----------------------------------------------------------------------------

  /** Whatever leaves with an ACK flag acknowledges `rcvNxt` as the step leaves it. */
  lemma {:induction false} EmittedAck(t: TcbView, event: Event, now: Time, i: nat)
    requires Live(t.state) && i < |Effect(t, event, now).1| && Has(Effect(t, event, now).1[i].flags, ACK)
    ensures Effect(t, event, now).1[i].ackNo == Effect(t, event, now).0.rcvNxt
  {
    hide Wrap, WrapSub, RetransmitPayload;
  }

  /** How many numbers of the peer are acknowledged in a state: the bytes delivered and the FIN once taken. */
  function AcknowledgedCount(s: State, got: seq<byte>, peer: Peer): nat {
    match s
    case CloseWait | LastAck => |got| + 1
    case Closing | TimeWait => |peer.stream| + 1
    case _ => |got|
  }

  /**
   * Acknowledgments are honest.  In every run fed by one peer, whatever a connection that stays
   * open sends with an ACK flag acknowledges exactly the bytes delivered to the application, and
   * the FIN once it was taken; only after a FIN in FinWait1 or FinWait2 may it cover dropped bytes.
   */
  lemma {:induction false} AcknowledgesExactly(
    key: ConnKey, iss: u32, now: Time, events: seq<Timed>, peer: Peer, c: Conn, e: Timed, d: Conn, i: nat)
    requires c == Run(Start(key, iss, now), events) && c.present && d == Step(c, e) && d.t.state != Closed
    requires Short(peer) && EventFromPeer(peer, e.event)
    requires forall j :: 0 <= j < |events| ==> EventFromPeer(peer, events[j].event)
    requires |c.log| <= i < |d.log| && Has(d.log[i].segment.flags, ACK)
    ensures d.t.state != SynSent
    ensures d.log[i].segment.ackNo == SeqOf(peer.iss, AcknowledgedCount(d.t.state, Delivered(d), peer))
  {
    hide Run, Start, Effect, SeqOf, Has;
    ReliablePrefix(key, iss, now, events, peer, c, Delivered(c));
    LifecycleIsAcyclic(key, iss, now, events);
    StepDelivers(c, peer, e);
    EmittedAck(c.t, e.event, e.now, i - |c.log|);
    SynSentEmits(c.t, e.event, e.now, i - |c.log|);
  }

  lemma {:induction false} SynSentEmits(t: TcbView, event: Event, now: Time, i: nat)
    requires Live(t.state) && i < |Effect(t, event, now).1| && Has(Effect(t, event, now).1[i].flags, ACK)
    ensures Effect(t, event, now).0.state != SynSent
  {
    hide Wrap, WrapSub, RetransmitPayload;
  }

  /**
   * When the peer's FIN is taken in FinWait1 or FinWait2 its payload is dropped.  The stream is
   * complete afterwards exactly when the FIN itself, not its payload, was the next number due.
   */
  lemma {:induction false} StreamCompleteExactly(
    t: TcbView, got: seq<byte>, peer: Peer, h: Header, payload: seq<byte>, now: Time)
    requires Short(peer) && FromPeer(peer, h, payload) && ReceiveSide(t, got, peer)
    requires t.state.FinWait1? || t.state.FinWait2?
    requires var s := Process(t, h, payload, now).0.state; s.TimeWait? || s.Closing?
    ensures Process(t, h, payload, now).0.recvBuffer == t.recvBuffer
    ensures got == peer.stream <==> t.rcvNxt == Wrap(h.seqNo + |payload|)
  {
    hide SeqOf, Wrap, WrapSub;
    var off: nat :| SliceAt(peer, h, payload, off);
    SeqAdvance(peer.iss, off, |payload|);
    if t.rcvNxt == Wrap(h.seqNo + |payload|) {
      SeqOfInjective(peer.iss, |got|, |peer.stream|);
    }
  }

  /** Both sides close: our FIN is acknowledged, then the peer's whole stream, one byte, comes with its FIN. */
  function ClosingRun(key: ConnKey, data: byte, now: Time): seq<Timed> {
    [Timed(now, SynAck(key)), Timed(now, Close), Timed(now, AckUpTo(key, 2)),
     Timed(now, Segment(Header(key.remotePort, key.localPort, 1, 2, FIN + ACK, 0), [data]))]
  }

  lemma {:induction false} ClosingRunFromPeer(key: ConnKey, data: byte, now: Time)
    ensures forall i :: 0 <= i < 4 ==> EventFromPeer(Peer(0, [data]), ClosingRun(key, data, now)[i].event)
  {
    var last := ClosingRun(key, data, now)[3].event;
    assert SliceAt(Peer(0, [data]), last.h, last.payload, 0);
  }

  lemma {:induction false} OurFinAcknowledged(key: ConnKey, data: byte, now: Time)
    ensures var c := Run(Start(key, 0, now), ClosingRun(key, data, now)[..3]);
            c.present && c.t.state == FinWait2 && c.t.rcvNxt == 1 && c.t.recvBuffer == [] && c.drained == []
  {
    hide Run, Step, Start, SynAck;
    var start, all := Start(key, 0, now), ClosingRun(key, data, now);
    Handshake(key, now);
    assert all[..1] == [Timed(now, SynAck(key))];
    assert all[..2] == all[..1] + [all[1]] && all[..3] == all[..2] + [all[2]];
    RunExtend(start, all[..1], all[1]);
    RunExtend(start, all[..2], all[2]);
    ClosedOnce(Run(start, all[..1]), Some(now + SECOND), now);
    FinAcknowledged(Run(start, all[..2]), key, now);
  }

  /** Waiting in FinWait1 for the acknowledgment of a FIN with number 1. */
  predicate FinSent(c: Conn) {
    && c.present && c.t.state == FinWait1 && c.t.sndNxt == 2 && c.t.rcvNxt == 1 && c.t.recvBuffer == []
    && c.drained == []
  }

  lemma {:induction false} ClosedOnce(c: Conn, at: Option<Time>, now: Time)
    requires Stands(c, [], 1, 1, [], at)
    ensures FinSent(Step(c, Timed(now, Close)))
  {
    hide Step, AfterSending, Tag, Wrap;
    StepParts(c, Timed(now, Close));
    WrapSmall(2);
    var (t1, out) := Effect(c.t, Close, now);
    AfterSendingFrame(t1, out, now);
  }

  lemma {:induction false} FinAcknowledged(c: Conn, key: ConnKey, now: Time)
    requires FinSent(c)
    ensures var d := Step(c, Timed(now, AckUpTo(key, 2)));
            d.present && d.t.state == FinWait2 && d.t.rcvNxt == 1 && d.t.recvBuffer == [] && d.drained == []
  {
    hide Step, AfterSending, Tag, Wrap, SegLen;
    var e := Timed(now, AckUpTo(key, 2));
    StepParts(c, e);
    SegLenShort([]);
    var (t1, out) := Effect(c.t, e.event, now);
    AfterSendingFrame(t1, out, now);
  }

  /**
   * The loss is real: a final segment carrying the whole stream, taken in FinWait2, is
   * acknowledged with its FIN, and the application never reads a byte of it.
   */
  lemma {:induction false} FinPayloadLost(key: ConnKey, data: byte, now: Time)
    ensures forall i :: 0 <= i < 4 ==> EventFromPeer(Peer(0, [data]), ClosingRun(key, data, now)[i].event)
    ensures var c := Run(Start(key, 0, now), ClosingRun(key, data, now));
            && c.present && c.t.state == TimeWait && Delivered(c) == [] && c.log != []
            && var last := c.log[|c.log| - 1].segment;
               Has(last.flags, ACK) && last.ackNo == SeqOf(0, |[data]| + 1)
  {
    ClosingRunFromPeer(key, data, now);
    hide Run, Step, Start, EventFromPeer, AfterSending, SeqOf;
    var start, all := Start(key, 0, now), ClosingRun(key, data, now);
    OurFinAcknowledged(key, data, now);
    assert all == all[..3] + [all[3]];
    RunExtend(start, all[..3], all[3]);
    var c := Run(start, all[..3]);
    StepParts(c, all[3]);
    FinWithData(c.t, all[3].event.h, data, now);
    var (t1, out) := Effect(c.t, all[3].event, now);
    AfterSendingFrame(t1, out, now);
    assert c.drained + [] == [];
  }

  lemma {:induction false} FinWithData(t: TcbView, h: Header, data: byte, now: Time)
    requires t.state == FinWait2 && t.rcvNxt == 1 && h.flags == FIN + ACK && h.seqNo == 1
    ensures var (t1, out) := Process(t, h, [data], now);
            && t1.state == TimeWait && t1.recvBuffer == t.recvBuffer
            && |out| == 1 && Has(out[0].flags, ACK) && out[0].ackNo == SeqOf(0, 2)
  {
    SegLenShort([data]);
  }
}
