/**
 * One TCP connection as a value: the transmission control block and the effect of a segment,
 * an API call or a clock poll on it.  The classes of `TcpTable` are proved against these
 * functions and `TcpRuns` proves what every run of them keeps.
 */
module TcpSpec {
  import opened Wire

  const FIN: byte := 0x01
  const SYN: byte := 0x02
  const RST: byte := 0x04
  const PSH: byte := 0x08
  const ACK: byte := 0x10

  const DEFAULT_WINDOW: u16 := 65535
  const INITIAL_RTO: nat := SECOND
  const MAX_RTO: nat := 60 * SECOND
  const MAX_RETRANSMITS: nat := 5
  const TIME_WAIT_HOLD: nat := 60 * SECOND

  type Ip = s: seq<byte> | |s| == 4 witness [0, 0, 0, 0]

  datatype ConnKey = ConnKey(localIp: Ip, localPort: u16, remoteIp: Ip, remotePort: u16)

  datatype State =
    | Closed | Listen | SynSent | SynReceived | Established | FinWait1 | FinWait2
    | CloseWait | Closing | LastAck | TimeWait

  datatype Header = Header(srcPort: u16, dstPort: u16, seqNo: u32, ackNo: u32, flags: byte, window: u16)

  datatype OutSegment = OutSegment(flags: byte, seqNo: u32, ackNo: u32, payload: seq<byte>, dstPort: u16)

  datatype TcbView = TcbView(
    key: ConnKey,
    state: State,
    iss: u32, sndUna: u32, sndNxt: u32, sndWnd: u16,
    irs: u32, rcvNxt: u32,
    rto: nat, retransmitAt: Option<Time>, retransmitCount: nat,
    sendBuffer: seq<byte>, recvBuffer: seq<byte>)

  /** Bit test on the flag byte; `bit` is one of the five constants above. */
  predicate Has(flags: byte, bit: byte)
    requires bit > 0
  {
    (flags / bit) % 2 == 1
  }

  function Bit(b: bool): nat {
    if b then 1 else 0
  }

  /** `payload.len() as u32` */
  function SegLen(payload: seq<byte>): u32 {
    Wrap(|payload|)
  }

  lemma {:induction false} SegLenShort(payload: seq<byte>)
    requires |payload| < MODULUS
    ensures SegLen(payload) == |payload|
  {
  }

  /** The block `initiate_connect` inserts for a fresh connection. */
  function Fresh(key: ConnKey, iss: u32, now: Time): TcbView {
    TcbView(key, SynSent, iss, iss, Wrap(iss + 1), 0, 0, 0,
            INITIAL_RTO, Some(now + INITIAL_RTO), 0, [], [])
  }

  function SynOf(t: TcbView): OutSegment {
    OutSegment(SYN, t.iss, 0, [], t.key.remotePort)
  }

  function AckOf(t: TcbView): OutSegment {
    OutSegment(ACK, t.sndNxt, t.rcvNxt, [], t.key.remotePort)
  }

  function FinOf(t: TcbView): OutSegment {
    OutSegment(FIN + ACK, t.sndNxt, t.rcvNxt, [], t.key.remotePort)
  }

  // ---- incoming segments -------------------------------------------------------------

  /**
   * The acknowledgment test of Established.  On unsigned words "at most zero" is "zero", so
   * only an acknowledgment of everything sent passes it.
   */
  function AcceptAck(t: TcbView, ackNo: u32): TcbView {
    if WrapSub(ackNo, t.sndUna) > 0 && WrapSub(ackNo, t.sndNxt) <= 0 then
      var trim := Min(WrapSub(ackNo, t.sndUna), |t.sendBuffer|);
      var t1 := t.(sendBuffer := t.sendBuffer[trim..], sndUna := ackNo);
      if t1.sndUna == t1.sndNxt then t1.(retransmitAt := None, retransmitCount := 0) else t1
    else t
  }

  /** Append the payload of a segment that starts exactly at `rcvNxt`. */
  function AcceptData(t: TcbView, h: Header, payload: seq<byte>): TcbView {
    if SegLen(payload) > 0 && h.seqNo == t.rcvNxt
    then t.(recvBuffer := t.recvBuffer + payload, rcvNxt := Wrap(t.rcvNxt + SegLen(payload)))
    else t
  }

  function EnterTimeWait(t: TcbView, now: Time): TcbView {
    t.(state := TimeWait, retransmitAt := Some(now + TIME_WAIT_HOLD))
  }

  function ProcessSynReceived(t: TcbView, h: Header, now: Time): (TcbView, seq<OutSegment>) {
    if Has(h.flags, ACK) && h.ackNo == t.sndNxt then
      (t.(state := Established, rcvNxt := Wrap(h.seqNo + 1), sndUna := h.ackNo,
          retransmitAt := None, retransmitCount := 0), [])
    else if t.retransmitAt.Some? && now >= t.retransmitAt.value then
      (t, [OutSegment(SYN + ACK, t.iss, t.rcvNxt, [], t.key.remotePort)])
    else (t, [])
  }

  function ProcessEstablished(t: TcbView, h: Header, payload: seq<byte>): (TcbView, seq<OutSegment>) {
    var syn, fin := Bit(Has(h.flags, SYN)), Bit(Has(h.flags, FIN));
    var t1 := if Has(h.flags, ACK) then AcceptAck(t, h.ackNo) else t;
    if (SegLen(payload) > 0 || syn != 0 || fin != 0) && h.seqNo == t1.rcvNxt then
      var t2 := if SegLen(payload) > 0 then t1.(recvBuffer := t1.recvBuffer + payload) else t1;
      var t3 := t2.(rcvNxt := Wrap(h.seqNo + SegLen(payload) + syn + fin));
      (if fin != 0 then t3.(state := CloseWait) else t3, [AckOf(t3)])
    else (t1, [])
  }

  function ProcessCloseWait(t: TcbView, h: Header, payload: seq<byte>): (TcbView, seq<OutSegment>) {
    if SegLen(payload) > 0 && h.seqNo == t.rcvNxt then
      var t1 := AcceptData(t, h, payload);
      (t1, [AckOf(t1)])
    else (t, [])
  }

  function ProcessLastAck(t: TcbView, h: Header): (TcbView, seq<OutSegment>) {
    (if Has(h.flags, ACK) then t.(state := Closed, retransmitAt := None) else t, [])
  }

  function ProcessFinWait1(t: TcbView, h: Header, payload: seq<byte>, now: Time): (TcbView, seq<OutSegment>) {
    if Has(h.flags, ACK) then
      if h.ackNo == t.sndNxt then
        var t1 := t.(sndUna := h.ackNo, retransmitAt := None, retransmitCount := 0);
        if Has(h.flags, FIN) then
          var t2 := EnterTimeWait(t1.(rcvNxt := Wrap(h.seqNo + SegLen(payload) + 1)), now);
          (t2, [AckOf(t2)])
        else (AcceptData(t1.(state := FinWait2), h, payload), [])
      else (AcceptData(t, h, payload), [])
    else if Has(h.flags, FIN) then
      var t1 := t.(rcvNxt := Wrap(h.seqNo + SegLen(payload) + 1), state := Closing);
      (t1, [AckOf(t1)])
    else (AcceptData(t, h, payload), [])
  }

  function ProcessFinWait2(t: TcbView, h: Header, payload: seq<byte>, now: Time): (TcbView, seq<OutSegment>) {
    if Has(h.flags, FIN) && h.seqNo == t.rcvNxt then
      var t1 := EnterTimeWait(t.(rcvNxt := Wrap(h.seqNo + SegLen(payload) + 1)), now);
      (t1, [AckOf(t1)])
    else (AcceptData(t, h, payload), [])
  }

  function ProcessSynSent(t: TcbView, h: Header): (TcbView, seq<OutSegment>) {
    if Has(h.flags, SYN) && Has(h.flags, ACK) then
      if h.ackNo == t.sndNxt then
        var t1 := t.(irs := h.seqNo, rcvNxt := Wrap(h.seqNo + 1), sndUna := h.ackNo,
                     sndWnd := h.window, state := Established,
                     retransmitAt := None, retransmitCount := 0);
        (t1, [AckOf(t1)])
      else (t, [])
    else if Has(h.flags, RST) then (t.(state := Closed), [])
    else (t, [])
  }

  function ProcessClosing(t: TcbView, h: Header, now: Time): (TcbView, seq<OutSegment>) {
    if Has(h.flags, ACK) && h.ackNo == t.sndNxt
    then (EnterTimeWait(t, now).(retransmitCount := 0), [])
    else (t, [])
  }

  /** `process_existing_tcb` */
  function Process(t: TcbView, h: Header, payload: seq<byte>, now: Time): (TcbView, seq<OutSegment>) {
    match t.state
    case SynReceived => ProcessSynReceived(t, h, now)
    case Established => ProcessEstablished(t, h, payload)
    case CloseWait => ProcessCloseWait(t, h, payload)
    case LastAck => ProcessLastAck(t, h)
    case FinWait1 => ProcessFinWait1(t, h, payload, now)
    case FinWait2 => ProcessFinWait2(t, h, payload, now)
    case SynSent => ProcessSynSent(t, h)
    case Closing => ProcessClosing(t, h, now)
    case _ => (t, [])
  }

  // ---- application calls -------------------------------------------------------------

  /** `socket::send` on an existing connection. */
  function AppSend(t: TcbView, data: seq<byte>): (TcbView, seq<OutSegment>) {
    if t.state != Established then (t, [])
    else
      (t.(sndNxt := Wrap(t.sndNxt + SegLen(data)), sendBuffer := t.sendBuffer + data),
       [OutSegment(PSH + ACK, t.sndNxt, t.rcvNxt, data, t.key.remotePort)])
  }

  /** `TcpManager::close` on an existing connection. */
  function AppClose(t: TcbView, now: Time): (TcbView, seq<OutSegment>) {
    match t.state
    case Established =>
      (t.(state := FinWait1, sndNxt := Wrap(t.sndNxt + 1), retransmitAt := Some(now + t.rto)), [FinOf(t)])
    case CloseWait =>
      (t.(state := LastAck, sndNxt := Wrap(t.sndNxt + 1), retransmitAt := Some(now + t.rto)), [FinOf(t)])
    case Closed | TimeWait | Listen => (t, [])
    case _ => (t.(state := Closed), [OutSegment(RST, t.sndNxt, 0, [], t.key.remotePort)])
  }

  /** `drain_data` leaves an empty receive buffer behind. */
  function Drained(t: TcbView): TcbView {
    t.(recvBuffer := [])
  }

  // ---- timer -------------------------------------------------------------------------

  /** `record_sent` */
  function RecordSent(t: TcbView, now: Time): TcbView {
    if t.retransmitAt.None? then t.(retransmitAt := Some(now + t.rto)) else t
  }

  /** The send path of the stack arms the timer once for every segment it emits. */
  function AfterSending(t: TcbView, segments: seq<OutSegment>, now: Time): TcbView {
    if segments == [] then t else RecordSent(t, now)
  }

  /** The data a retransmission takes from the buffer, indexed from the start of the stream. */
  function RetransmitPayload(t: TcbView): seq<byte> {
    var offset := WrapSub(t.sndUna, Wrap(t.iss + 1));
    if offset < |t.sendBuffer| then t.sendBuffer[offset..] else []
  }

  /** `build_retransmit` */
  function BuildRetransmit(t: TcbView): OutSegment {
    match t.state
    case SynSent => SynOf(t)
    case SynReceived => OutSegment(SYN + ACK, t.iss, t.rcvNxt, [], t.key.remotePort)
    case Established | CloseWait =>
      var payload := RetransmitPayload(t);
      OutSegment(if payload == [] then ACK else PSH + ACK, t.sndUna, t.rcvNxt, payload, t.key.remotePort)
    case FinWait1 | LastAck | Closing =>
      OutSegment(FIN + ACK, WrapSub(t.sndNxt, 1), t.rcvNxt, [], t.key.remotePort)
    case _ => OutSegment(ACK, t.sndUna, t.rcvNxt, [], t.key.remotePort)
  }

  /** A poll finds the timer armed and its deadline passed. */
  predicate Crosses(t: TcbView, now: Time) {
    t.retransmitAt.Some? && now >= t.retransmitAt.value
  }

  /** The body of the first loop of `poll_retransmit` for one connection. */
  function OnTimer(t: TcbView, now: Time): (TcbView, seq<OutSegment>) {
    if !Crosses(t, now) then (t, [])
    else if t.retransmitCount >= MAX_RETRANSMITS then (t.(state := Closed), [])
    else
      var t1 := t.(retransmitAt := Some(now + t.rto), rto := Min(t.rto * 2, MAX_RTO),
                   retransmitCount := t.retransmitCount + 1);
      (t1, [BuildRetransmit(t1)])
  }

  /** The predicate `poll_retransmit` passes to `retain`. */
  predicate Retained(t: TcbView, now: Time) {
    t.state != Closed && !(t.state == TimeWait && Crosses(t, now))
  }
}
