/**
 * The connection table as the program holds it: control blocks updated in place inside a map.
 * Every method is proved against the functions of `TcpSpec`.
 */
module TcpTable {
  import opened Wire
  import Spec = TcpSpec
  import opened TcpSpec

  class Tcb {
    const key: ConnKey
    var state: State
    var iss: u32
    var sndUna: u32
    var sndNxt: u32
    var sndWnd: u16
    var irs: u32
    var rcvNxt: u32
    var rto: nat
    var retransmitAt: Option<Time>
    var retransmitCount: nat
    var sendBuffer: seq<byte>
    var recvBuffer: seq<byte>

    ghost function View(): TcbView
      reads this
    {
      TcbView(key, state, iss, sndUna, sndNxt, sndWnd, irs, rcvNxt, rto, retransmitAt, retransmitCount,
              sendBuffer, recvBuffer)
    }

    /** `Tcb::new_server` followed by the assignments of `initiate_connect`. */
    constructor Connecting(key: ConnKey, iss: u32, now: Time)
      ensures this.key == key && View() == Fresh(key, iss, now)
    {
      this.key := key;
      state := SynSent;
      this.iss := iss;
      sndUna := iss;
      sndNxt := Wrap(iss + 1);
      sndWnd := 0;
      irs, rcvNxt := 0, 0;
      retransmitAt := Some(now + INITIAL_RTO);
      rto := INITIAL_RTO;
      retransmitCount := 0;
      sendBuffer, recvBuffer := [], [];
    }

    method Acknowledge() returns (segment: OutSegment)
      ensures segment == AckOf(View())
    {
      segment := OutSegment(ACK, sndNxt, rcvNxt, [], key.remotePort);
    }

    method AcceptAck(ackNo: u32)
      modifies this
      ensures View() == Spec.AcceptAck(old(View()), ackNo)
    {
      hide Wrap, WrapSub;
      if WrapSub(ackNo, sndUna) > 0 && WrapSub(ackNo, sndNxt) <= 0 {
        var acked := WrapSub(ackNo, sndUna);
        var trim := Min(acked, |sendBuffer|);
        if trim > 0 {
          sendBuffer := sendBuffer[trim..];
        }
        sndUna := ackNo;
        if sndUna == sndNxt {
          retransmitAt := None;
          retransmitCount := 0;
        }
      }
    }

    method AcceptData(h: Header, payload: seq<byte>)
      modifies this
      ensures View() == Spec.AcceptData(old(View()), h, payload)
    {
      hide Wrap, SegLen;
      if SegLen(payload) > 0 && h.seqNo == rcvNxt {
        recvBuffer := recvBuffer + payload;
        rcvNxt := Wrap(rcvNxt + SegLen(payload));
      }
    }

    /** An acknowledgment of everything: nothing is outstanding and the timer is off. */
    method Settle(ackNo: u32)
      modifies this
      ensures View() == old(View()).(sndUna := ackNo, retransmitAt := None, retransmitCount := 0)
    {
      sndUna := ackNo;
      retransmitAt := None;
      retransmitCount := 0;
    }

    method EnterTimeWait(now: Time)
      modifies this
      ensures View() == Spec.EnterTimeWait(old(View()), now)
    {
      state := TimeWait;
      retransmitAt := Some(now + TIME_WAIT_HOLD);
    }

    method ProcessSynReceived(h: Header, now: Time) returns (out: seq<OutSegment>)
      modifies this
      ensures (View(), out) == Spec.ProcessSynReceived(old(View()), h, now)
    {
      hide Wrap, Has;
      if Has(h.flags, ACK) {
        if h.ackNo == sndNxt {
          state := Established;
          rcvNxt := Wrap(h.seqNo + 1);
          Settle(h.ackNo);
          return [];
        }
      }
      if retransmitAt.Some? && now >= retransmitAt.value {
        return [OutSegment(SYN + ACK, iss, rcvNxt, [], key.remotePort)];
      }
      return [];
    }

    method ProcessEstablished(h: Header, payload: seq<byte>) returns (out: seq<OutSegment>)
      modifies this
      ensures (View(), out) == Spec.ProcessEstablished(old(View()), h, payload)
    {
      hide Wrap, SegLen, Has, Spec.AcceptAck;
      var synFlag, finFlag := Bit(Has(h.flags, SYN)), Bit(Has(h.flags, FIN));
      out := [];
      if Has(h.flags, ACK) {
        AcceptAck(h.ackNo);
      }
      if SegLen(payload) > 0 || synFlag != 0 || finFlag != 0 {
        if h.seqNo == rcvNxt {
          if SegLen(payload) > 0 {
            recvBuffer := recvBuffer + payload;
          }
          rcvNxt := Wrap(h.seqNo + SegLen(payload) + synFlag + finFlag);
          var ack := Acknowledge();
          out := [ack];
          if finFlag != 0 {
            state := CloseWait;
          }
        }
      }
    }

    method ProcessFinWait1(h: Header, payload: seq<byte>, now: Time) returns (out: seq<OutSegment>)
      requires state == FinWait1
      modifies this
      ensures (View(), out) == Spec.ProcessFinWait1(old(View()), h, payload, now)
    {
      hide Wrap, SegLen, Has, Spec.AcceptData;
      if Has(h.flags, ACK) {
        if h.ackNo == sndNxt {
          Settle(h.ackNo);
          if Has(h.flags, FIN) {
            rcvNxt := Wrap(h.seqNo + SegLen(payload) + 1);
            EnterTimeWait(now);
            var ack := Acknowledge();
            return [ack];
          }
          state := FinWait2;
        }
      } else if Has(h.flags, FIN) {
        rcvNxt := Wrap(h.seqNo + SegLen(payload) + 1);
        state := Closing;
        var ack := Acknowledge();
        return [ack];
      }
      AcceptData(h, payload);
      return [];
    }

    method ProcessFinWait2(h: Header, payload: seq<byte>, now: Time) returns (out: seq<OutSegment>)
      modifies this
      ensures (View(), out) == Spec.ProcessFinWait2(old(View()), h, payload, now)
    {
      hide Wrap, SegLen, Has, Spec.AcceptData;
      if Has(h.flags, FIN) && h.seqNo == rcvNxt {
        rcvNxt := Wrap(h.seqNo + SegLen(payload) + 1);
        EnterTimeWait(now);
        var ack := Acknowledge();
        return [ack];
      }
      AcceptData(h, payload);
      return [];
    }

    method ProcessSynSent(h: Header) returns (out: seq<OutSegment>)
      modifies this
      ensures (View(), out) == Spec.ProcessSynSent(old(View()), h)
    {
      hide Wrap, Has;
      if Has(h.flags, SYN) && Has(h.flags, ACK) {
        if h.ackNo == sndNxt {
          irs := h.seqNo;
          rcvNxt := Wrap(h.seqNo + 1);
          sndWnd := h.window;
          state := Established;
          Settle(h.ackNo);
          var ack := Acknowledge();
          return [ack];
        }
      } else if Has(h.flags, RST) {
        state := Closed;
      }
      return [];
    }

    /** `process_existing_tcb` */
    method Process(h: Header, payload: seq<byte>, now: Time) returns (out: seq<OutSegment>)
      modifies this
      ensures (View(), out) == Spec.Process(old(View()), h, payload, now)
    {
      hide Spec.ProcessSynReceived, Spec.ProcessEstablished, Spec.ProcessFinWait1, Spec.ProcessFinWait2,
           Spec.ProcessSynSent, Spec.AcceptData, SegLen, Has;
      match state {
        case SynReceived => out := ProcessSynReceived(h, now);
        case Established => out := ProcessEstablished(h, payload);
        case CloseWait =>
          if SegLen(payload) > 0 && h.seqNo == rcvNxt {
            AcceptData(h, payload);
            var ack := Acknowledge();
            return [ack];
          }
          out := [];
        case LastAck =>
          if Has(h.flags, ACK) {
            state := Closed;
            retransmitAt := None;
          }
          out := [];
        case FinWait1 => out := ProcessFinWait1(h, payload, now);
        case FinWait2 => out := ProcessFinWait2(h, payload, now);
        case SynSent => out := ProcessSynSent(h);
        case Closing =>
          if Has(h.flags, ACK) && h.ackNo == sndNxt {
            EnterTimeWait(now);
            retransmitCount := 0;
          }
          out := [];
        case _ => out := [];
      }
    }

    /** `socket::send` once the connection has been found. */
    method Send(data: seq<byte>) returns (out: seq<OutSegment>)
      modifies this
      ensures (View(), out) == AppSend(old(View()), data)
    {
      hide Wrap, SegLen;
      if state != Established {
        return [];
      }
      var first := sndNxt;
      sndNxt := Wrap(sndNxt + SegLen(data));
      sendBuffer := sendBuffer + data;
      return [OutSegment(PSH + ACK, first, rcvNxt, data, key.remotePort)];
    }

    method Close(now: Time) returns (out: seq<OutSegment>)
      modifies this
      ensures (View(), out) == AppClose(old(View()), now)
    {
      hide Wrap;
      match state {
        case Established | CloseWait =>
          state := if state == Established then FinWait1 else LastAck;
          out := [OutSegment(FIN + ACK, sndNxt, rcvNxt, [], key.remotePort)];
          sndNxt := Wrap(sndNxt + 1);
          retransmitAt := Some(now + rto);
        case Closed | TimeWait | Listen => out := [];
        case _ =>
          state := Closed;
          out := [OutSegment(RST, sndNxt, 0, [], key.remotePort)];
      }
    }

    method RecordSent(now: Time)
      modifies this
      ensures View() == Spec.RecordSent(old(View()), now)
    {
      if retransmitAt.None? {
        retransmitAt := Some(now + rto);
      }
    }

    method BuildRetransmit() returns (segment: OutSegment)
      ensures segment == Spec.BuildRetransmit(View())
    {
      hide Wrap, WrapSub;
      match state {
        case SynSent => segment := OutSegment(SYN, iss, 0, [], key.remotePort);
        case SynReceived => segment := OutSegment(SYN + ACK, iss, rcvNxt, [], key.remotePort);
        case Established | CloseWait =>
          var offset := WrapSub(sndUna, Wrap(iss + 1));
          var payload := if offset < |sendBuffer| then sendBuffer[offset..] else [];
          segment := OutSegment(if payload == [] then ACK else PSH + ACK, sndUna, rcvNxt, payload, key.remotePort);
        case FinWait1 | LastAck | Closing =>
          segment := OutSegment(FIN + ACK, WrapSub(sndNxt, 1), rcvNxt, [], key.remotePort);
        case _ => segment := OutSegment(ACK, sndUna, rcvNxt, [], key.remotePort);
      }
    }

    /** The timer part of `poll_retransmit` for this block. */
    method OnTimer(now: Time) returns (out: seq<OutSegment>)
      modifies this
      ensures (View(), out) == Spec.OnTimer(old(View()), now)
    {
      hide Spec.BuildRetransmit;
      out := [];
      if retransmitAt.Some? && now >= retransmitAt.value {
        if retransmitCount >= MAX_RETRANSMITS {
          state := Closed;
          return [];
        }
        retransmitAt := Some(now + rto);
        rto := Min(rto * 2, MAX_RTO);
        retransmitCount := retransmitCount + 1;
        var segment := BuildRetransmit();
        out := [segment];
      }
    }

    /** The closure passed to `retain`. */
    method Stays(now: Time) returns (stays: bool)
      ensures stays == Retained(View(), now)
    {
      if state == Closed {
        return false;
      }
      if state == TimeWait {
        if retransmitAt.Some? {
          if now >= retransmitAt.value {
            return false;
          }
        }
      }
      return true;
    }
  }

  type Table = map<ConnKey, TcbView>

  /** The reply to a segment no connection is waiting for. */
  function ResetReply(h: Header, payload: seq<byte>): seq<OutSegment> {
    if Has(h.flags, RST) then []
    else [OutSegment(RST + ACK, if Has(h.flags, ACK) then h.ackNo else 0,
                     Wrap(h.seqNo + SegLen(payload) + Bit(Has(h.flags, SYN))), [], h.srcPort)]
  }

  /**
   * A segment nobody waits for draws no answer if it is a reset; any other draws one reset to its
   * sender, numbered by its acknowledgment and acknowledging everything it carried but a FIN.
   */
  lemma {:induction false} ResetReplyExactly(h: Header, payload: seq<byte>)
    ensures Has(h.flags, RST) ==> ResetReply(h, payload) == []
    ensures !Has(h.flags, RST) ==>
              && |ResetReply(h, payload)| == 1
              && var m := ResetReply(h, payload)[0];
                 && m.flags == RST + ACK && m.payload == [] && m.dstPort == h.srcPort
                 && m.seqNo == (if Has(h.flags, ACK) then h.ackNo else 0)
                 && WrapSub(m.ackNo, h.seqNo) == Wrap(|payload| + Bit(Has(h.flags, SYN)))
  {
    hide Wrap, WrapSub, Has;
    var n := |payload| + Bit(Has(h.flags, SYN));
    WrapSum(|payload|, h.seqNo + Bit(Has(h.flags, SYN)));
    WrapDifference(h.seqNo + n, h.seqNo);
    WrapSmall(h.seqNo);
  }

  predicate PortUsed(keys: set<ConnKey>, port: u16) {
    exists k :: k in keys && k.localPort == port
  }

  /** The lowest unused port of the range; 40000 when all are used. */
  predicate NextPort(keys: set<ConnKey>, port: u16) {
    && 40000 <= port < 60000
    && (forall p :: 40000 <= p < port ==> PortUsed(keys, p))
    && (PortUsed(keys, port) ==> port == 40000 && forall p :: 40000 <= p < 60000 ==> PortUsed(keys, p))
  }

  /** The next port is in use only when every port of the range is. */
  lemma {:induction false} AllPortsUsed(keys: set<ConnKey>, k: ConnKey)
    requires NextPort(keys, k.localPort) && k in keys
    ensures forall p :: 40000 <= p < 60000 ==> PortUsed(keys, p)
  {
    assert PortUsed(keys, k.localPort);
  }

  /** The segments of a poll that belong to one connection, in order. */
  function SegmentsFor(list: seq<(ConnKey, OutSegment)>, key: ConnKey): seq<OutSegment> {
    if list == [] then []
    else SegmentsFor(list[..|list| - 1], key)
         + if list[|list| - 1].0 == key then [list[|list| - 1].1] else []
  }

  /** The timer loop half way: `todo` still holds its old blocks, the rest has been through `OnTimer`. */
  ghost predicate TimersRun(before: Table, t: Table, list: seq<(ConnKey, OutSegment)>, todo: set<ConnKey>, now: Time) {
    && t == (map k | k in before :: if k in todo then before[k] else Spec.OnTimer(before[k], now).0)
    && forall k :: SegmentsFor(list, k)
                   == if k in before && k !in todo then Spec.OnTimer(before[k], now).1 else []
  }

  lemma {:induction false} StartTimers(before: Table, now: Time)
    ensures TimersRun(before, before, [], before.Keys, now)
  {
    hide Spec.OnTimer;
  }

  lemma {:induction false} FinishTimers(before: Table, t: Table, list: seq<(ConnKey, OutSegment)>, now: Time)
    requires TimersRun(before, t, list, {}, now)
    ensures t == map k | k in before :: Spec.OnTimer(before[k], now).0
    ensures forall k :: SegmentsFor(list, k) == if k in before then Spec.OnTimer(before[k], now).1 else []
  {
    hide Spec.OnTimer, SegmentsFor;
  }

  lemma {:induction false} TimersStep(before: Table, t: Table, list: seq<(ConnKey, OutSegment)>, todo: set<ConnKey>,
                                      now: Time, k: ConnKey)
    requires TimersRun(before, t, list, todo, now) && k in todo && k in before
    ensures t[k] == before[k]
    ensures var (t1, out) := Spec.OnTimer(before[k], now);
            TimersRun(before, t[k := t1], if out == [] then list else list + [(k, out[0])], todo - {k}, now)
  {
    hide Spec.OnTimer, SegmentsFor;
    var (t1, out) := Spec.OnTimer(before[k], now);
    AtMostOne(before[k], now);
    if out != [] {
      SegmentsForExtend(list, k, out[0]);
      assert out == [out[0]];
    }
  }

  lemma {:induction false} SegmentsForExtend(list: seq<(ConnKey, OutSegment)>, k: ConnKey, segment: OutSegment)
    ensures forall j :: SegmentsFor(list + [(k, segment)], j)
                        == SegmentsFor(list, j) + if j == k then [segment] else []
  {
    var longer := list + [(k, segment)];
    assert longer[..|longer| - 1] == list;
  }

  lemma {:induction false} FreshSyn(k: ConnKey, iss: u32, now: Time)
    ensures SynOf(Fresh(k, iss, now)) == OutSegment(SYN, iss, 0, [], k.remotePort)
  {
    hide Wrap;
  }

  class TcpManager {
    var connections: map<ConnKey, Tcb>

    /** Every block sits under its own key, so no two keys share a block. */
    ghost predicate Valid()
      reads this
    {
      forall k :: k in connections ==> connections[k].key == k
    }

    ghost function Table(): Table
      reads this, connections.Values
    {
      map k | k in connections :: connections[k].View()
    }

    lemma {:induction false} TableKeys()
      ensures Table().Keys == connections.Keys
    {
    }

    constructor ()
      ensures Valid() && Table() == map[] && fresh(connections.Values)
    {
      connections := map[];
    }

    method Process(localIp: Ip, remoteIp: Ip, h: Header, payload: seq<byte>, now: Time)
      returns (found: Option<ConnKey>, out: seq<OutSegment>)
      requires Valid()
      modifies connections.Values
      ensures Valid() && connections == old(connections)
      ensures var k := ConnKey(localIp, h.dstPort, remoteIp, h.srcPort);
              if k in old(Table()) then
                && found == Some(k)
                && out == Spec.Process(old(Table())[k], h, payload, now).1
                && Table() == old(Table())[k := Spec.Process(old(Table())[k], h, payload, now).0]
              else found == None && out == ResetReply(h, payload) && Table() == old(Table())
    {
      hide Spec.Process;
      var k := ConnKey(localIp, h.dstPort, remoteIp, h.srcPort);
      if k in connections {
        found := Some(k);
        out := connections[k].Process(h, payload, now);
      } else {
        found := None;
        out := ResetReply(h, payload);
      }
    }

    method RecordSent(k: ConnKey, now: Time)
      requires Valid()
      modifies connections.Values
      ensures Valid() && connections == old(connections)
      ensures Table() == if k in old(Table()) then old(Table())[k := Spec.RecordSent(old(Table())[k], now)]
                         else old(Table())
    {
      hide Spec.RecordSent;
      if k in connections {
        connections[k].RecordSent(now);
      }
    }

    method DrainData(k: ConnKey) returns (data: seq<byte>)
      requires Valid()
      modifies connections.Values
      ensures Valid() && connections == old(connections)
      ensures if k in old(Table())
              then data == old(Table())[k].recvBuffer && Table() == old(Table())[k := Drained(old(Table())[k])]
              else data == [] && Table() == old(Table())
    {
      if k in connections {
        data := connections[k].recvBuffer;
        connections[k].recvBuffer := [];
      } else {
        data := [];
      }
    }

    method Send(k: ConnKey, data: seq<byte>) returns (out: seq<OutSegment>)
      requires Valid()
      modifies connections.Values
      ensures Valid() && connections == old(connections)
      ensures if k in old(Table())
              then
                && out == AppSend(old(Table())[k], data).1
                && Table() == old(Table())[k := AppSend(old(Table())[k], data).0]
              else out == [] && Table() == old(Table())
    {
      hide AppSend;
      if k in connections {
        out := connections[k].Send(data);
      } else {
        out := [];
      }
    }

    method Close(k: ConnKey, now: Time) returns (out: seq<OutSegment>)
      requires Valid()
      modifies connections.Values
      ensures Valid() && connections == old(connections)
      ensures if k in old(Table())
              then
                && out == AppClose(old(Table())[k], now).1
                && Table() == old(Table())[k := AppClose(old(Table())[k], now).0]
              else out == [] && Table() == old(Table())
    {
      hide AppClose;
      if k in connections {
        out := connections[k].Close(now);
      } else {
        out := [];
      }
    }

    /** The lowest ephemeral port nobody uses; 40000 when all of them are taken. */
    method NextEphemeral() returns (port: u16)
      ensures NextPort(connections.Keys, port)
    {
      port := 40000;
      while port < 60000
        invariant 40000 <= port <= 60000
        invariant forall p :: 40000 <= p < port ==> PortUsed(connections.Keys, p)
      {
        if !PortUsed(connections.Keys, port) {
          return;
        }
        port := port + 1;
      }
      port := 40000;
    }

    /** The initial number `iss` stands for the clock reading the program takes. */
    method InitiateConnect(localIp: Ip, remoteIp: Ip, remotePort: u16, iss: u32, now: Time)
      returns (k: ConnKey, out: seq<OutSegment>)
      requires Valid()
      modifies this
      ensures Valid() && k in connections && connections.Values <= old(connections.Values) + {connections[k]}
      ensures k == ConnKey(localIp, k.localPort, remoteIp, remotePort) && NextPort(old(connections).Keys, k.localPort)
      ensures if k in old(Table()) && (old(Table())[k].state.Established? || old(Table())[k].state.SynSent?)
              then out == [] && Table() == old(Table()) && connections == old(connections)
              else
                && Table() == old(Table())[k := Fresh(k, iss, now)] && out == [SynOf(Fresh(k, iss, now))]
                && fresh(connections[k])
      ensures k in old(Table()) ==> forall p :: 40000 <= p < 60000 ==> PortUsed(old(connections).Keys, p)
    {
      hide NextPort, PortUsed, Wrap, Fresh, SynOf;
      var port := NextEphemeral();
      k := ConnKey(localIp, port, remoteIp, remotePort);
      if k in connections {
        AllPortsUsed(connections.Keys, k);
        if connections[k].state == Established || connections[k].state == SynSent {
          return k, [];
        }
      }
      Insert(k, iss, now);
      FreshSyn(k, iss, now);
      out := [OutSegment(SYN, iss, 0, [], remotePort)];
    }

    /** A fresh block under a key. */
    method Insert(k: ConnKey, iss: u32, now: Time)
      requires Valid()
      modifies this
      ensures Valid() && k in connections && fresh(connections[k])
      ensures connections.Values <= old(connections.Values) + {connections[k]}
      ensures Table() == old(Table())[k := Fresh(k, iss, now)]
    {
      hide Fresh, Wrap;
      var tcb := new Tcb.Connecting(k, iss, now);
      connections := connections[k := tcb];
    }

    method FireTimer(k: ConnKey, now: Time) returns (out: seq<OutSegment>)
      requires Valid() && k in connections
      modifies connections.Values
      ensures Valid() && connections == old(connections)
      ensures out == Spec.OnTimer(old(Table())[k], now).1
      ensures Table() == old(Table())[k := Spec.OnTimer(old(Table())[k], now).0]
    {
      hide Spec.OnTimer;
      out := connections[k].OnTimer(now);
    }

    /** The first loop of `poll_retransmit`. */
    method RunTimers(now: Time) returns (retransmits: seq<(ConnKey, OutSegment)>)
      requires Valid()
      modifies connections.Values
      ensures Valid() && connections == old(connections)
      ensures Table() == map k | k in old(Table()) :: Spec.OnTimer(old(Table())[k], now).0
      ensures forall k :: SegmentsFor(retransmits, k)
                          == if k in old(Table()) then Spec.OnTimer(old(Table())[k], now).1 else []
    {
      hide Spec.OnTimer, Tcb.View, SegmentsFor, TimersRun;
      ghost var before := Table();
      retransmits := [];
      var todo := connections.Keys;
      StartTimers(before, now);
      while todo != {}
        invariant Valid() && todo <= connections.Keys && before.Keys == connections.Keys
        invariant TimersRun(before, Table(), retransmits, todo, now)
        decreases |todo|
      {
        var k :| k in todo;
        ghost var t := Table();
        var out := FireTimer(k, now);
        TimersStep(before, t, retransmits, todo, now, k);
        if out != [] {
          retransmits := retransmits + [(k, out[0])];
        }
        todo := todo - {k};
      }
      FinishTimers(before, Table(), retransmits, now);
    }

    /** The `retain` pass of `poll_retransmit`. */
    method Expire(now: Time)
      requires Valid()
      modifies this
      ensures Valid() && connections.Keys <= old(connections).Keys
      ensures forall k :: k in connections ==> connections[k] == old(connections)[k]
      ensures Table() == map k | k in old(Table()) && Retained(old(Table())[k], now) :: old(Table())[k]
    {
      hide Retained, Tcb.View;
      var keep := Survivors(now);
      connections := map k | k in keep :: connections[k];
    }

    /** The keys `retain` keeps. */
    method Survivors(now: Time) returns (keep: set<ConnKey>)
      ensures forall k :: k in keep <==> k in connections && Retained(connections[k].View(), now)
    {
      hide Retained, Tcb.View;
      keep := connections.Keys;
      var todo := connections.Keys;
      while todo != {}
        invariant todo <= keep <= connections.Keys
        invariant forall k :: k in connections ==>
                    (k in keep <==> k in todo || Retained(connections[k].View(), now))
        decreases |todo|
      {
        var k :| k in todo;
        var stays := connections[k].Stays(now);
        if !stays {
          keep := keep - {k};
        }
        todo := todo - {k};
      }
    }

    method PollRetransmit(now: Time) returns (retransmits: seq<(ConnKey, OutSegment)>)
      requires Valid()
      modifies this, connections.Values
      ensures Valid() && connections.Keys <= old(connections).Keys
      ensures forall k :: k in connections ==> connections[k] == old(connections)[k]
      ensures Table() == map k | k in old(Table()) && Retained(Spec.OnTimer(old(Table())[k], now).0, now)
                           :: Spec.OnTimer(old(Table())[k], now).0
      ensures forall k :: SegmentsFor(retransmits, k)
                          == if k in old(Table()) then Spec.OnTimer(old(Table())[k], now).1 else []
    {
      hide Spec.OnTimer, Retained, Tcb.View, SegmentsFor;
      retransmits := RunTimers(now);
      Expire(now);
    }
  }

  lemma {:induction false} AtMostOne(t: TcbView, now: Time)
    ensures |Spec.OnTimer(t, now).1| <= 1
  {
  }
}
