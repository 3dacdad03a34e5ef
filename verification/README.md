# Verified models of the network programs

This project models and proves the protocol logic of three programs of the repository: the
userspace TCP stack (`TCP-stack`), the recursive DNS resolver (`toolkit/dnsresolver`) and the
rate limiter and chunked-body codec of the web server (`minicaddy`). `dafny verify dfyconfig.toml`
checks everything.

| file | what it holds |
|---|---|
| `Wire.dfy`, `Text.dfy` | words, wrap-around, big-endian fields; UTF-8 text, case folding, splitting at dots |
| `TcpSpec.dfy` | one control block as a value: the effect of a segment, a call, a poll |
| `TcpRuns.dfy` | whole runs of a connection with logs of bytes sent, bytes drained and segments emitted |
| `TcpTimers.dfy`, `TcpDelivery.dfy` | the timer over whole runs; what the application reads over whole runs |
| `TcpDuties.dfy` | what every step must do, field by field |
| `TcpTable.dfy` | the classes `Tcb` and `TcpManager`, updated in place, proved against `TcpSpec` |
| `Checksum.dfy`, `Packets.dfy`, `Layouts.dfy` | the Internet checksum; Ethernet, IPv4, ICMP echo and TCP segments; headers as other hosts write them |
| `Arp.dfy`, `Link.dfy`, `Stack.dfy` | the class `ArpCache`; cache, queue and frames as one value; the class `TcpStack` that puts everything together |
| `DnsName.dfy`, `DnsMessage.dfy`, `DnsMeaning.dfy`, `DnsRoundTrip.dfy` | names with compression pointers; messages; what the bytes of a message say; round trips |
| `DnsCache.dfy`, `ResolverSpec.dfy`, `Resolver.dfy` | the class `Cache` against a log of puts; what a resolution does, turn by turn; the class `Resolver` against any network |
| `Chunked.dfy`, `Framing.dfy`, `TokenBucket.dfy` | chunked transfer coding over a fragmented stream, as this program and as others write it; the token bucket |

A run of a connection starts with the block `initiate_connect` inserts and takes any sequence of
segments, calls and polls. `TcpStack` carries, beside every block of its table, a connection value
that its invariant says some run reaches, so every theorem about runs holds of every connection of
a running stack after every completed call. What a connection logs as emitted is what its packets
carry: `TcpStack` keeps a log of the packets handed over, every call says that it grows by exactly
the packets of the segments its step logs, and what becomes of these packets: written to the
cached address, or queued behind a request. `Poll` composes this over requests that are due,
retransmissions and all frames read.

## Where the code does not do what one would expect

The model follows the code. Each of these has a lemma.

- Only an acknowledgment of everything sent counts (`OnlyFullAckCounts`): the comparison is on
  unsigned words.
- After the first acknowledged data a retransmission carries the wrong bytes
  (`RetransmissionWrongAfterAck`), because the buffer was drained and is still indexed from the
  start of the stream; data unacknowledged at close is never sent again, because only the FIN is.
  `RetransmissionRightExactly` says exactly when it is right, `EndToEnd` what reaches the other side
  while it is, and `WrongRetransmissionRead` what is read there when it is not.
- A FIN taken in FinWait1 or FinWait2 drops its payload (`FinPayloadLost`).
  `StreamCompleteExactly` says exactly when the stream is complete nevertheless.
- Data that arrives in FinWait1 or FinWait2 is read but not acknowledged (`SegmentDuty`).
- Acknowledging received data arms the timer although nothing is outstanding, and nothing the peer
  sends later disarms it while nothing is sent (`ReceivedDataArmsIdleConnection`,
  `SegmentLeavesTimer`), so a connection that only receives is removed at its sixth crossing even
  while data keeps arriving (`ReceiverIsRemoved`), and so is every connection in CloseWait that the
  application does not close, acknowledged or not (`WaitingConnectionLeaves`).
- The TimeWait expiry test never fires (`TimeWaitExpiryIsDead`); TimeWait leaves through the
  retransmission limit whatever arrives (`WaitingConnectionLeaves`), and the comment that
  announces expiry is not what happens.
- FinWait2 has no timer, so a connection whose peer never closes stays for ever
  (`FinWait2WaitsForEver`).
- A packet can overtake others that wait for the same address, once that address was learned in
  passing (`LaterPacketOvertakes`); none is lost or doubled (`EveryPacket`).
- A decoded name with an empty label (a dot byte inside a wire label) does not survive
  re-encoding (`EmptyLabelLost`); `DecompressionPreservesMeaning` gives the exact condition.
- Purging the cache is visible in the order of records (`PurgingVisibleInOrder`) and in the
  spelling of their owner names (`PurgingVisibleInSpelling`), not in their RDATA and TTLs
  (`PurgingUnobservable`). `PurgeShowsExactly` says when it shows after one put,
  `RunShowsExactly` over whole runs.
- The chunked reader loses what follows the body when a read ends right before or inside the
  terminator's last CR LF (`FollowingRequestLost`); `FramingRoundTrip` gives the exact condition.
- The two largest chunk sizes overflow the sum with two and end in a slice beyond the buffer
  instead of an error (`MissingDataExactly`, `LargestSizePanics`).

## Model

| member | source | states |
|---|---|---|
| TcpRuns.LifecycleIsAcyclic | TCP-stack/src/tcp.rs:280-501 | no run reaches Listen or SynReceived; every state change raises a rank, so the state changes at most five times |
| TcpRuns.AdvanceRaisesRank | TCP-stack/src/tcp.rs:588-643 | every step keeps the state or strictly raises its rank |
| TcpRuns.SendSpaceAccounting | TCP-stack/src/tcp.rs:320-335 | in every reachable state the send buffer is a suffix of everything the application sent, and snd_nxt - snd_una is its length plus one for an outstanding SYN or FIN, modulo 2^32 |
| TcpRuns.RunKeepsSendSide | TCP-stack/src/socket.rs:13-32 | every number of the send side is a function of iss, the bytes sent and the bytes still buffered |
| TcpRuns.OnlyFullAckCounts | TCP-stack/src/tcp.rs:322 | an acknowledgment changes the block exactly when it equals snd_nxt and something is outstanding |
| TcpRuns.TransmissionConsistency | TCP-stack/src/socket.rs:21-31 | every payload byte sent leaves under its own number; so does every retransmitted one while nothing was acknowledged |
| TcpRuns.RetransmissionRightExactly | TCP-stack/src/tcp.rs:733-780 | in every reachable state with something to retransmit it carries the whole unacknowledged stream exactly when nothing is unacknowledged or, in Established and CloseWait, the acknowledged count is 0 modulo 2^32; once a FIN is outstanding only the FIN is sent again |
| TcpRuns.RetransmissionWrongAfterAck | TCP-stack/src/tcp.rs:751-756 | a run from connect: after one acknowledged byte the timer sends the last byte under the number of the one before |
| TcpRuns.ControlNumbersFixed | TCP-stack/src/tcp.rs:733-780 | every SYN carries iss, every FIN and FIN retransmission one number, and no payload leaves after a FIN |
| TcpTimers.NeverStalls | TCP-stack/src/stack.rs:229-283 | after every completed step of every run a live connection with snd_una different from snd_nxt has its timer armed |
| TcpTimers.RunKeepsBackOff | TCP-stack/src/tcp.rs:527-529 | rto is min(2^k, 60) seconds after k lifetime retransmissions and retransmit_count never exceeds 5 |
| TcpTimers.TimeWaitExpiryIsDead | TCP-stack/src/tcp.rs:538-550 | a poll removes a reachable connection exactly when it is Closed; the TimeWait test never fires |
| TcpTimers.QuietConnectionLeaves | TCP-stack/src/tcp.rs:511-536 | an armed connection that hears nothing leaves at exactly its (6 - count)-th crossing poll, in any state, with one retransmission per crossing before that |
| TcpTimers.SilentConnect | TCP-stack/src/tcp.rs:677-699 | an unanswered connect emits its SYN and one SYN retransmission per crossing up to five, leaves at the sixth crossing and not within 32 seconds |
| TcpTimers.ReceivedDataArmsIdleConnection | TCP-stack/src/stack.rs:266-268 | acknowledging data arms the timer of a connection that has nothing outstanding |
| TcpTimers.SegmentLeavesTimer | TCP-stack/src/tcp.rs:320-335 | with nothing outstanding, in CloseWait and in TimeWait no segment changes the timer, the back-off or the retransmission count |
| TcpTimers.ReceiverIsRemoved | TCP-stack/src/tcp.rs:511-536 | an armed connection with nothing outstanding whose application only reads, or one in CloseWait or TimeWait, is removed at exactly its (6 - count)-th crossing poll, whatever segments arrive in between |
| TcpTimers.WaitingConnectionLeaves | TCP-stack/src/tcp.rs:512-550 | every connection that reaches TimeWait leaves through the retransmission limit whatever segments arrive and calls are made; every one in CloseWait does unless it is closed |
| TcpTimers.FinWait2WaitsForEver | TCP-stack/src/tcp.rs:435-456 | a connection in FinWait2 has no timer: it stays until a FIN in order or a close, however many polls pass, and emits nothing |
| TcpTimers.FinWait2Step | TCP-stack/src/tcp.rs:435-456 | FinWait2 is left exactly on a FIN in order or a close |
| TcpDelivery.ReliablePrefix | TCP-stack/src/tcp.rs:312-379 | in every run fed by slices of one stream, lost, duplicated, reordered or re-cut, what is drained and buffered is a prefix of the stream and rcv_nxt counts it; in CloseWait and LastAck it is the whole stream |
| TcpDelivery.SegmentDelivers | TCP-stack/src/tcp.rs:393-481 | what one segment adds to the receive buffer in every state |
| TcpDelivery.EndToEnd | TCP-stack/src/tcp.rs:312-379 | whatever selection of one connection's emissions reaches an Established connection of the program, in any order and number, what is read is a prefix of what was sent, and all of it once the FIN was taken in CloseWait; retransmissions count while nothing was acknowledged |
| TcpDelivery.EmissionsFromStream | TCP-stack/src/socket.rs:21-31 | every emission of every run, retransmissions after an acknowledgment apart, is a segment the stream of bytes sent allows |
| TcpDelivery.WrongArrivalsEmitted | TCP-stack/src/tcp.rs:749-764 | concrete run: its first byte and its wrong retransmission are in its log |
| TcpDelivery.WrongRetransmissionRead | TCP-stack/src/tcp.rs:336-351 | concrete case: fed with these two the other side reads 7, 9 where 7, 8, 9 was sent |
| TcpDelivery.EmittedAck | TCP-stack/src/tcp.rs:280-501 | every segment emitted with ACK carries rcv_nxt as the step leaves it |
| TcpDelivery.AcknowledgesExactly | TCP-stack/src/tcp.rs:336-362 | in every run fed by one peer, whatever an open connection sends with ACK acknowledges exactly the bytes delivered and the FIN once taken; the whole stream in Closing and TimeWait, where bytes may have been dropped |
| TcpDelivery.StreamCompleteExactly | TCP-stack/src/tcp.rs:401-456 | a FIN taken in FinWait1 or FinWait2 leaves the stream complete exactly when the FIN itself was the number due |
| TcpDelivery.FinPayloadLost | TCP-stack/src/tcp.rs:439-450 | a run from connect, fed by one peer: the whole stream arrives with the FIN in FinWait2, is acknowledged and never delivered |
| TcpDuties.SegmentDuty | TCP-stack/src/tcp.rs:274-502 | one step with any segment in any live state, field by field: exactly the payload that is due is read, exactly the segments that call for it are acknowledged, at once and by one segment, and state, numbers, buffers and deadline become what independent tables say |
| TcpDuties.ProcessDuty | TCP-stack/src/tcp.rs:274-502 | the same of the block alone |
| TcpDuties.SynReceivedDuty | TCP-stack/src/tcp.rs:281-311 | what the unreachable SynReceived branch does |
| TcpDuties.InOrderIsRead | TCP-stack/src/tcp.rs:429-454 | in Established, FinWait1 and FinWait2 data in order is read at once and the number due moves on by its length; out of order nothing is |
| TcpDuties.DeliversWhatArrives | TCP-stack/src/tcp.rs:336-454 | over any run of arrivals, reads, sends and polls a connection that stays delivers exactly the data that arrived in order, all of it |
| TcpDuties.WholeStreamDelivered | TCP-stack/src/tcp.rs:336-454 | a stream that arrives piece by piece is delivered whole, before and after our own FIN |
| TcpDuties.SendDuty | TCP-stack/src/socket.rs:13-32 | in Established exactly one segment with exactly the data, under its number; otherwise nothing changes |
| TcpDuties.CloseDuty | TCP-stack/src/tcp.rs:588-643 | exactly one FIN at once with its own timer in Established and CloseWait, exactly one reset in SynSent, FinWait1, FinWait2, Closing and LastAck, nothing in TimeWait and Closed |
| TcpDuties.CloseSendsFin | TCP-stack/src/tcp.rs:598-631 | in every run that FIN carries the number right behind everything sent and goes to the peer |
| TcpDuties.RecvDuty | TCP-stack/src/tcp.rs:575-581 | reading takes everything and sends nothing |
| TcpDuties.PollDuty | TCP-stack/src/tcp.rs:506-553 | before the deadline nothing but dropping a closed connection; at it one segment again after exactly the current back-off, which doubles up to a minute, and the sixth time the end |
| TcpDuties.RetainDuty | TCP-stack/src/tcp.rs:537-550 | exactly closed blocks and those in TimeWait past their deadline are dropped |
| TcpDuties.RetransmitDuty | TCP-stack/src/tcp.rs:733-780 | flags, numbers, port and payload of what is sent again, by state |
| TcpDuties.EmissionsToPeer | TCP-stack/src/tcp.rs:343-349 | everything a connection ever emits goes to its peer's port |
| TcpTable.Tcb.Connecting | TCP-stack/src/tcp.rs:677-684 | the block of a fresh connection |
| TcpTable.Tcb.AcceptAck | TCP-stack/src/tcp.rs:320-335 | the in-place update is the specified one |
| TcpTable.Tcb.AcceptData | TCP-stack/src/tcp.rs:429-432 | in-order payload is appended, anything else ignored |
| TcpTable.Tcb.Settle | TCP-stack/src/tcp.rs:398-400 | everything is acknowledged and the timer off, nothing else changes |
| TcpTable.Tcb.EnterTimeWait | TCP-stack/src/tcp.rs:404-405 | state and deadline of TimeWait, nothing else changes |
| TcpTable.Tcb.ProcessSynReceived | TCP-stack/src/tcp.rs:281-311 | state and reply are the specified ones |
| TcpTable.Tcb.ProcessEstablished | TCP-stack/src/tcp.rs:312-363 | state and reply are the specified ones |
| TcpTable.Tcb.ProcessFinWait1 | TCP-stack/src/tcp.rs:393-434 | state and reply are the specified ones |
| TcpTable.Tcb.ProcessFinWait2 | TCP-stack/src/tcp.rs:435-456 | state and reply are the specified ones |
| TcpTable.Tcb.ProcessSynSent | TCP-stack/src/tcp.rs:457-490 | state and reply are the specified ones |
| TcpTable.Tcb.Process | TCP-stack/src/tcp.rs:274-502 | state and replies are the specified ones in every state |
| TcpTable.Tcb.Send | TCP-stack/src/socket.rs:18-31 | new block and segment are the specified ones; nothing outside Established |
| TcpTable.Tcb.Close | TCP-stack/src/tcp.rs:593-642 | FIN, nothing or RST by state, and the new block |
| TcpTable.Tcb.RecordSent | TCP-stack/src/tcp.rs:566-572 | the timer is armed if it was off |
| TcpTable.Tcb.BuildRetransmit | TCP-stack/src/tcp.rs:733-780 | the segment is the specified one |
| TcpTable.Tcb.OnTimer | TCP-stack/src/tcp.rs:512-534 | re-arm, back off, count and rebuild, or give up |
| TcpTable.Tcb.Stays | TCP-stack/src/tcp.rs:538-550 | what retain keeps |
| TcpTable.TcpManager.Process | TCP-stack/src/tcp.rs:234-271 | exactly the block under the segment's key changes; without one, the reset reply |
| TcpTable.ResetReplyExactly | TCP-stack/src/tcp.rs:252-266 | no answer to a reset; otherwise one reset to the sender, numbered by its acknowledgment and acknowledging what the segment carried but a FIN |
| TcpTable.TcpManager.RecordSent | TCP-stack/src/tcp.rs:566-572 | exactly the named block changes |
| TcpTable.TcpManager.DrainData | TCP-stack/src/tcp.rs:575-581 | returns the receive buffer and leaves it empty, nothing else changes |
| TcpTable.TcpManager.Send | TCP-stack/src/socket.rs:13-32 | exactly the named block changes |
| TcpTable.TcpManager.Close | TCP-stack/src/tcp.rs:588-643 | exactly the named block changes |
| TcpTable.TcpManager.NextEphemeral | TCP-stack/src/tcp.rs:701-708 | the lowest unused port; a used one only when all are used, and then 40000 |
| TcpTable.TcpManager.InitiateConnect | TCP-stack/src/tcp.rs:658-699 | the key has the next port; exactly an Established or SynSent block under it is returned as it is, otherwise a fresh block is inserted; a key is reused only when every port is taken |
| TcpTable.TcpManager.Insert | TCP-stack/src/tcp.rs:677-687 | exactly a fresh block is added under the key |
| TcpTable.TcpManager.RunTimers | TCP-stack/src/tcp.rs:510-535 | every block goes through its timer once, in some order, and the list holds each one's segment |
| TcpTable.TcpManager.Survivors | TCP-stack/src/tcp.rs:537-550 | exactly the keys of the blocks retain keeps |
| TcpTable.TcpManager.Expire | TCP-stack/src/tcp.rs:537-550 | exactly the blocks retain keeps remain |
| TcpTable.TcpManager.PollRetransmit | TCP-stack/src/tcp.rs:506-553 | the whole new table and the segments per connection |
| Checksum.Compute | TCP-stack/src/util.rs:4-24 | up to 65537 words the 32-bit accumulator does not overflow and the loops yield the folded complement of the sum |
| Checksum.FoldCarries | TCP-stack/src/util.rs:18-21 | the second loop yields the fold of the sum |
| Checksum.AccumulatorBoundTight | TCP-stack/src/util.rs:8-11 | one more word overflows |
| Checksum.FoldResidue | TCP-stack/src/util.rs:18-21 | folding keeps the residue modulo 65535 |
| Checksum.ValidatesExactly | TCP-stack/src/util.rs:1-4 | a buffer sums to zero exactly when its word sum is a positive multiple of 65535 |
| Checksum.SelfValidates | TCP-stack/src/util.rs:40-44 | storing the checksum in its zeroed field makes the buffer validate |
| Checksum.WordChangeDetected | TCP-stack/src/util.rs:8-21 | a changed word goes unnoticed exactly when its residue modulo 65535 is the same |
| Checksum.LastByteChangeDetected | TCP-stack/src/util.rs:13-16 | every change of the padded last byte is noticed |
| Checksum.ReorderingUndetected | TCP-stack/src/util.rs:8-11 | the checksum depends only on which words there are |
| Checksum.WorkedExample | TCP-stack/src/util.rs:4-24 | the worked example of RFC 1071, section 3 |
| Wire.NetworkOrder | TCP-stack/src/util.rs:8-11 | the most significant byte comes first |
| Packets.FillIpv4 | TCP-stack/src/ip.rs:66-103 | the patched buffer is the header with its checksum followed by the payload |
| Packets.FillTcpSegment | TCP-stack/src/tcp.rs:88-123 | the patched buffer is the header with the checksum over pseudo-header, header and payload |
| Packets.EchoReply | TCP-stack/src/ip.rs:112-126 | exactly echo requests are answered; the reply keeps code, identifier, sequence and data, and its checksum validates |
| Packets.FrameRoundTrip | TCP-stack/src/ethernet.rs:9-35 | a built frame parses to its addresses, type and payload |
| Packets.Ipv4RoundTrip | TCP-stack/src/ip.rs:28-107 | a built packet passes its checksum and parses to its addresses, protocol and payload |
| Packets.TcpRoundTrip | TCP-stack/src/tcp.rs:41-123 | a built segment parses to its ports, numbers, flags, window and payload |
| Packets.TcpSegmentValidates | TCP-stack/src/tcp.rs:125-139 | a built segment passes verify_tcp_checksum |
| Packets.LayersRoundTrip | TCP-stack/src/stack.rs:239-256 | through Ethernet, IPv4 and TCP both checksums verify and everything comes back |
| Packets.CorruptionDetected | TCP-stack/src/tcp.rs:125-139 | in a verifying segment a changed aligned word is noticed exactly when it differs modulo 65535 |
| Packets.LastByteCorruptionDetected | TCP-stack/src/tcp.rs:125-139 | every change of an odd last byte is noticed |
| Packets.SegmentReorderingUndetected | TCP-stack/src/tcp.rs:125-139 | reordering aligned words is never noticed |
| Layouts.TcpAnyHeader | TCP-stack/src/tcp.rs:41-67 | any header of five to fifteen words with its options parses to its fields and exactly the payload behind the options |
| Layouts.TcpRefused | TCP-stack/src/tcp.rs:42-49 | refused exactly when shorter than twenty bytes, or when the header claims fewer than five words or more than there is |
| Layouts.SegmentLayout | TCP-stack/src/tcp.rs:69-123 | where every field of a built segment stands |
| Layouts.Ipv4AnyHeader | TCP-stack/src/ip.rs:28-63 | any header of five to fifteen words with its options parses to protocol, addresses and exactly what follows, if its checksum is zero or right |
| Layouts.Ipv4Refused | TCP-stack/src/ip.rs:28-43 | refused exactly when too short, with an impossible header length or a wrong checksum |
| Layouts.Ipv4Layout | TCP-stack/src/ip.rs:66-103 | where every field of a built packet stands |
| Layouts.FrameLayout | TCP-stack/src/ethernet.rs:28-35 | where every field of a built frame stands |
| Layouts.FrameAccepted | TCP-stack/src/ethernet.rs:9-23 | every frame of fourteen bytes or more is read, field by field |
| Layouts.PseudoHeaderLayout | TCP-stack/src/tcp.rs:125-139 | what the checksum covers beside the segment |
| Layouts.EchoRequests | TCP-stack/src/ip.rs:112-116 | eight bytes with type 8 in front are an echo request, nothing else is |
| Arp.ArpRoundTrip | TCP-stack/src/arp.rs:32-79 | a built packet parses to its fields |
| Arp.ArpLayout | TCP-stack/src/arp.rs:57-79 | where every field of a built packet stands |
| Arp.ArpAccepted | TCP-stack/src/arp.rs:32-54 | refused exactly when too short |
| Arp.ArpCache.Lookup | TCP-stack/src/arp.rs:144-150 | the address while it has not expired |
| Arp.ArpCache.Insert | TCP-stack/src/arp.rs:152-161 | everything queued for the address is released, in order, as one batch; conservation is kept |
| Arp.ArpCache.Learn | TCP-stack/src/arp.rs:164-175 | the cache learns, the queue is left alone |
| Arp.ArpCache.QueuePacket | TCP-stack/src/arp.rs:178-187 | the packet goes to the end of its queue; conservation is kept |
| Arp.ArpCache.Scan | TCP-stack/src/arp.rs:193-201 | exactly the overdue addresses, split by retry count |
| Arp.ArpCache.Tick | TCP-stack/src/arp.rs:189-211 | exactly the exhausted overdue addresses are dropped, with their packets as one batch; conservation is kept |
| Arp.ArpCache.RecordRequest | TCP-stack/src/arp.rs:213-227 | the request is counted and timed |
| Arp.DropConserves | TCP-stack/src/arp.rs:203-205 | dropping batches keeps: queued is what left plus what waits, in order |
| Arp.ReleaseConserves | TCP-stack/src/arp.rs:152-161 | releasing a batch keeps it |
| Arp.QueueConserves | TCP-stack/src/arp.rs:178-187 | queueing keeps it |
| Stack.ReachableFacts | TCP-stack/src/stack.rs:13-20 | what holds of every connection some run reaches |
| Stack.TcpStack.EveryConnection | TCP-stack/src/stack.rs:80-101 | in every valid stack every block of the table is a reachable state, never stalled, with bounded back-off |
| Stack.TcpStack.EveryEpisode | TCP-stack/src/stack.rs:103-119 | while packets wait for an address, the frames that ask for it since they began to wait are one to three, at least 3 s apart, and as many as the queue counts |
| Stack.TcpStack.EveryPacket | TCP-stack/src/stack.rs:260-283 | per next hop every packet ever handed over is in a frame on the wire, waits or was given up, exactly once; on the wire are those that did not wait and those released, each kind in the order handed over |
| Link.BooksClose | TCP-stack/src/arp.rs:152-211 | handed over is on the wire plus waiting plus given up, as multisets, for every next hop |
| Link.AccountsDirect | TCP-stack/src/stack.rs:270-272 | a packet sent at once keeps the books |
| Link.AccountsReleased | TCP-stack/src/stack.rs:179-184 | a released batch, written frame by frame, keeps the books |
| Link.AccountsDropped | TCP-stack/src/arp.rs:203-205 | batches given up keep the books |
| Link.LaterPacketOvertakes | TCP-stack/src/arp.rs:164-175 | after an address is learned in passing, a later packet leaves while those that wait go on waiting |
| Link.EpisodeStarts | TCP-stack/src/stack.rs:272-281 | the first request of a new queue opens an episode on the wire |
| Link.EpisodeRetries | TCP-stack/src/stack.rs:105-114 | a retry 3 s after the last request keeps the episode as the queue counts it |
| Link.DeliversGrows | TCP-stack/src/stack.rs:260-283 | sending never takes back a frame and never touches the address cache |
| Link.RequestReads | TCP-stack/src/arp.rs:100-107 | what everybody reads in a request: the target, our addresses, broadcast |
| Link.ReplyReads | TCP-stack/src/stack.rs:165-174 | what the asker reads in our answer |
| Link.TickedExactly | TCP-stack/src/arp.rs:189-211 | per address: nothing within 3 s of a request, asked again while fewer than three, given up after three |
| Link.LearnedForAMinute | TCP-stack/src/arp.rs:164-175 | what is learned is used for a minute; zero addresses are never learned |
| Stack.CallEmits | TCP-stack/src/stack.rs:50-66 | the segments a call emits on the table are those the connection beside it logs |
| Stack.PollsListed | TCP-stack/src/stack.rs:121-144 | the segments a poll lists for each connection are those its poll step logs |
| Stack.TcpStack.Resolve | TCP-stack/src/stack.rs:270-282 | the packet leaves for the cached address if that has not expired; otherwise it goes to the end of its queue, where a new queue writes one request; every request on the wire stays accounted for |
| Stack.TcpStack.SendNow | TCP-stack/src/stack.rs:270-272 | the packet is handed over and its frame written; the books stay balanced |
| Stack.TcpStack.Enqueue | TCP-stack/src/stack.rs:273-281 | the packet is handed over and goes to the end of its queue; the first of a queue writes one request; the books stay balanced |
| Stack.TcpStack.SendFrame | TCP-stack/src/stack.rs:260-283 | the packet is handed over and delivered as above; the timer of the connection is armed, nothing else in the table changes |
| Stack.TcpStack.FindSrcPort | TCP-stack/src/tcp.rs:645-650 | the local port of some connection to the same peer, zero exactly when there is none |
| Stack.TcpStack.PacketFor | TCP-stack/src/stack.rs:239-256 | the IPv4 packet of the segment with its ports, numbers, flags and payload |
| Stack.TcpStack.SendSegments | TCP-stack/src/stack.rs:229-258 | exactly the packets of these segments, source port included, are handed over and delivered in order; the table changes exactly by arming the timer of the sending connection |
| Stack.TcpStack.Connect | TCP-stack/src/stack.rs:36-48 | the key has the next port; exactly an Established or SynSent connection under it is left alone and nothing sent, otherwise a fresh connection is added and exactly its SYN handed over and delivered |
| Stack.TcpStack.Send | TCP-stack/src/stack.rs:50-56 | one step of one connection; exactly the segments it logs are handed over and delivered; always reports the offered length |
| Stack.TcpStack.Recv | TCP-stack/src/stack.rs:58-60 | one step of one connection, and the bytes returned are those it logs as drained |
| Stack.TcpStack.Close | TCP-stack/src/stack.rs:62-66 | one step of one connection; exactly the segments it logs are handed over and delivered |
| Stack.TcpStack.HandleTcp | TCP-stack/src/stack.rs:214-223 | one step of the connection the segment belongs to, whose logged segments are handed over and delivered; without one, the reset reply |
| Stack.TcpStack.HandleIpv4 | TCP-stack/src/stack.rs:189-226 | the sender is learned; only a TCP packet with valid checksums touches a connection; handed over and delivered is the answer to the segment, one echo reply to an echo request, or nothing |
| Stack.TcpStack.HandleIcmp | TCP-stack/src/stack.rs:197-209 | an echo request is answered by one echo reply to its sender, anything else by nothing |
| Stack.TcpStack.WriteAll | TCP-stack/src/stack.rs:179-184 | the released packets are written in the order they were queued |
| Stack.TcpStack.Release | TCP-stack/src/stack.rs:179-184 | the address is cached, everything that waits for it is written in order, and the books stay balanced |
| Stack.TcpStack.HandleArp | TCP-stack/src/stack.rs:158-187 | the sender is learned; a reply writes the waiting packets in order and ends the episode; a request for our address is answered; anything else writes nothing and leaves the queue alone |
| Stack.TcpStack.Dispatch | TCP-stack/src/stack.rs:146-156 | by frame kind: the connections after it, the packets handed over for it, and what becomes of cache, queue and written frames |
| Stack.TcpStack.ArpTick | TCP-stack/src/stack.rs:103-119 | exactly the overdue addresses with requests left are asked for, once each, and exactly the exhausted ones are given up |
| Stack.TcpStack.Ask | TCP-stack/src/stack.rs:106-114 | one more request is written, counted and timed |
| Stack.TcpStack.TcpRetransmit | TCP-stack/src/stack.rs:121-144 | every connection takes one poll step, removed ones leave, and exactly the segments these steps log are handed over and delivered |
| Stack.TcpStack.Poll | TCP-stack/src/stack.rs:81-101 | the whole iteration: requests that are due, then the retransmissions of every connection, then every frame read, in order, each on what the one before left; the logs of packets and frames only grow |
| Stack.PollComposed | TCP-stack/src/stack.rs:81-101 | the three parts of an iteration compose, and both logs only grow |
| Stack.FrameArrivesAsSegment | TCP-stack/src/stack.rs:146-223 | a frame built for a segment acts as exactly that segment |
| Stack.PacketReads | TCP-stack/src/stack.rs:239-256 | what the peer reads in a packet of ours: the segment, from our port, with window 65535 |
| Stack.ResetsAreNotAnswered | TCP-stack/src/tcp.rs:250-270 | the packet of a reset reply arrives intact at its peer, and a peer without such a connection does not answer it |
| DnsName.DecodeNameLoop | toolkit/dnsresolver/src/message.rs:75-101 | the loop terminates on every input and computes the specified decoding |
| DnsName.ExactLoopDetection | toolkit/dnsresolver/src/message.rs:75-101 | a name comes back exactly when the unbounded label-and-pointer expansion is finite, in bounds and valid text, and it is that expansion |
| DnsName.NameExactly | toolkit/dnsresolver/src/message.rs:75-101 | decoding finds exactly the name that stands there, with its end |
| DnsName.DecodeComplete | toolkit/dnsresolver/src/message.rs:85-91 | the visited set never refuses a finite expansion |
| DnsName.ExpansionUnique | toolkit/dnsresolver/src/message.rs:81-97 | an expansion is determined by its start, labels and length alike |
| DnsName.SelfPointerRefused | toolkit/dnsresolver/src/message.rs:88 | concrete case: a pointer to itself is refused |
| DnsName.EncodeNameLoop | toolkit/dnsresolver/src/message.rs:64-73 | the loop writes the non-empty pieces of the name and a zero |
| DnsName.NameRoundTrip | toolkit/dnsresolver/src/message.rs:64-101 | a name with labels of 1 to 191 bytes decodes at any offset to its normal form without a pointer being followed |
| DnsName.DecodedNameFits | toolkit/dnsresolver/src/message.rs:93-100 | every decoded name can be encoded again and is in lower case |
| Text.NormalExactly | toolkit/dnsresolver/src/message.rs:66-67 | a name is its own normal form exactly when it is canonical and in lower case |
| Text.Utf8Examples | toolkit/dnsresolver/src/message.rs:94 | which byte strings are text: overlong forms, surrogates and numbers beyond the last character are not |
| DnsMessage.QuestionsLoop | toolkit/dnsresolver/src/message.rs:228 | the loop computes the specified list |
| DnsMessage.RecordsLoop | toolkit/dnsresolver/src/message.rs:230-234 | the loop computes the specified list |
| DnsMessage.DecodeMessageLoop | toolkit/dnsresolver/src/message.rs:224-236 | the loops compute the specified message |
| DnsMeaning.MessageExactly | toolkit/dnsresolver/src/message.rs:224-236 | for every byte string a message comes back exactly when the bytes say it: every field at its place, every name the finite expansion at its offset in the whole message |
| DnsMeaning.RecordExactly | toolkit/dnsresolver/src/message.rs:182-192 | the same for a record at any offset |
| DnsMeaning.DataExactly | toolkit/dnsresolver/src/message.rs:194-220 | the same for the seven forms of RDATA |
| DnsMeaning.SoaExactly | toolkit/dnsresolver/src/message.rs:206-217 | the same for the names and numbers of an SOA |
| DnsMeaning.QuestionExactly | toolkit/dnsresolver/src/message.rs:130-134 | the same for a question |
| DnsMeaning.HeaderExactly | toolkit/dnsresolver/src/message.rs:116-126 | the same for the header |
| DnsMessage.EncodeMessageLoop | toolkit/dnsresolver/src/message.rs:238-245 | the loops compute the specified bytes |
| DnsRoundTrip.QuestionRoundTrip | toolkit/dnsresolver/src/message.rs:130-141 | a question decodes, anywhere, to its normal form |
| DnsRoundTrip.RDataRoundTrip | toolkit/dnsresolver/src/message.rs:156-220 | each of the seven RDATA forms decodes, anywhere, to its normal form |
| DnsRoundTrip.RRRoundTrip | toolkit/dnsresolver/src/message.rs:145-192 | a record decodes, anywhere, to its normal form |
| DnsRoundTrip.MessageRoundTrip | toolkit/dnsresolver/src/message.rs:182-245 | a message with right counts, fitting names, matching types and RDATA under 65536 bytes is encoded without pointers and decodes to its normal form |
| DnsRoundTrip.ExactRoundTrip | toolkit/dnsresolver/src/message.rs:224-245 | such a message comes back unchanged exactly when its names are canonical and in lower case |
| DnsRoundTrip.DecompressionPreservesMeaning | toolkit/dnsresolver/src/message.rs:182-245 | re-encoding any decoded message yields one without a single compression pointer that decodes, and to the same message exactly when every name is canonical |
| DnsRoundTrip.EmptyLabelLost | toolkit/dnsresolver/src/message.rs:64-73 | concrete message: a label that is a dot byte comes back as the root |
| DnsCache.Cache.ReadClock | toolkit/dnsresolver/src/cache.rs:34 | readings never go back |
| DnsCache.Cache.Get | toolkit/dnsresolver/src/cache.rs:30-44 | in terms of the log of puts alone: one record per RDATA whose most recent put under the folded key expires strictly later, with that put's TTL; none otherwise; exactly the vector under the key is purged |
| DnsCache.Cache.PutRecord | toolkit/dnsresolver/src/cache.rs:46-62 | the log grows by this put and the map still refines it; exactly the vector under the key is refreshed or extended |
| DnsCache.Cache.PutAll | toolkit/dnsresolver/src/cache.rs:64-68 | the log grows by the puts in order |
| DnsCache.Cache.PutNxdomain | toolkit/dnsresolver/src/cache.rs:70-74 | the negative log grows by this entry |
| DnsCache.Cache.IsNxdomain | toolkit/dnsresolver/src/cache.rs:76-85 | true exactly while the most recent negative entry has not expired |
| DnsCache.PutRefines | toolkit/dnsresolver/src/cache.rs:46-62 | a put keeps the refinement for every key |
| DnsCache.PurgeRefines | toolkit/dnsresolver/src/cache.rs:33-39 | purging keeps the refinement for every key |
| DnsCache.PurgedAnswers | toolkit/dnsresolver/src/cache.rs:35-40 | what is left after purging is what the log demands |
| DnsCache.LivesExactly | toolkit/dnsresolver/src/cache.rs:46-48 | a record lives for exactly its TTL in seconds from its put, under its name in any case |
| DnsCache.PurgingUnobservable | toolkit/dnsresolver/src/cache.rs:30-44 | two answers the same log allows agree in RDATA, TTLs, folded keys and number |
| DnsCache.PutShowsExactly | toolkit/dnsresolver/src/cache.rs:46-62 | two vectors that answer alike still do after a put exactly when the put is dead or goes to the same place under the same spelling in both |
| DnsCache.PurgeShowsExactly | toolkit/dnsresolver/src/cache.rs:33-61 | a purge shows after a put exactly when the put brings back an entry expired at the purge that was followed by a live one or spelled otherwise |
| DnsCache.RunShowsExactly | toolkit/dnsresolver/src/cache.rs:30-62 | over a whole run of puts and lookups two vectors keep answering alike, order and spelling included, exactly when every live put goes to the same place in both |
| DnsCache.PurgedRunShowsExactly | toolkit/dnsresolver/src/cache.rs:30-62 | the same for a vector with and without a purge at the start |
| DnsCache.PurgingVisibleInOrder | toolkit/dnsresolver/src/cache.rs:51-61 | concrete run from an empty cache: a lookup in between changes the order of a later answer |
| DnsCache.PurgingVisibleInSpelling | toolkit/dnsresolver/src/cache.rs:53-59 | concrete run from an empty cache: a lookup in between changes the spelling of an owner name in a later answer |
| Resolver.Resolver.QueryBestServer | toolkit/dnsresolver/src/resolve.rs:135-171 | servers are asked in turn, one query each, until the first replies; exactly the records of that reply are cached, in order, and its sections are returned, without answers on NXDOMAIN; without a reply nothing changes |
| Resolver.Resolver.CacheReply | toolkit/dnsresolver/src/resolve.rs:147-154 | all three sections are put, in order |
| ResolverSpec.ReplyRecorded | toolkit/dnsresolver/src/resolve.rs:147-154 | caching a reply adds only received records, and afterwards each of its answers is in the log |
| Resolver.Resolver.ExtractReferral | toolkit/dnsresolver/src/resolve.rs:209-269 | none exactly when no NS record is there; name after name the servers are its glue alone, else the addresses the cache holds for it, else while depth remains those its resolution finds; stops within the rounds of its nested resolutions |
| Resolver.Resolver.ServersOf | toolkit/dnsresolver/src/resolve.rs:236-266 | one name: its glue alone, else the addresses the cache holds for it, else while depth remains those its resolution finds |
| Resolver.Resolver.OneTurn | toolkit/dnsresolver/src/resolve.rs:61-129 | one pass of the loop: the turn that the cache or the first reply calls for |
| Resolver.Resolver.ReadAnswers | toolkit/dnsresolver/src/resolve.rs:81-103 | a reply with answers: all records of the asked type, else the first CNAME while sixteen are not exceeded, else nothing |
| Resolver.Resolver.ReadAuthorities | toolkit/dnsresolver/src/resolve.rs:105-129 | a reply without answers: a new referral with servers, a dead end, a denial noted, or nothing useful |
| Resolver.Resolver.Nameservers | toolkit/dnsresolver/src/resolve.rs:271-289 | the servers of the first zone string with cached servers; none exactly when no zone string has any |
| Resolver.Resolver.NsIps | toolkit/dnsresolver/src/cache.rs:87-106 | the cached addresses of the servers in the cached NS records of a zone, in order |
| Resolver.Resolver.NsAddresses | toolkit/dnsresolver/src/cache.rs:93-103 | the cached addresses of one server |
| Resolver.Resolver.ResolveIterative | toolkit/dnsresolver/src/resolve.rs:48-133 | against any network it stops within R(depth) rounds, and the turns it took decide the outcome: each turn is fixed by what the cache says, else by what the first reply means; a success is at most 16 CNAMEs, linked if replies are honest, then only records of the asked type, all put into the cache; the cache gains only records of replies, and negative entries only from replies with an SOA, a denial one under the name asked for even after a CNAME |
| Resolver.Resolver.Resolve | toolkit/dnsresolver/src/resolve.rs:16-46 | a live cached answer or a live negative entry is the result and costs no round, no query and no entry; otherwise the verdict of the turns taken, with errors as empty answers |
| ResolverSpec.BoundValues | toolkit/dnsresolver/src/resolve.rs:12-14 | R(3) = 30 and R(0) as a cubic polynomial in n |
| ResolverSpec.FailsExactly | toolkit/dnsresolver/src/resolve.rs:48-133 | a resolution fails exactly without servers, in silence, at the seventeenth CNAME, at an empty or repeated referral, at a useless reply or after thirty turns |
| ResolverSpec.AnswerIsReturned | toolkit/dnsresolver/src/resolve.rs:81-85 | when the deciding reply holds a record of the asked type, the outcome is the chain and all such records |
| ResolverSpec.MatchingExactly | toolkit/dnsresolver/src/resolve.rs:302-307 | all records of the asked type and no others, each as often as it stands there, in order |
| ResolverSpec.NsNamesExactly | toolkit/dnsresolver/src/resolve.rs:216-222 | every NS record gives its name at its place, no other record anything |
| ResolverSpec.AddressesExactly | toolkit/dnsresolver/src/resolve.rs:244-248 | every A record gives its address at its place, no other record anything |
| ResolverSpec.FirstCname | toolkit/dnsresolver/src/resolve.rs:291-293 | the first CNAME |
| ResolverSpec.GlueExactly | toolkit/dnsresolver/src/resolve.rs:228-241 | the first address given for the name; none exactly without one |
| ResolverSpec.SoaMinimumExactly | toolkit/dnsresolver/src/resolve.rs:313-320 | the minimum of the first SOA, a minute without one |
| ResolverSpec.SoaByNumber | toolkit/dnsresolver/src/resolve.rs:309-311 | an SOA is told by the type number alone |
| ResolverSpec.NxdomainHasNoAnswers | toolkit/dnsresolver/src/resolve.rs:147-158 | response code 3 empties the answers and nothing else |
| ResolverSpec.JoinExactly | toolkit/dnsresolver/src/resolve.rs:111-112 | joining puts one separator between two lists |
| ResolverSpec.ZoneString | toolkit/dnsresolver/src/resolve.rs:272-280 | the zone strings the program builds are all suffixes of the name with two dots behind them, and the root |
| ResolverSpec.CachedRecorded | toolkit/dnsresolver/src/resolve.rs:62-65 | every record the cache returns was put under that key with that data and TTL |
| ResolverSpec.HitExactly | toolkit/dnsresolver/src/resolve.rs:24-29 | the cache answers exactly when some record under the key is alive |
| ResolverSpec.OneNegative | toolkit/dnsresolver/src/resolve.rs:120-126 | the entry written on an SOA is one allowed for the asked name |
| ResolverSpec.NestedNegatives | toolkit/dnsresolver/src/resolve.rs:255-264 | what resolving a server's name leaves in the negative cache is allowed for the outer name |
| TokenBucket.Bucket.TryConsume | minicaddy/src/rate_limiter.rs:20-33 | a request is refused exactly when admitting it would break the bound for some window ending now |
| TokenBucket.Bucket.EveryWindow | minicaddy/src/rate_limiter.rs:20-33 | in every run every time window admits at most burst + rate times its length |
| TokenBucket.RefusalExact | minicaddy/src/rate_limiter.rs:24-32 | less than one token means some window is exhausted, and conversely |
| TokenBucket.StepLeast | minicaddy/src/rate_limiter.rs:24-29 | the tokens are the least slack over all windows ending now |
| TokenBucket.WindowBound | minicaddy/src/rate_limiter.rs:4-9 | the bound for windows of arbitrary times |
| Chunked.SizeRoundTrip | minicaddy/src/http_proto.rs:177-180 | the reader understands every size the writer writes |
| Framing.SizeLine | minicaddy/src/http_proto.rs:175-180 | blanks around the digits and an extension behind them change nothing; too large a number is refused |
| Framing.SizeWithExtension | minicaddy/src/http_proto.rs:175-180 | every size is read with any extension, in lower and in upper case |
| Framing.EitherCase | minicaddy/src/http_proto.rs:178 | the value of digits does not depend on their case |
| Framing.OtherSpaces | minicaddy/src/http_proto.rs:177 | the characters beside blanks that are trimmed |
| Framing.PlusSign | minicaddy/src/http_proto.rs:178 | a plus sign in front of the digits is allowed |
| Framing.NoSize | minicaddy/src/http_proto.rs:175-180 | nothing, or something that is no digit, is no size |
| Framing.BadLine | minicaddy/src/http_proto.rs:168-180 | a line that is no size is an error, and so is a stream that ends before its line |
| Chunked.ReadChunkedBody | minicaddy/src/http_proto.rs:163-210 | the loops over the stream compute the specified outcome, the sum of size and two taken in a word |
| Chunked.MissingDataExactly | minicaddy/src/http_proto.rs:199-208 | a size the stream does not hold is reported as truncated, except for the two sizes whose sum with two does not fit a word |
| Chunked.LargestSizePanics | minicaddy/src/http_proto.rs:199-208 | concrete case: the size line of sixteen digits f and one byte after it |
| Chunked.FinishLoop | minicaddy/src/http_proto.rs:183-197 | the end of the body as specified |
| Framing.FramingRoundTrip | minicaddy/src/http_proto.rs:163-210 | for every list of non-empty chunks, every following string and every fragmentation the body is the concatenation; what follows survives exactly when no read ends right before or inside the last CR LF, or nothing follows |
| Framing.AnyFraming | minicaddy/src/http_proto.rs:163-210 | the same for size lines of any form |
| Framing.TrailerFraming | minicaddy/src/http_proto.rs:187-197 | with a trailer section body and what follows survive under every fragmentation |
| Chunked.FollowingRequestLost | minicaddy/src/http_proto.rs:187-196 | concrete case: the following byte is swallowed |

## Left out

- Clock and randomness: readings of the clock and the initial sequence number are arbitrary
  inputs; the clock never goes back. Time is counted in nanoseconds and does not overflow.
- The device, argument parsing and printing of `TCP-stack`: frames written are a log, frames read
  an argument of `Poll`; write and read errors are not modelled.
- Checksum.Compute: beyond 65537 words a checked build panics and an unchecked build wraps; the
  method models the wrap and promises nothing about it.
- Packets.FillTcpSegment: promises nothing for payloads whose checksum input is longer than 65537 words.
- Segment length arithmetic: `payload.len() as u32` plus flags is taken modulo 2^32; a checked
  build would panic for payloads no frame can carry.
- Iteration order of hash maps: loops pick keys in any order, so only per-key results are promised.
- TcpDelivery.ReliablePrefix: assumes the stream shorter than 2^32 - 2 bytes, without which
  sequence numbers do not name positions.
- Locks: cache calls and bucket calls are atomic steps; in the program `put` reads the clock
  before it takes the lock.
- Sockets, timeouts and query identifiers of the resolver: the network is an arbitrary function
  from the running number of a query to a reply or none.
- Resolver.Resolver.Nameservers and Resolver.Resolver.NsIps: modelled with the zone strings the
  program builds, which end in two dots, but no closest-zone result is claimed for them.
- Root hints: the resolver starts from an arbitrary valid cache.
- `encode_name_compressed`, display code, `get_ns_ips` ordering: unused or without consequence here.
- TokenBucket.Bucket.TryConsume: exact real arithmetic instead of floating point.
- Chunked.ReadChunkedBody: models the build whose sum `size + 2` wraps; a checked build panics at
  the sum. Read errors other than the end of the stream are not modelled.
- Bodies with a content length, request parsing, file serving, reverse proxy, compression,
  authentication and access logs of `minicaddy`: easy or resting on foreign libraries.
- `my-proxy`, `toolkit/ping`, `toolkit/traceroute`: socket plumbing around easy codecs.
