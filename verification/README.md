# A verified model of the Cubesat Space Protocol library

Dafny models of the parts of libcsp (and of the Reed-Solomon field arithmetic next to it) whose correctness does not
show in any single function, with proofs of what they are for. `dafny verify dfyconfig.toml` checks everything.

- **RDP** (`rdp_*.dfy`): the reliable transport. `rdp_spec` gives the state of a connection and what every routine of
  `csp_rdp.c` makes of it; `rdp_connection` is the same as a class whose methods update the connection in place, each
  proved equal to its specification. `rdp_network` joins two endpoints by a network that loses, duplicates and
  reorders, and ties the 16-bit fields to unbounded numbers; `rdp_delivery` and `rdp_runs` prove in-order delivery,
  absence of loss and flow control over all runs, and `rdp_progress` says when delivery can go on. `rdp_acks` says when
  an acknowledgement must be sent and how many can be missing, `rdp_wire` what every event is answered with,
  `rdp_capacity` that no queue is overfilled. `rdp_queues` is about the reorder queue, `rdp_handshake` about the opening
  of a pair, `rdp_life` about closing by three parties; `datagrams` is the transport without RDP.
- **Framing and fragmentation**: KISS byte stuffing and its resynchronisation (`kiss*.dfy`), CAN fragmentation with
  five reassembly buffers (`cfp`, `can*.dfy`), and SFP (`sfp*.dfy`).
- **Packet protection**: CRC-32C (`crc32`, `packet_crc`), SHA-1 (`sha1`), HMAC (`hmac`), XTEA in counter mode
  (`xtea`), and their composition in sending and receiving (`protection`).
- **Tables**: the connection pool with its ephemeral ports (`csp_id`, `conn_pool`, `conn_table`), and the two routing
  tables (`routes`, `route_tables`).
- **GF(2^8)**: the logarithm tables against reduced carry-less multiplication, and for which polynomials they are right
  (`galois*.dfy`).
- **Known answers** (`wire_answers`, `sha1_answers`, `xtea_answers`): layouts of headers and frames, and the published
  examples of the checksum, the hash, the HMAC and the cipher, computed step by step on literal words.

Code that updates state in place is a class or a method with loops, proved against functions on values; the properties
are lemmas about those functions. Blocking waits are guards, threads are atomic steps, time is an input that any step
may set to any value. `hide` statements in proofs only keep the solver's context small.

Where the code differs from what its comments or names suggest, the model follows the code: an RST is not recognised
when `rcv_cur` is 0xFFFF, a flush passes over payloads the application queue has no room for, an empty payload blocks
a connection, a csp_rdp_connect that comes late revives a closed entry, an announced window of 0 lets every number
into the reorder queue, the KISS length check lets one byte be written behind the buffer, the first two XTEA keystream
blocks are equal, the two routing tables can disagree about defaults, the port loop does not compare the lowest port,
field_create writes outside its table for polynomials of another degree, and `field_pow` gives one for every power of
zero. Lemmas below state each of them.

## Model

| member | source | states |
|---|---|---|
| `RdpRuns.DeliveredIsPrefix` | Cubesat Space Protocol/UART/src/libcsp/src/transport/csp_rdp.c:764-854 | In every state that two matched ends, each with its own settings and with any window from 1 to 2^14 - 1, reach over a network that loses, duplicates and reorders (packets less than 2^15 numbers old, room in the application queue when a run is flushed), what each receiver has delivered is a prefix of what the peer's csp_rdp_send accepted: no gap, repeat or swap, across any number of wraps |
| `RdpRuns.NothingIsLost` | Cubesat Space Protocol/UART/src/libcsp/src/transport/csp_rdp.c:968-1022 | In the same states every accepted payload not yet delivered is, under its own 16-bit number and unchanged, in the sender's tx_queue or the receiver's reorder queue, despite removals by ACK and EACK; the one to be delivered next is always in the sender's tx_queue; both directions |
| `RdpRuns.FlowIsBounded` | Cubesat Space Protocol/UART/src/libcsp/src/transport/csp_rdp.c:488-495 | In the same states the last number issued is at most window_size ahead of the receiver's rcv_cur, and the 16-bit difference is the true one, although stale acknowledgements move snd_una back; both directions |
| `RdpRuns.EmptyPayloadBlocks` | Cubesat Space Protocol/UART/src/libcsp/src/transport/csp_rdp.c:821-823 | In the same states no empty payload that csp_rdp_send accepted, and nothing behind one, has been delivered: it is taken for a bare acknowledgement; both directions |
| `RdpProgress.DeliveryGoesOnIff` | Cubesat Space Protocol/UART/src/libcsp/src/transport/csp_rdp.c:503-903 | From every such state some continuation delivers more exactly when the next accepted payload is not empty and the receiver's application queue, once read empty, has places for it and for the run it completes; a queue that holds a window always has |
| `RdpProgress.NonEmptyGoesOn` | Cubesat Space Protocol/UART/src/libcsp/src/transport/csp_rdp.c:535-574 | That continuation: reads, timeout checks at a time when the element has expired, and the arrival of the segment sent again |
| `RdpProgress.EmptyStops` | Cubesat Space Protocol/UART/src/libcsp/src/transport/csp_rdp.c:821-823 | Behind an empty payload no continuation of any length delivers anything |
| `RdpProgress.NoRoomStops` | Cubesat Space Protocol/UART/src/libcsp/src/transport/csp_rdp.c:302-335 | Without those places no continuation that loses nothing delivers anything: until something is delivered the reorder queue only grows |
| `RdpProgress.RunGrows` | Cubesat Space Protocol/UART/src/libcsp/src/transport/csp_rdp.c:302-335 | A reorder queue with more numbers has no shorter run |
| `RdpProgress.EmptyPayloadIsAccepted` | Cubesat Space Protocol/UART/src/libcsp/src/transport/csp_rdp.c:968-1022 | The blocked states are reached: a matched pair accepts an empty payload exactly when a buffer holds its header and tx_queue has a place |
| `RdpProgress.ReachableFlips` | Cubesat Space Protocol/UART/src/libcsp/src/transport/csp_rdp.c:503-1022 | Exchanging the two ends of a reachable state gives a reachable state, so the same holds in the other direction |
| `RdpRuns.MatchedIsInv` | Cubesat Space Protocol/UART/src/libcsp/src/transport/csp_rdp.c:652-757 | Two open ends that agree on numbers and window satisfy the invariant of both directions, whatever their own limits |
| `RdpRuns.StepKeeps` | Cubesat Space Protocol/UART/src/libcsp/src/transport/csp_rdp.c:503-1022 | Every atomic step of an endpoint (send, read, timeout check, or one packet after a timeout check, with sends and reads in between) keeps the invariant of both directions |
| `RdpRuns.RunKeeps` | Cubesat Space Protocol/UART/src/libcsp/src/transport/csp_rdp.c:503-1022 | The invariant holds in every state of every run, whichever endpoint steps and however the two are configured |
| `RdpRuns.SendKeeps` | Cubesat Space Protocol/UART/src/libcsp/src/transport/csp_rdp.c:968-1022 | Accepting a payload keeps the counters, the queues and the channel contents consistent with the unbounded numbers |
| `RdpRuns.ArriveKeeps` | Cubesat Space Protocol/UART/src/libcsp/src/transport/csp_rdp.c:591-903 | So does any packet of the channel, new, old, duplicated or out of order, data, ACK or EACK |
| `RdpRuns.CheckKeeps` | Cubesat Space Protocol/UART/src/libcsp/src/transport/csp_rdp.c:503-589 | So does the timeout check with its retransmissions and removals, after which nothing acknowledged is left in tx_queue |
| `RdpDelivery.ReadyIsRoom` | Cubesat Space Protocol/UART/src/libcsp/src/transport/csp_rdp.c:488-495 | The wrapping readiness test is exactly the comparison of unbounded numbers `accepted < acknowledged + window` |
| `RdpDelivery.EackKeeps` | Cubesat Space Protocol/UART/src/libcsp/src/transport/csp_rdp.c:375-418 | Removing elements named by a selective acknowledgement never removes a payload the receiver does not have |
| `RdpDelivery.SweepKeeps` | Cubesat Space Protocol/UART/src/libcsp/src/transport/csp_rdp.c:535-574 | The retransmission loop removes only what the receiver has delivered and sends again only what was accepted |
| `RdpDelivery.DeliverKeeps` | Cubesat Space Protocol/UART/src/libcsp/src/transport/csp_rdp.c:302-335 | Flushing keeps the invariant: the delivered prefix grows by the payloads of the run |
| `RdpHandshake.HandshakeMatches` | Cubesat Space Protocol/UART/src/libcsp/src/transport/csp_rdp.c:652-757 | SYN, SYN/ACK and ACK lead to a matched pair with the client's window, the starting point of the delivery theorems, however the server is configured |
| `RdpHandshake.SynAckAgreesIff` | Cubesat Space Protocol/UART/src/libcsp/src/transport/csp_rdp.c:698-724 | In SYN_SENT any SYN/ACK opens the connection, whatever it acknowledges; the client agrees with the server exactly when it answers this SYN with the server's number |
| `RdpHandshake.ShakeSends` | Cubesat Space Protocol/UART/src/libcsp/src/transport/csp_rdp.c:268-285 | The three segments of that exchange are the ones the two ends really send |
| `RdpHandshake.OptionsRoundTrip` | Cubesat Space Protocol/UART/src/libcsp/src/transport/csp_rdp.c:673-679 | The six options written into the SYN are the ones the passive side reads out of it |
| `WireAnswers.SynOptions` | Cubesat Space Protocol/UART/src/libcsp/src/transport/csp_rdp.c:268-285 | The options of a SYN are window size, connection timeout, packet timeout, delayed ACKs, ACK timeout and ACK delay count, four bytes each |
| `WireAnswers.WordDigits` | Cubesat Space Protocol/UART/src/libcsp/src/transport/csp_rdp.c:268-285 | Each option is its value in base 256, the high digit first |
| `WireAnswers.EackNumbers` | Cubesat Space Protocol/UART/src/libcsp/src/transport/csp_rdp.c:230-261 | The list an EACK carries is two big-endian bytes per number, and it is read back so |
| `RdpLife.CloseAgreement` | Cubesat Space Protocol/UART/src/libcsp/src/transport/csp_rdp.c:1075-1108 | In every trace of one pool entry from its initial state in which csp_rdp_connect comes in time: closed connection means RDP_CLOSED, closed_by is non-empty exactly in CLOSE_WAIT and never complete, and CLOSE_WAIT is left only for closed at both layers |
| `RdpLife.LifeIffInTime` | Cubesat Space Protocol/UART/src/libcsp/src/transport/csp_rdp.c:905-935 | Over all traces, the life-cycle invariant holds throughout exactly when every csp_rdp_connect meets an open RDP entry that is not half-closed, or a connection already OPEN |
| `RdpLife.ConnectKeepsIff` | Cubesat Space Protocol/UART/src/libcsp/src/transport/csp_rdp.c:905-935 | csp_rdp_connect tests for RDP_OPEN only and keeps the invariant exactly under that condition |
| `RdpLife.LateConnectEscapes` | Cubesat Space Protocol/UART/src/libcsp/src/transport/csp_rdp.c:859-903 | A trace on which it does not hold: any packet without SYN and RST between csp_conn_new and csp_rdp_connect closes the entry, and the connect leaves it closed in SYN_SENT |
| `RdpLife.CloseWaitEndsByAgreement` | Cubesat Space Protocol/UART/src/libcsp/src/transport/csp_rdp.c:503-529 | In CLOSE_WAIT every event adds its closing parties, and the connection is closed with both queues empty exactly when user space, protocol and timeout have all closed; a late csp_rdp_connect is the one event that breaks out, to SYN_SENT with closed_by kept |
| `RdpLife.HappenKeeps` | Cubesat Space Protocol/UART/src/libcsp/src/transport/csp_rdp.c:503-1108 | An event keeps the life-cycle invariant exactly when it is not a late csp_rdp_connect |
| `RdpLife.FlagMismatchBreaks` | Cubesat Space Protocol/UART/src/libcsp/src/csp_route.c:302-308 | On a connection without the RDP flag an RDP packet breaks the life-cycle invariant exactly when it is a SYN without RST |
| `RdpLife.FlagMismatchEscapes` | Cubesat Space Protocol/UART/src/libcsp/src/csp_conn.c:290-338 | Closing such a connection then leaves it closed with its RDP state still in SYN_RCVD |
| `RdpLife.DatagramKeeps` | Cubesat Space Protocol/UART/src/libcsp/src/csp_route.c:302-308 | A datagram keeps the life-cycle invariant on every open connection, also on one with the RDP flag |
| `Datagrams.DatagramsInOrder` | Cubesat Space Protocol/UART/src/libcsp/src/transport/csp_udp.c:28-49 | On a connection without RDP, whatever arrives and is read in whatever order: what has been delivered and what is queued are, in order, what was queued first and what found a place since; nothing is sent and nothing else changes |
| `Datagrams.FirstDatagram` | Cubesat Space Protocol/UART/src/libcsp/src/transport/csp_udp.c:28-49 | A datagram for a half-open connection hands it to the listening socket, or closes and empties it when that is full |
| `RdpLife.ReorderQueueInRun` | Cubesat Space Protocol/UART/src/libcsp/src/transport/csp_rdp.c:337-373 | In every trace, against any peer, as long as no announced or configured window is a multiple of 2^15 and every csp_rdp_connect comes in time and covers what is queued, the queued numbers are distinct and lie in rcv_cur+2 .. rcv_cur+2W modulo 2^16, and the reorder queue is not full while the window fits the configured limit |
| `RdpLife.HappenKeepsIff` | Cubesat Space Protocol/UART/src/libcsp/src/transport/csp_rdp.c:503-1108 | An event keeps both the life-cycle and the reorder-queue invariant exactly when it is neither a csp_rdp_connect that comes late or sets a window that does not cover the queue, nor a stray data segment |
| `RdpLife.ReorderQueueIff` | Cubesat Space Protocol/UART/src/libcsp/src/transport/csp_rdp.c:503-1108 | Over all traces, both invariants hold throughout exactly when no such event occurs |
| `RdpLife.ConnectKeepsQueueIff` | Cubesat Space Protocol/UART/src/libcsp/src/transport/csp_rdp.c:905-935 | csp_rdp_connect keeps the reorder-queue invariant exactly when the window it sets covers what is queued |
| `RdpLife.ZeroWindowEscapes` | Cubesat Space Protocol/UART/src/libcsp/src/transport/csp_rdp.c:673-679 | A trace on which it is broken: a SYN announces the window 0, which nothing checks, and a segment five numbers ahead is queued |
| `RdpQueues.AddRefusesOnlyDuplicates` | Cubesat Space Protocol/UART/src/libcsp/src/transport/csp_rdp.c:367-373 | Under that invariant, and with a window within the configured limit, csp_rdp_rx_queue_add refuses a segment exactly when its number is queued already |
| `RdpQueues.Pigeonhole` | Cubesat Space Protocol/UART/src/libcsp/src/transport/csp_rdp.c:1048 | Distinct numbers at offsets 2 .. hi are at most hi - 1 many |
| `RdpQueues.FlushIsExact` | Cubesat Space Protocol/UART/src/libcsp/src/transport/csp_rdp.c:302-335 | The restart-from-front loop takes out exactly the maximal run of consecutive numbers after rcv_cur, in order, advances rcv_cur by its length, keeps the rest as the same multiset, and enqueues what the application queue has room for |
| `RdpQueues.FlushLosesNothingIffRoom` | Cubesat Space Protocol/UART/src/libcsp/src/transport/csp_rdp.c:323 | The ignored enqueue result loses payloads exactly when the run does not fit the application queue |
| `RdpQueues.FlushCanLose` | Cubesat Space Protocol/UART/src/libcsp/src/transport/csp_rdp.c:323 | A concrete queue on which a payload is passed over although rcv_cur counts it |
| `RdpQueues.RunIgnoresOrder` | Cubesat Space Protocol/UART/src/libcsp/src/transport/csp_rdp.c:302-335 | What a flush takes out does not depend on the order of the queue, which the searches rotate |
| `RdpQueues.SearchKeeps` | Cubesat Space Protocol/UART/src/libcsp/src/transport/csp_rdp.c:337-365 | The rotating search finds a number exactly when it is queued and keeps the queue's elements and their distinctness |
| `RdpQueues.InWindowOffset` | Cubesat Space Protocol/UART/src/libcsp/src/transport/csp_rdp.c:764 | For every window the wrapping test accepts exactly the numbers 1 .. 2W modulo 2^16 after rcv_cur, or every number when that is 0 |
| `RdpQueues.BeforeIsLess` | Cubesat Space Protocol/UART/src/libcsp/src/transport/csp_rdp.c:137-145 | The wrapping comparison is the comparison of unbounded numbers less than 2^15 apart |
| `RdpQueues.BetweenIsInterval` | Cubesat Space Protocol/UART/src/libcsp/src/transport/csp_rdp.c:132-135 | The wrapping interval test is the interval test on unbounded numbers |
| `RdpQueues.NewInOpenKeepsIff` | Cubesat Space Protocol/UART/src/libcsp/src/transport/csp_rdp.c:748-857 | In SYN_RCVD and OPEN a packet keeps the reorder-queue invariant exactly when it is no stray: an accepted data segment that is queued although it lies outside the window |
| `RdpQueues.AllSegmentsKeepIff` | Cubesat Space Protocol/UART/src/libcsp/src/transport/csp_rdp.c:764 | In OPEN the handler keeps the invariant for every segment exactly when the window is no multiple of 2^15, or the queue is full |
| `RdpQueues.CurrentPassesIff` | Cubesat Space Protocol/UART/src/libcsp/src/transport/csp_rdp.c:764 | The window test lets rcv_cur itself pass exactly when the window is a multiple of 2^15 |
| `RdpQueues.ZeroWindowQueues` | Cubesat Space Protocol/UART/src/libcsp/src/transport/csp_rdp.c:764-834 | With window 0 and rcv_cur 10 the segment 15 is queued |
| `RdpQueues.RstInSequence` | Cubesat Space Protocol/UART/src/libcsp/src/transport/csp_rdp.c:631 | The uncast comparison of the RST branch accepts the next number exactly when rcv_cur is not 0xFFFF |
| `RdpAcks.ExpectedIsAcked` | Cubesat Space Protocol/UART/src/libcsp/src/transport/csp_rdp.c:836-854 | When the expected segment has been taken, exactly one ACK of it goes out if more than twice the window stays free and delayed ACKs are off, the ack timeout is over, or more than ack_delay_count segments would stay unacknowledged; in every other case nothing goes out |
| `RdpAcks.RepeatedIsAcked` | Cubesat Space Protocol/UART/src/libcsp/src/transport/csp_rdp.c:826-831 | A segment that waits in the reorder queue already, or finds it full, is answered with an ACK under the same conditions and with nothing otherwise |
| `RdpAcks.TimeoutCheckAcks` | Cubesat Space Protocol/UART/src/libcsp/src/transport/csp_rdp.c:575-589 | A timeout check that closes nothing sends that ACK, behind the segments it sends again, exactly when the connection is open with delayed ACKs, one is due and there is room |
| `RdpAcks.ReadAcks` | Cubesat Space Protocol/UART/src/libcsp/src/csp_io.c:125-166 | So does csp_read, with the place it has just freed |
| `RdpAcks.ReadOnlyTakes` | Cubesat Space Protocol/UART/src/libcsp/src/csp_io.c:157-164 | Without RDP, or without delayed ACKs, csp_read takes the packet out and does nothing else |
| `RdpAcks.AckWhenDue` | Cubesat Space Protocol/UART/src/libcsp/src/transport/csp_rdp.c:420-486 | The wrapping tests of time and count as offsets on their circles, and the whole effect on the connection |
| `RdpAcks.RoomyIff` | Cubesat Space Protocol/UART/src/libcsp/src/transport/csp_rdp.c:468-478 | What counts as room for an ACK: more than twice the window, and always for a window from 2^31 on, which the cast makes negative |
| `RdpAcks.LagInTrace` | Cubesat Space Protocol/UART/src/libcsp/src/transport/csp_rdp.c:302-335 | In every trace of either end, against any peer, whose application reads in time, at most ack_delay_count and a full reorder queue of segments wait for their acknowledgement |
| `RdpAcks.HappenLag` | Cubesat Space Protocol/UART/src/libcsp/src/transport/csp_rdp.c:591-903 | Every event keeps that bound |
| `RdpCapacity.QueuesNeverOverflow` | Cubesat Space Protocol/UART/src/libcsp/src/transport/csp_rdp.c:1024-1058 | In every trace at all, with late connects, stray segments and any windows, the application queue, tx_queue and rx_queue never hold more than they were made for |
| `RdpCapacity.HappenHolds` | Cubesat Space Protocol/UART/src/libcsp/src/transport/csp_rdp.c:591-1108 | Every event keeps that, whatever the state of the connection |
| `RdpWire.ClosingSendsRst` | Cubesat Space Protocol/UART/src/libcsp/src/transport/csp_rdp.c:1075-1108 | Whoever closes first sends exactly one RST with its own numbers; a side in CLOSE_WAIT sends nothing more |
| `RdpWire.ReaderIsWoken` | Cubesat Space Protocol/UART/src/libcsp/src/transport/csp_rdp.c:886-901 | When the protocol closes a connection the application holds, the reader finds a null packet |
| `RdpWire.ResetIsAnswered` | Cubesat Space Protocol/UART/src/libcsp/src/transport/csp_rdp.c:608-644 | A reset in sequence is answered with one reset, any other with nothing, in every state but CLOSED |
| `RdpWire.ResetInClosed` | Cubesat Space Protocol/UART/src/libcsp/src/transport/csp_rdp.c:616-620 | In CLOSED a reset is not answered and changes no more than snd_una; it has the router close an entry that user space never got |
| `RdpWire.ResetCounts` | Cubesat Space Protocol/UART/src/libcsp/src/transport/csp_rdp.c:608-640 | After a reset in sequence or in CLOSE_WAIT exactly the protocol, with fast close the timeout (in CLOSE_WAIT only if the reset acknowledges), and for a half-open entry user space have closed in addition; the connection closes when that makes three |
| `RdpWire.ClosedAnswers` | Cubesat Space Protocol/UART/src/libcsp/src/transport/csp_rdp.c:652-693 | In CLOSED a SYN is answered with a SYN/ACK under the new number, everything else with a bare reset, after which the entry is closed |
| `RdpWire.StrayIsReset` | Cubesat Space Protocol/UART/src/libcsp/src/transport/csp_rdp.c:652-659 | A segment for a connection that was never opened is answered with a reset under the numbers 0 |
| `RdpWire.SynSentAnswers` | Cubesat Space Protocol/UART/src/libcsp/src/transport/csp_rdp.c:698-743 | In SYN_SENT a SYN/ACK is acknowledged, a bare ACK brings a reset and nothing else, and everything else closes the attempt |
| `RdpWire.ConnectSends` | Cubesat Space Protocol/UART/src/libcsp/src/transport/csp_rdp.c:905-966 | Each attempt of csp_rdp_connect sends one SYN under a new number with the six configured options |
| `RdpWire.GivingUpIsSilent` | Cubesat Space Protocol/UART/src/libcsp/src/transport/csp_rdp.c:956-966 | Giving up an attempt sends no reset |
| `RdpWire.StraySynCloses` | Cubesat Space Protocol/UART/src/libcsp/src/transport/csp_rdp.c:752-761 | On an open connection a SYN, or a segment without ACK, closes it with a reset unless it repeats the number of the peer's SYN |
| `RdpWire.OutsideWindowAnswers` | Cubesat Space Protocol/UART/src/libcsp/src/transport/csp_rdp.c:763-775 | A segment outside the window is answered with the SYN/ACK before the connection is open, and with the list of queued numbers after |
| `RdpWire.AcknowledgementCounts` | Cubesat Space Protocol/UART/src/libcsp/src/transport/csp_rdp.c:777-823 | A bare acknowledgement in range moves snd_una behind what it acknowledges, one out of range changes nothing |
| `RdpWire.AckRange` | Cubesat Space Protocol/UART/src/libcsp/src/transport/csp_rdp.c:777-782 | In range are the numbers from one and two windows below snd_una to the last one sent |
| `RdpWire.OutOfOrderAnswers` | Cubesat Space Protocol/UART/src/libcsp/src/transport/csp_rdp.c:825-834 | New data out of sequence is queued behind the others and answered with an EACK that lists it last |
| `RdpWire.CloseWaitAnswers` | Cubesat Space Protocol/UART/src/libcsp/src/transport/csp_rdp.c:859-880 | In CLOSE_WAIT an acknowledgement in range moves snd_una and brings a reset; everything else changes nothing |
| `RdpWire.SendSends` | Cubesat Space Protocol/UART/src/libcsp/src/transport/csp_rdp.c:968-1022 | What csp_rdp_send accepts goes out at once under the next number and is kept at the end of tx_queue |
| `RdpWire.HalfOpenTimesOut` | Cubesat Space Protocol/UART/src/libcsp/src/transport/csp_rdp.c:507-532 | A half-open connection is closed and emptied when its timeout is over |
| `RdpWire.NothingTimesOut` | Cubesat Space Protocol/UART/src/libcsp/src/transport/csp_rdp.c:507-532 | Before that a timeout check closes nothing |
| `RdpWire.TimeAfterIsLater` | Cubesat Space Protocol/UART/src/libcsp/src/transport/csp_rdp.c:152-160 | The wrapping tests of time are the order of times less than 2^31 apart |
| `RdpWire.SentAgainIff` | Cubesat Space Protocol/UART/src/libcsp/src/transport/csp_rdp.c:535-574 | A sweep sends again exactly the elements that are neither acknowledged nor younger than the packet timeout, with the current acknowledgement |
| `RdpWire.AgesStartAgain` | Cubesat Space Protocol/UART/src/libcsp/src/transport/csp_rdp.c:535-574 | Each of them stays queued and its age starts again; the others stay as they are |
| `RdpWire.EackFrees` | Cubesat Space Protocol/UART/src/libcsp/src/transport/csp_rdp.c:375-418 | An EACK frees exactly the elements it lists, and every other one stays |
| `RdpWire.OvertakenExpires` | Cubesat Space Protocol/UART/src/libcsp/src/transport/csp_rdp.c:397-404 | An element that an EACK passes over while it lists a larger number expires at once and goes into quarantine for half the packet timeout |
| `RdpWire.OthersStay` | Cubesat Space Protocol/UART/src/libcsp/src/transport/csp_rdp.c:397-404 | Nothing listed is larger, or the element is in quarantine: it stays as it is |
| `RdpConnection.Connection.NewPacket` | Cubesat Space Protocol/UART/src/libcsp/src/transport/csp_rdp.c:591-903 | The packet handler in place takes the connection to the state the specification function gives, and says whether to close |
| `RdpConnection.Connection.Send` | Cubesat Space Protocol/UART/src/libcsp/src/transport/csp_rdp.c:968-1022 | Refuses outside OPEN or with a full window; otherwise queues a copy, sends it and advances snd_nxt |
| `RdpConnection.Connection.CheckTimeouts` | Cubesat Space Protocol/UART/src/libcsp/src/transport/csp_rdp.c:503-589 | Connection timeouts, retransmission, and waking a blocked sender, in the code's order |
| `RdpConnection.Connection.SweepTxQueue` | Cubesat Space Protocol/UART/src/libcsp/src/transport/csp_rdp.c:535-574 | The loop over tx_queue removes acknowledged elements, sends expired ones again and keeps order |
| `RdpConnection.Connection.CloseInternal` | Cubesat Space Protocol/UART/src/libcsp/src/transport/csp_rdp.c:1075-1108 | Three-party close: CLOSE_WAIT until all have agreed |
| `RdpConnection.Connection.ConnClose` | Cubesat Space Protocol/UART/src/libcsp/src/csp_conn.c:290-338 | Closes the connection unless RDP says to come again |
| `RdpConnection.Connection.FlushEack` | Cubesat Space Protocol/UART/src/libcsp/src/transport/csp_rdp.c:375-418 | Loop over tx_queue removes exactly the listed numbers and hastens overtaken ones |
| `RdpConnection.Connection.CompareEack` | Cubesat Space Protocol/UART/src/libcsp/src/transport/csp_rdp.c:391-405 | The inner loop matches a number exactly when it is listed |
| `RdpConnection.Connection.RxQueueFlush` | Cubesat Space Protocol/UART/src/libcsp/src/transport/csp_rdp.c:302-335 | The restart-from-front loop, against the recursive specification; it terminates |
| `RdpConnection.Connection.SeqInRxQueue` | Cubesat Space Protocol/UART/src/libcsp/src/transport/csp_rdp.c:337-365 | The rotating search |
| `RdpConnection.Connection.RxQueueAdd` | Cubesat Space Protocol/UART/src/libcsp/src/transport/csp_rdp.c:367-373 | Enqueue unless queued already or full |
| `RdpConnection.Connection.SendEack` | Cubesat Space Protocol/UART/src/libcsp/src/transport/csp_rdp.c:230-261 | Lists the queued numbers in queue order |
| `KissSync.Resynchronises` | Cubesat Space Protocol/UART/src/libcsp/src/interfaces/csp_if_kiss.c:83-214 | From any reachable receiver state, after any garbage, feeding n >= 2 frames of csp_kiss_tx delivers the last n-1 packets exactly and in order; the first frame behind the garbage yields at most one packet |
| `KissSync.AnyFrameResynchronises` | Cubesat Space Protocol/UART/src/libcsp/src/interfaces/csp_if_kiss.c:83-214 | After any one frame, from any state, the receiver is in step, having delivered at most one packet meanwhile |
| `KissSync.NothingLostIff` | Cubesat Space Protocol/UART/src/libcsp/src/interfaces/csp_if_kiss.c:83-214 | A reachable receiver loses no packet of any sequence of frames exactly when it waits for a frame, is about to drop an overlong one, or has stored nothing yet, an escape included, behind an opening delimiter |
| `KissSync.NextFrameArrivesIff` | Cubesat Space Protocol/UART/src/libcsp/src/interfaces/csp_if_kiss.c:83-214 | The same for one frame: every packet that fits the buffer is delivered by its frame exactly from those states |
| `KissSync.OneFrameCanBeLost` | Cubesat Space Protocol/UART/src/libcsp/src/interfaces/csp_if_kiss.c:134-169 | A single stray byte behind an opening delimiter does lose a frame, so n-1 is the best there is |
| `KissSync.FrameInStep` | Cubesat Space Protocol/UART/src/libcsp/src/interfaces/csp_if_kiss.c:34-78 | Framing, escaping and checksum are undone by the receiver: a frame in step yields the packet |
| `KissSync.FirstFrame` | Cubesat Space Protocol/UART/src/libcsp/src/interfaces/csp_if_kiss.c:83-214 | After the start the first frame is delivered and counted, and no error is |
| `KissSync.FrameEndCounts` | Cubesat Space Protocol/UART/src/libcsp/src/interfaces/csp_if_kiss.c:134-175 | A frame that ends is delivered, or counted as an error, once; all but those too short for header and checksum count as frames |
| `KissSync.NoBufferNoPacket` | Cubesat Space Protocol/UART/src/libcsp/src/interfaces/csp_if_kiss.c:103-121 | While no packet buffer can be had, whole frames are skipped and nothing is delivered or counted as a frame |
| `KissSync.NoBufferFromStart` | Cubesat Space Protocol/UART/src/libcsp/src/interfaces/csp_if_kiss.c:103-121 | So an interface that never gets a buffer delivers nothing, whatever arrives |
| `WireAnswers.EscapeCodes` | Cubesat Space Protocol/UART/src/libcsp/src/interfaces/csp_if_kiss.c:56-69 | 0xC0 is sent as 0xDB 0xDC, 0xDB as 0xDB 0xDD, and every other byte as it is |
| `WireAnswers.FrameOfDigits` | Cubesat Space Protocol/UART/src/libcsp/src/interfaces/csp_if_kiss.c:34-78 | The frame of the packet 123456789 byte by byte: delimiters, command byte, escaped header, payload, checksum |
| `KissSync.UnescapeAll` | Cubesat Space Protocol/UART/src/libcsp/src/interfaces/csp_if_kiss.c:188-200 | Unescaping undoes escaping for every byte string that fits the buffer |
| `KissSync.FeedKeeps` | Cubesat Space Protocol/UART/src/libcsp/src/interfaces/csp_if_kiss.c:93-100 | In every reachable state rx_length is at most max_rx_length + 1 |
| `KissSync.OverrunsIff` | Cubesat Space Protocol/UART/src/libcsp/src/interfaces/csp_if_kiss.c:93-100 | A byte takes rx_length over max_rx_length exactly when the buffer is full and the byte is stored |
| `KissSync.LengthIsExceeded` | Cubesat Space Protocol/UART/src/libcsp/src/interfaces/csp_if_kiss.c:91-211 | From the initial state every frame of max_rx_length + 1 bytes does that, and one byte is written behind the buffer |
| `KissSync.FrameOutside` | Cubesat Space Protocol/UART/src/libcsp/src/interfaces/csp_if_kiss.c:91-211 | A frame that finds the receiver ready writes one byte behind the buffer exactly when its content is longer than the buffer, and never more |
| `KissSync.OwnFramesStayInside` | Cubesat Space Protocol/UART/src/libcsp/src/interfaces/csp_if_kiss.c:34-78 | The frames of csp_kiss_tx never do |
| `KissSync.FeedConcat` | Cubesat Space Protocol/UART/src/libcsp/src/interfaces/csp_if_kiss.c:83-88 | Cutting the stream into chunks makes no difference |
| `Kiss.KissTx` | Cubesat Space Protocol/UART/src/libcsp/src/interfaces/csp_if_kiss.c:34-78 | The bytes on the wire are the frame of the packet with its checksum |
| `Kiss.SendEscaped` | Cubesat Space Protocol/UART/src/libcsp/src/interfaces/csp_if_kiss.c:56-69 | The loop emits the escape of every byte |
| `Kiss.Receiver.Receive` | Cubesat Space Protocol/UART/src/libcsp/src/interfaces/csp_if_kiss.c:83-214 | A chunk takes the receiver to the fold of its bytes, and as many bytes as that fold says are written behind the buffer |
| `Kiss.Receiver.ReceiveByte` | Cubesat Space Protocol/UART/src/libcsp/src/interfaces/csp_if_kiss.c:91-211 | One byte takes rx_mode, rx_length, rx_first and the packet to the specified state; the one write that can go behind the buffer is counted, and happens exactly when the buffer is full and the byte is stored |
| `Kiss.Receiver.EndOfFrame` | Cubesat Space Protocol/UART/src/libcsp/src/interfaces/csp_if_kiss.c:134-175 | Short frames and bad checksums are counted and dropped, others delivered |
| `CanInterleaving.InterleavedDelivery` | Cubesat Space Protocol/UART/src/libcsp/src/interfaces/csp_if_can.c:45-177 | However the frames csp_can_tx makes for any packets are interleaved, with at most five open, open ones of distinct (source, destination, id) keys and none of them silent for over a second when another begins, csp_can_rx delivers each packet once, unchanged, at its last frame, nothing else, and counts no error; every length up to 2042, keys used again by later packets |
| `CanInterleaving.TickKeepsOwned` | Cubesat Space Protocol/UART/src/libcsp/src/interfaces/csp_if_can.c:56-168 | One frame of one open packet: its element advances, the others stay, and the last frame delivers |
| `CanInterleaving.FinishedEndsOnce` | Cubesat Space Protocol/UART/src/libcsp/src/interfaces/csp_if_can.c:56-168 | A job ends exactly once, and exactly when all its frames have arrived |
| `CanInterleaving.FindFree` | Cubesat Space Protocol/UART/src/libcsp/src/interfaces/csp_if_can_pbuf.c:57-81 | With fewer than five open packets an element is free, and no open one is reclaimed |
| `CanInterleaving.FindOwner` | Cubesat Space Protocol/UART/src/libcsp/src/interfaces/csp_if_can_pbuf.c:83-92 | The search by masked identifier finds the element of the frame's packet and no other |
| `CanInterleaving.FragmentHead` | Cubesat Space Protocol/UART/src/libcsp/src/interfaces/csp_if_can.c:195-221 | The BEGIN frame carries header, length and remain so that the receiver reads them back |
| `CanInterleaving.FragmentTail` | Cubesat Space Protocol/UART/src/libcsp/src/interfaces/csp_if_can.c:228-243 | Every MORE frame carries the next bytes and a remain field one lower |
| `CanInterleaving.HeadStep` | Cubesat Space Protocol/UART/src/libcsp/src/interfaces/csp_if_can.c:76-168 | A BEGIN frame in a fresh element starts, or completes, the packet |
| `CanInterleaving.TailStep` | Cubesat Space Protocol/UART/src/libcsp/src/interfaces/csp_if_can.c:130-168 | The next MORE frame extends, or completes, the packet |
| `CanReassembly.OnlyWholePackets` | Cubesat Space Protocol/UART/src/libcsp/src/interfaces/csp_if_can.c:45-177 | On every stream of frames, with any times and any shortage of buffers, each frame delivers at most one packet, which is the concatenation of one BEGIN and MOREs of the same key whose remain fields fall by exactly one, with no other frame of the key between, of exactly the announced length |
| `CanReassembly.RunIsSound` | Cubesat Space Protocol/UART/src/libcsp/src/interfaces/csp_if_can.c:56-168 | In every reachable state used elements have distinct keys, a packet, and fewer bytes than announced |
| `CanReassembly.ReceiveKeepsSound` | Cubesat Space Protocol/UART/src/libcsp/src/interfaces/csp_if_can.c:45-177 | Every frame keeps that invariant, whatever happens to be in the elements |
| `Can.SendFrames` | Cubesat Space Protocol/UART/src/libcsp/src/interfaces/csp_if_can.c:187-252 | The loop hands over exactly the fragments of the packet, as many as the driver takes, or refuses a packet over 2042 bytes |
| `Can.CanSender.CanTx` | Cubesat Space Protocol/UART/src/libcsp/src/interfaces/csp_if_can.c:179-253 | Each packet uses the next identification, also a refused one |
| `Can.CanReceiver.CanRx` | Cubesat Space Protocol/UART/src/libcsp/src/interfaces/csp_if_can.c:45-177 | The element array, delivered packets and counters after a frame, as a function of those before |
| `Can.CanReceiver.Update` | Cubesat Space Protocol/UART/src/libcsp/src/interfaces/csp_if_can.c:73-174 | The same for the switch on the frame type |
| `Can.CanReceiver.PbufFind` | Cubesat Space Protocol/UART/src/libcsp/src/interfaces/csp_if_can_pbuf.c:83-92 | The loop returns the first match and refreshes its time |
| `Can.CanReceiver.PbufNew` | Cubesat Space Protocol/UART/src/libcsp/src/interfaces/csp_if_can_pbuf.c:57-81 | The loop takes the first free or timed-out element |
| `Bytes.Be16RoundTrip` | Cubesat Space Protocol/UART/src/libcsp/src/interfaces/csp_if_can.c:206-213 | The length written into a BEGIN frame is read back |
| `Can.LastFragment` | Cubesat Space Protocol/UART/src/libcsp/src/interfaces/csp_if_can.c:228-248 | The count of fragments agrees with the bytes sent and the remain field |
| `Can.LargestPacket` | Cubesat Space Protocol/UART/src/libcsp/src/interfaces/csp_if_can.c:35 | The largest packet, 2042 bytes, is the one whose frames the eight bits of remain can just count |
| `Can.FramesAreFull` | Cubesat Space Protocol/UART/src/libcsp/src/interfaces/csp_if_can.c:187-252 | No frame holds more than eight bytes, and all but the last are full |
| `Can.StaleAfterASecond` | Cubesat Space Protocol/UART/src/libcsp/src/interfaces/csp_if_can_pbuf.c:57-81 | An element is given up after more than 1000 ms without a frame, across the wrap of the clock |
| `Can.BeginCounts` | Cubesat Space Protocol/UART/src/libcsp/src/interfaces/csp_if_can.c:76-128 | When a BEGIN frame completes a packet, and what it adds to the two error counters: one for a packet it cuts off, one for a frame that is dropped, one receive error for a length over 2042 bytes or the buffer |
| `Can.MoreCounts` | Cubesat Space Protocol/UART/src/libcsp/src/interfaces/csp_if_can.c:130-168 | A MORE frame is taken exactly when its remain is the next one down and its bytes fit; otherwise the packet is given up and one frame error counted |
| `Cfp.PackRoundTrip` | Cubesat Space Protocol/UART/src/libcsp/include/csp/interfaces/csp_if_can.h:74-103 | Every field of the 29-bit identifier is read back, cut to its width |
| `WireAnswers.IdentifierLayout` | Cubesat Space Protocol/UART/src/libcsp/include/csp/interfaces/csp_if_can.h:74-103 | The 29 bits in order: five for the source, five for the destination, one for the type, eight for remain, ten for the identification |
| `WireAnswers.FramesOfPacket` | Cubesat Space Protocol/UART/src/libcsp/src/interfaces/csp_if_can.c:187-252 | The two frames of a packet of four bytes, identifiers and contents in full |
| `WireAnswers.HighByteFirst` | Cubesat Space Protocol/UART/src/libcsp/src/interfaces/csp_if_can.c:206-213 | The four bytes of a header on the wire are its word, the high byte first |
| `WireAnswers.HighByteFirst16` | Cubesat Space Protocol/UART/src/libcsp/src/interfaces/csp_if_can.c:206-213 | So are the two bytes of a length |
| `Cfp.KeyIsFields` | Cubesat Space Protocol/UART/src/libcsp/include/csp/interfaces/csp_if_can.h:106-109 | Identifiers agree under the connection mask exactly when source, destination and identification agree |
| `Cfp.PackKey` | Cubesat Space Protocol/UART/src/libcsp/include/csp/interfaces/csp_if_can.h:106-109 | All fragments of a packet share a key |
| `SfpTransfer.TransferRoundTrip` | Cubesat Space Protocol/UART/src/libcsp/src/csp_sfp.c:69-229 | Receiving the sender's messages gives back exactly the data, for all non-empty data the receiver has memory for, every mtu >= 1, with the first message read beforehand or not |
| `SfpTransfer.SucceedsIffTiles` | Cubesat Space Protocol/UART/src/libcsp/src/csp_sfp.c:123-229 | On any stream of messages a reception succeeds exactly when the stream starts with messages that complete a block: fragment flags, one total, each offset where the previous message ended, none but the last empty or enough |
| `SfpTransfer.SuccessIsContent` | Cubesat Space Protocol/UART/src/libcsp/src/csp_sfp.c:197-207 | Success returns the payloads of the messages read, in order, and leaves the rest unread |
| `SfpTransfer.WrittenOnce` | Cubesat Space Protocol/UART/src/libcsp/src/csp_sfp.c:197-199 | In such messages every byte is written by exactly one message, at the offset its header says |
| `SfpTransfer.EmptyBlockTimesOut` | Cubesat Space Protocol/UART/src/libcsp/src/csp_sfp.c:74-117 | Empty data is sent as no message at all, and its receiver times out |
| `Sfp.Conn.Send` | Cubesat Space Protocol/UART/src/libcsp/src/csp_sfp.c:69-121 | Sends the pieces of the data until buffers or link give out, with the error for each; mtu 0 is refused |
| `Sfp.SendPieces` | Cubesat Space Protocol/UART/src/libcsp/src/csp_sfp.c:74-117 | The send loop |
| `Sfp.Conn.Recv` | Cubesat Space Protocol/UART/src/libcsp/src/csp_sfp.c:123-229 | Status, data and unread messages as the specification function; the loop ends because each round brings missing bytes |
| `Sfp.HeaderRoundTrip` | Cubesat Space Protocol/UART/src/libcsp/src/csp_sfp.c:40-67 | The header taken off is the header put on |
| `WireAnswers.SfpMessage` | Cubesat Space Protocol/UART/src/libcsp/src/csp_sfp.c:40-67 | The header is the offset and then the total, big-endian, behind the payload, when it is put on and when it is taken off |
| `Crc32.CrcMemory` | Cubesat Space Protocol/UART/src/libcsp/src/csp_crc32.c:64-76 | The table loop computes the bit-by-bit reflected polynomial division, for every message |
| `WireAnswers.ChecksumOfDigits` | Cubesat Space Protocol/UART/src/libcsp/src/csp_crc32.c:64-76 | The check value of CRC-32C: 123456789 has the checksum E3069283 |
| `Crc32.TableStep` | Cubesat Space Protocol/UART/src/libcsp/src/csp_crc32.c:67-73 | One turn of the loop divides by one more byte |
| `Crc32.TableIsShift` | Cubesat Space Protocol/UART/src/libcsp/src/csp_crc32.c:29-62 | Each of the 256 table constants is what eight bit steps make of its index |
| `Crc32.BurstsAreDetected` | Cubesat Space Protocol/UART/src/libcsp/src/csp_crc32.c:64-76 | Different messages of equal length that agree outside four consecutive bytes have different checksums |
| `Crc32.DivideIsInjective` | Cubesat Space Protocol/UART/src/libcsp/src/csp_crc32.c:64-76 | Feeding the same bytes keeps different registers different |
| `PacketCrc.CrcAppend` | Cubesat Space Protocol/UART/src/libcsp/src/csp_crc32.c:78-101 | Appends the big-endian checksum when it fits the buffer |
| `PacketCrc.CrcVerify` | Cubesat Space Protocol/UART/src/libcsp/src/csp_crc32.c:103-129 | Accepts exactly packets that end in the checksum of the rest, and takes it off |
| `PacketCrc.CrcRoundTrip` | Cubesat Space Protocol/UART/src/libcsp/src/csp_crc32.c:78-129 | What append added verify accepts and removes |
| `PacketCrc.CrcCatches` | Cubesat Space Protocol/UART/src/libcsp/src/csp_crc32.c:103-129 | A change inside four consecutive bytes of the data, or of the tag, is rejected |
| `Sha1.HashInPieces` | Cubesat Space Protocol/UART/src/libcsp/src/crypto/csp_sha1.c:142-201 | However a message is cut into pieces for csp_sha1_process, csp_sha1_done gives the FIPS 180-4 digest of the whole |
| `Sha1Answers.DigestOfAbc` | Cubesat Space Protocol/UART/src/libcsp/src/crypto/csp_sha1.c:130-201 | The one-block example of FIPS 180: the digest of abc is a9993e36 4706816a ba3e2571 7850c26c 9cd0d89d, by eighty rounds on literal words |
| `Sha1Answers.DigestOfLong` | Cubesat Space Protocol/UART/src/libcsp/src/crypto/csp_sha1.c:130-201 | The two-block example of FIPS 180 |
| `Sha1.Sha1State.Process` | Cubesat Space Protocol/UART/src/libcsp/src/crypto/csp_sha1.c:142-166 | The state afterwards stands for everything hashed so far followed by the new bytes |
| `Sha1.Sha1State.Done` | Cubesat Space Protocol/UART/src/libcsp/src/crypto/csp_sha1.c:168-201 | Padding (sections 5.1.1 of FIPS 180-4) and the big-endian result: the digest of what was hashed |
| `Sha1.Sha1State.Compress` | Cubesat Space Protocol/UART/src/libcsp/src/crypto/csp_sha1.c:63-128 | The unrolled compression equals eighty single rounds (section 6.1.2 of FIPS 180-4) |
| `Sha1.MacroIsRound` | Cubesat Space Protocol/UART/src/libcsp/src/crypto/csp_sha1.c:53-61 | One macro call is one round of the standard with the five variables playing rotated roles |
| `Sha1.TwentyRounds` | Cubesat Space Protocol/UART/src/libcsp/src/crypto/csp_sha1.c:85-119 | Each of the four loops: four turns of five unrolled rounds equal twenty rounds of the standard |
| `Sha1.Schedule` | Cubesat Space Protocol/UART/src/libcsp/src/crypto/csp_sha1.c:67-80 | The message schedule in the W array |
| `Sha1.PadSplits` | Cubesat Space Protocol/UART/src/libcsp/src/crypto/csp_sha1.c:172-195 | The one or two final blocks are the end of the padded message |
| `Sha1.LengthIsBigEndian` | Cubesat Space Protocol/UART/src/libcsp/src/crypto/csp_sha1.c:172-195 | The padding ends with the length of the message in bits, eight big-endian bytes |
| `Sha1.HashConcat` | Cubesat Space Protocol/UART/src/libcsp/src/crypto/csp_sha1.c:142-166 | Hashing a concatenation of blocks is hashing one part after the other |
| `Hmac.HmacMemory` | Cubesat Space Protocol/UART/src/libcsp/src/crypto/csp_hmac.c:111-131 | For keys of any non-zero length the result is HMAC-SHA1 of section 2 of RFC 2104; an empty key is refused |
| `Sha1Answers.HmacOfHiThere` | Cubesat Space Protocol/UART/src/libcsp/src/crypto/csp_hmac.c:111-131 | The first test case of RFC 2202: key 0b repeated twenty times, text Hi There |
| `Hmac.HmacState.Process` | Cubesat Space Protocol/UART/src/libcsp/src/crypto/csp_hmac.c:72-82 | Keeps hashing the text behind the inner pad |
| `Hmac.HmacState.Done` | Cubesat Space Protocol/UART/src/libcsp/src/crypto/csp_hmac.c:84-109 | The outer hash over the inner digest |
| `Hmac.ExpandKey` | Cubesat Space Protocol/UART/src/libcsp/src/crypto/csp_hmac.c:49-58 | Keys longer than a block are hashed, others padded with zeros |
| `Hmac.KeysOfABlock` | Cubesat Space Protocol/UART/src/libcsp/src/crypto/csp_hmac.c:49-58 | A key of up to 64 bytes is used as it is in front of zeros, a longer one is replaced by its digest |
| `Xtea.EncryptPacket` | Cubesat Space Protocol/UART/src/libcsp/src/crypto/csp_xtea.c:125-148 | Encrypts the data with the keystream of the nonce and appends the nonce |
| `Xtea.DecryptPacket` | Cubesat Space Protocol/UART/src/libcsp/src/crypto/csp_xtea.c:157-181 | Takes the nonce off the end and runs the whole packet, nonce bytes included, through the cipher |
| `Xtea.CryptRoundTrip` | Cubesat Space Protocol/UART/src/libcsp/src/crypto/csp_xtea.c:94-181 | Decryption restores data and length although it also scrambles the nonce bytes |
| `Xtea.CryptAddsKeystream` | Cubesat Space Protocol/UART/src/libcsp/src/crypto/csp_xtea.c:77 | Data before and after the cipher differ by exactly the keystream: byte j by byte j % 8 of block j / 8 |
| `Xtea.CryptOfZeros` | Cubesat Space Protocol/UART/src/libcsp/src/crypto/csp_xtea.c:94-123 | Zeros are encrypted as the keystream itself |
| `XteaAnswers.Vector` | Cubesat Space Protocol/UART/src/libcsp/src/crypto/csp_xtea.c:50-71 | A published test vector of the block cipher, by 32 cycles on literal words |
| `XteaAnswers.CryptHello` | Cubesat Space Protocol/UART/src/libcsp/src/crypto/csp_xtea.c:94-123 | The five bytes of hello under key 0 .. 15 and nonce 0x01020304 become ee e8 19 c7 69 |
| `Xtea.Encrypt` | Cubesat Space Protocol/UART/src/libcsp/src/crypto/csp_xtea.c:94-123 | The block loop XORs byte i with keystream byte i, in place |
| `Xtea.EncryptBlock` | Cubesat Space Protocol/UART/src/libcsp/src/crypto/csp_xtea.c:50-71 | The 32-round block cipher on the eight bytes of a block, little-endian |
| `Xtea.OnlyFirstBlocksShareKeystream` | Cubesat Space Protocol/UART/src/libcsp/src/crypto/csp_xtea.c:104-120 | The counter is used before it is incremented, so blocks 0 and 1 of a packet have the same keystream, and no other two of its blocks have, up to 2^32 |
| `Xtea.KeystreamRepeatsIff` | Cubesat Space Protocol/UART/src/libcsp/src/crypto/csp_xtea.c:104-120 | Blocks of one packet or of two, under one key, have equal keystreams exactly when the nonces are equal and the counters are the same modulo 2^32 |
| `Xtea.CipherIsInjective` | Cubesat Space Protocol/UART/src/libcsp/src/crypto/csp_xtea.c:50-71 | The 32 rounds lose nothing: two blocks have the same encryption exactly when they are the same |
| `Xtea.CycleIsInjective` | Cubesat Space Protocol/UART/src/libcsp/src/crypto/csp_xtea.c:61-66 | Each round loses nothing, whatever the key |
| `Protection.ProtectionRoundTrip` | Cubesat Space Protocol/UART/src/libcsp/src/csp_route.c:85-155 | For every payload, nonce, key pair and combination of HMAC, CRC32 and XTEA that fits the buffer and meets the required options, the security check undoes csp_send_direct's steps and restores data and length |
| `Protection.SharedSecrets` | Cubesat Space Protocol/UART/src/libcsp/src/crypto/csp_hmac.c:133-144 | Nodes that set their keys from the same secrets, of any lengths, restore each other's packets |
| `Protection.ProtectsWhatFits` | Cubesat Space Protocol/UART/src/libcsp/src/csp_io.c:196-241 | Protection succeeds exactly when the tags fit the buffer |
| `Protection.ProtectedLayout` | Cubesat Space Protocol/UART/src/libcsp/src/csp_io.c:196-241 | The protected packet is the data, four bytes of its HMAC, the CRC of both, all of that under the keystream, and the nonce in the clear, each part exactly when its flag is set |
| `Protection.CorruptionIsDetected` | Cubesat Space Protocol/UART/src/libcsp/src/csp_route.c:103-120 | With the CRC on, a change inside four consecutive bytes of a protected packet's covered part is rejected |
| `Protection.Protect` | Cubesat Space Protocol/UART/src/libcsp/src/csp_io.c:196-241 | csp_send_direct's protection steps in place, in the order HMAC, CRC32, XTEA, with the error of the first that does not fit |
| `Protection.SecurityCheck` | Cubesat Space Protocol/UART/src/libcsp/src/csp_route.c:85-155 | The check in place: result, contents and interface error counters as the specification function |
| `Protection.HmacAppend` | Cubesat Space Protocol/UART/src/libcsp/src/crypto/csp_hmac.c:146-166 | Appends the first four bytes of the HMAC when they fit |
| `Protection.HmacVerify` | Cubesat Space Protocol/UART/src/libcsp/src/crypto/csp_hmac.c:168-193 | Accepts exactly packets that end in the HMAC of the rest, and takes it off |
| `Protection.HmacRoundTrip` | Cubesat Space Protocol/UART/src/libcsp/src/crypto/csp_hmac.c:146-193 | What append added verify accepts and removes |
| `GaloisField.Field.Mul` | Loris Communication Protocol/include/correct/reed-solomon/field.h:94-110 | With a primitive polynomial, table multiplication equals the carry-less product reduced by it, for all pairs; with any polynomial of degree 8 the table index stays inside 0 .. 511 |
| `GaloisField.MulMultipliesIff` | Loris Communication Protocol/include/correct/reed-solomon/field.h:94-110 | It does so on all pairs exactly when the polynomial is primitive, whatever the unwritten memory of the table held |
| `GaloisField.Field.Div` | Loris Communication Protocol/include/correct/reed-solomon/field.h:112-129 | With a primitive polynomial the quotient times the divisor is the dividend; division by zero gives zero |
| `GaloisField.DivMul` | Loris Communication Protocol/include/correct/reed-solomon/field.h:112-129 | Division undoes multiplication for every non-zero divisor |
| `GaloisField.Field.Pow` | Loris Communication Protocol/include/correct/reed-solomon/field.h:155-166 | For non-zero elements and every mathematical integer n the n-fold product, of the inverse for negative n; the C remainder is truncated |
| `GaloisField.PowIsRepeatedIff` | Loris Communication Protocol/include/correct/reed-solomon/field.h:155-166 | field_pow is the n-fold product exactly when the element is not zero or n is zero: powers of zero come out as one |
| `GaloisField.Field.MulLogElement` | Loris Communication Protocol/include/correct/reed-solomon/field.h:19-24 | Looking up the sum of two logarithms multiplies their elements |
| `GaloisField.MulLog` | Loris Communication Protocol/include/correct/reed-solomon/field.h:131-144 | The sum of logarithms, kept in 0 .. 255, is a logarithm of the product |
| `GaloisField.DivLog` | Loris Communication Protocol/include/correct/reed-solomon/field.h:146-153 | The difference, kept in 0 .. 255, is a logarithm of the quotient |
| `GaloisField.SumOf` | Loris Communication Protocol/include/correct/reed-solomon/field.h:77-92 | The closed form equals the n-fold exclusive or |
| `GaloisField.Field.constructor` | Loris Communication Protocol/include/correct/reed-solomon/field.h:26-62 | For every polynomial whose writes stay inside the table the loop fills exp[i] with alpha^i for all 512 rows and log with an exponent in 1 .. 255 of every power of alpha |
| `GaloisField.WritesStayInsideIff` | Loris Communication Protocol/include/correct/reed-solomon/field.h:48-55 | The 255 writes to the 256 logarithms stay inside exactly when the 16-bit polynomial is in 0x100 .. 0x1FF |
| `GaloisField.Field.Fill` | Loris Communication Protocol/include/correct/reed-solomon/field.h:48-55 | One turn of that loop |
| `GaloisField.Field.LogOf` | Loris Communication Protocol/include/correct/reed-solomon/field.h:48-55 | With a primitive polynomial every non-zero element has a stored logarithm between 1 and 255, and it is right |
| `GaloisField.Field.LogOfOne` | Loris Communication Protocol/include/correct/reed-solomon/field.h:53 | log[1] ends up as 255, not 0 |
| `GaloisField.ProductDistributes` | Loris Communication Protocol/include/correct/reed-solomon/field.h:69-75 | Reduced carry-less multiplication distributes over field_add |
| `GaloisField.ProductAssociates` | Loris Communication Protocol/include/correct/reed-solomon/field.h:94-110 | It associates |
| `GaloisField.ProductCommutes` | Loris Communication Protocol/include/correct/reed-solomon/field.h:94-110 | It commutes |
| `GaloisField.QuotientIsUnique` | Loris Communication Protocol/include/correct/reed-solomon/field.h:112-129 | A product determines its other factor |
| `GaloisPowers.EveryElementIsPower` | Loris Communication Protocol/include/correct/reed-solomon/field.h:35 | With a primitive polynomial every non-zero element is one of alpha's first 255 powers |
| `GaloisPowers.OfferedArePrimitive` | Loris Communication Protocol/include/correct.h:132-181 | Every polynomial the library's header offers is primitive: alpha^255 is one and no smaller positive power is |
| `GaloisPowers.PrimitiveIff` | Loris Communication Protocol/include/correct/reed-solomon/field.h:35 | A polynomial is primitive exactly when alpha^255 is one and alpha^85, alpha^51 and alpha^15 are not |
| `GaloisPowers.MissingElement` | Loris Communication Protocol/include/correct/reed-solomon/field.h:35 | With a polynomial that is not primitive some non-zero element is no power of alpha at all |
| `GaloisPowers.PowerAdds` | Loris Communication Protocol/include/correct/reed-solomon/field.h:98-109 | Powers of alpha multiply by adding exponents, whatever the polynomial |
| `Galois.ProductXtime` | Loris Communication Protocol/include/correct/reed-solomon/field.h:49-50 | Doubling with reduction, the loop's step, commutes with multiplication, whatever the polynomial |
| `Galois.RemainderTwice` | Loris Communication Protocol/include/correct/reed-solomon/field.h:49-50 | Doubling a polynomial before dividing is doubling its remainder with reduction |
| `ConnTable.RunKeepsInv` | Cubesat Space Protocol/UART/src/libcsp/src/csp_conn.c:185-284 | In every run of connects, packets, binds, server sockets and closes, no two open client connections share the (src, dst, dport, sport) key or an ephemeral port |
| `ConnTable.DemultiplexingIsUnambiguous` | Cubesat Space Protocol/UART/src/libcsp/src/csp_route.c:248-249 | So a packet belongs to at most one open client connection |
| `ConnTable.AnswersComeBack` | Cubesat Space Protocol/UART/src/libcsp/src/csp_conn.c:345-356 | In every run, answers to what an open client connection sends match it and no other, exactly when its incoming destination is this node's address; one opened by a broadcast never sees them |
| `ConnTable.ConnectReachesPeer` | Cubesat Space Protocol/UART/src/libcsp/src/csp_conn.c:345-356 | In every run a connection csp_connect makes sends to the node and port asked for, from this node and the new port, with the priority and flags asked for, cut to the widths of the fields; what that node and port send back matches it and no other |
| `ConnTable.ArrivalOpensIff` | Cubesat Space Protocol/UART/src/libcsp/src/csp_route.c:231-287 | A packet opens a connection exactly when it is for this node or address 31, new, secure, for a port whose socket is not connection-less, and an entry is closed; the connection answers to where the packet came from, with its priority and flags |
| `ConnTable.BoundSocketIsFound` | Cubesat Space Protocol/UART/src/libcsp/src/csp_port.c:33-113 | A socket that csp_bind takes is found for its port, a catch-all socket for every port up to port_max_bind without its own, and every other look-up stays as it was |
| `ConnTable.NoSocketAbove` | Cubesat Space Protocol/UART/src/libcsp/src/csp_port.c:37-54 | No socket is found for a port above port_max_bind, not even the catch-all one, and none that was not bound |
| `ConnTable.ServerTakesBlankEntry` | Cubesat Space Protocol/UART/src/libcsp/src/csp_conn.c:223-264 | A server socket takes a closed entry exactly when there is one, and clears its identifiers; every other entry stays |
| `ConnTable.ConnectAlwaysFindsPort` | Cubesat Space Protocol/UART/src/libcsp/src/csp_conn.c:411-426 | With conn_max <= 61 - port_max_bind the port search ends in every reachable state, and csp_connect makes a connection on a port nobody used exactly when some entry is closed; nothing else changes |
| `ConnTable.ApplyKeepsInv` | Cubesat Space Protocol/UART/src/libcsp/src/csp_route.c:231-287 | Each event keeps the uniqueness invariant; incoming connections are on bound ports only |
| `ConnPool.LoopEndsIff` | Cubesat Space Protocol/UART/src/libcsp/src/csp_conn.c:411-426 | The port loop ends exactly when it starts above the lowest port or some port is unused: it compares before it wraps |
| `ConnTable.OnePortIsATrap` | Cubesat Space Protocol/UART/src/libcsp/src/csp_conn.c:411-426 | A reachable pool on which it never ends: with port_max_bind 62 the first csp_connect takes the only port and the next one hangs |
| `ConnPool.SearchFindsIff` | Cubesat Space Protocol/UART/src/libcsp/src/csp_conn.c:411-426 | It finds a port exactly when one other than the last given is unused, or any if the last given is the lowest |
| `ConnPool.EnoughPorts` | Cubesat Space Protocol/UART/src/libcsp/src/csp_conn.c:411-426 | Pigeonhole: so few connections leave a port other than the last given unused |
| `ConnPool.AllocFailsIffFull` | Cubesat Space Protocol/UART/src/libcsp/src/csp_conn.c:232-256 | The round-robin allocation fails exactly when every entry is open |
| `ConnTable.Connections.New` | Cubesat Space Protocol/UART/src/libcsp/src/csp_conn.c:223-284 | Round-robin allocation and filling of the entry in place |
| `ConnTable.Connections.FindUnusedPort` | Cubesat Space Protocol/UART/src/libcsp/src/csp_conn.c:411-426 | The port loop in place finds the first unused port of its visiting order, or restores sport |
| `ConnTable.Connections.Connect` | Cubesat Space Protocol/UART/src/libcsp/src/csp_conn.c:340-433 | Port search followed by allocation |
| `ConnTable.Connections.FindKey` | Cubesat Space Protocol/UART/src/libcsp/src/csp_conn.c:185-198 | Finds an open client connection with the key, and none exactly when there is none |
| `ConnTable.Connections.FindPort` | Cubesat Space Protocol/UART/src/libcsp/src/csp_conn.c:185-198 | The same for a destination port |
| `ConnTable.Connections.RouteIncoming` | Cubesat Space Protocol/UART/src/libcsp/src/csp_route.c:231-287 | New connections for packets to this node on bound ports, with reversed identifiers |
| `ConnTable.Connections.Bind` | Cubesat Space Protocol/UART/src/libcsp/src/csp_port.c:88-113 | A port is bound once, up to port_max_bind or as catch-all |
| `ConnTable.Connections.constructor` | Cubesat Space Protocol/UART/src/libcsp/src/csp_conn.c:96-146 | All entries closed, sport anywhere in the ephemeral range |
| `CspId.MasksAreKeys` | Cubesat Space Protocol/UART/src/libcsp/include/csp/csp_types.h:106-117 | The masked comparisons of packed headers are the comparisons of fields in the connection pool: addresses and ports for the connection mask, the destination port for the port mask; priority and flags do not matter |
| `WireAnswers.HeaderLayout` | Cubesat Space Protocol/UART/src/libcsp/include/csp/csp_types.h:84-117 | The 32 bits of the packet header in order: priority, source, destination, destination port, source port, flags |
| `WireAnswers.HeaderExample` | Cubesat Space Protocol/UART/src/libcsp/include/csp/csp_types.h:84-117 | One header word and all its six fields |
| `Routes.LongestMatchAfterSets` | Cubesat Space Protocol/UART/src/libcsp/src/rtable/csp_rtable_cidr.c:37-131 | After any calls of csp_rtable_set a route is found exactly when some entry covers the destination, and it is the longest match, the later entry among equals |
| `Routes.LookupIsLongestMatch` | Cubesat Space Protocol/UART/src/libcsp/src/rtable/csp_rtable_cidr.c:37-86 | In any list without repeated address and mask the search returns the longest match |
| `Routes.CoversIff` | Cubesat Space Protocol/UART/src/libcsp/src/rtable/csp_rtable_cidr.c:55-63 | An entry covers exactly the addresses that agree with its own in the network bits, with the host bits computed in a byte as the code does |
| `Routes.CoversRange` | Cubesat Space Protocol/UART/src/libcsp/src/rtable/csp_rtable_cidr.c:55-63 | These are 2^(5 - mask) addresses in a row, from a multiple of that number on |
| `Routes.SetAllWellFormed` | Cubesat Space Protocol/UART/src/libcsp/src/rtable/csp_rtable_cidr.c:97-131 | No sequence of calls lists an address and mask twice or a mask over five bits |
| `Routes.LastSetCounts` | Cubesat Space Protocol/UART/src/libcsp/src/rtable/csp_rtable_cidr.c:97-131 | The last successful call for an address and mask counts, and no other entry is lost |
| `Routes.SetChangesOnly` | Cubesat Space Protocol/UART/src/libcsp/src/rtable/csp_rtable_cidr.c:97-131 | What is in the list after a call: the entry asked for and every entry of another address or mask, or, without memory for a new entry, what was in it before |
| `Routes.TablesAgree` | Cubesat Space Protocol/UART/src/libcsp/src/rtable/csp_rtable_static.c:28-54 | After calls that name one address for all defaults, both tables route every destination alike |
| `Routes.TablesDisagree` | Cubesat Space Protocol/UART/src/libcsp/src/rtable/csp_rtable_static.c:49 | Three calls with two default addresses after which they do not |
| `Routes.TablesAgreeIff` | Cubesat Space Protocol/UART/src/libcsp/src/rtable/csp_rtable_static.c:28-54 | After any calls both tables carry out or refuse, they route every destination alike exactly when every address has a host route or the list's last default has the route of the latest default set |
| `Routes.DefaultCallAgreesIff` | Cubesat Space Protocol/UART/src/libcsp/src/rtable/csp_rtable_static.c:49 | Step by step: after a default is set the tables agree exactly when every address has a host route, or the list's last default has that route already, or it is last in the list |
| `Routes.WriteStaysInsideIff` | Cubesat Space Protocol/UART/src/libcsp/src/rtable/csp_rtable_static.c:40-54 | csp_rtable_set writes inside the 33 slots exactly when the call is not a host route to address 255 |
| `RouteTables.CidrTable.Find` | Cubesat Space Protocol/UART/src/libcsp/src/rtable/csp_rtable_cidr.c:37-86 | The list walk returns the entry the specification names, or null |
| `RouteTables.CidrTable.FindRoute` | Cubesat Space Protocol/UART/src/libcsp/src/rtable/csp_rtable_cidr.c:88-95 | The route of that entry |
| `RouteTables.CidrTable.SetInternal` | Cubesat Space Protocol/UART/src/libcsp/src/rtable/csp_rtable_cidr.c:97-131 | Overwrites the entry for the address and mask or hangs a new one on the end |
| `RouteTables.CidrTable.Append` | Cubesat Space Protocol/UART/src/libcsp/src/rtable/csp_rtable_cidr.c:116-120 | The walk to the end of the list keeps every entry and adds one |
| `RouteTables.CidrTable.Set` | Cubesat Space Protocol/UART/src/libcsp/src/rtable/csp_rtable.c:89-105 | Normalises the old default address, refuses bad arguments, and sets |
| `RouteTables.StaticTable.Set` | Cubesat Space Protocol/UART/src/libcsp/src/rtable/csp_rtable_static.c:40-54 | Writes the slot of the address or the default slot, or refuses the call; for every call whose write stays inside the table |
| `RouteTables.StaticTable.FindRoute` | Cubesat Space Protocol/UART/src/libcsp/src/rtable/csp_rtable_static.c:28-38 | The slot of the address, else the default slot |

## Left out

- Threads, semaphores, clocks, OS queues and malloc: steps are atomic, queues are bounded sequences, time, random
  numbers and the success of an allocation are inputs.
- RdpRuns.DeliveredIsPrefix: needs room in the application queue whenever the expected segment completes a run, because
  csp_rdp_rx_queue_flush ignores a failed enqueue (`RdpQueues.FlushLosesNothingIffRoom` is the exact condition), and
  packets less than 2^15 sequence numbers old, and a window from 1 to 2^14 - 1, half of the wrapping comparisons' range;
  packet buffers are assumed to be had, so the leak on a failed copy is not modelled.
- RdpRuns.NothingIsLost: says where every payload is; that it can always arrive is `RdpProgress.DeliveryGoesOnIff`, that
  it does would need assumptions on the network.
- RdpProgress.DeliveryGoesOnIff: about runs in which the flush loses nothing, like the delivery theorems.
- RdpHandshake.HandshakeMatches: starts from one incarnation of the connection; SYN_SENT does not check ack_nr, and
  `RdpHandshake.SynAckAgreesIff` says exactly when a stale SYN/ACK of an earlier one does harm.
- RdpConnection.Connection.NewPacket: segments hold at least a header (it is a record here; its byte layout, packet
  priorities and the reference counts of buffers are not modelled), and options missing from a short SYN are an input.
- RdpLife.CloseAgreement: for traces in which csp_rdp_connect comes in time, which `RdpLife.LifeIffInTime` shows to be the
  exact condition, and packets whose RDP flag matches the connection's; `RdpLife.FlagMismatchBreaks` says exactly when
  RDP packets on other connections break it, and `RdpLife.DatagramKeeps` that datagrams never do.
- RdpLife.ReorderQueueInRun: a convenient sufficient condition on announced and configured windows; the exact one, on the
  states, is `RdpLife.ReorderQueueIff`.
- RdpAcks.LagInTrace: for an application that leaves more than twice the window free when a packet comes, no csp_rdp_connect
  on an open connection, and a window and delay count that fit into half the range of the numbers; without the room the
  code sends no acknowledgement at all, as `RdpAcks.ExpectedIsAcked` says.
- RdpAcks.RoomyIff: twice the signed window is a mathematical integer; the C product overflows for windows of 2^30 and more
  (as unsigned numbers, below 3 * 2^30).
- RdpConnection.Connection.SendEack: the list of numbers is as long as it gets here; the code writes its two bytes per
  queued segment, at most 4 * rdp_max_window bytes, into one buffer without a size test.
- Kiss.Receiver.ReceiveByte: the byte of memory behind the receive buffer is a field of its own; what else it may hold is
  not modelled.
- Can.CanReceiver.CanRx: a packet in the making is a value inside its element, not a separate buffer, and the simulated
  frame loss (disabled in the code) is left out; the transmit-side error counter is not kept.
- CanInterleaving.InterleavedDelivery: buffers are available; what happens without them is covered by
  `CanReassembly.OnlyWholePackets`.
- Sfp.Conn.Recv: the largest block to be had is below 2^31 bytes, which is also the range of the returned int size.
- Sha1.Sha1State.Done: messages shorter than 2^64 bits, as in FIPS 180-4.
- Xtea.EncryptPacket: that the keystream is hard to guess is not claimed; when it repeats is `Xtea.KeystreamRepeatsIff`.
- Protection.SecurityCheck: a required CRC32 that is missing is only warned about by the code, and so accepted here; the
  HMAC over the header (`include_header`) is not used by these callers and not modelled.
- Protection.CorruptionIsDetected: detection by the CRC; that HMAC tags are hard to forge is not claimed.
- GaloisField.Field.Pow: on mathematical integers; overflow of the C int product is not modelled.
- GaloisField.Field.constructor: for polynomials of degree 8; `GaloisField.WritesStayInsideIff` shows that with any other
  the code writes outside its table.
- ConnTable.Connections.Connect: the transport's own connect and the connection options come after this point and are
  part of the RDP model; the packed header is a record here, tied to the bits by `CspId.MasksAreKeys`.
- ConnTable.Connections.FindUnusedPort: needs the condition under which the loop ends, which `ConnPool.LoopEndsIff` shows
  to be exact.
- RouteTables.StaticTable.Set: not for a host route to address 255, which the code lets through although it has no slot;
  `Routes.WriteStaysInsideIff` shows that this is the only such call.
- Routes.TablesAgreeIff: for calls both tables carry out or both refuse, so with masks of no bits or five and memory.
- KissSync.NextFrameArrivesIff: for buffers that hold at least an empty packet.
- csp_rtable_parse and csp_rtable_save (text), QOS queues, promiscuous mode, bridge, deduplication, the CSP services,
  and the drivers other than KISS and CAN: plumbing that would only add easy members.
- Reed-Solomon and Viterbi coding: their sources are not part of this model; only the field arithmetic is.
