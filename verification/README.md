# A model of the libutp connection engine

This project models the C++ engine of go-libutp, an implementation of the µTP transport (BEP 29): a
reliable ordered byte stream over datagrams that may be lost, duplicated or reordered. It covers the
socket (`utp_internal.cpp`), the estimators inside it, the socket table (`utp_hash.cpp`) and the
lists of a context (`utp_internal.h`, `utp_templates.h`).

What is proved, from the outside in:

* **The stream.** Two sockets joined by a network that keeps every datagram ever sent and delivers
  any of them any number of times, in any order or never. At every step of every run the bytes posted
  at one end are a prefix of the bytes that calls at the other got accepted; every packet is in the send buffer, in
  the reorder buffer or delivered; end of file is posted at most once, for a FIN that was sent, after
  the whole stream; an acknowledged FIN means the peer has everything
  (`Streams.EveryRunIsReliable`). The socket class, connected by its own handshake through lost and
  repeated requests, performs exactly such runs (`Conversation.Converse`).
* **One socket against any peer.** `Sockets.UtpSocket` has the fields, rings and loops of the source.
  Its invariant, `Valid`, contains the authors' own asserts and holds between any two calls whatever
  the peer sends: `cur_window` is the sum of the payloads in flight and no subtraction underflows, the
  window holds at most 1024 packets (1023 before the FIN), its oldest slot is occupied and every slot
  outside it is empty, `reorder_count` counts the occupied reorder slots before end of file, and the
  slots of `ack_nr` and `ack_nr + 1` are empty. The 16-bit numbers are tied to unbounded ones.
* **The searches and estimators**, each over every run: the wrapping sliding minimum, the round-trip
  estimator (in range, and never far from section 2 of RFC 6298 in exact arithmetic once a first
  sample is positive), the clock-drift
  average, the congestion window, and the MTU search.
* **The tables.** The hash table refines a finite map through growth and reuse, its iterator visits
  everything once while elements are deleted, and demultiplexing, deferred acknowledgements and reset
  records keep their books.

How it is built: `connection.dfy` holds the connection as a value and each operation as a function or
relation on it, with the lemma that the operation keeps the invariant; `socket.dfy` holds the class,
whose methods change fields and arrays in place and are proved to perform those operations;
`sender.dfy`, `receiver.dfy` and `endpoint.dfy` hold the two halves and what a logged datagram
promises; `stream.dfy` and `conversation.dfy` put two endpoints together. A ring buffer is viewed
through the unbounded number it starts at (`ring.dfy`), so that slots become window positions.

Where the code and its comments differ, the code is followed: the past-EOF test is a plain
comparison of 16-bit numbers that does not wrap; a reset overwrites the state before the error code is chosen,
so a refused dial is reported as reset (`PeerReset`); a base of zero means "none" to the drift
estimator even when the base has moved there by itself (`DriftEstimator.Add`); the acceptor's id is
32 bits wide while the wire carries 16, so the last seed never pairs up (`PairsUp`); a search that settled
at the lowest size does not start again (`SettledAtFloor`); a round-trip sample of zero counts as none
while it is the first (`ZeroFirstIsFar`).

## Model

| member | source | states |
|---|---|---|
| `Streams.EveryRunIsReliable` | utp_internal.cpp:1792-2512 | In every run and at every step, for the bytes that the calls of each application got accepted: the bytes posted at the other end are a prefix, every packet of them is held, waiting or delivered, end of file comes once and only after all of them, and an acknowledged FIN implies full delivery |
| `Streams.RunTracked` | utp_internal.cpp:1912-2501 | In every reachable state both directions are in order and what was queued is exactly what was accepted |
| `Streams.StepTracked` | utp_internal.cpp:1912-2501 | Each step keeps that, whether an endpoint acts on its own or a datagram is delivered |
| `Streams.DeliveryKeepsBoth` | utp_internal.cpp:1912-2501 | Processing any recent datagram of the peer's log, however old or often delivered, keeps both directions |
| `Streams.LocalKeepsBoth` | utp_internal.cpp:1000-1107 | Whatever an endpoint does on its own (writes, timeouts, close, shutdown, errors) keeps both directions |
| `Streams.HandedKeepsBytes` | utp_internal.cpp:1792-2512 | Outside the handshake a packet that comes in adds nothing to what its receiver sends |
| `Streams.SenderMoves` | utp_internal.cpp:1354-1425 | A sender that releases only packets the acknowledgement covers, truthfully, disturbs nothing |
| `Streams.PayloadDelivered` | utp_internal.cpp:2376-2501 | A payload taken in order or early leaves posted bytes equal to the sender's history up to `ack_nr` |
| `Streams.ArriveFits` | utp_internal.cpp:2358-2501 | Every case of a packet's arrival keeps the receiver in agreement with the sender's history |
| `Streams.FinWasAcked` | utp_internal.cpp:2213-2218 | `fin_sent_acked` is set only when the peer has received every packet including the FIN |
| `Streams.FinStaysLast` | utp_internal.cpp:3223-3228 | Nothing is ever queued behind a FIN that was transmitted |
| `Streams.WindowBehind` | utp_internal.cpp:2229-2279 | The receiver is never behind the sender's oldest kept packet, and the sender never more than 1024 ahead |
| `Streams.OffsetTrue` | utp_internal.cpp:1912-1925 | The 16-bit offset of a recent datagram, when accepted, is its true offset |
| `Streams.StaleIsMisplaced` | utp_internal.cpp:1912-1925 | The bound on staleness is exact for the offset test: a datagram from the rest of that turn is taken for one of the next 1024 packets |
| `Streams.StaleIsPosted` | utp_internal.cpp:2376-2388 | A data packet one turn old whose acknowledgement number is believed is posted in place of the one that is due |
| `Streams.StaleBreaks` | utp_internal.cpp:2376-2388 | So such a delivery makes the run unreliable unless the stream repeats itself there |
| `Streams.StaleAckOverclaims` | utp_internal.cpp:1929-1932 | An acknowledgement number a turn old or more is read as one of packets it does not cover |
| `Streams.HandshakeDone` | utp_internal.cpp:2199-2279 | A request, however often it was sent, its acceptance and the answer leave both directions in their starting state, with what was accepted inside the connect notification as the stream so far, and the request is gone from the window |
| `Conversation.Converse` | utp_internal.cpp:1792-2512 | Two sockets perform any script of writes, ticks, closes, shutdowns, acknowledgements, resets, errors and deliveries: every entry leads to the next state of a run, the accepted streams are those of the calls' own results, and every moment before which only recent datagrams were delivered is reliable |
| `Conversation.Play` | utp_internal.cpp:1792-2512 | The same from any two connected sockets: the whole script is performed and accounted for |
| `Conversation.ScriptTracked` | utp_internal.cpp:1912-2501 | A performed script is in order up to the first delivery that is not recent |
| `Conversation.PerformsIsStep` | utp_internal.cpp:1912-2501 | A performed entry that delivers nothing stale is a step of the two-endpoint system |
| `Conversation.Establish` | utp_internal.cpp:2767-2843 | A fresh socket dials another through any ticks: connected exactly if at most two of them were timeouts, and then both directions start in order |
| `Conversation.Wait` | utp_internal.cpp:1197-1213 | The request is sent again at each timeout and given up exactly at the third |
| `Conversation.Act` | utp_internal.cpp:3189-3463 | Every call of the application, tick or error is a local step with its own effect on the socket, and adds to the stream exactly what the call's result says was accepted: the first `result` bytes of the first 1024 pieces joined; a write on a connected socket that takes fewer leaves no room for more |
| `Conversation.Offer` | utp_internal.cpp:3189-3275 | The same for a write |
| `Conversation.ActElse` | utp_internal.cpp:1126-1294 | The same for the other calls |
| `Conversation.DeliverTo` | utp_internal.cpp:2919-2937 | Handing a socket any datagram of its peer's log, recent or not, is processing that datagram |
| `Sockets.UtpSocket.constructor` | utp_internal.cpp:2609-2670 | A new socket satisfies the invariant with everything empty |
| `Sockets.UtpSocket.SendPacket` | utp_internal.cpp:875-937 | One packet is transmitted: counted in flight if it was not, its contents unchanged, and logged under its true number |
| `Sockets.UtpSocket.FlushPackets` | utp_internal.cpp:971-994 | Across the 16-bit wrap, exactly the packets that are due are sent, oldest first, up to the first waiting packet that finds the quota used up; the bytes in flight stay within each of the congestion window, the send buffer and the peer's window when no waiting packet is oversized; it stops early only where one of the three has no room for a packet or 1023 packets are queued |
| `Sockets.UtpSocket.FlushSlot` | utp_internal.cpp:978-991 | One packet is sent, skipped because it is in flight or small and newest, or, exactly when it waits and there is no quota, ends the loop; nothing is sent unless a whole packet fits under each of the three bounds |
| `Sockets.UtpSocket.FlushLoop` | utp_internal.cpp:973-993 | The loop itself: how far it gets, and that it is full exactly when it stops early |
| `Connection.FlushedSlot` | utp_internal.cpp:978-991 | Flushing transmits once more each packet that was never sent or is considered lost, but not a small newest one behind others, and changes no other slot |
| `Connection.FlushLogHas` | utp_internal.cpp:978-991 | The datagrams sent are exactly those packets, each once, in the order of their numbers |
| `Sockets.UtpSocket.DrainedMeans` | utp_internal.cpp:941-994 | After flushing, a packet still waiting is small, newest and behind others, or one of the three bounds or the count of 1023 is reached |
| `Sender.InFlightIs` | utp_internal.cpp:885-895 | The bytes in flight are the payloads of the packets that were transmitted and are not considered lost |
| `Connection.QuotaKept` | utp_internal.cpp:941-962 | Sending only where a whole packet fits never exceeds the quota |
| `Sockets.UtpSocket.AckPacket` | utp_internal.cpp:1354-1425 | Three outcomes exactly as documented; on release the payload leaves `cur_window` without underflow |
| `Sockets.UtpSocket.ReleaseAcked` | utp_internal.cpp:2229-2279 | An accepted acknowledgement releases exactly the longest transmitted prefix it covers and slides the window to the next held packet |
| `Sockets.UtpSocket.DecodeMask` | utp_internal.cpp:1493-1601 | Exactly the transmitted window packets that a set bit denotes are released, never the oldest, for every base, length and wrap; the stack holds the top of exactly the packets reported missing after three later arrivals and not sent again lately, and stays within its array |
| `Connection.MissingHas` | utp_internal.cpp:1497-1582 | Of the mask positions, those sent again are exactly the transmitted window packets, past the oldest, that are not reported, have three later ones reported and are within 1024 of the fast-resend number; newest first |
| `Connection.AllMissingHas` | utp_internal.cpp:1584-1601 | With three later arrivals the packet after the acknowledged one is on top of them |
| `Connection.SetAboveCounts` | utp_internal.cpp:1533-1536 | The running count is the number of later window packets that the mask reports |
| `Sockets.UtpSocket.DecodeBit` | utp_internal.cpp:1497-1582 | The same for one position, with the assert that the oldest packet's slot is not touched |
| `Sockets.UtpSocket.PushResend` | utp_internal.cpp:1566-1570 | Dropping the deeper half of a full stack keeps its top |
| `Connection.OldestApart` | utp_internal.cpp:1553-1553 | The asserted difference of slots follows from the invariant |
| `Sockets.UtpSocket.ResendTop` | utp_internal.cpp:1603-1632 | Exactly the packets found in the slots of the topmost entries go out again, in order and four at most, each a packet of the window, even from stale entries |
| `Connection.MissingSent` | utp_internal.cpp:1603-1632 | Up to four of the oldest packets on a stack go out first, the oldest first, as far as the ring holds them |
| `Connection.MissingAreResent` | utp_internal.cpp:1603-1638 | So for a whole mask: the oldest of the packets reported missing are the first datagrams sent |
| `Sockets.UtpSocket.SelectiveAck` | utp_internal.cpp:1466-1638 | Decoding and resending together: hits are released, all else is kept, what is sent again is the top of the packets missing, the invariant holds, and the window is halved exactly when something was sent again and it is time |
| `Sockets.UtpSocket.BuildMask` | utp_internal.cpp:812-826 | A bit is set exactly for a packet truly in the reorder buffer, also when the scan runs around a 16-slot ring and when a keep-alive lowered `ack_nr` |
| `Sockets.UtpSocket.NextNotReceived` | utp_internal.cpp:808-811 | The assert before it: the packet after the acknowledged one has not been received, for a keep-alive too |
| `Sockets.UtpSocket.SendAck` | utp_internal.cpp:779-840 | An acknowledgement carries a mask exactly when packets wait out of order before end of file, and the mask is truthful |
| `Sockets.UtpSocket.SendKeepAlive` | utp_internal.cpp:842-852 | The same for one packet less, after which the invariant still holds |
| `Sockets.UtpSocket.QueueRound` | utp_internal.cpp:1010-1102 | One round fills up the last untransmitted packet, and any other round starts exactly one new packet; the gathered bytes are exactly the next ones of the vector |
| `Sockets.UtpSocket.RoomIs` | utp_internal.cpp:1023-1031 | The last packet is filled up to the packet size exactly when it was never transmitted and is smaller; otherwise nothing goes into it |
| `Sockets.UtpSocket.QueuePayload` | utp_internal.cpp:1009-1104 | The queueing loop ends; the stream grows by exactly the payload and the window by at most one packet |
| `Sockets.UtpSocket.WriteOutgoingPacket` | utp_internal.cpp:1000-1107 | The same, and afterwards nothing waits but a small newest packet unless the quota is used up; no packet already transmitted changes |
| `Sockets.UtpSocket.WriteVector` | utp_internal.cpp:3205-3275 | The bytes taken are exactly the first `sent` of the vector, none in the wrong state or after a FIN, otherwise all of them or as many as leave no room for a packet of the rest; the socket is marked full only when it is |
| `Sockets.UtpSocket.Writev` | utp_internal.cpp:3189-3275 | For every input: of the first 1024 pieces joined, the first `result` bytes join the stream, and on a connected socket that is all of them unless no room for a packet of the rest is left |
| `Iovecs.FlatJoins` | utp_internal.cpp:3203-3213 | What is offered is the pieces one after the other, each of them whole |
| `Sockets.UtpSocket.TakeReordered` | utp_internal.cpp:2422-2436 | The waiting packet is posted, its slot freed, the counter lowered |
| `Sockets.UtpSocket.DrainReordered` | utp_internal.cpp:2392-2437 | The draining loop ends in the state that draining packet by packet defines, end-of-file notice included, with the invariant restored |
| `Sockets.UtpSocket.StoreReordered` | utp_internal.cpp:2447-2501 | An early packet is kept in its own slot, or dropped as past the FIN or as a duplicate; growing the ring moves nothing |
| `Sockets.UtpSocket.ReceiveData` | utp_internal.cpp:2358-2509 | Any payload packet before the end of file: nothing received is forgotten, this packet becomes received unless it lies past the FIN by the 16-bit test, waits with its own payload if it is early, and if it was due is posted with all that waited behind it; the first FIN fixes the end |
| `Receiver.ArriveTookIn` | utp_internal.cpp:2358-2501 | The same for every arrival, stated on what is received, held and posted |
| `Receiver.DrainExact` | utp_internal.cpp:2392-2437 | Draining posts what waits in sequence and stops at the first gap or at the FIN |
| `Receiver.SwapDelivers` | utp_internal.cpp:2422-2501 | Two packets that change places on the way: the first to come waits and the second one posts both |
| `Connection.ProcessedTookIn` | utp_internal.cpp:1912-2501 | So an acceptable packet for an established connection, or the first data packet for an accepted one, is taken in wherever its number places it among the next 1024 |
| `Streams.DeliveredIsReceived` | utp_internal.cpp:1912-2501 | Between two endpoints: an acceptable recent datagram of the peer is received under its true number, and held with its payload while it waits |
| `Streams.FirstDataConnects` | utp_internal.cpp:2188-2388 | The dialler's first data packet connects the accepting socket, which posts exactly its payload |
| `Sockets.UtpSocket.CompleteConnect` | utp_internal.cpp:2199-2212 | The connect notification may write at once, in the middle of acknowledgement processing: it takes all it is given or leaves no room, and the invariant holds at that point and after |
| `Sockets.ReenteredMeans` | utp_internal.cpp:2199-2212 | What is accepted from inside the connect notification is the first part of the pieces it offers, joined, and nothing without an offer |
| `Sockets.UtpSocket.NoteProgress` | utp_internal.cpp:2188-2218 | By cases: an acknowledgement of everything after a FIN destroys a closed socket, the first data packet connects an accepted one, any other state stays |
| `Sockets.TransitionMoves` | utp_internal.cpp:2188-2344 | The state after the acknowledgement half, by cases, the writable mark included |
| `Sockets.UtpSocket.FastTimeoutRetry` | utp_internal.cpp:2291-2319 | After a timeout the oldest packet is sent again exactly when the acknowledgement stopped at the fast-resend number, which then moves past it |
| `Sockets.UtpSocket.ReleaseAndRetry` | utp_internal.cpp:2229-2319 | After the release, the retry just described is the last thing sent |
| `Sockets.UtpSocket.FlushNagle` | utp_internal.cpp:2282-2288 | A packet left alone in the window has been transmitted |
| `Sockets.UtpSocket.HandleConnectAck` | utp_internal.cpp:2199-2319 | The answer to a request releases what it covers and was sent, although the application may have written from inside the connect notification before the release |
| `Sockets.UtpSocket.ProcessConnectPart` | utp_internal.cpp:2173-2344 | So the whole acknowledgement half, for the answer to a request, does what it does for any packet |
| `Sockets.UtpSocket.ProcessAckPart` | utp_internal.cpp:2173-2344 | The acknowledgement half of packet processing: what it covers cumulatively or by its mask and was sent is gone, only that; a lone packet has been sent; the oldest packet and what the mask reports missing are sent again when due; a full socket becomes writable exactly when it is not full any more; the state moves by cases |
| `Sockets.UtpSocket.SackPhase` | utp_internal.cpp:2322-2325 | The mask of a packet releases what it denotes and resends what it makes worth sending again |
| `Sockets.UtpSocket.ProcessIncoming` | utp_internal.cpp:1792-2512 | For any packet: ignored if its numbers are not believable, otherwise acknowledgements, retry, mask and connect notification, then payload taken in, with the invariant kept |
| `Sockets.UtpSocket.MarkAllLost` | utp_internal.cpp:1239-1245 | Every transmitted packet is marked and nothing stays in flight, without underflow |
| `Sockets.UtpSocket.OnTimeout` | utp_internal.cpp:1156-1263 | By cases: an accepted socket is destroyed, a dialling one given up after two and an established one after four timeouts; otherwise only the oldest packet is in flight again, and the congestion window restarts unless a lone probe was lost |
| `Sockets.UtpSocket.CheckTimeouts` | utp_internal.cpp:1126-1294 | Any tick keeps the invariant and the stream; what it sends is exactly what flushing sends up to the quota, the oldest packet again after a timeout, and a keep-alive; a timeout leaves the oldest packet alone in flight or ends the connection |
| `Sockets.UtpSocket.TickedMeans` | utp_internal.cpp:1145-1284 | State by state, what a tick does to the state, the count of timeouts, both windows and the packets in flight |
| `Sockets.UtpSocket.TickSentMeans` | utp_internal.cpp:1250-1284 | After flushing it sends the oldest packet if a timeout was survived, and a keep-alive for one packet less if one is due |
| `Sockets.UtpSocket.RunTimers` | utp_internal.cpp:1145-1284 | The part after flushing |
| `Sockets.UtpSocket.Close` | utp_internal.cpp:3393-3431 | One FIN, no reading after, destroyed at once when the FIN is acknowledged or no connection is established; the stream's bytes are unchanged |
| `Sockets.UtpSocket.Shutdown` | utp_internal.cpp:3433-3463 | Either direction can be shut, the FIN is sent once, and the stream's bytes are unchanged |
| `Sockets.UtpSocket.PeerReset` | utp_internal.cpp:2902-2909 | The state after a reset, and that the error code is never "refused" |
| `Sockets.UtpSocket.IcmpError` | utp_internal.cpp:3152-3185 | The state after an ICMP error, and when the code is "refused" |
| `Sockets.UtpSocket.Connect` | utp_internal.cpp:2767-2843 | The request is queued and sent under a random number; a used socket is destroyed instead |
| `Sockets.UtpSocket.Accept` | utp_internal.cpp:3020-3036 | Both directions are numbered and the request answered |
| `Connection.AckedClears` | utp_internal.cpp:2229-2279 | After the release loops no packet covered by the acknowledgement and sent is held |
| `Connection.ClearedEarlier` | utp_internal.cpp:2199-2279 | A write before the release loops takes nothing away from that |
| `Connection.SackedClears` | utp_internal.cpp:1551-1556 | After decoding no transmitted packet but the oldest is held that the mask denotes |
| `Connection.NoUnderflow` | utp_internal.cpp:1243-1244 | A packet in flight is never larger than `cur_window` |
| `Connection.FreeAtSound` | utp_internal.cpp:1386-1421 | Releasing a packet keeps the accounting and everything logged true |
| `Connection.SendAtSound` | utp_internal.cpp:885-895 | Transmitting keeps the accounting, and logs what the history says |
| `Connection.AppendedSound` | utp_internal.cpp:1093-1100 | Queueing keeps window and ring shape through growth, and appends exactly the payload to the stream |
| `Connection.ExtendedSound` | utp_internal.cpp:1027-1036 | Extending the last untransmitted packet changes nothing transmitted |
| `Connection.MaskDistance` | utp_internal.cpp:1497-1528 | The wrapped window test on a mask position is the true one: it selects window packets, and never the oldest |
| `Connection.AckTest` | utp_internal.cpp:1819-1833 | The two wrapped comparisons accept exactly the acknowledgement numbers at most the window and three behind |
| `Connection.LosingEnd` | utp_internal.cpp:1239-1245 | After a timeout `cur_window` is zero |
| `Connection.EofTest` | utp_internal.cpp:2394-2394 | The 16-bit test for the FIN's number is the true one |
| `Sender.SndStepTransitive` | utp_internal.cpp:1000-1107 | What every sending-side action guarantees composes: history final once sent, releases only under an acknowledgement |
| `Receiver.ArriveSound` | utp_internal.cpp:2358-2501 | For any peer input the reorder buffer keeps its shape and count, and nothing received is forgotten |
| `Receiver.DrainSound` | utp_internal.cpp:2392-2437 | Draining from any intermediate state restores the shape, reaching end of file at most once |
| `Receiver.OutOfOrderSound` | utp_internal.cpp:2447-2501 | Storing an early packet keeps shape and count |
| `Endpoint.LogKept` | utp_internal.cpp:737-840 | Everything ever sent stays true as both halves of the endpoint move on |
| `Endpoint.MaskIsTrue` | utp_internal.cpp:812-826 | A set bit of a built mask denotes a received packet |
| `Iovecs.Gather` | utp_internal.cpp:1064-1078 | The copied bytes are the first of the vector, which keeps exactly the rest |
| `Rings.SizableCircularBuffer.Put` | utp_internal.cpp:200-200 | A store changes one position of the view and no other |
| `Rings.SizableCircularBuffer.EnsureSize` | utp_internal.cpp:203-203 | The view keeps its contents and only gains empty slots, enough for the index |
| `Rings.SizableCircularBuffer.Grow` | utp_internal.cpp:209-229 | The same for the copying loop |
| `Rings.RotatedPut` | utp_internal.cpp:199-200 | Within one turn of the ring no two numbers share a slot |
| `Rings.SlotIsMod` | utp_internal.cpp:199-200 | The slot of a number is its residue |
| `Words.AckTestIsDistance` | utp_internal.cpp:1825-1827 | The two-sided wrapped test is one distance test at every position of the wrap |
| `Words.Less32IsLess` | utp_internal.cpp:235-246 | Within half the space the wrapped comparison is the true one |
| `DelayHistory.DelayHist.AddSample` | utp_internal.cpp:299-378 | While samples stay in a band narrower than 2^31, base and slots are the true minima and the recorded delay the true non-negative distance; for any samples it is at most 2^31; the history moves to its next slot exactly when more than a minute has passed or the clock ran backwards |
| `DelayHistory.DelayHist.Run` | utp_internal.cpp:285-378 | Over a whole run of samples, minute rollovers and shifts, as long as each sample shares a band with the history it meets, every recorded delay is true and the base is the true minimum of the thirteen minutes kept |
| `DelayHistory.DelayHist.Take` | utp_internal.cpp:285-378 | The same for one event |
| `DelayHistory.DelayHist.Rescan` | utp_internal.cpp:371-376 | The wrapped search finds the true minimum |
| `DelayHistory.DelayHist.Shift` | utp_internal.cpp:285-297 | A shift moves every true minimum and the base alike |
| `DelayHistory.DelayHist.GetValue` | utp_internal.cpp:380-388 | The value is the least of the recent delays |
| `DelayHistory.MinimaFed` | utp_internal.cpp:340-352 | One more sample lowers one slot's minimum and the overall one to it at most |
| `RoundTrip.RttEstimator.Sample` | utp_internal.cpp:1387-1405 | After any samples in [b, B] the object's rtt lies in [b, B], rtt_var at most at B and rto in [1000, max(1000, 5B)], and near the exact estimate if the first was positive |
| `RoundTrip.NextExact` | utp_internal.cpp:1397-1405 | In range nothing wraps, and each estimate moves to a point between its old value and its target |
| `RoundTrip.RunRanged` | utp_internal.cpp:1387-1405 | Over every non-empty run of samples in [b, B] with 5B below 2^32, rtt stays in [b, B], rtt_var at most B, rto in [1000, max(1000, 5B)] |
| `RoundTrip.RunNear` | utp_internal.cpp:1387-1405 | However long a run whose first sample is positive, truncation keeps rtt within 8 ms, rtt_var within 12 ms and rto within 56 ms of section 2 of RFC 6298 computed exactly |
| `RoundTrip.LeadingZero` | utp_internal.cpp:1390-1393 | Samples of zero at the start of a run are as if they had not been taken |
| `RoundTrip.ZeroFirstIsFar` | utp_internal.cpp:1390-1393 | So on the samples 0, 1000 the estimate is not near the exact one |
| `ClockDrift.ClampedTrue` | utp_internal.cpp:2058-2078 | The clamped wrapped distance is the true distance, clamped |
| `ClockDrift.DriftEstimator.Add` | utp_internal.cpp:2057-2080 | The sum tracks the true values; the base is replaced exactly when it is zero |
| `ClockDrift.DriftEstimator.CloseSlot` | utp_internal.cpp:2082-2136 | The asserted bounds hold, no narrowing loses bits, base plus average is preserved modulo 2^32 and is the true mean of the slot, and the drift is the difference of consecutive means |
| `ClockDrift.DriftEstimator.Rebase` | utp_internal.cpp:2103-2135 | Re-basing keeps base plus average and the slope; two averages above zero, or two below, move until the nearer one is zero, and any others stay |
| `ClockDrift.DriftEstimator.Observe` | utp_internal.cpp:2040-2137 | For any value the peer reports, all bounds are kept |
| `ClockDrift.MeanBounds` | utp_internal.cpp:2086-2089 | The truncated mean of clamped samples is in the clamp's range and less than one off |
| `ClockDrift.TrendShows` | utp_internal.cpp:2119-2134 | A steady slope shows up in the rolling average, to within 7, after as many slots as it was away |
| `MtuDiscovery.MtuSearch.constructor` | utp_internal.cpp:2595-2597 | The search starts with every possible path limit inside its range |
| `MtuDiscovery.MtuSearch.Reset` | utp_internal.cpp:1337-1348 | The range is the widest again, and an outstanding probe still lies inside it |
| `MtuDiscovery.MtuSearch.SearchUpdate` | utp_internal.cpp:1297-1335 | Bounds in any order are put in order, within the interface's limit |
| `MtuDiscovery.MtuSearch.SendPacket` | utp_internal.cpp:899-930 | Exactly which packet becomes a probe, and that its size is strictly above the floor and not above the ceiling |
| `MtuDiscovery.MtuSearch.Acked` | utp_internal.cpp:1994-1996 | An acknowledged probe shrinks the range and keeps inside, of the path limits inside before, exactly those at or above it |
| `MtuDiscovery.MtuSearch.TimedOut` | utp_internal.cpp:1160-1175 | A timed-out lone probe shrinks the range and keeps every path limit below it inside; any other timeout only forgets the probe |
| `MtuDiscovery.MtuSearch.DuplicateAcks` | utp_internal.cpp:1952-1964 | The same for duplicate acknowledgements, which blame the probe only when it is next |
| `MtuDiscovery.MtuSearch.Icmp` | utp_internal.cpp:3120-3137 | A truthful router never leads the search astray; a nonsensical report does exactly to path limits above the halved ceiling |
| `MtuDiscovery.MtuSearch.Search` | utp_internal.cpp:1297-1335 | On a path that passes exactly sizes up to T, so that a probe is acknowledged exactly if it fits, the search ends with T - 16 <= mtu_last <= T after at most one probe more than the halvings of the range, seven for a range of 1024 bytes, exactly unless it starts with mtu_last at the floor of a wider range; then nothing is ever probed |
| `MtuDiscovery.ProbeSentAgain` | utp_internal.cpp:914-936 | The assumption matters: a lost probe that is sent again unprotected and then acknowledged drops every path limit below its size |
| `MtuDiscovery.MisledByResending` | utp_internal.cpp:914-936 | The input that shows it: 1500-byte packets for a path that passes 1000 |
| `MtuDiscovery.MtuSearch.SearchAgain` | utp_internal.cpp:899-930 | After the periodic reset a full-sized packet is a probe exactly if mtu_last is above the lowest size |
| `MtuDiscovery.SettledAtFloor` | utp_internal.cpp:899-930 | The input that shows it: a search settled at 576 never starts again |
| `CongestionWindow.Cwnd.MaybeDecay` | utp_internal.cpp:616-627 | Halved at most every 100 ms, never below 10, never larger |
| `CongestionWindow.Cwnd.OnTimeout` | utp_internal.cpp:1214-1236 | The window restarts at one packet, or decays by a third when idle, never below 10 |
| `CongestionWindow.Cwnd.ApplyControl` | utp_internal.cpp:1693-1735 | The response to delay and acknowledged bytes in each phase, within its bounds: outside slow start exactly the steered value if that lies between 10 and the send buffer, otherwise the nearer of the two; leaving slow start keeps a window in range; growth at most the acknowledged share of 3000 bytes unless the delay overflowed, none above the target delay or when rate limited outside slow start, and at least half of that share, truncated, with the delay at most half the target and room in the send buffer |
| `CongestionWindow.Clamp` | utp_templates.h:53-58 | A value in range stays, any other becomes the nearer bound, and the lower bound wins |
| `CongestionWindow.Steered` | utp_internal.cpp:1714-1714 | The window moves by the gain, truncated, but not below 10: it shrinks when the gain is at most -1 byte, and grows when it is at least one |
| `CongestionWindow.Cwnd.Round` | utp_internal.cpp:1693-1735 | Acknowledgements of at most W bytes in all, while the window is at least W, grow it by at most 3000 bytes, however they are cut |
| `CongestionWindow.Gain` | utp_internal.cpp:1694-1704 | The asserted cap on the gain |
| `CongestionWindow.GainExact` | utp_internal.cpp:1696-1697 | The gain times the target is 3000 bytes times the acknowledged share times the distance to the target |
| `CongestionWindow.HalfGain` | utp_internal.cpp:1696-1697 | From half the target down it is at least half of the capped gain |
| `CongestionWindow.FactorExact` | utp_internal.cpp:1694-1694 | The share is the smaller of acknowledged bytes and window over the larger |
| `CongestionWindow.StepExact` | utp_internal.cpp:1717-1717 | Slow start adds the acknowledged share of a packet, a whole packet for a whole window |
| `CongestionWindow.PenalisedSound` | utp_internal.cpp:1671-1675 | The penalised delay is non-negative exactly when the addition does not overflow, which drift within its bound allows up to an explicit delay |
| `HashTables.HashTable.constructor` | utp_hash.cpp:62-86 | An empty table of any initial size is the empty map |
| `HashTables.HashTable.Locate` | utp_hash.cpp:126-139 | The walk finds the key exactly when it is present, and the link that leads to it |
| `HashTables.HashTable.Lookup` | utp_hash.cpp:124-140 | Lookup is the map's |
| `HashTables.HashTable.Add` | utp_hash.cpp:145-191 | Adding an absent key is the map's update, through reuse, fresh slots and growth; it fails exactly when all slot numbers below the sentinel are taken |
| `HashTables.HashTable.Reallocate` | utp_hash.cpp:166-174 | Growth keeps everything stored |
| `HashTables.HashTable.Delete` | utp_hash.cpp:195-219 | Deletion is the map's, returns what was there, and moves one slot to the freelist |
| `HashTables.HashTable.Iterate` | utp_hash.cpp:221-241 | Each call returns the next element of the buckets in order, or none when nothing remains |
| `HashTables.HashTable.Visit` | utp_internal.cpp:3334-3347 | Deleting the element just returned does not change what remains to be visited |
| `HashTables.HashTable.Sweep` | utp_internal.cpp:2550-2556 | A whole iteration that may delete what it was just given ends, and visits every element that was there exactly once |
| `HashTables.GrowthMakesRoom` | utp_hash.cpp:154-174 | Growing makes room exactly when the table was created with room, never reaches the sentinel, and fails exactly at the maximum |
| `HashTables.InsertReusedOk` | utp_hash.cpp:179-190 | Taking a slot from the freelist keeps chains, buckets and map in step |
| `HashTables.InsertFreshOk` | utp_hash.cpp:177-190 | So does a fresh slot |
| `HashTables.RemovedOk` | utp_hash.cpp:205-214 | So does unlinking an element anywhere in its chain |
| `Chains.MovedOk` | utp_hash.cpp:205-214 | Moving an element between chains keeps them acyclic, disjoint and covering |
| `Chains.RestExact` | utp_hash.cpp:221-241 | The buckets in order list each of their slots once |
| `Contexts.Context.Receive` | utp_internal.cpp:2919-2929 | The one-entry cache returns what the table would |
| `Contexts.Context.FindByEitherId` | utp_internal.cpp:2885-2896 | A socket is found exactly when one at that address has the id as receive or send id |
| `Contexts.Context.Connect` | utp_internal.cpp:2568-2599 | The first of the drawn seeds that is free at that address is used, none if none is; keys stay distinct and entries match live sockets one to one |
| `Contexts.Context.Accept` | utp_internal.cpp:2992-3022 | Exactly when a request is refused, and the new entry otherwise |
| `Contexts.Context.Destroy` | utp_internal.cpp:2519-2536 | Table, cache and list all forget the socket, and the table did hold it |
| `Contexts.PairsUp` | utp_internal.cpp:3022-3022 | In every state of the acceptor's table, the dialler's packets are for the accepted socket exactly if the seed is not 0xffff; otherwise they carry id 0 |
| `Contexts.Rendezvous` | utp_internal.cpp:2767-3022 | A dial, its acceptance and the first packet each way on two contexts: the dialler is always reached, the acceptor exactly for every seed but 0xffff, and then a bystander with id 0 or no socket |
| `ContextLists.AckList.Schedule` | utp_internal.cpp:723-735 | A socket is listed once and knows its place |
| `ContextLists.AckList.Remove` | utp_internal.cpp:681-696 | Swap-removal keeps every listed socket's back-index; the asserts hold |
| `ContextLists.AckList.IssueDeferredAcks` | utp_internal.cpp:3299-3310 | The loop ends, acknowledges every listed socket exactly once and leaves none listed |
| `ContextLists.RstList.Reject` | utp_internal.cpp:2944-2982 | A reset is sent exactly when no record has the same address, id and number and there are at most a thousand; no two records are for the same packet |
| `ContextLists.RstList.Expire` | utp_internal.cpp:3324-3332 | Exactly the unexpired records stay, with their multiplicities: a record goes once it is ten seconds old and not before |
| `ContextLists.Spared` | utp_internal.cpp:3324-3332 | A record that is at least ten seconds old goes and a younger one stays |
| `ContextLists.Array.Append` | utp_templates.h:128-135 | The element is last, the others keep their places through growth |
| `ContextLists.Array.MoveUpLast` | utp_templates.h:155-163 | The last element fills the gap |

## Left out

- Packet records are values in ring slots: pointer identity, aliasing and `malloc`/`realloc` failure are not modelled.
- Header packing and the parsing of extension headers: a packet arrives as decoded fields with the mask as a sequence of booleans, its length at most 255 bytes' worth.
- The memory layout of the hash block: links and key-value pairs are two arrays that grow together.
- Clocks, randomness and the estimators' outputs reach the socket class as arguments (`Estimates`, `Tick`); the estimator classes are proved separately.
- The advertised receive window on outgoing packets, `last_rcv_win`, the timer set when the peer's window is zero (its expiry is part of a tick) and `utp_read_drained` before the handshake; acknowledging is an action of the application in runs, so `schedule_ack` is modelled only as the context's list.
- `duplicate_ack` as a counter in the socket class: it only feeds the MTU search, whose third-duplicate event is an operation there.
- `selective_ack_bytes`: its byte count feeds only the congestion window, which takes any count.
- Notifications other than CONNECT are not re-entrant here; CONNECT may write, as the Go callback does (callbacks.go:117-123).
- Delivery is limited to recent datagrams (`Streams.Recent`): one held back for about a full turn of the 16-bit numbers is misplaced by the protocol itself, as `StaleIsMisplaced` shows.
- IEEE rounding in the congestion controller: doubles are exact reals, with the truncations to integers kept.
- Handshake liveness and loss-recovery timing: safety and loop termination only.
- Go wrapper, callbacks dispatch, address packing, platform clocks, logging, statistics and options.
- HashTables.HashTable.Add: requires a block that is not empty, because growing makes no room in an empty one (`GrowthMakesRoom`) and the source then stores outside it.
- Contexts.Context.Connect: takes a finite list of random draws and reports when all of them are taken, where the source draws on for ever.
- CongestionWindow.Cwnd.ApplyControl: takes the delay after the penalty, and bounds the growth only while it is not negative; `PenalisedSound` says exactly when that is.
