# A verified model of the transport core

This project models, in Dafny, the parts of the TCP/IP stack whose correctness is hardest to see by
reading, and proves what they promise:

- **TCP data transfer.** The sender (`Sender`, `SenderObject`) splits, sends, rewinds and trims its
  write list under Reno; the receiver (`Receiver`, `ReceiverObject`) reassembles with a heap ordered
  by modular comparison, keeps SACK blocks (`Sack`) and promises window space. `Connection` ties one
  of each to a network that loses, repeats and reorders. The retransmit timer is `Timer`, and
  `SenderTimer` follows it through the sender's runs. `SenderExact`, `SenderReno`, `SenderClocks` and
  `ReceiverExact` say what each event does, not only what it keeps. `SenderCycle`, `Overrun` and `StaleData` build
  the runs that show where a guarantee ends.
- **The sleeper and the try-mutex.** `Sleep` and `TryMutex` take every atomic operation as one step
  of an unbounded number of interleaved threads; `SleepProgress` and `SleepAlone` say what the calls
  achieve.
- **IPv4 reassembly.** `Reassembler`, `Fragmentation`, `FragmentationRuns` and `FragmentationObject`:
  holes, heap, memory budget, timeout, eviction.
- **Encodings.** `Checksum`, `Options` and `SynCookie`.
- **Data structures.** `Views` (bytes in several slices), `Lists` (the intrusive list), `Heap` (a
  binary heap over Less, as Go's container/heap provides it).

How the pieces fit:

- A sequence number is a uint32. Every test in `protocol/seqnum/seqnum.go` reads its arguments only
  modulo 2^32, and every update is an addition, so each routine is one function whose parameter
  `Width` says how wide additions are: `Uint32` is the program, `Unbounded` the same program with
  numbers that never wrap. Invariants are proved for `Unbounded`; `WrapReceiver`, `WrapSender` and
  `WrapConnection` prove that the program is its image modulo 2^32, in every state and for every
  input, and carry the theorems over.
- What the source does by updating fields is also done by classes (`SenderObject.Sender`,
  `ReceiverObject.Receiver`, `Sack.SackInfo`, `Timer.TcpTimer`, `FragmentationObject`, `Views`,
  `Lists`). Their methods are proved to compute exactly the functions that the theorems are about,
  at width `Uint32`.
- `Connection.Run` executes any sequence of events, each with its own clock reading, the firing of the
  runtime timer among them. The endpoint's locks make each event atomic.

What the proofs brought to light about the code:

- A recovery is entered only if `fr.last` is less than the acknowledgement modulo 2^32, and `fr.last`
  moves only with recoveries and timeouts. After more than 2^31 numbers without a loss, fast
  retransmit stays off until the next timeout (`RecoveryStarts` gives the exact condition, `StaysOff`
  a run from the handshake).
- The sender takes the window of every acknowledgement, however old. As long as none arrives behind
  `sndUna`, this stack never sends data past its own receiver's window (`OwnSender`); one that does
  moves the sender's edge past the promised one by its age (`SenderEdge`, `EdgeExact`), and data then
  goes past the window (`LateAckOverruns`, `WindowOverrun`).
- An overrun receiver tests acceptability against a window of almost 2^32 and queues old duplicates.
  One of age 2^31 - 1 stays in the heap until the numbers have come round and is then delivered a
  second time (`StaleDelivered`). The end-to-end theorem covers overrun receivers with a stricter
  bound on the age of data.
- The FIN is sent whatever the window (`FinNeedsNoWindow`), so it may end one past it.
- A queued segment that overlaps what was received is trimmed before its length is taken off
  `pendingBufUsed`, so the trimmed bytes stay counted for good (`DrainOneHeld`). The uint32 never
  wraps, but a peer that sends overlapping pieces can use up the limit with nothing queued
  (`LeaksAll`), after which no early segment is kept (`NothingQueuedAgain`).
- A timeout, unlike a fast retransmission, goes on measuring the segment it sends again, so an
  acknowledgement of the first transmission passes for one of the second (`ExpiryMeasuresAgain`,
  `ResendForgets`); Karn's algorithm excludes such samples.
- A FIN that arrives early is queued, and is then always skipped as already received
  (`ClosesExactly`): a connection is closed only by a FIN that arrives in order.
- A payload summed view by view has the right checksum exactly when the words of the views at odd
  offsets add up to a multiple of 257 (`AnyViews`, `TcpResums`).
- The branch that the reassembler believes dead is reached exactly when fragments fill the last hole
  and leave a gap (`PanicsExactly`, `AnyFragments`); two that both claim to be the last can
  (`TwoEnds`), pieces of one datagram never do (`AnyOrder`).
- A SYN cookie is accepted again, for three ticks, every 256 ticks (`Accepts`).

Check the whole project with `dafny verify dfyconfig.toml`.

## Model

| member | source | states |
|---|---|---|
| WrapConnection.EndToEnd | protocol/transport/tcp/connect.go:679-745 | for the uint32 program and every initial sequence number, in every run over a lossy, duplicating, reordering network: bytes delivered and bytes read are prefixes of the bytes written; closed only after all of them; every acknowledgement that may still arrive names a segment boundary of the write list; the sender never panics |
| ConnectionWindow.EndToEndInside | protocol/transport/tcp/rcv.go:134-186 | the same delivery guarantee when the only demand on the network is that nothing older than 2^31 numbers arrives and data ends inside the window, a FIN at most one past it |
| ConnectionWindow.OwnSender | protocol/transport/tcp/snd.go:225-322 | the stack against itself, from a first window within the receive buffer: if no data older than 2^31 and no acknowledgement behind sndUna is delivered, then the delivery guarantee holds, no data was ever sent past rcvAcc and no FIN past the number after it, and buffered + promised fit the receive buffer |
| ConnectionWindow.RunEdge | protocol/transport/tcp/snd.go:345-360 | the invariant behind it, over every such run: sndUna + sndWnd and all data sent end inside the receiver's window |
| ConnectionWindow.EdgeExact | protocol/transport/tcp/snd.go:358-358 | an acknowledgement at most 2^31 old leaves the sender inside the receiver's window exactly when its window, counted from the later of its number and sndUna, ends inside it |
| Connection.EndToEnd | protocol/transport/tcp/snd.go:345-450 | the end-to-end theorem on numbers that do not wrap, with the boundary each acknowledgement names |
| Connection.RunKeeps | protocol/transport/tcp/connect.go:679-745 | the joint invariant of sender, receiver and network holds after every run of events |
| Connection.AckOnPlace | protocol/transport/tcp/snd.go:391-412 | every acknowledgement ever sent, in any reachable state, is old or names the end of a segment in the write list, so the mid-segment branch is dead |
| Connection.SentGenuine | protocol/transport/tcp/snd.go:299-307 | every segment ever put on the wire is a slice of the written stream at the place its number says |
| Connection.InitKeeps | protocol/transport/tcp/snd.go:125-157 | both ends after the handshake satisfy the joint invariant |
| WrapConnection.RunWraps | protocol/seqnum/seqnum.go:10-51 | a run of the uint32 connection is the image modulo 2^32 of the run on unbounded numbers, event by event |
| WrapConnection.AnyPeer | protocol/transport/tcp/snd.go:345-450 | against a peer that acknowledges any 32-bit number with any window, the uint32 sender never panics, holds as many numbers as nxtList + inQueue - una, counts in sndBufUsed exactly what it holds less one once the FIN is queued, runs its timer exactly while something is unacknowledged and never forgets it while the clock does not go back, and keeps recovery within its bounds |
| WrapConnection.Lift | protocol/transport/tcp/snd.go:225-450 | every run of the uint32 sender is the image of a run that keeps the sender's invariant |
| WrapConnection.SenderRunWraps | protocol/transport/tcp/snd.go:225-667 | every run of the sender on unbounded numbers has its image among the runs of the uint32 sender, so what is reached there is reached |
| WrapReceiver.HandleWraps | protocol/transport/tcp/rcv.go:134-186 | handleRcvdSegment commutes with reduction modulo 2^32, in every state and for every segment |
| WrapReceiver.SendAckWraps | protocol/transport/tcp/rcv.go:50-57 | so do getSendParams and the advertised window |
| WrapReceiver.UpdateWraps | protocol/transport/tcp/sack.go:14-63 | so does UpdateSACKBlocks |
| WrapReceiver.PushWraps | protocol/transport/tcp/segment_heap.go:11-30 | so does pushing on the heap ordered by LessThan |
| WrapSender.HandleAckWraps | protocol/transport/tcp/snd.go:345-450 | the sender's handleRcvdSegment commutes with reduction modulo 2^32, in every state and for every acknowledgement |
| WrapSender.SendDataWraps | protocol/transport/tcp/snd.go:225-322 | so does sendData, splits included |
| WrapSender.TimerExpiredWraps | protocol/transport/tcp/snd.go:625-667 | so does a timeout |
| WrapSender.StepWraps | protocol/transport/tcp/connect.go:615-653 | so does every event of the sender |
| Seqnum.LessThanExact | protocol/seqnum/seqnum.go:10-18 | modular comparison is integer comparison within half the number space |
| Seqnum.InRangeExact | protocol/seqnum/seqnum.go:23-31 | a window test is the integer test unless the distance to the window wraps onto it |
| Seqnum.OverlapExact | protocol/seqnum/seqnum.go:34-36 | two windows overlap exactly when they share a number, for starts a quarter of the space apart |
| Seqnum.TestsOnWire | protocol/seqnum/seqnum.go:10-46 | every test depends on its arguments only modulo 2^32 |
| SenderProofs.SendDataKeeps | protocol/transport/tcp/snd.go:225-322 | sendData keeps the ledger and the labels; every data segment it sends is at most maxPayloadSize long, ends by sndUna+sndWnd and is counted; it stops only for want of data, window or cwnd; the timer then runs if anything is unacknowledged |
| SenderProofs.SendLoopKeeps | protocol/transport/tcp/snd.go:245-307 | the loop terminates although it inserts segments, never panics, and sends within both windows |
| SenderProofs.SendOneKeeps | protocol/transport/tcp/snd.go:249-306 | one turn: numbering, splitting, sending; neither panic is reachable |
| SenderProofs.SendBytesLedger | protocol/transport/tcp/snd.go:281-287 | splitting a segment in place changes neither the stream the list holds nor its length |
| SenderProofs.SendBytesPlaced | protocol/transport/tcp/snd.go:281-307 | after a split every label still equals its place, and the ends of everything ever sent stay boundaries |
| SenderProofs.SendBytesSize | protocol/transport/tcp/snd.go:274-287 | the packet that goes out holds exactly as much of the segment as maxPayloadSize and the room to sndUna + sndWnd let |
| SenderExact.SendDataExact | protocol/transport/tcp/snd.go:245-307 | sendData sends the segments from writeNext to the new writeNext, in order and nothing else, and cuts one only at maxPayloadSize or at the window's edge |
| SenderExact.SendOneExact | protocol/transport/tcp/snd.go:249-306 | one turn of it: one packet, the segment behind writeNext, with no cut but such a one |
| SenderExact.WriteGoesOut | protocol/transport/tcp/snd.go:225-307 | from rest a write goes out at once in segments of full size, as far as the peer's window and cwnd reach, cwnd cut to ten after a pause of more than a timeout |
| SenderExact.InitialFlight | protocol/transport/tcp/snd.go:125-157 | the first flight of a connection is the first ten full segments of what is written; the first timeout is one second |
| SenderExact.InitialGrowth | protocol/transport/tcp/snd.go:125-157 | a connection begins in slow start, whatever it grows to |
| SenderProofs.WriteKeeps | protocol/transport/tcp/endpoint.go:784-850 | an accepted write extends the ledger by exactly the accepted bytes |
| SenderProofs.ShutdownKeeps | protocol/transport/tcp/endpoint.go:599-658 | the FIN is queued once, last, and without data |
| SenderProofs.MoveQueueKeeps | protocol/transport/tcp/connect.go:615-641 | moving the queue to the write list keeps stream, labels and sndNxtList |
| SenderEvents.AckLedger | protocol/transport/tcp/snd.go:384-415 | an acknowledgement, even of the middle of a segment, leaves exactly the bytes that are not acknowledged |
| SenderEvents.AckPlaced | protocol/transport/tcp/snd.go:391-412 | one that names a boundary leaves every label equal to its place |
| SenderEvents.PopExact | protocol/transport/tcp/snd.go:391-412 | the acknowledgement loop removes whole segments, trims at most the first that stays, and never meets an empty list |
| SenderEvents.RenoKeeps | protocol/transport/tcp/reno.go:14-64 | Reno never shrinks the window on an acknowledgement, nor lets it or the count go below their floors |
| SenderEvents.CheckDuplicateKeeps | protocol/transport/tcp/snd.go:546-620 | recovery stays ahead of what is acknowledged; a new recovery covers only numbers beyond the last one; fr.last never decreases |
| SenderReno.OutsideRecovery | protocol/transport/tcp/snd.go:586-620 | outside recovery, on integers: duplicates of sndUna are counted, anything else starts the count again, and the third, if fr.last is behind it, begins recovery with half of what is outstanding, plus three; nothing else changes |
| SenderReno.InRecovery | protocol/transport/tcp/snd.go:546-584 | in recovery, on integers: beyond fr.last it ends with cwnd == ssthresh; a duplicate of fr.first raises cwnd by one up to its limit; any other number up to fr.last asks for a retransmission; nothing else changes anything |
| SenderReno.PartialAckRetransmits | protocol/transport/tcp/snd.go:574-583 | a partial acknowledgement has the first segment that is still missing sent again before anything else, and recovery goes on from its number |
| SenderReno.ThirdDuplicateRetransmits | protocol/transport/tcp/snd.go:590-620 | so does the third duplicate, which also sets ssthresh, cwnd and the range of recovery |
| SenderReno.FirstTwoOnlyCount | protocol/transport/tcp/snd.go:590-604 | the two before it only count |
| SenderReno.DuplicateInflates | protocol/transport/tcp/snd.go:567-573 | each further duplicate raises cwnd by one, up to fr.maxCwnd |
| SenderReno.HandleAckSends | protocol/transport/tcp/snd.go:345-450 | an acknowledgement sends the front of the list if it asks for that, then what lies from the segment that was next; nothing else goes out again |
| SenderReno.AcknowledgeExact | protocol/transport/tcp/snd.go:362-433 | n whole segments acknowledged leave the list and the count of outstanding ones, the rest of the list and the next segment to send stay, the timer stops |
| SenderReno.AcknowledgeGrows | protocol/transport/tcp/reno.go:14-64 | for n segments cwnd grows by n below ssthresh, and by one for each full window beyond it, the remainder counted; not at all in recovery |
| SenderReno.SlowStartDoubles | protocol/transport/tcp/reno.go:14-28 | a full flight acknowledged in slow start doubles cwnd |
| SenderReno.EstimateExact | protocol/transport/tcp/snd.go:453-504 | the smoothed RTT, its variation and the timeout as section 2 of RFC 6298 computes them, rounded down, at least 200 ms |
| SenderReno.SampleExact | protocol/transport/tcp/snd.go:348-351 | a sample is taken exactly when the measured number is covered, from the time it was last sent |
| SenderEvents.RecoveryStarts | protocol/transport/tcp/snd.go:590-619 | exactly when recovery starts: the third duplicate of sndUna with data in flight, and fr.last behind it by at most 2^31 |
| SenderCycle.StaysOff | protocol/transport/tcp/snd.go:606-612 | from every handshake a run reaches the input where that fails: 2^31 numbers without a loss, a segment in flight, and a third duplicate that starts no recovery and sends nothing |
| SenderEvents.HandleAckKeeps | protocol/transport/tcp/snd.go:345-450 | an acknowledgement at most 2^31 from sndUna keeps the whole invariant and moves sndUna exactly when it is of something new |
| SenderEvents.TimerExpiredKeeps | protocol/transport/tcp/snd.go:625-667 | a spurious wake changes the timer alone; an expiry rewinds and keeps the invariant; a connection backed off for a minute is given up |
| SenderEvents.NewMtuKeeps | protocol/transport/tcp/snd.go:175-222 | shrinking the payload size rewinds writeNext and keeps the invariant |
| SenderClocks.NewMtuExact | protocol/transport/tcp/snd.go:175-222 | the payload size is what is left of the MTU, at least one; everything from the first sent segment that is too long is sent again, cut to size, and counted; a larger MTU changes nothing |
| SenderClocks.RunFitting | protocol/transport/tcp/snd.go:175-222 | over every run against any peer, no segment before writeNext is longer than maxPayloadSize |
| SenderTimer.RunBacksOff | protocol/transport/tcp/snd.go:629-639 | over every run in which no round trip is measured, at either width: the timeout is the first one doubled once for each expiry, and the connection is given up exactly at the expiry that finds a minute or more |
| SenderTimer.TenthGivesUp | protocol/transport/tcp/snd.go:634-639 | so from a timeout of at least 200 ms no run with ten such expiries stays alive, whatever else happens in it |
| SenderCycle.NineSurvive | protocol/transport/tcp/snd.go:634-639 | and from every handshake a run reaches a timeout of 200 ms and then survives nine |
| SenderTimer.StepTimed | protocol/transport/tcp/snd.go:625-667 | every event keeps the timer's invariant, changes the timeout only by a measurement or by doubling it, and ends the connection only at an expiry after a minute |
| SenderTimer.RunTimed | protocol/transport/tcp/snd.go:310-318 | the sender's timer keeps the timer's invariant over every run whose clock does not go back |
| SenderTimer.NeverForgotten | protocol/transport/tcp/snd.go:310-318 | so while something is unacknowledged its wake is pending, or the runtime timer is armed by its target; and otherwise it is not enabled |
| SenderClocks.SendDataClocks | protocol/transport/tcp/snd.go:225-342 | sendData notes the time of sending, and of the measured segment if it went out; cuts cwnd to ten after a pause of more than a timeout; and if the timer is not running and something is in flight, sets it a timeout from now |
| SenderClocks.AckRestarts | protocol/transport/tcp/snd.go:362-367 | an acknowledgement of something new restarts the timer, a timeout from now, or leaves it off if nothing is in flight |
| SenderClocks.ExpiryExact | protocol/transport/tcp/snd.go:625-667 | an expiry doubles the timeout and sets the timer by it, halves ssthresh, sets cwnd to one, ends recovery, and sends at most one data segment, from the front of the list |
| SenderClocks.ResendForgets | protocol/transport/tcp/snd.go:507-510 | after a fast retransmission only the next new number is measured |
| SenderClocks.ExpiryMeasuresAgain | protocol/transport/tcp/snd.go:625-667 | after a timeout the number being measured is still measured, from its retransmission on |
| SenderRuns.ClosedExactly | protocol/transport/tcp/connect.go:644-653 | the sender is marked closed by handleClose alone |
| SenderRuns.RunKeeps | protocol/transport/tcp/snd.go:225-667 | in every run against any peer: no panic, ledger and labels hold, fr.last, sndUna and sndNxt never move left, and sndBufUsed changes by exactly what is written less what is acknowledged |
| SenderRuns.EntriesApart | protocol/transport/tcp/snd.go:519-620 | over a whole run the ranges of any two recoveries are disjoint, and each lies beyond all before it |
| SenderProgress.TimeoutResends | protocol/transport/tcp/snd.go:625-667 | after an expiry with the window open, the first unacknowledged segment goes out again, from its first byte, and nothing else |
| SenderProgress.FastRetransmits | protocol/transport/tcp/snd.go:435-441 | when an acknowledgement asks for it, the first unacknowledged segment goes out whole and before anything else |
| SenderProgress.AcksAddUp | protocol/transport/tcp/reno.go:14-28 | in slow start the grouping of acknowledgements does not matter: two in order leave exactly the state that the later one alone would, also when the first ends inside a segment |
| SenderProgress.AvoidanceCounts | protocol/transport/tcp/reno.go:31-39 | in congestion avoidance it grows by one for each full window of acknowledged segments |
| SenderProgress.RttBetween | protocol/transport/tcp/snd.go:453-504 | the smoothed RTT lies between the old one and the measurement, and the timeout covers it with four deviations and the floor |
| SenderProofs.WriteAccepts | protocol/transport/tcp/endpoint.go:802-838 | a write takes exactly what fits, from the front, and never overfills the buffer |
| SenderRuns.LedgerReads | protocol/transport/tcp/snd.go:384-412 | written bytes = acknowledged prefix + write list + queue, which are nxtList + inQueue - una numbers long; sndBufUsed is the bytes held, less one once the FIN is acknowledged |
| SenderObject.Sender.SendData | protocol/transport/tcp/snd.go:225-322 | the loop over the write list, in place, computes the sendData that the theorems are about |
| SenderObject.Sender.SendNext | protocol/transport/tcp/snd.go:249-306 | one turn of it, with its three ways out |
| SenderObject.Sender.Split | protocol/transport/tcp/snd.go:281-287 | the cut of a segment into front and rest, in the list |
| SenderObject.Sender.SendSegment | protocol/transport/tcp/snd.go:330-342 | what goes out, and the RTT clock |
| SenderObject.Sender.SendAck | protocol/transport/tcp/snd.go:325-327 | an empty segment at sndNxt |
| SenderObject.Sender.HandleRcvdSegment | protocol/transport/tcp/snd.go:345-450 | the acknowledgement half of the sender, field by field |
| SenderObject.Sender.RemoveAcked | protocol/transport/tcp/snd.go:391-412 | the loop that removes acknowledged segments, with writeNext following |
| SenderObject.Sender.Acknowledge | protocol/transport/tcp/snd.go:362-433 | everything an acknowledgement of something new does |
| SenderObject.Sender.CheckDuplicateAck | protocol/transport/tcp/snd.go:546-620 | all branches of duplicate-ACK handling |
| SenderObject.Sender.UpdateRTO | protocol/transport/tcp/snd.go:453-504 | the integer branch of the RTT estimate, with its floor |
| SenderObject.Sender.ResendSegment | protocol/transport/tcp/snd.go:507-516 | the fast retransmission |
| SenderObject.Sender.RetransmitTimerExpired | protocol/transport/tcp/snd.go:625-667 | a timeout, and whether the connection lives on |
| SenderObject.Sender.UpdateMaxPayloadSize | protocol/transport/tcp/snd.go:175-222 | the search for the first segment that is too long, and the rewind |
| SenderObject.Sender.UpdateSlowStart | protocol/transport/tcp/reno.go:14-28 | slow start up to ssthresh, and what is left over |
| SenderObject.Sender.UpdateCongestionAvoidance | protocol/transport/tcp/reno.go:31-39 | congestion avoidance with the remainder by the grown window |
| SenderObject.Sender.UpdateCwnd | protocol/transport/tcp/reno.go:53-64 | the two together |
| SenderObject.Sender.Write | protocol/transport/tcp/endpoint.go:784-850 | what Write accepts and queues |
| SenderObject.Sender.Shutdown | protocol/transport/tcp/endpoint.go:599-658 | the FIN joins the queue, once |
| SenderObject.Sender.HandleWrite | protocol/transport/tcp/connect.go:615-641 | the queue joins the write list and is sent |
| SenderObject.Sender.HandleClose | protocol/transport/tcp/connect.go:644-653 | the same, and the sender is marked closed |
| ReceiverProofs.HandleKeeps | protocol/transport/tcp/rcv.go:134-186 | for every genuine segment that is not too old: what was delivered stays a prefix of the stream and only grows, rcvAcc never moves left, the heap stays ordered, every acknowledgement names the end of a segment sent |
| ReceiverProofs.DrainKeeps | protocol/transport/tcp/rcv.go:171-185 | although the heap's root is trimmed in place, the loop leaves a heap in which every segment starts strictly after rcvNxt |
| ReceiverProofs.ConsumeKeeps | protocol/transport/tcp/rcv.go:74-131 | consuming a segment delivers exactly the next piece of the stream and moves rcvNxt to the segment's end |
| ReceiverProofs.AcceptableExact | protocol/transport/tcp/rcv.go:39-46 | the acceptance test on uint32 numbers is the integer window test |
| ReceiverProofs.ClosesExactly | protocol/transport/tcp/rcv.go:105-128 | the stream is closed by a segment exactly when that segment is the FIN, in order |
| ReceiverProofs.DrainNeverCloses | protocol/transport/tcp/rcv.go:171-185 | a queued FIN is never consumed |
| ReceiverProgress.Delivers | protocol/transport/tcp/rcv.go:170-185 | a segment inside the window that reaches rcvNxt is delivered at once, with everything queued that it connects to |
| ReceiverProgress.Queues | protocol/transport/tcp/rcv.go:150-168 | one beyond a gap is kept while there is room, answered with rcvNxt, and delivers nothing |
| ReceiverProgress.Refuses | protocol/transport/tcp/rcv.go:142-146 | one outside the window is answered and changes nothing else |
| ReceiverProgress.ReadOpens | protocol/transport/tcp/endpoint.go:753-781 | reading loses nothing and makes the room it frees available to the next advertisement |
| ReceiverExact.SendAckExact | protocol/transport/tcp/connect.go:575-577 | an acknowledgement names rcvNxt, moves rcvAcc to the end of the free buffer if that lies further right, and offers all up to it: its field is full or one unit more would not fit |
| ReceiverExact.OffersFreeBuffer | protocol/transport/tcp/rcv.go:50-57 | so the field is full, or less than one unit of the free buffer is kept back |
| ReceiverExact.FinAcknowledged | protocol/transport/tcp/rcv.go:104-128 | a FIN in order is acknowledged at once with the number after it, closes the stream and empties the queue |
| ReceiverExact.AdvanceReports | protocol/transport/tcp/rcv.go:98-102 | consuming takes out of the SACK report exactly what lies before rcvNxt |
| ReceiverExact.QueueReports | protocol/transport/tcp/rcv.go:162-163 | an early segment is reported with all that was, as long as fewer than six blocks are in use |
| ReceiverExact.ReadsAll | protocol/transport/tcp/endpoint.go:753-781 | reading until the list is empty takes all that was delivered |
| ReceiverWindow.HandleWindow | protocol/transport/tcp/rcv.go:134-186 | a segment whose data ends inside the window keeps buffered + promised within the buffer, also when it is a FIN one past the edge; keeps every promise left of rcvAcc; and keeps the SACK blocks disjoint, beyond rcvNxt and covering only what arrived |
| ReceiverWindow.SendAckWindow | protocol/transport/tcp/connect.go:575-577 | scaling down and cutting to 16 bits never advertises past rcvAcc |
| ReceiverWindow.UpdateSack | protocol/transport/tcp/rcv.go:154-162 | the first SACK block holds the segment that just arrived, stored or not |
| ReceiverPending.RunHeld | protocol/transport/tcp/rcv.go:150-185 | over every run of the receiver against any peer, at either width: the numbers queued are at most pendingBufUsed, which is less than pendingBufSize + 65536 and so never wraps |
| ReceiverPending.PendingFits | protocol/transport/tcp/rcv.go:150-185 | the same in every run of a uint32 connection |
| ReceiverPending.StoreHeld | protocol/transport/tcp/rcv.go:155-160 | the uint32 addition for a queued segment does not wrap |
| ReceiverPending.PopHeld | protocol/transport/tcp/rcv.go:182-184 | nor does the subtraction for a popped one |
| ReceiverPending.DrainOneHeld | protocol/transport/tcp/rcv.go:171-185 | one turn of the loop leaves exactly the trimmed bytes of the segment it takes counted as queued |
| ReceiverPending.NothingQueuedAgain | protocol/transport/tcp/rcv.go:155-160 | once what is counted beyond what is queued reaches pendingBufSize, no segment is ever queued again |
| ReceiverPending.LeaksAll | protocol/transport/tcp/rcv.go:171-185 | a peer that sends overlapping pieces brings it there while nothing is queued |
| ConnectionWindow.WindowConservation | protocol/transport/tcp/endpoint.go:753-781 | in every run in which data ends inside the window, on uint32 numbers: rcvBufUsed + (rcvAcc - rcvNxt) <= rcvBufSize, rcvBufUsed is what is unread, and no acknowledgement ever promised a byte beyond rcvAcc |
| ConnectionWindow.SenderEdge | protocol/transport/tcp/snd.go:358-358 | after an acknowledgement the sender's right edge is the promised one if it is not behind sndUna, and otherwise further right by exactly its age |
| SenderWindow.SendLoopReaches | protocol/transport/tcp/snd.go:245-307 | sendData sends no data beyond the further of sndUna + sndWnd and what was sent before; a FIN adds one number without a window |
| SenderWindow.OwnReaches | protocol/transport/tcp/snd.go:175-322 | the same for every event but an acknowledgement, none of which moves the edge |
| SenderWindow.AckReaches | protocol/transport/tcp/snd.go:345-450 | the same for an acknowledgement, with the edge it sets |
| SenderCycle.FinNeedsNoWindow | protocol/transport/tcp/snd.go:255-262 | from rest the FIN goes out at once, whatever the window |
| Overrun.LateAckOverruns | protocol/transport/tcp/snd.go:358-358 | from every state at rest, a late acknowledgement whose window reaches past rcvAcc from sndUna lets any data that fits it out, beyond rcvAcc |
| Overrun.WindowOverrun | protocol/transport/tcp/rcv.go:134-186 | from every handshake with a buffer of two bytes a run with one late acknowledgement makes rcvNxt pass rcvAcc and rcvBufUsed pass rcvBufSize |
| StaleData.StaleDelivered | protocol/transport/tcp/rcv.go:39-46 | and a run in which nothing older than 2^31 - 1 arrives, after such an overrun, delivers a byte that was never written |
| StaleData.TakesStale | protocol/transport/tcp/rcv.go:171-185 | how: a byte queued by an overrun receiver is taken for the next one when the numbers have come round |
| ReceiverObject.Receiver.HandleRcvdSegment | protocol/transport/tcp/rcv.go:134-186 | the receiver, field by field |
| ReceiverObject.Receiver.ConsumeSegment | protocol/transport/tcp/rcv.go:74-131 | consumption, with the trim of the heap's root in place |
| ReceiverObject.Receiver.Drain | protocol/transport/tcp/rcv.go:171-185 | the loop over the queued segments |
| ReceiverObject.Receiver.GetSendParams | protocol/transport/tcp/rcv.go:50-57 | the window that is advertised, and the edge it moves |
| ReceiverObject.Receiver.Acceptable | protocol/transport/tcp/rcv.go:39-46 | the acceptance test |
| ReceiverObject.Receiver.SendAck | protocol/transport/tcp/connect.go:575-577 | the acknowledgement with its clamped window |
| ReceiverObject.Receiver.Read | protocol/transport/tcp/endpoint.go:753-781 | the application takes the first view |
| Heap.PushOrdered | protocol/transport/tcp/segment_heap.go:20-22 | pushing keeps a heap, whatever Less, as long as Less is the order of a key on its elements |
| Heap.PopOrdered | protocol/transport/tcp/segment_heap.go:25-30 | popping leaves a heap even when the root was changed beforehand |
| Heap.PopContents | protocol/transport/tcp/segment_heap.go:25-30 | popping loses nothing but the root |
| Heap.RootIsLeast | protocol/transport/tcp/segment_heap.go:11-13 | the root is least |
| Sack.UpdateKeeps | protocol/transport/tcp/sack.go:14-63 | at most six blocks, pairwise apart by a gap, the newest arrival inside the first |
| Sack.UpdateCovers | protocol/transport/tcp/sack.go:14-63 | a number is covered afterwards exactly if it arrived or was covered beyond rcvNxt, unless all six slots overflow |
| Sack.UpdateLoses | protocol/transport/tcp/sack.go:51-58 | a block beyond rcvNxt is lost only as the last of six that were all kept |
| Sack.TrimKeeps | protocol/transport/tcp/sack.go:67-80 | trimming keeps exactly the covered numbers at or past rcvNxt |
| Sack.RunKeeps | protocol/transport/tcp/sack.go:14-80 | over every run of arrivals and advances the blocks stay apart, past rcvNxt, and cover only what arrived |
| Sack.SackInfo.UpdateSackBlocks | protocol/transport/tcp/sack.go:14-63 | the compaction and the shift, in the array |
| Sack.SackInfo.TrimSackBlockList | protocol/transport/tcp/sack.go:67-80 | the trim, in the array |
| Timer.RunKeeps | protocol/transport/tcp/timer.go:58-105 | in every run an enabled timer has its wake pending or the runtime timer armed no later than its target, and once the target has passed it is never forgotten |
| Timer.InitInv | protocol/transport/tcp/timer.go:41-48 | a new timer satisfies the timer's invariant |
| Timer.ApplyKeeps | protocol/transport/tcp/timer.go:58-79 | it expires only while enabled and not before its current target; a spurious wake rearms it for the target |
| Timer.DueExactly | protocol/transport/tcp/timer.go:58-105 | enabled at a time for d, whatever it was before and whatever wakes come before, it expires at a check exactly when d has passed |
| Timer.StoppedNeverExpires | protocol/transport/tcp/timer.go:83-87 | once disabled it does not expire |
| Timer.TcpTimer.Enable | protocol/transport/tcp/timer.go:95-105 | enable, with the runtime timer left running when it fires early enough |
| Timer.TcpTimer.Disable | protocol/transport/tcp/timer.go:83-87 | disable is lazy: the runtime timer is orphaned |
| Timer.TcpTimer.CheckExpiration | protocol/transport/tcp/timer.go:58-79 | orphan, spurious wake, or expiry |
| Sleep.EveryRun | pkg/sleep/sleep_unsafe.go:90-142 | in every interleaving of any number of threads: goready is called only on a committed park and once for each; a parked owner with something pushed has a thread that will wake it |
| Sleep.StepKeeps | pkg/sleep/sleep_unsafe.go:69-285 | every atomic step keeps the invariant and treats the wakers on their way as a FIFO queue: unchanged, one more at the end, or its first handed out |
| Sleep.NoLostWakeup | pkg/sleep/sleep_unsafe.go:221-246 | a parked sleeper with a non-empty shared list has an enqueuer that has not yet seen waitingG zero; at most one thread is about to call goready |
| Sleep.SleepsForAReason | pkg/sleep/sleep_unsafe.go:94-122 | with every thread between calls, a parked sleeper has no asserted waker |
| Sleep.OnItsWay | pkg/sleep/sleep_unsafe.go:251-266 | a waker of the sleeper is associated exactly when it is not queued, being queued or held by Fetch; none is in the queue twice |
| Sleep.EmptyHanded | pkg/sleep/sleep_unsafe.go:154-168 | a Fetch that may not block returns nothing only when nothing is queued |
| Sleep.PushKeeps | pkg/sleep/sleep_unsafe.go:221-229 | the push by compare-and-swap is correct even if the list was emptied and refilled since its head was read |
| Sleep.ReverseKeeps | pkg/sleep/sleep_unsafe.go:127-134 | the pointer reversal keeps the order of pushing |
| Sleep.PopToFinish | pkg/sleep/sleep_unsafe.go:204-217 | each waker Done pulls is one of its pending ones |
| Sleep.DoneMeansDone | pkg/sleep/sleep_unsafe.go:173-219 | when Done returns no waker is on its way to the sleeper |
| Sleep.WaitKeeps | pkg/sleep/commit_noasm.go:16-28 | every step on the way to sleep keeps the invariant: preparing, checking again, and the commit that an enqueuer may have called off |
| Sleep.TakesG | pkg/sleep/sleep_unsafe.go:231-245 | calling a sleep off leaves exactly one thread to wake a committed one |
| SleepProgress.NoAssertLost | pkg/sleep/sleep_unsafe.go:251-266 | over every run of any number of threads: when all are between calls and the owner rests or is parked, each of its wakers for which Assert was called and that was neither cleared nor returned since is asserted and queued, and the owner is not parked |
| SleepProgress.ClearedIsNotReturned | pkg/sleep/sleep_unsafe.go:160-168 | over every run: a waker that is not asserted, with nobody inside Assert, is not returned by Fetch until Assert is called |
| SleepProgress.ClearClears | pkg/sleep/sleep_unsafe.go:274-285 | when Clear comes back the waker is not asserted |
| SleepAlone.AssertAlone | pkg/sleep/sleep_unsafe.go:221-266 | left alone, Assert of an associated waker marks it, pushes it, and wakes a sleeping owner |
| SleepAlone.AssertMarks | pkg/sleep/sleep_unsafe.go:251-266 | of one that belongs to nobody it only marks it; of an asserted one it does nothing |
| SleepAlone.ClearAlone | pkg/sleep/sleep_unsafe.go:274-285 | left alone, Clear takes an assertion back and touches nothing else |
| SleepAlone.FetchCall | pkg/sleep/sleep_unsafe.go:154-168 | left alone, Fetch returns the first asserted waker in the queue and leaves what is behind it; with none, and not to block, it returns with nothing |
| SleepAlone.AddAlone | pkg/sleep/sleep_unsafe.go:69-87 | left alone, AddWaker queues a waker that was asserted before and associates any other |
| SleepAlone.DoneAlone | pkg/sleep/sleep_unsafe.go:173-219 | with all threads between calls, Done comes back and the sleeper has no wakers |
| TryMutex.MutualExclusion | pkg/tmutex/tmutex.go:17-48 | in every run of fewer than 2^31 - 1 threads at most one holds the mutex, v is 1 exactly when none does, and v does not wrap |
| TryMutex.NobodyStuck | pkg/tmutex/tmutex.go:22-28 | when every thread is outside or asleep on an empty channel, none is asleep |
| TryMutex.StepKeeps | pkg/tmutex/tmutex.go:17-48 | each atomic step keeps the invariant, also that a sleeper while v >= 0 has a token, a sender or a rechecking waiter |
| TryMutex.TryLockAlone | pkg/tmutex/tmutex.go:31-37 | left alone, TryLock takes the mutex exactly when it is free, and otherwise changes nothing |
| TryMutex.LockAlone | pkg/tmutex/tmutex.go:17-20 | left alone, Lock takes a free mutex |
| TryMutex.UnlockAlone | pkg/tmutex/tmutex.go:39-48 | left alone, Unlock frees it and leaves the token if anyone may be waiting |
| TryMutex.HandsOver | pkg/tmutex/tmutex.go:22-28 | a sleeping waiter has the mutex after an Unlock and three steps of its own |
| Reassembler.AnyOrder | protocol/network/fragmentation/reassembler.go:45-86 | from pieces of one datagram in any order, overlapping and repeated, the datagram comes out exactly when they cover it, and unchanged |
| Reassembler.ProcessKeeps | protocol/network/fragmentation/reassembler.go:64-86 | after each piece the live holes are disjoint and exactly the missing bytes, or the datagram is handed over whole; the panic is unreachable |
| Reassembler.FillKeeps | protocol/network/fragmentation/reassembler.go:45-62 | updateHoles removes from the holes exactly the piece, and what lies beyond a last piece |
| Reassembler.NoHoleLeft | protocol/network/fragmentation/reassembler.go:78-80 | the count of deleted holes reaches the number of holes exactly when everything is there |
| Reassembler.AssembleWhole | protocol/network/fragmentation/frag_heap.go:40-60 | popping by offset and trimming overlaps puts the datagram together without a gap |
| Reassembler.ReassembleExact | protocol/network/fragmentation/frag_heap.go:40-60 | for any fragments at all in heap order, putting together succeeds exactly when below every end every number is covered |
| Reassembler.PanicsExactly | protocol/network/fragmentation/reassembler.go:78-85 | for any fragment, process panics exactly when it fills the last hole and the kept fragments leave a gap, and hands a datagram over exactly when they leave none |
| Reassembler.FeedExactly | protocol/network/fragmentation/reassembler.go:64-86 | the same over any sequence of fragments: incomplete while a hole is left, then a datagram or a panic as the fragments leave no gap or one |
| Reassembler.AnyFragments | protocol/network/fragmentation/reassembler.go:64-86 | so from a new reassembler, whatever is sent to it |
| Fragmentation.RunKeeps | protocol/network/fragmentation/fragmentation.go:44-78 | over every run with many datagrams, timeouts and evictions: no panic, whatever comes out is what was sent, and the memory is within the high limit after every call |
| FragmentationRuns.ComesOut | protocol/network/fragmentation/fragmentation.go:44-78 | over every run with room, with anything interleaved: the fragments of one id that arrive within the timeout of its first give its datagram back, with the fragment that completes it and not before |
| FragmentationRuns.StartsAnew | protocol/network/fragmentation/fragmentation.go:49-59 | a fragment later than that is answered as the first of a new datagram |
| FragmentationRuns.RunByAge | protocol/network/fragmentation/fragmentation.go:69-75 | over every run whose clock does not go back the list runs from the youngest to the oldest, so eviction takes the oldest |
| FragmentationRuns.NewLimits | protocol/network/fragmentation/fragmentation.go:26-41 | the low limit is neither above the high one nor negative |
| Fragmentation.ProcessKeeps | protocol/network/fragmentation/fragmentation.go:44-78 | whatever arrives, the counter is the sum of what the live reassemblers hold, and map and list agree |
| Fragmentation.EvictKeeps | protocol/network/fragmentation/fragmentation.go:69-75 | eviction drops the oldest, leaves the front of the list within the low limit, and drops no more than that takes |
| Fragmentation.ReleaseKeeps | protocol/network/fragmentation/fragmentation.go:80-92 | a release takes off exactly what the reassembler held; the branch for a negative counter is dead |
| FragmentationObject.Reassembler.UpdateHoles | protocol/network/fragmentation/reassembler.go:45-62 | the loop that appends to the slice it ranges over |
| FragmentationObject.Reassembler.Process | protocol/network/fragmentation/reassembler.go:64-86 | process, field by field |
| FragmentationObject.Reassembler.Reassemble | protocol/network/fragmentation/frag_heap.go:40-60 | the loop that pops, trims and appends |
| FragmentationObject.Fragmentation.Process | protocol/network/fragmentation/fragmentation.go:44-78 | Process on objects, map and list |
| FragmentationObject.Fragmentation.Release | protocol/network/fragmentation/fragmentation.go:80-92 | release on objects, map and list |
| FragmentationObject.Fragmentation.Evict | protocol/network/fragmentation/fragmentation.go:69-75 | the eviction loop |
| FragmentationObject.Fragmentation.constructor | protocol/network/fragmentation/fragmentation.go:26-41 | the two limits are put in order |
| Checksum.MeetsDefinition | protocol/header/checksum.go:6-25 | the deferred carries give the sum with end-around carry that section 1 of RFC 1071 defines |
| Checksum.Checksum | protocol/header/checksum.go:6-20 | no buffer of up to 2^17 bytes overflows the uint32, and the loop computes the ones' complement sum |
| Checksum.ChecksumCombine | protocol/header/checksum.go:22-25 | combining is addition with end-around carry |
| Checksum.AnyViews | protocol/transport/tcp/connect.go:595-597 | for any number of views of any lengths, view by view equals all at once exactly when the words of the views that begin at an odd offset add up to a multiple of 257 |
| Checksum.EvenViews | protocol/transport/tcp/connect.go:595-597 | so it does when every view but the last has even length |
| Checksum.Resums | protocol/header/ipv4.go:148-154 | with the complement stored in a zeroed field the sum of the whole is 0xFFFF |
| Checksum.TcpSumIsFlat | protocol/header/tcp.go:297-305 | payload view by view, length and header summed out of order give the sum of the segment on the wire exactly in the same cases |
| Checksum.TcpResums | protocol/header/tcp.go:297-305 | the checksum sendTCP fills in makes the receiver's sum 0xFFFF exactly in the same cases |
| Checksum.EncodePartial | protocol/header/ipv4.go:187-191 | the two fields, in place; from a correct partial checksum the result is the header that a computation from scratch leaves, and it sums to 0xFFFF |
| Checksum.PartialIsEnough | protocol/header/ipv4.go:182-191 | the partial checksum, without length and checksum, is all that is needed to complete a header |
| Options.SynRoundTrip | protocol/header/tcp.go:155-226 | ParseSynOptions reads back what makeSynOptions wrote, the echo only in a SYN-ACK, scales cut at 14; with a zero MSS it reads nothing |
| Options.SegmentRoundTrip | protocol/header/tcp.go:229-282 | ParseTCPOptions reads back the times and the first three SACK blocks, or four without times |
| Options.SynWire | protocol/header/tcp.go:42-49 | the bytes of a SYN's options, with their kinds and lengths as numbers |
| Options.SegmentWire | protocol/header/tcp.go:384-407 | the bytes of any other segment's, three blocks beside the times or four without |
| Options.Sizes | protocol/header/tcp.go:417-426 | options fill whole words, at most ten, so no padding is needed |
| Options.MakeSynOptions | protocol/transport/tcp/connect.go:487-515 | the bytes depend on the options alone, not on what the pooled buffer held; the panic is dead |
| Options.MakeOptions | protocol/transport/tcp/connect.go:518-537 | the same for the options of other segments |
| Options.ParseSynOptions | protocol/header/tcp.go:155-226 | the loop ends and stays in bounds on every byte string |
| Options.ParseTcpOptions | protocol/header/tcp.go:229-282 | so does this one, also on SACK lengths 0 and 1 |
| Options.EncodeMssOption | protocol/header/tcp.go:346-355 | four bytes, or none if they do not fit |
| Options.EncodeWsOption | protocol/header/tcp.go:357-363 | three bytes, or none |
| Options.EncodeTsOption | protocol/header/tcp.go:365-373 | ten bytes, or none |
| Options.EncodeSackPermittedOption | protocol/header/tcp.go:375-382 | two bytes, or none |
| Options.EncodeSackBlocks | protocol/header/tcp.go:384-407 | as many blocks as fit, at most four |
| Options.AddPadding | protocol/header/tcp.go:417-426 | NOPs up to the next multiple of four |
| SynCookie.Accepts | protocol/transport/tcp/accept.go:153-170 | for an arbitrary hash, a cookie is accepted for its connection and number exactly when its age in 64-second ticks modulo 256 is at most 2, and gives 24 bits of data back |
| SynCookie.Handshake | protocol/transport/tcp/accept.go:300-308 | the final ACK gives a connection the largest table entry its offer reaches, or 536, exactly when the cookie is young |
| SynCookie.OnAckExact | protocol/transport/tcp/accept.go:300-308 | for a cookie made with any data, the ACK gives a connection exactly when the cookie is young and its 24 bits are one of the four indices |
| SynCookie.EncodeMSS | protocol/transport/tcp/accept.go:69-76 | the index of the largest entry not above the offer, or 0 |
| SynCookie.Offered | protocol/transport/tcp/accept.go:42-45 | no table entry lies between the size given and the offer |
| Views.VectorisedView.TrimFront | pkg/buffer/view.go:39-49 | the first count bytes go, across slices |
| Views.VectorisedView.CapLength | pkg/buffer/view.go:52-73 | only the first bytes stay, across slices |
| Views.VectorisedView.RemoveFirst | pkg/buffer/view.go:76-82 | the first slice goes |
| Views.VectorisedView.Clone | pkg/buffer/view.go:85-87 | the copy has its own array of slices, in the caller's buffer or a new one, so that trimming or capping either leaves the other alone |
| Views.VectorisedView.ToView | pkg/buffer/view.go:103-109 | the flat bytes |
| Views.Split | protocol/transport/tcp/snd.go:281-287 | clone, trim and cap give two parts that together are the whole |
| Lists.List.PushFront | protocol/network/fragmentation/reassembler_list.go:31-42 | the pointers represent the sequence with e in front |
| Lists.List.PushBack | protocol/transport/tcp/tcp_segment_list.go:43-54 | the pointers represent the sequence with e at the end |
| Lists.List.PushBackList | protocol/transport/tcp/tcp_segment_list.go:56-69 | the two sequences joined, and the other list empty |
| Lists.List.InsertAfter | protocol/transport/tcp/tcp_segment_list.go:72-83 | e right behind b |
| Lists.List.Remove | protocol/transport/tcp/tcp_segment_list.go:99-114 | the sequence without e, whose own links are left as they were |
| Lists.RemoveFromBack | protocol/network/fragmentation/fragmentation.go:70-74 | going on from the links of a removed node visits the list from its back |

## Left out

- WrapConnection.EndToEnd: asks that no acknowledgement older than 2^31 numbers arrives, no data older than 2^31 while the receiver is inside its window, and none older than about 2^30 while it is overrun; with 2^31 in its place the theorem is false (StaleData.StaleDelivered), and while the window is kept nothing is asked but 2^31 (ConnectionWindow.OwnSender).
- Heap.PushOrdered: container/heap itself is modelled by a binary heap with the same comparisons and swaps.
- FragmentationObject.Fragmentation.Process: one call is one step; the gap between its two locked regions, in which another goroutine may release the same reassembler, is not modelled.
- TryMutex.MutualExclusion: from 2^31 - 1 threads on, v could wrap.
- Sleep.StepKeeps: gopark and goready are steps, and a sleeper is used by one goroutine at a time, as its documentation demands.
- Options.MakeOptions: the check that SACK was negotiated is the caller's choice of blocks.
- SenderObject.Sender: the write list is a sequence with an index for writeNext, where the source has an intrusive list and a pointer; Lists proves that such a list represents the sequence.
- SenderObject.Sender.UpdateCwnd: needs a positive window, which SenderProofs keeps in every run; dividing by zero would panic.
- SenderObject.Sender.HandleRcvdSegment: needs the same, since it calls UpdateCwnd.
- Timestamps (the sendTSOk branches), the CUBIC variant and the floating-point branch of updateRTO.
- Keepalive, socket options, handshake retransmission, resets, drain and restore, and the read side of Shutdown.
- One clock reading serves a whole event, where the source reads the clock for each segment.
- Changes of the buffer sizes during a connection, and the receiver's zero-window probe response nonZeroWindow.
- Acknowledgements ride on segments of the other direction; the model sends them separately and lets them arrive with any logical length.
- Reading takes whole views; Peek and the counters behind ioctl are not modelled.
- The bytes behind a slice are never written through a view, so a slice is a sequence of bytes.
- Liveness: the code has no persist timer, so only safety is claimed.
- Fragment identifiers are assumed not to collide; Handshake treats the hash as an arbitrary function.
- TCP EncodePartial, which the stack does not use, PseudoHeaderChecksum, and IPv6.
- Link layer, ARP, ICMP, UDP, routing, ports and devices: maps and plumbing with easy invariants.
