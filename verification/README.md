# MPRTP control loop

A Dafny model of the MPRTP library's control loop, and proofs about it. A sender spreads one RTP
stream over several subflows; a receiver extends sequence numbers and measures loss and jitter per
source and per subflow; receiver reports travel back over the wire; the sender's per-subflow
congestion machine consumes them and the traffic shares are recomputed.

| file | what it holds |
|---|---|
| `Numeric.dfy`, `Bytes.dfy`, `Reports.dfy` | fixed-width integers, byte order and buffers, report values |
| `Congestion.dfy`, `Subflow.dfy` | the congestion machine (TB, CB, CI) as functions over runs, and the subflow object |
| `Allocation.dfy`, `Selection.dfy` | traffic shares and the weighted draw |
| `Clock.dfy` | NTP words and RTP timestamps |
| `Statistics.dfy`, `SourceStats.dfy` | sequence extension, loss, jitter, and the statistics object |
| `Rtp.dfy`, `RtpPacket.dfy` | RTP packets and the parser |
| `Rtcp.dfy`, `Session.dfy` | RTCP and MPRTCP packets and the walkers |
| `SenderModel.dfy`, `SenderRuns.dfy`, `Sender.dfy` | the sender as a state machine, what holds over its runs, and the object |
| `SourceModel.dfy`, `Source.dfy` | the receiver's source, likewise |
| `ControlLoop.dfy` | what passes between the two ends |
| `World.dfy`, `Reachability.dfy` | sender, network and receiver's source as one state machine, and what its runs can come to |

The objects (`Subflow`, `SourceStats`, `RtpPacket`, `Session`, `Sender`, `CompoundPacket`, `Source`)
keep the fields of the C++ classes, and their methods run the same loops and branches; each method is
proved equal to a function of the old state, and the theorems are about those functions over whole
runs.

## Main results

- **Congestion machine.** In every reachable state CI > 0 forces CB to be initialised and equal to
  TB, 0 <= CB <= TB, and a subflow is ready exactly when TB is initialised; the branch that
  initialises CB during cool-down is dead. Cooling down from CI = c takes more than TO\*c\*(c+1)/2
  seconds, whatever losses follow, and measured loss-free reports more than nine seconds apart lower
  CI by one each. TB is bounded by the best rate since the last loss and converges geometrically; the
  bitrate of an interval without loss is the octets sent by the seconds between the reports.
- **Shares.** In reachable states recalculation divides by zero exactly when all tested bitrates are
  zero, and a run leads there. Otherwise shares are non-negative with total at most one (exactly one
  when all subflows are congested or some are untroubled with traffic), except in one case: some but
  not all subflows are congested and the untroubled ones have zero TB between them. Then old shares
  stay, and the total is at most one exactly when those leave room for what the others are assigned;
  a run of a two-subflow sender ends with a total of 1.5. A congested subflow is held to half its CB
  and a lossy one to three quarters, relative to the stream bitrate, which is the octets sent since the
  last measurement by the time since.
- **Start-up.** A sender with four or more subflows never redistributes: the fourth can never be
  drawn while shares are one half, so it never becomes ready, and one unready subflow stops
  recalculation. With one to three subflows a run leads to a poll that does redistribute.
- **Connecting again.** After a redistribution every new subflow adds one half to a total of one. The
  first is drawn by one draw of the 101 and the others by none, so two or more new subflows freeze all
  shares for good.
- **Conservation.** Over any run, connecting included, packet and octet totals and sequence numbers
  of the stream follow the sums over its subflows, and ids stay distinct exactly up to 2^16 of them.
- **Receiver statistics.** The 16-bit counter refines an unbounded one in an exactly characterised
  window; interval losses add up to cumulative loss over any run; for in-order delivery cumulative
  loss is the number of missing packets; the statistics of a subflow do not depend on the others.
  The jitter is the filter of RFC 3550, appendix A.8, over the packets' true transit times, zero for a
  perfectly paced stream.
- **Wire.** Every compound packet made of reports and MPRTCP packets walks back to its reports; the
  sender's and the receiver's builders write such packets; `send_data` packets, and RTP packets with
  any CSRCs, extension and padding, parse back. The MPRTCP block loop ends exactly when no length
  byte it meets is zero; before one that is zero, n rounds deliver the same block n times.
- **Both ends.** Cumulative loss at the receiver is the number of packets the sending subflow numbered
  and an order-keeping channel did not deliver. The bytes of a receiver report drive each sender
  subflow with exactly the report made of its statistics. However many reports are in flight, the
  sender's estimate of delivered packets is within expected/256 of the truth, unless a report was made
  before the first packet; when one is made, and when it spoils the estimate, is characterised exactly.

The existential results (`Reachability.dfy`) are about runs of the whole: a sender, a network that
loses packets, and a source of the receiver. Data packets, sender reports and answers reach the other
end as the library makes them; an answer holds a block on every subflow the receiver knows; clock
readings are positive and never go back. The for-all results ask only that a measured report arrives
after its predecessor and that the two readings taken for it are in order, and hold of both ends in
every run of the whole (`World.WorldRunsSender`, `World.WorldRunsSource`).

## How the C++ is read

- `double` is `real`; rounding is not modelled. Clock readings, `rand()` draws and whether `sendto`
  took the whole packet are inputs; readings of one call that the C++ takes separately are separate inputs.
- A stream bitrate of zero (a second without traffic) makes the cap at src/mprtp_sender.cpp:339
  infinite or NaN; `std::min` then keeps its first argument, and so does the model.
- Divisions by zero that the C++ turns into a NaN share or bitrate are preconditions: equal arrival
  times of two measured reports, all tested bitrates zero, a timestamp unit of zero.
- An interval without packets divides zero by zero (include/mprtp_stat.h:70) and casts the NaN to a
  byte; that byte is an arbitrary input. The runs shown in `Reachability.dfy` take it as zero.
- A `double` cast outside the integer's range is undefined in C++; the model keeps the low 32 bits.
  `Clock.TimestampDrift` and `SenderRuns.TimestampsFollowClock` are proved for such steps too (a clock
  that goes back, or 2^32 ticks in one step); there they speak of the model's cast alone.
- The parser and the walkers check no bounds before reading. A read past the packet is the outcome
  `Overrun` (for `RtpPacket`, no return code); a block length of zero, which repeats one block for
  ever, is the outcome `Stuck`.
- In `World.dfy` both ends read one clock, packets arrive in the order they are sent or not at all, and
  the sender has connected before the run begins.
- Reports are built for subflow lists that fit their 65535-byte buffers, and payloads for lengths an
  `int` packet length can hold, as the library assumes without checking.
- Numbers handed to the statistics are the 16-bit ones a parse yields, as in the library.

Where code and comments disagree the code is followed: the comment at src/mprtp_sender.cpp:324 limits
the stepwise approach to partly congested senders, but there is no `else` before line 311 and an
uncongested sender runs it too. RFC 3550 (section 6.4.1) makes cumulative loss a signed, clamped
24-bit number; the code keeps it modulo 2^24. The probation and dropout rules of RFC 3550, appendix
A.1, are not in the code: any number at or above the highest in its cycle is a jump ahead.

## Model

| member | source | states |
|---|---|---|
| `Congestion.InstantNonNegative` | src/mprtp_subflow.cpp:10-15 | the instant bitrate of a later report is never negative, even when the highest sequence number wraps |
| `Congestion.StepKeepsInv` | src/mprtp_subflow.cpp:6-68 | every send and every report keeps the congestion machine's invariant |
| `Congestion.ReachableInv` | src/mprtp_subflow.cpp:6-68 | the invariant holds after any run of sends and reports |
| `Congestion.FreshSubflowInv` | src/mprtp_subflow.cpp:6-68 | from creation on: 0 <= CI <= CIMAX, CI > 0 implies CB initialised and CB = TB, 0 <= CB <= TB, ready iff TB initialised |
| `Congestion.CoolDown` | src/mprtp_subflow.cpp:30-36 | over a loss-free run each lowering of CI from k costs more than TO*k seconds, summed over all lowerings |
| `Congestion.CoolingNeverShortens` | src/mprtp_subflow.cpp:30-62 | over any run on a clock that never goes back, losses included, the earliest time at which CI can be back at zero never becomes earlier |
| `Congestion.CoolDownAfterLoss` | src/mprtp_subflow.cpp:30-62 | after a lossy report leaving CI = c, more than TO*c*(c+1)/2 seconds pass before CI is 0, and more than TO*CIMAX before congestion ends, whatever reports follow |
| `Congestion.CoolsExactly` | src/mprtp_subflow.cpp:30-36 | a measured loss-free report lowers CI by one and restarts its clock iff it is read more than 3*CI seconds after the clock was started |
| `Congestion.Recovers` | src/mprtp_subflow.cpp:30-36 | k measured loss-free reports more than nine seconds apart bring CI down by k or to zero, so congestion ends |
| `Congestion.RateMeasured` | src/mprtp_subflow.cpp:10-15 | the bitrate of a measured report, times the seconds and the packets sent, is the packets reported delivered times the octets sent |
| `Congestion.GoodputMeasured` | src/mprtp_subflow.cpp:10-15 | where all that was sent between two reports is reported delivered, the bitrate is the octets sent by the seconds between them |
| `Congestion.RatesSet` | src/mprtp_subflow.cpp:20-57 | the first measured report sets TB, and one with loss TB and CB, to 0.99 of its bitrate; loss starts the clock of CI |
| `Congestion.IndicatorClimbs` | src/mprtp_subflow.cpp:48-62 | k lossy reports in a row raise CI by k, capped at CIMAX |
| `Congestion.TestedBounded` | src/mprtp_subflow.cpp:18-29 | between losses TB never falls and never exceeds the largest bitrate measured since it was set |
| `Congestion.TestedResetBelowSample` | src/mprtp_subflow.cpp:18-53 | initialisation and loss set TB below the bitrate of that report |
| `Congestion.TestedConverges` | src/mprtp_subflow.cpp:26-29 | at a constant bitrate B, B - TB shrinks by ALPHA^k over k measured loss-free reports |
| `Congestion.RepeatedReportIgnored` | src/mprtp_subflow.cpp:65-67 | a report delivered any number of times has the effect of one delivery, so the repeating report-block loop is harmless here |
| `Congestion.CountersCount` | include/mprtp_subflow.h:48-63 | totals count the delivered RTP packets and octets of any run, and the recent counters those since the last report |
| `Subflows.Subflow.constructor` | include/mprtp_subflow.h:19-38 | a new subflow is in the initial state with fresh receive statistics |
| `Subflows.Subflow.SendTo` | include/mprtp_subflow.h:48-63 | counters and sequence number after handing over a packet, for RTP and RTCP, success and failure |
| `Subflows.Subflow.SetPercentage` | include/mprtp_subflow.h:84 | sets the share and nothing else |
| `Subflows.Subflow.Measure` | src/mprtp_subflow.cpp:10-15 | the instant bitrate of a report against the previous one |
| `Subflows.Subflow.RaiseTested` | src/mprtp_subflow.cpp:20-29 | TB after a loss-free report |
| `Subflows.Subflow.CoolDown` | src/mprtp_subflow.cpp:30-47 | CI, its time and CB after a loss-free report with CI > 0 |
| `Subflows.Subflow.ProcessRrPacket` | src/mprtp_subflow.cpp:6-68 | the whole new state after a receiver report is that of the congestion machine |
| `Allocation.DivisibleExactly` | src/mprtp_sender.cpp:300-369 | in reachable states recalculation divides by zero iff all are ready, there is one, and the TB sum is zero; the CB divisor needs no assumption |
| `Allocation.SumsNonNegative` | src/mprtp_sender.cpp:326-360 | reachable TB sums are non-negative and bound each member; a zero rest sum means zero TB for each rest member |
| `Allocation.CongestedSumsAgree` | src/mprtp_sender.cpp:311-317 | when all are congested the CB sum equals the TB sum |
| `Allocation.LimitedShareBounds` | src/mprtp_sender.cpp:336-347 | a congested or lossy share lies between zero and the proportional share |
| `Allocation.TroubleIsLimited` | src/mprtp_sender.cpp:336-347 | unless all are congested, a congested subflow's share times the stream bitrate is at most half its CB, a lossy one's three quarters; both are at most proportional, and the larger share these limits allow |
| `Allocation.AssignedBounds` | src/mprtp_sender.cpp:332-352 | AP is at most the troubled subflows' part of the TB sum |
| `Allocation.SharesAreDistribution` | src/mprtp_sender.cpp:283-370 | outside the stale case shares are non-negative, total at most one, and exactly one if all are congested or the rest has positive TB |
| `Allocation.PositiveRatesSettle` | src/mprtp_sender.cpp:354-369 | with positive TB everywhere the stale case cannot arise |
| `Allocation.TotalBoundedExactly` | src/mprtp_sender.cpp:354-369 | the total is at most one iff the state is not stale or the shares the rest keeps leave room for what the others are assigned |
| `Allocation.StaleTotal` | src/mprtp_sender.cpp:361-368 | in a stale state the total is the kept shares plus the assigned ones, of which there are some |
| `Allocation.AllCongestedShare` | src/mprtp_sender.cpp:311-321 | with all congested each share is TB over the TB sum |
| `Allocation.NoTroubleShare` | src/mprtp_sender.cpp:300-311 | with no trouble both branches give TB over the TB sum |
| `Allocation.ExtremesAgree` | src/mprtp_sender.cpp:300-321 | total congestion and no trouble give the same shares |
| `Allocation.FallThroughExactly` | src/mprtp_sender.cpp:300-369 | without congestion the function equals its stepwise branch alone, except that rest members with zero TB sum get zero |
| `Allocation.RestShare` | src/mprtp_sender.cpp:354-368 | an untroubled subflow gets its TB times one common factor, at least its proportional share |
| `Allocation.StepwiseOrder` | src/mprtp_sender.cpp:324-369 | congested and lossy subflows get at most, the rest at least, their proportional share |
| `Allocation.RestStaysProportional` | src/mprtp_sender.cpp:363-367 | untroubled shares stay in the ratio of their TBs |
| `Allocation.TroubleNeverPays` | src/mprtp_sender.cpp:336-367 | at equal TB congested <= lossy <= untroubled |
| `Allocation.SharesKeepSums` | src/mprtp_sender.cpp:300-370 | no sum used by recalculation depends on the shares held before |
| `Selection.PickExactly` | src/mprtp_sender.cpp:88-101 | a subflow is drawn iff the draw lies in its cumulative interval, or it is the front and no interval covers the draw |
| `Selection.PicksExactly` | src/mprtp_sender.cpp:88-101 | the exact number of draws that choose each subflow, for any non-negative shares |
| `Selection.PicksAddUp` | src/mprtp_sender.cpp:88-101 | the counts of the first m subflows add up exactly |
| `Selection.DrawsFollowShares` | src/mprtp_sender.cpp:88-101 | of the 101 draws a non-front subflow gets 100*share to within one, none for a zero share; the front its own and all uncovered; all add up to 101 |
| `Selection.HalfSharesReachThree` | src/mprtp_sender.cpp:88-101 | with initial shares the second subflow gets 50 draws, the third one, later ones none |
| `Clock.MicrosecondsClose` | include/mprtp_time.h:128-149 | seconds and capped microseconds give the time back to within half a microsecond up and one down |
| `Clock.FractionRoundTrip` | include/mprtp_time.h:217-231 | a microsecond count survives the 32-bit fraction iff it is a multiple of 15625, and otherwise loses one |
| `Clock.NtpRoundTrip` | include/mprtp_time.h:104-121 | to NTP and back never gains time, and loses less than two microseconds iff the NTP seconds fit 32 bits |
| `Clock.NtpWordsMean` | include/mprtp_time.h:217-231 | the words are seconds since 1900 and a binary fraction, less than a microsecond and one unit below the time |
| `Clock.TimestampDrift` | src/mprtp_sender.cpp:154-170 | after n steps the timestamp is within n/2 ticks of the elapsed time, modulo 2^32 |
| `Statistics.AttributionExactly` | src/mprtp_stat.cpp:47-71 | the index the receiver attributes is the true one iff it lies in the window |
| `Statistics.ExtensionExactly` | src/mprtp_stat.cpp:44-71 | number and highest stay in step with the true counter iff the packet is in the window; a late one from before a wrap never is |
| `Statistics.ExtensionRefinesCounter` | src/mprtp_stat.cpp:9-71 | over any stream in the window each number is the true index plus one fixed multiple of 2^16, and the highest is the true maximum plus the same |
| `Statistics.IntervalLossesAddUp` | include/mprtp_stat.h:54-112 | over any run the interval losses sum to the cumulative loss, modulo 2^32 and 2^24 on the wire |
| `Statistics.LossIsMissingPackets` | include/mprtp_stat.h:74-77 | without duplicates and starting at the lowest index, cumulative loss counts exactly the missing packets, reordered or not |
| `Statistics.InOrderLoss` | include/mprtp_stat.h:74-77 | the same for in-order delivery with gaps below 2^15 |
| `Statistics.FractionUndefinedExactly` | include/mprtp_stat.h:63-72 | the loss fraction is zero over zero iff no packet arrived since the last report |
| `Statistics.FractionSound` | include/mprtp_stat.h:63-72 | with packets received the byte is floor(256*lost/expected) without overflow, and the estimate from it is within expected/256 above the true count |
| `Statistics.LossByteZeroExactly` | include/mprtp_stat.h:57-72 | with packets received a report's loss byte is zero iff 256*(expected - received) < expected, also when more arrived than expected |
| `Statistics.ReportFields` | include/mprtp_stat.h:74-110 | a report's source, highest number, jitter, LSR as the middle NTP bits and DLSR as the delay in 65536ths |
| `Statistics.LsrIsMiddleOfNtp` | include/mprtp_stat.h:90-93 | LSR is the middle 32 bits of the NTP timestamp |
| `Statistics.TimestampDifferenceExactly` | src/mprtp_stat.cpp:94-127 | the difference is congruent, antisymmetric, and true exactly in a window that contains every change smaller than 2^28 either way |
| `Statistics.JitterBound` | src/mprtp_stat.cpp:129-137 | after n updates with changes of at most b the jitter is at most b - (15/16)^n (b - start), with equality for constant b |
| `Statistics.JitterFromStart` | src/mprtp_stat.cpp:83-137 | from the first packet the jitter lies in [0, b(1-(15/16)^n)] |
| `Statistics.JitterFiltersTransit` | src/mprtp_stat.cpp:83-137 | the jitter of a stream is the filter J += (abs(D) - J)/16 over its true transit times, arrival minus timestamp, across timestamp wraps |
| `Statistics.JitterMeasuresTransit` | src/mprtp_stat.cpp:83-137 | with transit steps of at most b it lies in [0, b(1-(15/16)^n)], at the end iff all steps are b, and zero for equal transit times; the report carries its whole part |
| `Statistics.NoUnitNoJitter` | src/mprtp_stat.cpp:83-143 | without a positive timestamp unit it is zero |
| `SourceStatistics.SourceStats.constructor` | include/mprtp_stat.h:15-31 | new statistics are in the initial state |
| `SourceStatistics.SourceStats.ExtendNumber` | src/mprtp_stat.cpp:47-71 | cycle count, extended number and highest number |
| `SourceStatistics.SourceStats.UpdateJitter` | src/mprtp_stat.cpp:83-143 | the jitter filter, or zero for a non-positive unit |
| `SourceStatistics.SourceStats.ProcessPacket` | src/mprtp_stat.cpp:5-150 | the whole new state, and which sequence field of the packet is overwritten with which number |
| `SourceStatistics.SourceStats.FillReceiverReport` | include/mprtp_stat.h:54-112 | every field of the report, and the reset of the interval |
| `Rtp.PartsTilePacket` | src/mprtp_packet.cpp:48-91 | header, payload and padding of any packet that parses make up its length |
| `Rtp.RtpRoundTrip` | src/mprtp_packet.cpp:18-107 | any well-formed packet parses back to its fields and CSRCs, unless marker and type imitate RTCP, which is rejected |
| `Rtp.DataRoundTrip` | src/mprtp_sender.cpp:111-137 | the packet of send_data parses back to payload, numbers, timestamp, SSRC and subflow id |
| `Rtp.DataLayout` | src/mprtp_sender.cpp:111-137 | every octet of the packet of send_data |
| `Rtp.FixedLayout` | src/mprtp_packet.cpp:27-91 | where a packet that parses keeps its fixed fields |
| `Rtp.ExtensionLayout` | src/mprtp_packet.cpp:59-80 | where it keeps the extension's identifier and length, and the subflow's id and number |
| `Rtp.VerdictPlain` | src/mprtp_packet.cpp:10-85 | the error code of a packet without extension: which of the six checks fails first |
| `RtpPackets.RtpPacket.constructor` | include/mprtp_packet.h:71-90 | error code and fields are those of the parse |
| `RtpPackets.RtpPacket.ReadHeader` | src/mprtp_packet.cpp:29-48 | version and RTCP-imitation checks |
| `RtpPackets.RtpPacket.ReadExtension` | src/mprtp_packet.cpp:59-80 | extension, subflow id and number, and the offset behind |
| `RtpPackets.RtpPacket.ReadFields` | src/mprtp_packet.cpp:87-91 | number, timestamp, SSRC and payload |
| `RtpPackets.RtpPacket.ParsePacket` | src/mprtp_packet.cpp:8-94 | the step-by-step parser returns every error code and field of the parse |
| `Rtcp.RrRoundTrip` | src/mprtp_rr_packet.cpp:5-18 | a report block decodes to itself, cumulative loss modulo 2^24 |
| `Rtcp.SrRoundTrip` | src/mprtp_sr_packet.cpp:6-36 | a sender report decodes to itself with all its blocks |
| `Rtcp.RrPacketDelivers` | src/mprtp_session.cpp:102-116 | a receiver report packet delivers its first block once per block it carries |
| `Rtcp.RrPacketFaithfulExactly` | src/mprtp_session.cpp:111-115 | it is delivered as sent iff all its blocks are alike |
| `Rtcp.ReportDelivers` | src/mprtp_session.cpp:47-71 | a report at the start of any bytes is dispatched, delivered and its length skipped exactly |
| `Rtcp.BlocksPrefix` | src/mprtp_session.cpp:147-189 | well-formed MPRTCP blocks deliver their reports in order, whatever follows them |
| `Rtcp.ZeroLengthRepeats` | src/mprtp_session.cpp:147-189 | before a length byte of zero n rounds of the loop move nowhere and deliver the block n times, for every n |
| `Rtcp.ZeroLengthSticks` | src/mprtp_session.cpp:188 | so behind well-formed blocks: those are delivered, the zero block then n times in n rounds, and nothing behind it |
| `Rtcp.LoopFollowsWalk` | src/mprtp_session.cpp:147-189 | the walk function tells what the loop does: its deliveries and end, or the block it repeats for ever |
| `Rtcp.LoopEndsExactly` | src/mprtp_session.cpp:147-189 | the loop ends iff no length byte it meets is zero |
| `Rtcp.MultiRoundTrip` | src/mprtp_session.cpp:133-190 | an MPRTCP packet walks to its reports and its length field leads exactly behind it |
| `Rtcp.CompoundRoundTrip` | src/mprtp_session.cpp:41-74 | any compound packet walks to exactly its reports, in order, and ends |
| `Rtcp.BlockLayout` | src/mprtp_rr_packet.cpp:5-18 | where a report block keeps its fields |
| `Rtcp.SenderReportLayout` | src/mprtp_sr_packet.cpp:6-36 | where a sender report keeps its fields and blocks |
| `Rtcp.PacketDispatch` | src/mprtp_session.cpp:47-71 | what a packet is taken for by its second octet, and its length |
| `Rtcp.BlockDispatch` | src/mprtp_session.cpp:149-188 | what an MPRTCP block is taken for, and that others are skipped by their length |
| `Rtcp.UnknownPacketSkipped` | src/mprtp_session.cpp:67-72 | packets of other types are skipped by their length |
| `Rtcp.WrittenHeads` | src/mprtp_sender.cpp:204-218 | version, types and SSRCs of what the builders write |
| `Sessions.Session.ReadBlocks` | src/mprtp_sr_packet.cpp:25-33 | the loop over the report blocks of a sender report |
| `Sessions.Session.ProcessSr` | src/mprtp_session.cpp:93-100 | delivers the decoded sender report |
| `Sessions.Session.ProcessRr` | src/mprtp_session.cpp:102-116 | the loop that delivers the first block `count` times |
| `Sessions.Session.ProcessBlock` | src/mprtp_session.cpp:149-187 | dispatch of one MPRTCP block |
| `Sessions.Session.ProcessMprtcp` | src/mprtp_session.cpp:133-190 | the block walk, its deliveries and how it ends |
| `Sessions.Session.ProcessPacket` | src/mprtp_session.cpp:47-70 | dispatch on the packet type |
| `Sessions.Session.ProcessRtcp` | src/mprtp_session.cpp:41-74 | the compound walk, its deliveries and how it ends |
| `SenderModel.SenderReportRoundTrip` | src/mprtp_sender.cpp:172-252 | the bytes of a sender report walk to the main report with id 0, then one per subflow in order with its id and counts |
| `SenderModel.StepKeepsSenderInv` | src/mprtp_sender.cpp:31-370 | every connect, send, report and poll keeps each subflow's invariant and a non-negative stream bitrate |
| `SenderModel.ReachableSenderInv` | src/mprtp_sender.cpp:31-370 | so does every run |
| `SenderModel.SendChanges` | src/mprtp_sender.cpp:104-152 | one send changes the chosen subflow and the counters only, and advances the sequence number even when it fails |
| `SenderModel.PollChanges` | src/mprtp_sender.cpp:31-61 | a poll changes subflows in their shares at most, and not at all while one is not ready |
| `SenderModel.StepKeepsIds` | src/mprtp_sender.cpp:63-86 | every call keeps ids in the order of issue and the next one ready |
| `SenderModel.IdsDistinctExactly` | src/mprtp_sender.cpp:79 | ids in the order of issue are distinct iff at most 2^16 were issued |
| `SenderRuns.Conservation` | src/mprtp_sender.cpp:63-152 | over any run of a new sender, connecting included, totals equal the sums over subflows modulo 2^32, the sequence number advances as theirs do together modulo 2^16, and ids are distinct iff at most 2^16 were issued |
| `SenderRuns.SharesAfterRun` | src/mprtp_sender.cpp:283-370 | after any run with all ready and positive TBs, a recalculating poll leaves a distribution that the draws follow |
| `SenderRuns.TimestampsFollowClock` | src/mprtp_sender.cpp:154-170 | over any interleaving of calls, n stamps drift at most n/2 ticks from the clock |
| `SenderRuns.TimestampsFromFirst` | src/mprtp_sender.cpp:154-170 | while nothing is counted a stamp is random; from it on the timestamp follows the clock within n/2 ticks |
| `SenderRuns.RateMeasuresTraffic` | src/mprtp_sender.cpp:43-54 | at the first poll a second or more after the last measurement the stream bitrate times the time since is the octets sent since, data and reports with headers; until then it stays |
| `SenderRuns.MeasuringStarts` | include/mprtp_sender.h:39-46 | measuring starts with the first delivered packet or the first poll |
| `SenderRuns.LimitsAfterRun` | src/mprtp_sender.cpp:332-347 | after any run a recalculating poll leaves subflows in trouble within their limits, by the bitrate it measured |
| `SenderRuns.SharesChangeOnRequest` | src/mprtp_sender.cpp:55-59 | shares change at a poll alone, and only if a report on a subflow came since the poll before |
| `SenderRuns.ReportCadence` | src/mprtp_sender.cpp:36-42 | a poll sends a sender report iff at least five whole seconds lie behind the last one or the first packet |
| `SenderRuns.SsrcOfLastConnect` | src/mprtp_sender.cpp:70 | the SSRC is that of the last connect that had an interface |
| `SenderRuns.StarvationLasts` | src/mprtp_sender.cpp:88-101 | once shares in front exceed one and a subflow behind is not ready, all shares are frozen and those behind carry no data, over any run |
| `SenderRuns.FourSubflowsNeverRedistribute` | src/mprtp_sender.cpp:287-290 | with four or more subflows shares stay at one half for ever and the fourth and later carry no data |
| `SenderRuns.ReconnectDraws` | src/mprtp_sender.cpp:63-101 | connecting again on a total of one adds a half per subflow; the first new one gets one draw, the others none |
| `SenderRuns.ReconnectStarves` | src/mprtp_sender.cpp:63-101 | so with two or more new subflows no run ever changes a share again |
| `World.HandlingIsCalls` | src/mprtp_session.cpp:41-190 | handling an answer is one sender call for each block in it |
| `World.WorldRunsSender` | src/mprtp_sender.cpp:31-281 | in every run of both ends the sender makes a run of its own, so all results about its runs hold |
| `World.WorldRunsSource` | src/mprtp_source.cpp:29-148 | and so does the receiver's source |
| `World.ReportAsksForAnswer` | src/mprtp_source.cpp:40-51 | the bytes of a sender report on subflows the receiver knows leave it with the report's time and an answer due, and change nothing else |
| `World.HandlingKeeps` | src/mprtp_sender.cpp:260-281 | handling an answer changes subflows alone and requests recalculation if it is about any of them |
| `Reachability.RedistributionExactly` | src/mprtp_sender.cpp:287-290 | a run of both ends from connecting on leads to a poll that recalculates from a positive TB sum iff there are at most three subflows |
| `Reachability.ZeroTotalReachable` | src/mprtp_sender.cpp:300-310 | with up to three subflows a run of both ends leads to all of them ready with a zero TB sum, where no recalculating poll is defined |
| `Reachability.StaleTotalReachable` | src/mprtp_sender.cpp:361-368 | with two subflows a run of both ends leads to a poll that leaves shares of 1 and 1/2 |
| `Senders.PathsCounted` | src/mprtp_sender.cpp:73-83 | connecting makes one subflow for every valid pair of interface and address |
| `Senders.Sender.constructor` | src/mprtp_sender.cpp:11-29 | a new sender's state |
| `Senders.Sender.Connect` | src/mprtp_sender.cpp:63-86 | at any time: the whole new state, with one fresh subflow per valid path behind the older ones, and the result |
| `Senders.Sender.ConnectInterface` | src/mprtp_sender.cpp:75-82 | the inner loop over addresses |
| `Senders.Sender.AddSubflow` | src/mprtp_sender.cpp:79-80 | appends one fresh subflow with the next id |
| `Senders.Sender.SelectSubflow` | src/mprtp_sender.cpp:88-101 | the accumulating loop returns the drawn subflow |
| `Senders.Sender.GetNextTimestamp` | src/mprtp_sender.cpp:154-170 | timestamp and last packet time |
| `Senders.Sender.UpdateStreamBitrate` | include/mprtp_sender.h:39-46 | byte count and start time of the bitrate measurement |
| `Senders.Sender.BuildPacket` | src/mprtp_sender.cpp:111-137 | the bytes written field by field are the encoding of the data packet |
| `Senders.Sender.StampPacket` | src/mprtp_sender.cpp:123-137 | numbers and stamps the packet |
| `Senders.Sender.Dispatch` | src/mprtp_sender.cpp:139 | only the chosen subflow changes |
| `Senders.Sender.CountDelivered` | src/mprtp_sender.cpp:141-147 | counters and times after a delivered packet |
| `Senders.Sender.SendData` | src/mprtp_sender.cpp:104-152 | the whole new state, the result and the exact packet |
| `Senders.Sender.OnRtcpRr` | src/mprtp_sender.cpp:260-281 | the first subflow with the id processes the report and recalculation is requested; id 0 and unknown ids change nothing |
| `Senders.Sender.FindSubflow` | src/mprtp_sender.cpp:267-275 | the loop that finds the first subflow with an id |
| `Senders.Sender.DeliverRr` | src/mprtp_sender.cpp:271 | only that subflow changes |
| `Senders.Sender.MakeSenderReport` | src/mprtp_sender.cpp:172-198 | writes exactly one sender report packet at the offset |
| `Senders.Sender.MakeBlock` | src/mprtp_sender.cpp:222-231 | writes one MPRTCP block and fills in its length |
| `Senders.Sender.MakeBlocks` | src/mprtp_sender.cpp:220-232 | the loop writes the blocks of all subflows in order |
| `Senders.Sender.MakeSubflowSenderReport` | src/mprtp_sender.cpp:200-235 | writes exactly one MPRTCP packet and fills in its length, words minus one |
| `Senders.Sender.BuildReport` | src/mprtp_sender.cpp:239-252 | the compound packet of a sender report |
| `Senders.Sender.SendSenderReport` | src/mprtp_sender.cpp:237-258 | the whole new state and the exact packet |
| `Senders.Sender.SendRtcp` | src/mprtp_sender.cpp:254-255 | sending RTCP through a drawn subflow changes no counter |
| `Senders.Sender.FinishReport` | src/mprtp_sender.cpp:256-257 | rate and report time after a sender report |
| `Senders.Sender.UpdateRate` | src/mprtp_sender.cpp:43-54 | the stream bitrate measured about once a second |
| `Senders.Sender.RecalcWhenAsked` | src/mprtp_sender.cpp:55-59 | recalculates when a report asked for it |
| `Senders.Sender.Poll` | src/mprtp_sender.cpp:31-61 | the whole new state, and the sender report when one is due |
| `Senders.Sender.CountCongested` | src/mprtp_sender.cpp:285-299 | counts congested subflows or finds an unready one |
| `Senders.Sender.SpreadTested` | src/mprtp_sender.cpp:300-310 | shares proportional to TB |
| `Senders.Sender.SpreadCongested` | src/mprtp_sender.cpp:311-321 | shares proportional to CB |
| `Senders.Sender.Limit` | src/mprtp_sender.cpp:338-345 | the smaller of the proportional share and the weighted cap |
| `Senders.Sender.LimitTroubled` | src/mprtp_sender.cpp:332-352 | limited shares, their sum, and the untroubled subflows collected in order |
| `Senders.Sender.SpreadRest` | src/mprtp_sender.cpp:363-367 | what is left goes to the collected subflows by TB |
| `Senders.Sender.Stepwise` | src/mprtp_sender.cpp:322-370 | the stepwise branch |
| `Senders.Sender.RecalcSubflowPercentage` | src/mprtp_sender.cpp:283-370 | after the real control flow, fall-through included, every share is the specified one and nothing else changed |
| `SourceModel.ReceiverReportRoundTrip` | src/mprtp_source.cpp:53-126 | the answer of a source walks to the main report and one per subflow in order, every field kept |
| `SourceModel.AnswerHead` | src/mprtp_source.cpp:102-108 | its packet of blocks names the receiver and then the source |
| `SourceModel.AnswerDueExactly` | src/mprtp_source.cpp:40-47 | an answer is due iff a report on the stream came since the last one, and refers to the last report on the stream |
| `SourceModel.StreamStatistics` | src/mprtp_source.cpp:29-31 | the stream's statistics are those of all its packets by their main sequence numbers |
| `SourceModel.SourceConservation` | src/mprtp_source.cpp:6-38 | over any run the packet count is the sum over subflows modulo 2^32, and subflow ids are distinct |
| `SourceModel.SubflowsIndependent` | src/mprtp_source.cpp:29-38 | a subflow's statistics depend on its own packets and the reports only |
| `SourceModel.PrematureBlockExactly` | src/mprtp_source.cpp:6-51 | an answer holds a block on a subflow made before its first packet iff a sender report listing it came and no packet on it did |
| `SourceModel.SubflowLossExact` | src/mprtp_source.cpp:29-38 | cumulative loss of one subflow among others is its number of missing packets |
| `Sources.CompoundPacket.AddPacket` | include/mprtp_compound_packet.h:26-37 | the buffer is the concatenation of the packets added |
| `Sources.Source.constructor` | include/mprtp_source.h:20-25 | a new source's state |
| `Sources.Source.FindSubflow` | src/mprtp_source.cpp:6-27 | the subflow with the id, appended fresh if missing |
| `Sources.Source.ProcessPacket` | src/mprtp_source.cpp:29-38 | the whole new state, and the numbers written back: the first packet of a subflow loses its main number |
| `Sources.Source.UpdateLeg` | include/mprtp_subflow.h:65-68 | only that subflow's statistics change |
| `Sources.Source.ProcessSr` | src/mprtp_source.cpp:40-51 | a report on the stream asks for an answer; one on a subflow makes it known |
| `Sources.Source.MakeRrPacket` | src/mprtp_source.cpp:66-89 | writes exactly one receiver report packet and resets the interval |
| `Sources.Source.CreateRrPacket` | src/mprtp_source.cpp:53-64 | appends the main report |
| `Sources.Source.MakeBlock` | src/mprtp_source.cpp:112-121 | writes one MPRTCP block |
| `Sources.Source.MakeBlocks` | src/mprtp_source.cpp:110-122 | the loop writes the blocks of all subflows in order and resets their intervals |
| `Sources.Source.BuildSubflowsRr` | src/mprtp_source.cpp:91-123 | the MPRTCP packet with its length, words minus one |
| `Sources.Source.CreateSubflowsRrPacket` | src/mprtp_source.cpp:91-126 | appends it |
| `Sources.Source.BuildReport` | src/mprtp_source.cpp:139-141 | the compound packet |
| `Sources.Source.Poll` | src/mprtp_source.cpp:133-148 | the exact answer when one is due, and the whole new state |
| `ControlLoop.SubflowNumbering` | include/mprtp_subflow.h:48-63 | the k-th RTP packet of a subflow carries its first number plus k modulo 2^16, failed sends included |
| `ControlLoop.LossIsUndelivered` | include/mprtp_stat.h:74-77 | for any run of a sending subflow and any order-keeping channel, cumulative loss at the receiver is the number of packets between the first and last received that were not delivered, failed sends included |
| `ControlLoop.ReportsReachTheirSubflows` | src/mprtp_sender.cpp:260-281 | walking a receiver report's bytes runs each sender subflow on exactly the report of its statistics |
| `ControlLoop.EstimateSound` | src/mprtp_subflow.cpp:10-15 | the delivered estimate is at least the true count and less than expected/256 above |
| `ControlLoop.EstimateSoundOverRuns` | src/mprtp_subflow.cpp:10-15 | so it is for every report that arrives in a run, whatever reports are in flight and whatever happened since it was made |
| `ControlLoop.NoLossNoHarm` | src/mprtp_subflow.cpp:18-47 | a report on an interval that received at least what it expected never raises CI and never lowers TB |
| `ControlLoop.LinkLasts` | src/mprtp_subflow.cpp:65-67 | over any run the last report processed opened the interval of the next to arrive |
| `ControlLoop.FirstReportLinks` | src/mprtp_subflow.cpp:65-67 | the first report made after the first packet establishes that link as it arrives |
| `ControlLoop.PrematureReportMisleads` | src/mprtp_stat.cpp:15-28 | after a report made before the first packet the next estimate scales the highest number; the lower bound survives, the upper one iff the number before the first is small enough, without loss below expected/256 |
| `ControlLoop.PrematureSinglePacket` | src/mprtp_stat.cpp:15-28 | with one packet received it is that packet's sequence number instead of one |

## Left out

- Sockets, interface polling and suspension, threads and the example programs: no control logic; only whether `sendto` took the packet is kept.
- The draining loop of session::poll and the receiver's map of sources by SSRC: queues and a lookup, with nothing to prove beyond the calls modelled here.
- Subnet matching and `is_path_valid`: an arbitrary boolean function of interface and address.
- SDES, BYE, APP and interface advertisements: their handlers are empty; the walkers skip them as the code does.
- Floating-point rounding and NaN shares: see the preconditions above.
- Fields that are written and never read (last message, note and receiver-report times, the previous highest number), and debug printing.
- Big-endian bit-field layouts: the byte layout is the one both layouts put on the wire.
