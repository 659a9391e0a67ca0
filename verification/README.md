# A verified model of the Octopus router and its Mahimahi host

This project models, in Dafny, the stateful core of an emulated network path and of the HTTP
proxy that records traffic over it, and proves what their runs keep:

- **the trace-driven link** (`mm-link`): a cyclic schedule of 1504-byte delivery opportunities, a
  queue discipline, a packet carried over between opportunities, and a sliding rate window;
- **the queue disciplines** that can sit in it: infinite, drop-head, CoDel, and the Octopus
  router, which drops whole messages;
- **incremental HTTP/1.1 parsing**: message framing by the rules of section 4.4 of RFC 2616, chunked
  bodies (section 3.6.1 of RFC 2616), pipelining, and the pairing of responses with requests;
- **the circular byte buffer** between two file descriptors.

`dafny verify dfyconfig.toml` checks the whole project.

## How the model is built

Each component has a value (a datatype with one function per member function of the source) and a
class whose methods update fields in place with the source's loops. The methods are proved equal to
the functions; the theorems are about the functions and range over every run.

| files | component |
|---|---|
| `Packets.dfy` | packets, byte sums, subsequences; what the link asks of a queue (`Disciplines`) |
| `Schedules.dfy`, `RateWindow.dfy`, `Links.dfy`, `LinkRuns.dfy`, `LinkWaits.dfy`, `LinkArrivals.dfy`, `LinkQueue.dfy`, `LinkDisciplines.dfy`, `LinkExamples.dfy` | the link |
| `BitrateScan.dfy` | the rate table computed by the link's constructor |
| `DroppingQueues.dfy`, `CoDel.dfy`, `CoDelDrops.dfy`, `Octopus.dfy`, `OctopusRuns.dfy`, `OctopusService.dfy`, `OctopusLink.dfy`, `PacketHeaders.dfy` | the disciplines |
| `Strings.dfy`, `Numbers.dfy`, `Chunked.dfy`, `ChunkedLanguage.dfy`, `HttpMessages.dfy`, `HttpRules.dfy`, `HttpParsing.dfy`, `HttpRoundTrip.dfy`, `HttpReparsing.dfy`, `HttpBodies.dfy`, `HttpFailures.dfy`, `HttpMessageSequence.dfy` | HTTP |
| `ByteStreamQueue.dfy` | the circular buffer |

Clock readings are inputs. Readings that a discipline takes by itself during a dequeue, and the
Octopus fair share, are part of the discipline's state as an arbitrary function of the number of the
dequeue, so every theorem about the link holds for every behaviour of the clock, also for clocks that
run backwards. Exceptions and failed assertions of the HTTP code are an absorbing failure value.

## Where the code differs from what it seems to promise

Each of these is stated and proved; the condition under which the promise does hold is exact.

- The rate window subtracts 50 from an unsigned time, which wraps before 50 ms. The window equals
  trimming the whole busy period from scratch if and only if at most four departures of it left
  before 50 ms or the fifth-last of those is already out of the window
  (`RateWindow.WindowExactIff`; a run of the link that forgets a departure: `LinkExamples.LinkForgetsDeparture`).
- `wait_time` cuts a positive gap down to 32 bits, so it returns 0 if and only if the first opportunity after
  now lies a multiple of 2^32 ms ahead (`LinkWaits.WaitIsZeroIff`, example `LinkDisciplines.WaitMayBeZero`). A
  repeated trace shorter than 2^32 ms under a clock that does not run backwards never has such a gap
  (`LinkWaits.SteadyWaitIsPositive`).
- The bitrate scan casts the length of the trace to `int`, so beyond 2^31 ms it may run forever; it ends if and
  only if some entry lets it stop (`BitrateScan.ScanEndsIff`, example `BitrateScan.ScanMayHang`). Where it ends, the
  window is at least 50 ms long, but its length is cut down to 32 bits, so the constructor divides by zero if and only
  if some window is a multiple of 2^32 ms long (`BitrateScan.Rates`, example `BitrateScan.MayDivideByZero`).
- Base `dequeue` asserts the limits after every removal, so with assertions on, the drop-head loop
  survives if and only if there is no byte limit or the newcomer exceeds it by no more than the packet at the
  head (`DroppingQueues.AssertionsHoldIff`, `PacketLimitDropsOne`, example `ByteLimitMayDropTwo`). The class
  models the loop itself.
- With a `Trailer` header the chunk parser looks for two line ends in a row after the last-chunk line. The plain
  terminator ends the body if and only if there was no such header; with one, the body ends at the first two line ends
  in what follows, so that the head of the next pipelined message is taken into it
  (`ChunkedLanguage.PlainEndIff`, example `ChunkedLanguage.NextHeadIsSwallowed`).
- A printed header parses back to itself if and only if its key has no colon and its value is not empty
  and does not begin with a blank (`HttpMessages.HeaderRoundTripIff`). What was parsed and printed parses back to the
  same messages if and only if no header value is blank (`HttpReparsing.ReparseGivesBackIff`, example
  `HttpReparsing.EmptyValueGainsBlank`).
- The register of the message being dropped reads 0 before anything was dropped, so a message numbered 0 can be
  split: two of its packets carry different marks if and only if it was whole, was let through, and the last mark
  on its port, if any, was for number 0 (`OctopusRuns.MarksDifferIff`, example `OctopusRuns.NumberZeroSplits`).
  Messages with other numbers are marked all or nothing whatever else is sent.
- A chunk that is not followed by CRLF fails an assertion instead of throwing. It is the only assertion that input
  can violate. The chunk parser fails it if and only if the bytes of the body are valid chunks, then a chunk followed by
  two other bytes (`ChunkedLanguage.AssertionIff`); a run fails it if and only if one of its inputs leads to such a body
  (`HttpParsing.RunFailsIff`, example `HttpFailures.OverlongChunkAborts`).
- The CoDel queue returns the old head and throws away packets behind it, because the inner result
  shadows the outer one (`CoDel.DequeueKeeps`).

The trace format description speaks of 1500-byte packets (`traces/README`); the code and the model use 1504.

## Model

| member | source | states |
|---|---|---|
| Schedules.AdvanceFollowsClosedForm | src/frontend/link_queue.cc:259-284 | after k opportunities the cursor is (k mod n, (k div n)·last), or finished after n without repeat; its time is the k-th delivery time |
| Schedules.DeliveryTimesNondecreasing | src/frontend/link_queue.cc:268-284 | delivery times never decrease, also across wraparounds |
| RateWindow.StartClosedForm | src/frontend/link_queue.cc:359-364 | the first entry of the incrementally trimmed window in closed form |
| RateWindow.WindowExactIff | src/frontend/link_queue.cc:359-364 | when the window equals trimming all departures since the last idle moment from scratch (both directions) |
| RateWindow.WindowKeepsFour | src/frontend/link_queue.cc:359-364 | the window is a suffix of the busy period with at least min(4, count) entries |
| RateWindow.WindowLosesEarlyDeparture | src/frontend/link_queue.cc:361-362 | a busy period, for packets of any size, for which the wrapped subtraction forgets a recent departure |
| LinkExamples.LinkForgetsDeparture | src/frontend/link_queue.cc:359-364 | a run of the link, six full packets on a trace of six opportunities, whose window is not that of its busy period |
| LinkExamples.FullRationalize | src/frontend/link_queue.cc:289-368 | while at least as many full packets are queued as opportunities are due, one leaves per opportunity, at its time, and the others stay |
| RateWindow.RateIsBytesOverTime | src/frontend/link_queue.cc:335-346 | the rate is the floor of 8·(bytes that left after the front) over the elapsed time |
| LinkRuns.RunRate | src/frontend/link_queue.cc:299-358 | on every run the rate of the link is unknown before a departure, with fewer than four in the window or with a window of no length, else the floor of 8·(bytes after the front) over the elapsed time; the departures are those of the last packets sent |
| LinkRuns.OpportunityBusy | src/frontend/link_queue.cc:298-305 | an opportunity that is used up continues the busy period; one that is not ends it, with an empty window and an unknown rate |
| LinkExamples.LinkMeasuresRate | src/frontend/link_queue.cc:335-346 | a run of five packets at which the link measures 48128 / 40 |
| Links.Rationalize | src/frontend/link_queue.cc:289-368 | terminates for every time and leaves the next delivery time after it |
| LinkRuns.DrainSpends | src/frontend/link_queue.cc:298-322 | the inner loop spends all bytes of an opportunity unless nothing is left to send |
| LinkRuns.LoadConserves | src/frontend/link_queue.cc:299-308 | dequeuing into transit loses no packet, keeps arrival order and the byte balance |
| LinkRuns.SendConserves | src/frontend/link_queue.cc:315-330 | sending part or all of a packet keeps the accounts |
| LinkRuns.EnqueueConserves | src/frontend/link_queue.cc:241-256 | an enqueue that refuses the newcomer or drops from the head keeps the accounts |
| LinkRuns.MissingBytes | src/frontend/link_queue.cc:249-256 | the missing packet and byte counts are exactly the packets the enqueue lost and their bytes |
| LinkRuns.OpportunityUses | src/frontend/link_queue.cc:291-322 | one opportunity sends min(1504, what arrived and was not thrown away, minus what was sent) |
| LinkRuns.OpportunityKeeps | src/frontend/link_queue.cc:291-367 | one opportunity keeps the whole invariant of a link and moves time forward |
| LinkRuns.CurveStep | src/frontend/link_queue.cc:295-322 | the min-plus formula over n + 1 opportunities from the one over n |
| LinkRuns.RationalizeKeeps | src/frontend/link_queue.cc:286-292 | uses exactly the opportunities whose time is at most `now`, and keeps the invariant |
| LinkRuns.RationalizeComposes | src/frontend/link_queue.cc:286-368 | for t1 <= t2, emulating to t1 and then to t2 leaves the same full state as emulating to t2 |
| LinkRuns.EveryRunKeepsInv | src/frontend/link_queue.cc:229-368 | every sequence of arrivals and clock readings, decreasing ones too, leads to a state that keeps the whole invariant |
| LinkRuns.ServiceCurve | src/frontend/link_queue.cc:289-368 | on every run of every discipline, bytes sent are exactly min(1504·n, min over j of net(j) + 1504·(n-1-j)) |
| LinkRuns.LosslessService | src/frontend/link_queue.cc:289-368 | without loss: exactly the arrived bytes are sent or waiting, and the same formula holds over bytes offered |
| LinkArrivals.ArrivalsDecideService | src/frontend/link_queue.cc:229-368 | without loss and under a clock that does not run backwards, the bytes served by any time are the min-plus formula over the opportunities due by then and the bytes that arrived before each |
| LinkArrivals.RunArrivals | src/frontend/link_queue.cc:229-247 | on every run of a discipline that admits every packet, the arrivals recorded are exactly the packets offered that fit, in order |
| LinkArrivals.EventsDecideService | src/frontend/link_queue.cc:229-368 | for such a discipline the bytes served by any time are that formula over the packets offered and the trace alone |
| LinkArrivals.LosslessDeliversPrefix | src/frontend/link_queue.cc:289-376 | without loss, what was written and is ready is a prefix of the arrivals, and transit and queue are the rest |
| LinkRuns.OpportunitySendsBacklog | src/frontend/link_queue.cc:291-367 | where dequeues throw nothing away, an opportunity sends min(1504, backlog) |
| LinkRuns.WorkConserving | src/frontend/link_queue.cc:289-368 | the same on every run of every such discipline, also one that loses packets on arrival |
| LinkWaits.NextIsReached | src/frontend/link_queue.cc:286-292 | the emulation stops at the first unused opportunity later than now |
| LinkWaits.WaitIsZeroIff | src/frontend/link_queue.cc:378-389 | on every run the wait is zero iff the first unused opportunity after now is a multiple of 2^32 ms ahead, and the true gap when that is shorter |
| LinkWaits.SteadyWaitIsPositive | src/frontend/link_queue.cc:378-389 | with a repeated trace shorter than 2^32 ms and no earlier reading after now, the wait is positive and at most one cycle, on every run |
| LinkRuns.RunAccounts | src/frontend/link_queue.cc:229-368 | on every run under every clock: arrivals are output, transit, queue and losses; order; every waiting packet arrived before the next delivery time; the window; the cursor |
| LinkDisciplines.AllDisciplinesFit | src/packet/abstract_packet_queue.hh:10-27 | the four disciplines meet what the link asks of its queue, so all link theorems hold for them |
| LinkDisciplines.CoDelLinkConserves | src/packet/codel_packet_queue.cc:77-127 | conservation and order across a link with a CoDel queue |
| LinkDisciplines.OctopusLinkConserves | src/packet/drop_bitrate_dequeue_queue.cc:169-197 | conservation and order across a link with an Octopus queue |
| LinkDisciplines.InfiniteLinkServes | src/packet/infinite_packet_queue.hh:27-45 | a link with the infinite queue is the exact min-plus server of the bytes offered |
| LinkDisciplines.InfiniteLinkIsDecided | src/packet/infinite_packet_queue.hh:27-45 | the same for a link with the infinite queue |
| LinkDisciplines.DropHeadLinkWorks | src/packet/drop_head_packet_queue.hh:22-31 | a link with a drop-head queue is work-conserving on every run |
| LinkDisciplines.WaitMayBeZero | src/frontend/link_queue.cc:384-388 | a concrete trace for which an idle link is told to wait 0 ms |
| LinkQueues.LinkQueue.constructor | src/frontend/link_queue.cc:15-34 | a new link is the start state of every run |
| LinkQueues.LinkQueue.UseADeliveryOpportunity | src/frontend/link_queue.cc:268-284 | moves the cursor one opportunity on and nothing else |
| LinkQueues.LinkQueue.MeasureRate | src/frontend/link_queue.cc:332-364 | the summing and trimming loops compute the rate and the new window |
| LinkQueues.LinkQueue.Load | src/frontend/link_queue.cc:306-307 | takes the next packet from the discipline |
| LinkQueues.LinkQueue.Fetch | src/frontend/link_queue.cc:298-313 | makes sure a packet is in transit, and the four assertions of the loop hold of it |
| LinkQueues.LinkQueue.Send | src/frontend/link_queue.cc:315-365 | sends bytes and, when the packet is out, lets it depart |
| LinkQueues.LinkQueue.Depart | src/frontend/link_queue.cc:324-365 | the packet goes to the output, its departure is recorded and the rate measured |
| LinkQueues.LinkQueue.Spend | src/frontend/link_queue.cc:294-366 | the inner loop is the drain function |
| LinkQueues.LinkQueue.BurnOpportunity | src/frontend/link_queue.cc:291-367 | one pass of the outer loop is one opportunity |
| LinkQueues.LinkQueue.Rationalize | src/frontend/link_queue.cc:289-368 | the nested loops are the emulation function and keep the invariant |
| LinkQueues.LinkQueue.ReadPacket | src/frontend/link_queue.cc:229-257 | oversized packets change nothing; others are emulated, enqueued and their losses reported exactly |
| LinkQueues.LinkQueue.WaitTime | src/frontend/link_queue.cc:378-389 | the result is the gap to the first unused opportunity after now, modulo 2^32, and zero iff that is a multiple of 2^32 |
| LinkQueues.LinkQueue.WritePackets | src/frontend/link_queue.cc:370-376 | hands over the output queue in order and empties it |
| BitrateScan.ScanBack | src/frontend/link_queue.cc:96-106 | the wrapped backward scan, where it ends, ends in range at the latest entry 50 ms older, at the latest entry that lets it stop after going round, or at once |
| BitrateScan.ScanEndsIff | src/frontend/link_queue.cc:96-106 | for every trace of 64-bit times the scan of an entry ends iff some entry lets it stop |
| BitrateScan.LoadableStops | src/frontend/link_queue.cc:96-106 | every scan of a trace with times below 2^31 ms ends |
| BitrateScan.ScanMayHang | src/frontend/link_queue.cc:96-106 | a concrete trace of 2^32 + 100 ms whose scan never ends |
| BitrateScan.RateAt | src/frontend/link_queue.cc:107-109 | for every trace of 64-bit times whose scan ends: the window is the shortest of at least 50 ms, else one that goes round, else the whole cycle; it divides by zero iff the window is a multiple of 2^32 ms long |
| BitrateScan.WindowIsLong | src/frontend/link_queue.cc:107-108 | every window is at least 50 ms long |
| BitrateScan.LoadableWindow | src/frontend/link_queue.cc:107-108 | below 2^31 ms a window that goes round begins with the cycle |
| BitrateScan.DividesByZeroIff | src/frontend/link_queue.cc:107-109 | an entry divides by zero iff its window is a multiple of 2^32 ms long |
| BitrateScan.ThroughputIs | src/frontend/link_queue.cc:107-109 | the rate is the floor of 8·1504 bits per packet over the span, both cut down to 32 bits |
| BitrateScan.MayDivideByZero | src/frontend/link_queue.cc:107-109 | a concrete trace for which the constructor divides by zero |
| BitrateScan.Rates | src/frontend/link_queue.cc:86-126 | one rate per entry for every trace of 64-bit times whose scans end; the constructor divides by zero iff some window is a multiple of 2^32 ms long, never below 2^31 ms |
| BitrateScan.WindowUnique | src/frontend/link_queue.cc:100-109 | the window of an entry is unique |
| DroppingQueues.InfiniteIsLossless | src/packet/infinite_packet_queue.hh:27-45 | the infinite queue is a discipline that never loses a packet |
| DroppingQueues.InfinitePacketQueue.Enqueue | src/packet/infinite_packet_queue.hh:27-32 | appends, and the counters equal the recomputed sums |
| DroppingQueues.InfinitePacketQueue.Dequeue | src/packet/infinite_packet_queue.hh:34-45 | returns the head, and the counters equal the recomputed sums |
| DroppingQueues.DropHeadKeepsLongest | src/packet/drop_head_packet_queue.hh:22-31 | the result is within the limits and every longer suffix is not |
| DroppingQueues.DropHeadIsMaximal | src/packet/drop_head_packet_queue.hh:22-31 | no suffix within the limits is longer than the one kept |
| DroppingQueues.AssertionsHoldIff | src/packet/dropping_packet_queue.cc:61-64 | the assertion in `dequeue` survives an enqueue iff there is no byte limit or the newcomer exceeds it by no more than the size of the packet at the head |
| DroppingQueues.OneDropIff | src/packet/drop_head_packet_queue.hh:26-30 | it survives iff the loop drops at most one packet |
| DroppingQueues.PacketLimitDropsOne | src/packet/dropping_packet_queue.cc:83-85 | with a packet limit alone it always survives |
| DroppingQueues.ByteLimitMayDropTwo | src/packet/dropping_packet_queue.cc:79-81 | a concrete queue for which it fails |
| DroppingQueues.DropHeadIsLawful | src/packet/drop_head_packet_queue.hh:22-31 | drop-head is a discipline the link accepts |
| DroppingQueues.DropHeadBehaves | src/packet/drop_head_packet_queue.hh:22-31 | arrivals go to the back, exactly as much is dropped from the head as the limits demand, departures are from the head |
| DroppingQueues.LimitsMean | src/packet/dropping_packet_queue.cc:74-88 | zero switches a limit off; otherwise it may be reached and not exceeded |
| DroppingQueues.DropHeadPacketQueue.Accept | src/packet/dropping_packet_queue.cc:108-113 | appends with exact counters |
| DroppingQueues.DropHeadPacketQueue.Dequeue | src/packet/dropping_packet_queue.cc:36-67 | removes the head with exact counters and keeps the limits |
| DroppingQueues.DropHeadPacketQueue.Enqueue | src/packet/drop_head_packet_queue.hh:22-31 | the loop leaves exactly the longest suffix within the limits |
| CoDel.DoDequeueKeeps | src/packet/codel_packet_queue.cc:36-69 | the timer is armed exactly during a run of observations above target, and `ok_to_drop` iff that run began an interval ago |
| CoDel.DropLoopKeeps | src/packet/codel_packet_queue.cc:88-96 | the drop loop drops only after an observation, at the same time, that allows it |
| CoDel.DequeueKeeps | src/packet/codel_packet_queue.cc:77-127 | never pops an empty queue; returns the old head; throws away only packets right behind it |
| CoDelDrops.RemovingDecides | src/packet/codel_packet_queue.cc:77-106 | when a dequeue drops and what it leaves: outside the drop state one packet iff `ok_to_drop`, which enters it with the count and the next drop time given; inside it leaves the state iff not `ok_to_drop`, else catches up; and it observes the true waiting time and bytes left of every packet it takes |
| CoDelDrops.DropLoopCatchesUp | src/packet/codel_packet_queue.cc:88-96 | the drop loop makes exactly the drops that are due by the control law, until one is not allowed or none is due; count, next drop time and drop state after it |
| CoDelDrops.EveryDequeueDecides | src/packet/codel_packet_queue.cc:77-106 | the same for every dequeue of every run, with the packets thrown away |
| CoDelDrops.LinkDequeueDecides | src/packet/codel_packet_queue.cc:77-106 | the same for a dequeue inside the link, with a new clock reading each time |
| CoDelDrops.AcceptsIff | src/packet/codel_packet_queue.cc:130-152 | a packet is accepted iff it exceeds neither limit, spelled out |
| CoDel.EnqueueKeeps | src/packet/codel_packet_queue.cc:130-152 | every enqueue keeps the limits and the invariant, so the assertion holds |
| CoDel.RunKeepsInv | src/packet/codel_packet_queue.cc:36-152 | every run keeps the limits, the timer and the justification of all drops so far |
| CoDel.OkMeansSustained | src/packet/codel_packet_queue.cc:36-69 | on every run each observation says `ok_to_drop` iff observations above target reach back at least an interval |
| CoDel.DropsOnlyAfterSustainedDelay | src/packet/codel_packet_queue.cc:36-106 | on every run each observation flagged as a discard follows observations all above target with more than 1504 bytes left, since one at least an interval earlier |
| CoDel.RemovingFlags | src/packet/codel_packet_queue.cc:77-106 | one dequeue makes one observation per packet it takes and flags exactly those of the packets it throws away |
| CoDel.ThrownAwayAreFlagged | src/packet/codel_packet_queue.cc:77-106 | on every run the packets thrown away are exactly those of the flagged observations |
| CoDel.EachDropIsSustained | src/packet/codel_packet_queue.cc:36-106 | on every run each packet thrown away was taken after delay sustained for at least an interval |
| CoDel.CoDelIsLawful | src/packet/codel_packet_queue.cc:77-152 | CoDel is a discipline the link accepts, for every clock and control law |
| CoDel.CODELPacketQueue.DoDequeue | src/packet/codel_packet_queue.cc:36-69 | the method is the modelled step, with exact counters |
| CoDel.CODELPacketQueue.DropWhileDue | src/packet/codel_packet_queue.cc:88-96 | the while loop is the modelled drop loop |
| CoDel.CODELPacketQueue.Dequeue | src/packet/codel_packet_queue.cc:77-127 | the method is the modelled dequeue and keeps the invariant |
| CoDel.CODELPacketQueue.Enqueue | src/packet/codel_packet_queue.cc:130-152 | the method is the modelled enqueue and keeps the invariant |
| PacketHeaders.WildcardRoundTrip | src/packet/packet_header.hh:117-121 | the wildcard fields do not overlap and fill the word |
| PacketHeaders.PositionRoundTrip | src/packet/packet_header.hh:98-115 | position bits and message number do not overlap |
| PacketHeaders.DecodedIsValid | src/packet/packet_header.hh:72-125 | every decoded header has fields in the ranges of the router's tables |
| PacketHeaders.DecodeReadsBack | src/packet/packet_header.hh:97-124 | every field is read back as it was packed |
| PacketHeaders.IsOctopusIff | src/packet/packet_header.hh:122-123 | an Octopus packet iff protocol 17 and two bits of the sequence word are clear |
| Octopus.EnqueueKeeps | src/packet/drop_bitrate_dequeue_queue.cc:10-72 | an admitted packet passes the assertion, and counters stay equal to the queued weights, present iff nonzero |
| Octopus.EnqueueCounts | src/packet/drop_bitrate_dequeue_queue.cc:10-72 | every arrival that does not abort keeps the counters exact, also one that will make a later dequeue abort |
| Octopus.EnqueueAbortsIff | src/packet/drop_bitrate_dequeue_queue.cc:54-57 | the SOLO assertion fails iff a boundary packet of the message is queued |
| Octopus.AcceptsIff | src/packet/drop_bitrate_dequeue_queue.cc:10-12 | a packet is queued last iff it exceeds neither limit, spelled out; otherwise nothing changes |
| Octopus.FrontKeeps | src/packet/drop_bitrate_dequeue_queue.cc:74-167 | in a valid state `.at` never throws, the SOLO assertion holds, and the counters stay exact |
| Octopus.FrontCounts | src/packet/drop_bitrate_dequeue_queue.cc:74-167 | every departure that does not abort keeps the counters exact |
| Octopus.FrontAbortsIff | src/packet/drop_bitrate_dequeue_queue.cc:146-165 | a dequeue fails iff a SOLO head has a boundary packet of its message behind it |
| Octopus.DequeueTakes | src/packet/drop_bitrate_dequeue_queue.cc:169-182 | throws away a prefix of Octopus packets only; returns a marked packet only when nothing else is queued |
| Octopus.OctopusIsLawful | src/packet/drop_bitrate_dequeue_queue.cc:10-197 | the Octopus queue is a discipline the link accepts |
| Octopus.DropBitrateDequeueQueue.CountFrame | src/packet/drop_bitrate_dequeue_queue.cc:48-57 | the counter updates of an arrival |
| Octopus.DropBitrateDequeueQueue.NotePreemption | src/packet/drop_bitrate_dequeue_queue.cc:58-70 | the preemption table keeps the maximum per threshold |
| Octopus.DropBitrateDequeueQueue.Enqueue | src/packet/drop_bitrate_dequeue_queue.cc:10-72 | for every packet that does not abort: the method is the modelled enqueue with exact counters |
| Octopus.DropBitrateDequeueQueue.LatestDropper | src/packet/drop_bitrate_dequeue_queue.cc:109-113 | the loop computes the maximum of the row up to the priority and creates an absent row as zeros |
| Octopus.DropBitrateDequeueQueue.Mark | src/packet/drop_bitrate_dequeue_queue.cc:106-144 | the decision, and the register it sets |
| Octopus.DropBitrateDequeueQueue.UncountFrame | src/packet/drop_bitrate_dequeue_queue.cc:146-165 | the counter updates of a departure |
| Octopus.DropBitrateDequeueQueue.DequeueFront | src/packet/drop_bitrate_dequeue_queue.cc:74-167 | for every head that does not abort: the method is the modelled departure with exact counters |
| Octopus.DropBitrateDequeueQueue.Dequeue | src/packet/drop_bitrate_dequeue_queue.cc:169-182 | the loop is the modelled dequeue |
| OctopusRuns.TableTellsHistory | src/packet/drop_bitrate_dequeue_queue.cc:58-113 | the table says a packet is overtaken iff some accepted preempting LAST or SOLO on its port had a larger number and a threshold at or below its priority, whether rows began as -1 or 0 |
| OctopusRuns.OfferKeeps | src/packet/drop_bitrate_dequeue_queue.cc:10-72 | every legal arrival, accepted or tail-dropped, keeps the run invariant |
| OctopusRuns.LeaveMark | src/packet/drop_bitrate_dequeue_queue.cc:106-144 | the mark of a departing packet follows the rule: at a whole message the decision, otherwise the register |
| OctopusRuns.HeadWeight | src/packet/drop_bitrate_dequeue_queue.cc:105-106 | the counter of the head's message is 2 iff the message is SOLO or its FIRST and LAST are both queued |
| OctopusRuns.SameMarkIff | src/packet/drop_bitrate_dequeue_queue.cc:106-144 | two departed packets of a message carry the same mark iff the message was not let through while the register stood on its number |
| OctopusRuns.LeaveKeeps | src/packet/drop_bitrate_dequeue_queue.cc:74-167 | every departure keeps the run invariant |
| OctopusRuns.RunKeepsInv | src/packet/drop_bitrate_dequeue_queue.cc:10-167 | every run keeps the counters, table, register and marking history in agreement |
| OctopusRuns.ArrivalsNeverAbort | src/packet/drop_bitrate_dequeue_queue.cc:54-57 | after every run no arrival that follows the sending rule fails the SOLO assertion |
| OctopusRuns.MarkingIsAllOrNothing | src/packet/drop_bitrate_dequeue_queue.cc:106-165 | on every run, also with number-0 traffic, departed packets of a message numbered at least 1 are all marked or all unmarked, and a mark means SOLO or FIRST and LAST both queued when FIRST left |
| OctopusRuns.MarksFollowRule | src/packet/drop_bitrate_dequeue_queue.cc:106-144 | on every run a departed packet of a message that was not whole was marked iff the last mark on its port was for its number, or none was and its number is 0 |
| OctopusRuns.MarksDifferIff | src/packet/drop_bitrate_dequeue_queue.cc:106-144 | on every run two packets of a message are marked differently iff its number is 0, it was whole and let through, and the register read 0 |
| OctopusRuns.CountersAreExact | src/packet/drop_bitrate_dequeue_queue.cc:48-165 | in every state of every run counters equal queued weights and no assertion fails |
| OctopusRuns.DecisionsMatchHistory | src/packet/drop_bitrate_dequeue_queue.cc:106-140 | at the decision point of every run: marked iff late enough and too fast or overtaken by an accepted message |
| OctopusRuns.NumberZeroIsMarked | src/packet/drop_bitrate_dequeue_queue.cc:142-144 | in every state, on a port where nothing was marked, a packet that is no decision point is marked iff its number is 0 |
| OctopusRuns.NumberZeroSplits | src/packet/drop_bitrate_dequeue_queue.cc:106-144 | a run of five events in which message number 0 is split |
| OctopusServices.DequeueIsDepartures | src/packet/drop_bitrate_dequeue_queue.cc:169-182 | a dequeue is a row of departures; it throws away exactly the marked packets with another one behind them |
| OctopusServices.DiscardedAreTheMarked | src/packet/drop_bitrate_dequeue_queue.cc:169-182 | on every run of enqueues and dequeues the packets thrown away and returned are exactly those departures, in order |
| OctopusServices.ServicesBalance | src/packet/drop_bitrate_dequeue_queue.cc:10-182 | on every run of calls the packets offered are those accepted and those refused, and the packets lost are those refused and those thrown away |
| OctopusServices.RefusedIff | src/packet/drop_bitrate_dequeue_queue.cc:10-12 | after every run of calls a packet that obeys the sending rule is refused iff it would exceed a limit |
| OctopusServices.MessagesShareFate | src/packet/drop_bitrate_dequeue_queue.cc:106-182 | on every run of calls, once a packet of a message numbered at least 1 is thrown away, every departed packet of it was marked and thrown away too, unless it left the queue empty |
| OctopusLinks.LinkDropsWholeMessages | src/frontend/link_queue.cc:229-368 | on every link run whose ports obey the sending rule every packet that fits is admitted, and a run of enqueues of exactly these packets and of dequeues, which drops whole messages, returned exactly what the link sent on and lost exactly what the link lost, in the same order: refused arrivals and marked packets with another one behind them |
| OctopusLinks.EnqueueMisses | src/frontend/link_queue.cc:249-256 | the link counts exactly the refused packet as missing |
| Strings.SplitJoins | src/http/tokenize.hh:9-38 | splitting loses nothing and no piece contains the separator |
| Strings.SplitTokens | src/http/tokenize.hh:9-38 | the loops over separator positions compute the pieces |
| Strings.HexRoundTrip | src/util/ezio.cc:11-29 | a printed hexadecimal number reads back |
| Numbers.AtoiForms | src/util/ezio.cc:11-29 | spaces, a sign, perhaps 0x and digits are read as the number they stand for |
| Numbers.AtoiRejects | src/util/ezio.cc:13-27 | a string with any other character, and the empty one, throw |
| Numbers.DecimalRoundTrip | src/util/ezio.cc:11-29 | a printed decimal number reads back |
| Numbers.DigitIff | src/util/ezio.cc:20 | digits of either case have their value, and nothing else is a digit |
| HttpRules.ChunkSizeIs | src/http/chunked_parser.cc:11-32 | the size of a chunk is its hexadecimal digits before a semicolon or blank, cut down to 32 bits; extensions are ignored |
| Chunked.LoopExtends | src/http/chunked_parser.cc:34-101 | more input continues where the loop got stuck; an end or failure stays what it is |
| Chunked.ReadSettles | src/http/chunked_parser.cc:108-123 | between reads all input is acknowledged; an end lies in the piece just read, so the assertion on `parsed_so_far_` holds |
| Chunked.ReadComposes | src/http/chunked_parser.cc:34-101 | reading a then b is reading a + b |
| Chunked.LoopReachesTail | src/http/chunked_parser.cc:38-77 | any valid chunks and last-chunk line are consumed exactly |
| Chunked.FramingIsExact | src/http/chunked_parser.cc:34-123 | however a body and what follows is cut, pieces short of the end are taken whole and the one with the last byte exactly up to it |
| Chunked.HexChunksAreValid | src/http/chunked_parser.cc:11-32 | chunks with plain hexadecimal sizes and the usual terminator are such bodies |
| ChunkedLanguage.PlainEndIff | src/http/chunked_parser.cc:79-91 | whatever follows, the plain terminator ends the body there iff no Trailer header was sent; with one, the end is the first two line ends in what follows |
| ChunkedLanguage.NextHeadIsSwallowed | src/http/chunked_parser.cc:79-91 | an input for which the head of the next message is taken into the body |
| ChunkedLanguage.EndIff | src/http/chunked_parser.cc:34-123 | the parser ends a body after n bytes iff those n bytes are a chunked body (both directions) |
| ChunkedLanguage.AssertionIff | src/http/chunked_parser.cc:60-64 | the CRLF assertion fails iff the bytes are valid chunks, then a chunk followed by two other bytes than CRLF |
| ChunkedLanguage.OneByteTooMany | src/http/chunked_parser.cc:60-64 | an input for which the assertion fails |
| Chunked.ChunkedBodyParser.Advance | src/http/chunked_parser.cc:39-97 | one round of the switch is the modelled step |
| Chunked.ChunkedBodyParser.Read | src/http/chunked_parser.cc:34-101 | the loop is the modelled read and its assertion holds |
| HttpMessages.HeaderRoundTripIff | src/http/http_header.cc:13-35 | parsing a printed header gives it back iff it is printable |
| HttpMessages.KeysHaveNoColon | src/http/http_header.cc:18-35 | parsed keys have no colon; a parsed header is printable iff its value has a non-blank character |
| HttpMessages.PlanShapes | src/http/http_response.cc:24-66 | the length rules give a known size, a new chunk parser or the end of the connection; requests always a known size |
| HttpRules.EquivalentIff | src/http/http_message.cc:89-128 | names are equivalent iff the same up to leading blanks and ASCII case |
| HttpRules.LookupIff | src/http/http_message.cc:130-152 | lookup finds the first header of that name, and nothing iff there is none |
| HttpRules.HeaderLine | src/http/http_header.cc:18-35 | a header line is split at its first colon and blanks before the value are dropped |
| HttpRules.StatusIs | src/http/http_response.cc:12-21 | the status code is the second word of a status line of at least three |
| HttpRules.RuleOne | src/http/http_response.cc:30-36 | status 1xx, 204, 304 or a HEAD request: size 0 |
| HttpRules.RuleTwo | src/http/http_response.cc:37-47 | last coding chunked: chunks, with trailers iff there is a Trailer header |
| HttpRules.RuleThree | src/http/http_response.cc:48-52 | no Transfer-Encoding and a decimal Content-Length n: size n |
| HttpRules.RuleThreeOdd | src/http/http_response.cc:48-52 | a Content-Length that is no number throws, a negative one is taken modulo 2^64 |
| HttpRules.RuleFour | src/http/http_response.cc:53-65 | otherwise multipart/byteranges, or an empty type, throws, and every other type goes to the end of the connection |
| HttpRules.RuleFive | src/http/http_response.cc:60-65 | otherwise to the end of the connection |
| HttpRules.BadStatusThrows | src/http/http_response.cc:12-21 | a status line of fewer than three words or with an empty code throws |
| HttpRules.RequestRules | src/http/http_request.cc:9-26 | GET and HEAD: size 0; POST: its Content-Length, throws without; other methods throw |
| HttpParsing.StepDecreases | src/http/http_message_sequence.hh:93-152 | the parse loop decreases (buffer length, state rank) |
| HttpParsing.StepKeepsOk | src/http/http_message.cc:10-77 | every step of the message state machine keeps its invariant |
| HttpParsing.OnlyChunkCrlfAsserts | src/http/http_message_sequence.hh:122-135 | a step violates no assertion but the one on the CRLF after a chunk, and that one iff the bytes received of a chunked body contain a chunk without CRLF, which only responses can |
| HttpParsing.LoopAsserts | src/http/http_message_sequence.hh:140-152 | the same of the parse loop: it fails that assertion iff it comes to a message with such bytes |
| HttpParsing.RunsAssertOnlyChunkCrlf | src/http/http_message.cc:38-77 | on every run of inputs, ends of connection, requests and pops no other assertion fails, none at all in a request parser, and no complete message is left in progress |
| HttpParsing.RunFailsIff | src/http/chunked_parser.cc:60-64 | a run has failed the CRLF assertion iff one of its inputs led to a message whose body bytes contain a chunk without CRLF |
| HttpFailures.OverlongChunkAborts | src/http/chunked_parser.cc:60-64 | a run of two events that fails the assertion |
| HttpParsing.LoopKeepsOk | src/http/http_message_sequence.hh:140-152 | `parse` never leaves a complete message in progress |
| HttpParsing.LoopExtends | src/http/http_message_sequence.hh:140-152 | parsing what is there first does not change where more input leads |
| HttpParsing.FragmentationIndependence | src/http/http_message_sequence.hh:140-152 | parsing a then b leaves the same full state as parsing a + b |
| HttpParsing.AnyFragmentation | src/http/http_message_sequence.hh:140-152 | the same for any cut into nonempty pieces |
| HttpParsing.StepPairs | src/http/http_response_parser.cc:12-22 | requests answered, being answered and waiting are those forwarded, in order |
| HttpParsing.SessionsKeepOk | src/http/http_response_parser.cc:12-27 | every interleaving of forwarded requests, reads, ends of connection and pops keeps the pairing and the parser invariant |
| HttpParsing.ResponsesAnswerInOrder | src/http/http_response_parser.cc:12-27 | on every run the i-th response carries the i-th forwarded request |
| HttpRoundTrip.MessageParses | src/http/http_message.cc:155-174 | one printed well-formed message parses back to itself whatever follows |
| HttpRoundTrip.PipelinedRoundTrip | src/http/http_message.cc:155-174 | any list of well-formed messages, printed in a row and cut anywhere, parses back to that list with an empty buffer |
| HttpRoundTrip.ParsedMessagesAreWellFormed | src/http/http_message_sequence.hh:93-152 | every message parsed without an end of connection is well formed once no header value is blank |
| HttpBodies.LengthResponseParses | src/http/http_response.cc:48-52 | a response with Content-Length n and any n bytes, cut anywhere, parses to exactly that body |
| HttpBodies.BodylessResponseParses | src/http/http_response.cc:30-36 | a response that never has a body parses to an empty one |
| HttpBodies.ChunkedResponseParses | src/http/http_response.cc:37-47 | a response whose last coding is chunked parses to the bytes of its chunked body |
| HttpBodies.RequestParses | src/http/http_request.cc:9-26 | a POST request with Content-Length n parses to its n bytes, GET and HEAD to an empty body |
| HttpBodies.UntilEofResponseParses | src/http/http_response.cc:60-94 | a response without a length is, after the end of the connection, complete with exactly the bytes received, however cut |
| HttpBodies.EofResponseParses | src/http/http_response.cc:68-94 | the same for any headers whose rule is the end of the connection, and for a chunked body cut short |
| HttpBodies.EofCompletes | src/http/http_message.cc:61-77 | at the end of the connection a body it may end is complete with the bytes received |
| HttpBodies.EofElsewhere | src/http/http_message.cc:61-77 | between messages the end of the connection changes nothing; inside headers or a body of known size it throws |
| HttpBodies.BadInputThrows | src/http/http_message_sequence.hh:93-138 | a response without a request, a header line without a colon and headers no rule applies to throw |
| HttpReparsing.ReparseGivesBack | src/http/http_message.cc:155-174 | parsing any bytes, printing all completed messages and parsing again, cut anywhere, gives the same messages for the same requests and leaves nothing over, if no header value is blank |
| HttpReparsing.ReparseGivesBackIff | src/http/http_message.cc:155-174 | it gives the same messages iff no header value is blank |
| HttpReparsing.EmptyValueGainsBlank | src/http/http_header.cc:27-34 | a header line the parser accepts that does not survive |
| HttpMessageSequences.HTTPMessageSequence.PopLine | src/http/http_message_sequence.hh:67-91 | takes the first complete line off the buffer |
| HttpMessageSequences.HTTPMessageSequence.ReadInBody | src/http/http_message.cc:38-59 | the method is the modelled body step |
| HttpMessageSequences.HTTPMessageSequence.ParsingStep | src/http/http_message_sequence.hh:93-138 | the switch is the modelled step and keeps the invariant |
| HttpMessageSequences.HTTPMessageSequence.Parse | src/http/http_message_sequence.hh:140-152 | the loop is the modelled parse |
| HttpMessageSequences.HTTPMessageSequence.NewRequestArrived | src/http/http_response_parser.cc:24-27 | queues a request at the back |
| ByteStreamQueues.Counts | src/util/bytestream_queue.cc:20-30 | the counts are those of a FIFO of capacity size - 1; contiguous room iff room |
| ByteStreamQueues.PushAppends | src/util/bytestream_queue.cc:32-62 | a push appends the chunk and nothing else |
| ByteStreamQueues.PopDrops | src/util/bytestream_queue.cc:64-87 | a pop hands over the oldest bytes and keeps the rest |
| ByteStreamQueues.RunIsFifo | src/util/bytestream_queue.cc:32-87 | on every interleaving what was pushed is what was popped, then what is waiting, within the capacity |
| ByteStreamQueues.ByteStreamQueue.Push | src/util/bytestream_queue.cc:32-62 | writes the chunk into the array in place; no assertion fails |
| ByteStreamQueues.ByteStreamQueue.Pop | src/util/bytestream_queue.cc:64-87 | returns the oldest bytes; no assertion fails |

## Left out

- Links.Idle: `empty_times_`, which the program writes and never reads.
- RateWindow.Rate: the quotient is exact, without the rounding of `double` and the cast to 32 bits.
- Schedules.Advance: the addition of schedule time and base timestamp does not wrap at 2^64.
- LinkQueues.LinkQueue.ReadPacket: packets have at least one byte, and a packet that a discipline's own assertion would reject is not offered.
- CoDel.Removing: the square-root control law is an arbitrary function of time and count.
- Octopus.Leaving: the fair share is an input; the enqueue-rate estimator, whose sum is overwritten by `=-`, and `set_bandwidth` are not modelled.
- Octopus.ValidHeader: reading the header words out of the payload bytes, and payloads shorter than a header.
- Chunked.Step: for a chunk size of 2^32 - 2 or 2^32 - 1 the wrapped sum makes `substr` throw unless 4 GiB of that chunk arrive in one piece; the model always fails there.
- HttpParsing.Parser: `HTTPMessage` objects are values held by the parser; a complete message no longer carries its body parser.
- The PIE queue: floating-point control and a random generator.
- Drop-tail and `DropActiveNetQueue`: they would add only easy cases.
- Argument parsing of queues, log files, live graphs, sockets, TLS, DNS, namespaces, child processes, the Apache module, protobuf copies, delay, loss and meter queues.
