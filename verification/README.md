# Verification of the Phantom Protocol models, codecs and tools

Phantom Protocol is a Rust transport with a selective-acknowledgement stream layer, a replay
window, a reference server, a deterministic bottleneck-link simulator for its congestion
controller, and a set of test-bed and gate scripts. This project models the parts of it that
carry state or arithmetic worth proving something about, and proves properties of every run.
`dafny verify dfyconfig.toml` checks the whole project.

**The bottleneck simulator** (`core/examples/bottleneck_sim.rs`). A sender with repairs, a
capped pacer, a bounded FIFO queue with tail drop, a rate-limited link, a noise process and a
return path, ticked one millisecond at a time. `BottleneckModel` is the tick on values,
`BottleneckSim` the same tick on a mutable object, proved equal step by step. The congestion
controller is an oracle: any function from the calls made on it so far to its readings, so every
theorem holds for every estimator. Segment ids and the `Log` are instrumentation that no branch
reads. Proved of every run: conservation of segments and byte counters, one congestion signal per
segment, service curves of link and pacer, exactness and balance of the noise process, the FIFO
delay bound over any limited stretch of it, what the figures of its report mean, and that the two
sliding windows fed from the return path hold exactly what their definitions say.
`WindowedMaximum` and `SplitMix` are its two data structures.

**The stream layer** (`core/src/transport`, `core/src/security`). The SACK range builder and its
wire codec, a bijection between valid acknowledgements and accepted byte strings; reliable
in-order delivery as a state machine in which the network may drop, duplicate and reorder both
data and acknowledgements; the sending half of a stream, with its loss detector, its flow-control
ledger and its probe for room, over every order of polls, refused writes, acknowledgements and
window updates; and the 1024-bit replay window, equal on every history to the definition by history.

**The server and the tools.** Session admission (`server/src/main.rs`) and the interop exchange
(`scripts/interop/peer.rs`) as state machines over every interleaving; the wakeup protocol of the
duplex pipe (`core/examples/embedded_demo.rs`); the Rust scrubber, the test-span scanner, the gate
reachability fixpoint and the generics stripper of `scripts/`; the token-bucket pacer, the clock
estimator and two readings of the transfer analyser of `testbed/`.

## Where the code differs from what is said about it

- `core/examples/bottleneck_sim.rs` says the return-path deque is sorted by construction except for
  tail drops, which are placed by binary search. A departure dated before an earlier tail drop is
  appended behind it, so the deque does not stay sorted: `SortednessFails` is a one-tick run,
  `DeliveryHeldBack` what it costs a run, `SortedRunIff` exactly when it does stay sorted.
  Deliveries still come back in order (`SlidingWindowsAreExact`), so the readings are not affected.
- The noise accumulator stays below one thousand exactly when the configured rate is at most one
  thousand per mille (`AccumulatorBoundedIff`); nothing rejects a larger rate.
- The independent noise process takes a zero state for a fresh one, so it starts over whenever its
  own arithmetic reaches zero: every seed has a period (`DrawsCycle`), and for exactly one seed it
  is a single draw, so that all segments are lost or none (`StuckSeedIff`).
- The report's figure for the second second is a running total of the first two
  (`SecondsAreTotals`). It is what the second second delivered exactly when the first delivered
  nothing (`SecondSecondIff`), which `SecondSecondFails` is a run against.
- `on_sack` says it clamps to the highest offset assigned. It clamps to the next to be assigned, so
  an acknowledgement that claims too much reaches one segment further than an honest one
  (`InflatedReach`, and in a run `InflatedRun`).
- A segment's delivery marks are said to be those of its first transmission, whatever is resent. A
  retransmission whose write is refused is offered again as new, and with the marks of that moment
  (`RestampRun`); `PinnedIff` says in exactly which runs the marks stay.
- `try_persist_probe` says a stream with nothing acknowledged does not come to ask for room. It does
  exactly when its first segment alone is larger than the peer's limit (`StrandedIff`,
  `StrandedRun`), and then nothing asks.
- `scrub` promises to keep every newline. It loses the one inside a quoted raw newline
  (`NewlineLost`); `AllNewlinesKeptIff` says of which texts the promise holds.
- Its caller indexes the lines of both copies alike. `splitlines` also breaks at characters that are
  blanked, a form feed in a comment for one (`FormFeedMisaligns`); `AlignedIff` says exactly for
  which texts the lines of the two correspond.
- `coarse_spans` promises pairs that walk forward. It does so exactly for a positive coarseness
  (`SpansTileIff`).
- The pacer's clamp and its saturating sum throw credit away for extreme offers
  (`ClampLosesCredit`); `ExactForeverIff` says for which offers and sizes they never do.
- `arrival_tail_share` promises not to depend on how the sampler cut a transfer up. It does where a
  cut makes three windows four, and where the front half of a cut window closes before every other
  window and moves the quarter mark across bytes (`SplitInvariantIff`, with the overlapping windows
  of `SplitOverlap`); windows that do not overlap leave only the first (`SplitApart`). Nor does the
  order of the log matter, but for a tie at the first close (`LogOrderIff`).

## Model

| member | source | states |
|---|---|---|
| BottleneckConservation.NothingLostNothingTwice | core/examples/bottleneck_sim.rs:415-661 | at every tick of every run each segment taken from the application is in exactly one of queue, return path, repair list, delivered log; none is lost for good, none delivered twice |
| BottleneckConservation.FlightIsOutstanding | core/src/transport/bandwidth_estimator.rs:1259-1280 | the estimator's in-flight counter, driven by the simulator's calls, is the bytes outstanding at every tick, and the queue's byte counter is the queue's bytes, so no saturating subtraction saturates |
| BottleneckConservation.SignalOncePerSegment | core/examples/bottleneck_sim.rs:419-431 | however many repairs are lost, the congestion signal is raised at most once per segment: the signals raised are one each for distinct segments |
| BottleneckConservation.AccountedRun | core/examples/bottleneck_sim.rs:397-733 | the conservation, byte-counter and signal invariants together hold after any number of ticks of any schedule |
| BottleneckConservation.AccountedTick | core/examples/bottleneck_sim.rs:407-733 | one tick keeps all three invariants, whatever the estimator answers |
| BottleneckConservation.FrontAlone | core/examples/bottleneck_sim.rs:415-418 | the transmission at the front of the return path shares its segment with no other transmission anywhere |
| BottleneckCurves.LinkServiceCurve | core/examples/bottleneck_sim.rs:612-669 | over any window of ticks the link serves at most its rate's worth plus one segment, and more than that less one segment whenever the queue never empties in it |
| BottleneckCurves.TickServes | core/examples/bottleneck_sim.rs:612-669 | one tick: bytes served plus credit carried is what there was plus the tick's worth, exactly while the link stays busy, at most when it idles |
| BottleneckCurves.PacerServiceCurve | core/examples/bottleneck_sim.rs:497-555 | over any window in which the pacer binds, the sender releases at most what the pacing rates it read allow plus four segments, repairs included |
| BottleneckCurves.TickPaces | core/examples/bottleneck_sim.rs:497-555 | one tick never overdraws the pacing credit and never carries more than four segments of it |
| BottleneckCurves.EvenLossIsExact | core/examples/bottleneck_sim.rs:617-636 | over a run through phases of any rates, the noise drops are exactly the floor of what the per-mille rates call for and the accumulator is the remainder |
| BottleneckCurves.EvenLossIsBalanced | core/examples/bottleneck_sim.rs:617-636 | any window of ticks at one rate drops the floor or the ceiling of its share of the segments served |
| BottleneckCurves.EvenStepsClosedForm | core/examples/bottleneck_sim.rs:630-636 | from any accumulator, the drops among the next k dequeues are a floor and the accumulator a remainder |
| BottleneckCurves.EvenStepsBalanced | core/examples/bottleneck_sim.rs:630-636 | any k consecutive dequeues drop the floor or the ceiling of k times the rate |
| BottleneckCurves.AccumulatorBoundedIff | core/examples/bottleneck_sim.rs:630-636 | the accumulator stays below one thousand for ever exactly when the configured rate is at most one thousand |
| BottleneckNoise.FollowsRun | core/examples/bottleneck_sim.rs:638-651 | in any run that draws from one seed, through phases of any rates and of the even model too, the generator stands where its own draws put it: the j-th segment served at a positive rate meets draw j modulo the period of the seed |
| BottleneckNoise.DequeueLost | core/examples/bottleneck_sim.rs:614-660 | the segment at the front is lost exactly when the draw its turn meets is below the rate |
| BottleneckNoise.DrawsCycle | core/examples/bottleneck_sim.rs:638-647 | two draws of a run are the same exactly when they are whole periods of the seed apart |
| BottleneckNoise.ReachesZero | core/examples/bottleneck_sim.rs:638-647 | that period is the number of steps after which the state is first zero, between one and the size of the ring |
| BottleneckNoise.NoiseDraws | core/examples/bottleneck_sim.rs:638-651 | a dequeue at a positive rate meets the draw of its turn and leaves the generator for the next, the reseeding at zero included |
| BottleneckNoise.NoiseRests | core/examples/bottleneck_sim.rs:638-651 | one at rate zero, or of the even model, leaves the generator where it stands, seeded or not |
| BottleneckNoise.StuckSeedIff | core/examples/bottleneck_sim.rs:638-647 | every draw of a run is the same for exactly one seed |
| BottleneckDelay.FifoDelayBound | core/examples/bottleneck_sim.rs:557-661 | over any stretch of ticks that carry a queue limit and a link never slower than a given rate, whatever came before or comes after: a segment sent within it is answered between two propagations and that plus the ticks the limit takes to drain less one; what leaves of the backlog it started from leaves within those ticks of its start; nothing queued has waited longer |
| BottleneckDelay.ReportedExtremes | core/examples/bottleneck_sim.rs:477-480 | for a final phase that opens within such a stretch: the deepest queue the report prints is within the limit; every round trip of the final phase whose segment was sent in the stretch is within the delay bound; and the widest the report prints is within it exactly unless that of a segment sent before is not |
| BottleneckDelay.WholeRunStretches | core/examples/bottleneck_sim.rs:343-735 | a run whose every phase carries the limit and the rate is one such stretch from its first tick |
| BottleneckDelay.CausalRun | core/examples/bottleneck_sim.rs:407-733 | in any run whatever: nothing queued is stamped later than the clock, and every delivery is dated at least two propagations after its sending and less than two beyond the clock |
| BottleneckDelay.OnTimeTick | core/examples/bottleneck_sim.rs:407-733 | one tick of a stretch keeps the age of every queued segment paid for by the bytes ahead of it |
| BottleneckDelay.RampBounded | core/examples/bottleneck_sim.rs:409-411 | a rate ramp between two rates of at least a bound never falls below it |
| BottleneckOrder.SlidingWindowsAreExact | core/examples/bottleneck_sim.rs:465-475 | in every run acknowledgements are delivered in nondecreasing time, the trailing-second deque is exactly the last second of the delivery history, and the reference head is the maximum of every sample offered within the horizon |
| BottleneckOrder.InOrderTick | core/examples/bottleneck_sim.rs:407-677 | one tick keeps the deliveries on the return path in order, sorted deque or not, and leaves the trailing second exact |
| BottleneckOrder.TrimIsLastSecond | core/examples/bottleneck_sim.rs:671-677 | trimming the front of the deque of arrivals leaves exactly the arrivals of the last second of the whole history |
| BottleneckReport.NinetyIsFirst | core/examples/bottleneck_sim.rs:691-708 | the time to ninety per cent is that of the first tick of the final phase, a second or more in, at which the bytes delivered in the last second of the whole history reach nine tenths of what the phase can deliver; there is none exactly when no tick does |
| BottleneckReport.DeliveredAddsUp | core/examples/bottleneck_sim.rs:397-405 | the per-phase figures add up to every byte delivered in the run |
| BottleneckReport.DeliveredIs | core/examples/bottleneck_sim.rs:397-405 | a phase's figure is a segment for every delivery between its opening and its end, empty phases included |
| BottleneckReport.SecondsAreTotals | core/examples/bottleneck_sim.rs:685-690 | the figures at one and at two seconds are both everything the phase delivered up to that tick |
| BottleneckReport.SecondSecondIff | core/examples/bottleneck_sim.rs:685-690 | the figure at two seconds is what the second second delivered exactly when the first delivered nothing |
| BottleneckOvertaken.SecondSecondFails | core/examples/bottleneck_sim.rs:685-690 | a run in which it is not |
| BottleneckReport.ReportMeans | core/examples/bottleneck_sim.rs:671-755 | every figure of every report over its run: mean and largest of the queue depths at the ticks of the final phase, mean and least of the ratios of estimate to reference at the ticks that have one, widest round trip of the deliveries of the final phase, largest size of the reference, and the counters |
| BottleneckFigures.QueueFigures | core/examples/bottleneck_sim.rs:678-682 | at every tick the queue sum, tick count and deepest queue are the sum, number and largest of the depths at the ends of the final phase's ticks so far |
| BottleneckFigures.FidelityFigures | core/examples/bottleneck_sim.rs:722-728 | at every tick the worst ratio is the least of those taken, attained, and the sum and count are theirs |
| BottleneckFigures.WidestFigure | core/examples/bottleneck_sim.rs:477-480 | at every tick the widest round trip is the largest over the deliveries of the final phase's ticks, attained |
| BottleneckFigures.ReferenceFigure | core/examples/bottleneck_sim.rs:472-475 | at every tick the recorded size is the largest the reference had after any sample, and the reference is the window of all samples |
| BottleneckFigures.CounterFigures | core/examples/bottleneck_sim.rs:548-562 | at every tick every transmission is counted, and is queued, served or was refused; is queued, on its way back, delivered or known lost; and the drops are the losses on their way plus those known |
| BottleneckFigures.DeliveredPrefix | core/examples/bottleneck_sim.rs:464-466 | the log of deliveries only grows |
| BottleneckReport.ReportOrdered | core/examples/bottleneck_sim.rs:737-755 | so in every report the mean queue is at most the deepest and the worst fidelity at most the mean |
| BottleneckReport.TickBytes | core/examples/bottleneck_sim.rs:464-466 | a tick adds a segment per delivery to the phase's figure, from zero if it opens the phase |
| BottleneckReport.SchedulePhases | core/examples/bottleneck_sim.rs:397-413 | each phase has its stretch of the schedule, as long as its duration asks, and opens at the first tick of it alone |
| BottleneckSorted.SortedTickIff | core/examples/bottleneck_sim.rs:584-661 | from a sorted deque a tick leaves a sorted deque exactly when nothing departs while the last entry is dated later than that departure |
| BottleneckSorted.SortedRunIff | core/examples/bottleneck_sim.rs:584-661 | the deque is sorted at every tick of a run exactly when no tick of it is such a tick |
| BottleneckOvertaken.SortednessFails | core/examples/bottleneck_sim.rs:584-599 | a concrete first tick after which a drop dated 201 ms stands before a delivery dated 200 ms |
| BottleneckOvertaken.DeliveryHeldBack | core/examples/bottleneck_sim.rs:415-418 | what that costs, in a run of two phases: at the tick of 200 ms the delivery due is on the path and not taken, because the later drop is in front of it; it is taken a tick later |
| BottleneckSorted.UnlimitedRun | core/examples/bottleneck_sim.rs:655-660 | as long as no tick has had a queue limit the deque is sorted and every entry is dated within two propagations of the clock |
| BottleneckSorted.PlacedInOrder | core/examples/bottleneck_sim.rs:591-599 | on a sorted deque, inserting a drop at a boundary of the binary search keeps it sorted |
| BottleneckModel.Place | core/examples/bottleneck_sim.rs:591-599 | the search lands on an index whose left neighbour is not later and whose own entry is later, sorted deque or not |
| BottleneckModel.ScheduleClock | core/examples/bottleneck_sim.rs:392-413 | tick k of a run of any phases happens k milliseconds in, in one of the phases and within its duration |
| BottleneckModel.AckLoopKeeps | core/examples/bottleneck_sim.rs:415-481 | whatever one acknowledgement keeps the loop keeps, and it ends with none due |
| BottleneckModel.SendLoopKeeps | core/examples/bottleneck_sim.rs:508-604 | whatever one transmission keeps the loop keeps, and it ends when nothing may be sent, for every estimator |
| BottleneckModel.LinkLoopKeeps | core/examples/bottleneck_sim.rs:613-661 | whatever one departure keeps the loop keeps, and it ends with credit or queue exhausted |
| BottleneckSim.Simulator.constructor | core/examples/bottleneck_sim.rs:343-395 | the object starts in the model's initial state |
| BottleneckSim.Simulator.DeclareHole | core/examples/bottleneck_sim.rs:419-431 | raises the signal for a first transmission only and always owes a repair, as the model |
| BottleneckSim.Simulator.CountDelivery | core/examples/bottleneck_sim.rs:432-481 | feeds the estimator, the trailing second, the gated reference and the widest round trip, as the model |
| BottleneckSim.Simulator.BookDelivery | core/examples/bottleneck_sim.rs:464-466 | records a delivery in the estimator, the phase total and the trailing second and changes nothing else |
| BottleneckSim.Simulator.OfferReference | core/examples/bottleneck_sim.rs:472-475 | pushes an admitted sample on the reference and tracks its largest size |
| BottleneckSim.Simulator.TakeAcknowledgements | core/examples/bottleneck_sim.rs:415-481 | the loop over due acknowledgements ends in the model's state |
| BottleneckSim.Simulator.OfferDemand | core/examples/bottleneck_sim.rs:484-495 | tops up or adds a request to what is owed, saturating, as the model |
| BottleneckSim.Simulator.EarnPaceCredit | core/examples/bottleneck_sim.rs:497-507 | earns one tick of pacing credit up to the cap, or none while unpaced |
| BottleneckSim.Simulator.LaunchNext | core/examples/bottleneck_sim.rs:532-556 | takes a repair before new data, charges the pacer and stamps the segment from the estimator |
| BottleneckSim.Simulator.Admit | core/examples/bottleneck_sim.rs:557-604 | queues the segment, or refuses it and places its loss on the return path |
| BottleneckSim.Simulator.SendBurst | core/examples/bottleneck_sim.rs:497-607 | the send loop with its three exits, and the dry note exactly when data ran out first |
| BottleneckSim.Simulator.DrawNoise | core/examples/bottleneck_sim.rs:629-651 | both loss models, as the model's noise process |
| BottleneckSim.Simulator.PopFront | core/examples/bottleneck_sim.rs:614-616 | takes the front segment, its bytes of credit and its bytes off the counter |
| BottleneckSim.Simulator.DepartFront | core/examples/bottleneck_sim.rs:614-660 | one departure, as the model |
| BottleneckSim.Simulator.ServeLink | core/examples/bottleneck_sim.rs:612-669 | the link loop and the cap on idle credit, as the model |
| BottleneckSim.Simulator.SumTrailing | core/examples/bottleneck_sim.rs:692 | the loop adds up the bytes of the trailing second |
| BottleneckSim.Simulator.TakeFinalReadings | core/examples/bottleneck_sim.rs:678-709 | queue sum, tick count, deepest queue, the two second figures and the time to ninety per cent, as the model |
| BottleneckSim.Simulator.TakeFidelity | core/examples/bottleneck_sim.rs:722-728 | the ratio to the reference joins the worst and the sum when there is a reference, as the model |
| BottleneckSim.Simulator.TakeReadings | core/examples/bottleneck_sim.rs:671-728 | the trailing-second trim, the final-phase figures and the fidelity ratio, as the model |
| BottleneckSim.Simulator.RunTick | core/examples/bottleneck_sim.rs:407-733 | one iteration of the tick loop, readings included, is the model's tick |
| BottleneckSim.Simulator.RunPhase | core/examples/bottleneck_sim.rs:397-735 | the ticks of one phase are the next ones on the schedule |
| BottleneckSim.Simulator.Run | core/examples/bottleneck_sim.rs:343-755 | a whole run of any phases ends in the model's state after the whole schedule and returns the report of that run, so every theorem about runs and reports is about it |
| WindowedMaximum.WindowIsSurvivors | core/examples/bottleneck_sim.rs:258-284 | the deque holds exactly the samples inside the horizon and strictly above every later one |
| WindowedMaximum.HeadIsWindowedMaximum | core/examples/bottleneck_sim.rs:285-291 | the head is the maximum of every sample within the horizon of the last push |
| WindowedMaximum.DroppingIsKeeping | core/examples/bottleneck_sim.rs:271-284 | on a monotonic deque, dropping stale entries from the front and dominated ones from the back is filtering out both kinds |
| WindowedMaximum.PushAll | core/examples/bottleneck_sim.rs:271-295 | after any nondecreasing run of pushes on the object, its head is the windowed maximum and its size the number of survivors |
| WindowedMaximum.WindowedMax.Push | core/examples/bottleneck_sim.rs:271-284 | the two pop loops and the push leave the specified deque |
| WindowedMaximum.WindowedMax.GetHead | core/examples/bottleneck_sim.rs:285-291 | the front value, zero when empty |
| SplitMix.UnmixMix | core/examples/bottleneck_sim.rs:156-162 | the output map has an explicit inverse, with modular inverses of both multipliers |
| SplitMix.MixInjective | core/examples/bottleneck_sim.rs:156-162 | two states never give the same draw |
| SplitMix.FullPeriodState | core/examples/bottleneck_sim.rs:156-162 | the state does not repeat within two to the sixty-fourth steps |
| SplitMix.DrawsAllDistinct | core/examples/bottleneck_sim.rs:156-162 | any stretch of two to the sixty-fourth draws holds no draw twice |
| SplitMix.DrawsRepeatAfterPeriod | core/examples/bottleneck_sim.rs:156-162 | after one full period the draws start over |
| SplitMix.FirstDrawSeparatesSeeds | core/examples/bottleneck_sim.rs:638-647 | two configured seeds open with the same draw exactly when they are equal or are zero and one |
| SplitMix.XorShiftInverts | core/examples/bottleneck_sim.rs:159-161 | a 64-bit xor-shift by at least 22 is undone by two further shifts |
| SplitMix.WrappingMulInverts | core/examples/bottleneck_sim.rs:159-160 | wrapping multiplication by an invertible constant is undone by its inverse |
| SplitMix.SplitMix64 | core/examples/bottleneck_sim.rs:156-162 | one call advances the state and returns the draw the theorems are about |
| ReplayWindow.VerdictIsReference | core/src/security/replay_window.rs:76-118 | on every history, an arrival is accepted exactly when its number was never offered before and none at least 1024 above it has been |
| ReplayWindow.NoReplayAccepted | core/src/security/replay_window.rs:76-118 | of two arrivals of one number at most one is accepted |
| ReplayWindow.HistoryKept | core/src/security/replay_window.rs:76-118 | after any history the bitmap remembers exactly what was accepted and the watermark is the largest number offered |
| ReplayWindow.AcceptIsNovel | core/src/security/replay_window.rs:84-118 | one call says yes to exactly the novel numbers, records them, and changes nothing otherwise |
| ReplayWindow.ShiftLeftBit | core/src/security/replay_window.rs:131-161 | the two-stage word and bit shift moves every bit of the 1024-bit map by the shift and clears the rest |
| ReplayWindow.Tracker.constructor | core/src/security/replay_window.rs:68-75 | the window starts empty and uninitialised |
| ReplayWindow.Tracker.Offer | core/src/security/replay_window.rs:84-118 | verdict and new window are the specified ones |
| ReplayWindow.Tracker.ClearAll | core/src/security/replay_window.rs:94-96 | a jump past the window clears every word |
| ReplayWindow.Tracker.ShiftInPlace | core/src/security/replay_window.rs:136-161 | the in-place shift of the array is the shift of the map |
| ReplayWindow.Tracker.ShiftWords | core/src/security/replay_window.rs:136-150 | the descending word loop moves every word up and zeroes the low ones |
| ReplayWindow.Tracker.ShiftBits | core/src/security/replay_window.rs:151-161 | the descending bit loop carries each word's high bits into the next |
| Sack.FromRangesKeeps | core/src/transport/sack.rs:184-268 | ranges in any order, overlapping or not: the result is valid, acknowledges nothing the input does not, all of it when it fits, its largest offset, and any run from zero |
| Sack.MergedKeeps | core/src/transport/sack.rs:194-212 | sorting and merging keeps exactly the offsets covered and leaves them ascending and apart |
| Sack.FromAscendingKeeps | core/src/transport/sack.rs:213-268 | the cap keeps the lowest range and the largest offset and adds nothing |
| Sack.CoalesceCover | core/src/transport/sack.rs:196-210 | the merge loop covers exactly what it was given |
| Sack.Acks | core/src/transport/sack.rs:420-428 | answers whether an offset lies in one of the ranges |
| Sack.FromInclusiveRanges | core/src/transport/sack.rs:190-212 | the loop computes the specified acknowledgement, none for no ranges |
| SackWire.DecodeEncode | core/src/transport/sack.rs:282-417 | every valid acknowledgement decodes to itself, whatever bytes follow it |
| SackWire.EncodeDecode | core/src/transport/sack.rs:282-417 | what the decoder accepts is valid and the bytes it read are that value's only encoding |
| SackWire.AcceptedIff | core/src/transport/sack.rs:341-417 | the decoder accepts exactly the byte strings that begin with the encoding of a valid acknowledgement |
| SackWire.ToWire | core/src/transport/sack.rs:282-335 | the encoding loop writes the specified bytes |
| SackWire.FromWire | core/src/transport/sack.rs:341-417 | the decoder returns the specified value or the specified error on every byte string |
| SackWire.ReadContinuations | core/src/transport/sack.rs:378-412 | the continuation loop reads the remaining ranges or stops at the first malformed pair |
| ReliableStream.ReliableDelivery | core/src/transport/stream.rs:2327-2388 | over any loss, duplication and reordering of data and acknowledgements: delivered is exactly a prefix of what was sent, in order and once each; the sender forgets no offset the receiver does not hold; the reorder buffer respects its cap, its byte count is exact, and it never exceeds the largest budget an arrival was judged by |
| ReliableStream.DrainedMeansDelivered | core/src/transport/stream.rs:2181-2227 | once the send buffer is empty everything sent has been delivered |
| ReliableStream.NeverStuck | core/src/transport/stream.rs:2327-2388 | while something is undelivered, sending the awaited offset once more delivers it, whatever the reorder buffer holds and however small its byte budget |
| ReliableStream.SackIsHonest | core/src/transport/stream.rs:2123-2166 | the receiver acknowledges only offsets it holds, always its whole delivered run, and every island unless there are too many for the wire |
| ReliableStream.AcceptKeeps | core/src/transport/stream.rs:2327-2388 | one arrival keeps order, fidelity and bounds, loses nothing held, and advances the cursor when it fills the hole |
| ReliableStream.GoodStep | core/src/transport/stream.rs:2123-2388 | every move of sender, receiver or network keeps the whole invariant |
| ReliableStream.HoleIsPending | core/src/transport/stream.rs:2181-2227 | the offset the receiver waits for is still in the send buffer |
| ReliableStream.RetireIs | core/src/transport/stream.rs:2188-2225 | an acknowledgement retires exactly the covered offsets |
| ReliableStream.StreamReceiver.Accept | core/src/transport/stream.rs:2327-2388 | the receive method, with its arrival stamp and its duplicate, budget and drain paths, computes the specified state and deliveries |
| ReliableStream.StreamReceiver.Report | core/src/transport/stream.rs:2123-2166 | the acknowledgement is built from the live reorder state, with the delay given or the one read off the last arrival |
| ReliableStream.WithinBudget | core/src/transport/stream.rs:2352-2367 | in every run the bytes waiting for their turn never exceed the largest budget offered |
| ReliableStream.StreamReceiver.DrainHeld | core/src/transport/stream.rs:2369-2388 | the drain loop releases exactly the segments that have become contiguous |
| ReliableStream.StreamReceiver.Delay | core/src/transport/stream.rs:2150-2164 | the given delay, or the microseconds since the last arrival as far as they fit, or zero |
| ReliableStream.DelayFor | core/src/transport/stream.rs:2150-2164 | the delay always fits its wire field |
| LossRuns.DeclaredSparingly | core/src/transport/stream.rs:2249-2304 | in every run of pushes, polls, writes, refusals and acknowledgements: of two declarations of one segment the later is by age alone, so distance declares a segment at most once, and at least the age limit it was judged by, never under a millisecond, lies between them |
| LossRuns.SoundStep | core/src/transport/stream.rs:1864-2313 | every step keeps, for every declaration made, a flag on its segment or a resend stamped no earlier |
| LossRuns.DeclaredAgain | core/src/transport/stream.rs:2264-2294 | a segment that remembers a declaration is declared again only by age, counted from a later copy |
| LossRuns.InflatedReach | core/src/transport/stream.rs:2233-2241 | which segments an acknowledgement can have declared lost by distance: those three behind the next offset to be assigned, one more than any honest one reaches |
| LossRuns.InflatedRun | core/src/transport/stream.rs:2233-2304 | with three segments out, an acknowledgement that does not cover the first declares it lost by distance exactly when it claims an offset never assigned |
| LossDetection.Judge | core/src/transport/stream.rs:2250-2294 | the two thresholds and their guards give the specified cause |
| FlowLedger.WindowRespected | core/src/transport/stream.rs:806-819 | in every run, whatever the peer acknowledges and allows: the bytes on the wire, each once, are within those charged and these within the peer's limit; a buffered data segment is charged exactly while a copy of it is out or being written; the total is the charges of buffered and retired segments, so no return of a charge saturates |
| FlowLedger.SaneStep | core/src/transport/stream.rs:1842-2107 | every step keeps the ledger, where each segment stands, and that segments go out in turn |
| FlowLedger.BalancedRefused | core/src/transport/stream.rs:2066-2107 | a refused write gives its charge back exactly if no copy was ever out; one of a probe or of a retired segment changes nothing |
| FlowLedger.BalancedOffer | core/src/transport/stream.rs:1949-1996 | a segment sent as new pays unless it holds its charge, and all before it are on the wire |
| FlowLedger.LimitsCommute | core/src/transport/stream.rs:1088-1125 | limits may be repeated and come in any order: the largest counts |
| FlowLedger.StrandedIff | core/src/transport/stream.rs:1772-1786 | a stream is blocked by the window with nothing out and nothing acknowledged, and so nothing to probe with, exactly when its first segment alone is larger than the limit |
| FlowLedger.StrandedRun | core/src/transport/stream.rs:1772-1786 | one push that does it |
| FlowLedger.ProbesAreApart | core/src/transport/stream.rs:1786-1796 | in every run, of two probes the later leaves at least its timeout after the earlier |
| FlowLedger.PollProbes | core/src/transport/stream.rs:1772-1806 | a probe goes out only with nothing out and something acknowledged, and repeats the highest offset acknowledged |
| FlowLedger.ProbeChangesNothing | core/src/transport/stream.rs:1740-1758 | a receiver that holds the offset a probe repeats is left as it was and delivers nothing |
| DeliveryMarks.PinnedIff | core/src/transport/stream.rs:371-395 | the delivery marks of every segment on the wire stay those of its first copy throughout a run exactly when no poll offers as new, with other marks, a segment on the wire |
| DeliveryMarks.PinnedStepIff | core/src/transport/stream.rs:1864-2000 | the same of one step |
| DeliveryMarks.ReofferedIff | core/src/transport/stream.rs:1949-1996 | a segment offered as new is on the wire exactly when it has been resent |
| DeliveryMarks.RestampRun | core/src/transport/stream.rs:1949-1996 | a run of six steps in which they do not stay |
| SendRuns.PermitsAreConserved | core/src/transport/stream.rs:2306-2310 | in every run every permit is free or held by a buffered segment, and every offset assigned is in the buffer or was retired, exactly once |
| SendRuns.KeptOrRetired | core/src/transport/stream.rs:2188-2225 | an acknowledgement splits the buffer into what it keeps and what it retires, by exactly what it covers |
| SendRuns.RetiredCovered | core/src/transport/stream.rs:2188-2225 | what is reported retired is the covered segments, in order |
| SendRuns.KeptOffsets | core/src/transport/stream.rs:2188-2225 | on the offsets this is the retirement the delivery theorem is proved with |
| SendPath.TimeoutsCarryNoFlag | core/src/transport/stream.rs:1909-1934 | a segment resent on a timeout carries no loss flag, so there is none to clear |
| SendPath.PollRests | core/src/transport/stream.rs:1842-2005 | a poll that sends no segment leaves segments, charges and limit alone |
| SendPath.PollOffers | core/src/transport/stream.rs:1936-2000 | one that sends a segment as new offers the first that is not out, and it holds its charge or fits |
| SendPath.PollResends | core/src/transport/stream.rs:1889-1934 | any other sends one that is out once more and counts it |
| SendPath.SendBuffer.constructor | core/src/transport/stream.rs:905-923 | a stream starts with nothing buffered and the initial window |
| SendPath.SendBuffer.PollSend | core/src/transport/stream.rs:1842-2005 | datagrams first, then the first declared loss, else the first timeout, else the new pass, as specified |
| SendPath.SendBuffer.OfferNext | core/src/transport/stream.rs:1936-2005 | the first segment not out, with its charge and its marks, or the reason it is held back, or the probe |
| SendPath.SendBuffer.MarkUnsent | core/src/transport/stream.rs:2090-2107 | clears the send stamp of the segment refused and returns its charge if it was never resent |
| SendPath.SendBuffer.ApplyPeerWindowLimit | core/src/transport/stream.rs:1117-1125 | raises the limit to the one given, at most a full window beyond the bytes charged |
| SendPath.SendBuffer.OnSack | core/src/transport/stream.rs:2181-2313 | retires what is covered with its marks, and its round-trip sample only if never resent, notes the highest offset, flags and reports what is lost among the rest, and returns the permits, as specified |
| SendPath.SendBuffer.RetireCovered | core/src/transport/stream.rs:2188-2225 | the removal loop retires in place exactly the covered segments and reports each |
| SendPath.SendBuffer.DeclareLost | core/src/transport/stream.rs:2249-2304 | the loop flags and reports exactly the segments the verdict names |
| Admission.AdmissionSafe | server/src/main.rs:217-301 | in every interleaving, slots held and free add up to the capacity, each address's count is its live guards and lies between one and the cap, and the counts never exceed the slots held |
| Admission.DrainsClean | server/src/main.rs:85-109 | once every handler is gone the map is empty and every slot is free |
| Admission.UnusedSlotReturns | server/src/main.rs:268-301 | an accept iteration that keeps no session gives its slot back and changes no count, and a refusal happens exactly at the cap |
| Admission.NeverWedged | server/src/main.rs:217-241 | with a positive capacity some step is always enabled, and the loop waits for a slot only when every slot belongs to a live handler |
| Admission.SoundStep | server/src/main.rs:217-301 | every step of loop or handler keeps the admission invariant |
| Admission.SoundDropGuard | server/src/main.rs:92-109 | dropping a guard in any reachable state finds its entry with at least one to take, so the decrement never wraps |
| Admission.AdmitIff | server/src/main.rs:61-83 | a session is admitted exactly when the cap is disabled or its address is below it; refusals and other addresses are untouched |
| Admission.DropUndoes | server/src/main.rs:92-109 | dropping a live guard undoes its admission, and the entry goes at zero |
| Admission.SumAdmit | server/src/main.rs:61-83 | an admission adds one to the total exactly when it is counted |
| Admission.SumDrop | server/src/main.rs:92-109 | a drop takes exactly one from the total |
| Admission.PerIpLimiter.AdmitFrom | server/src/main.rs:61-83 | the method computes the specified guard and counts |
| Admission.PerIpLimiter.Release | server/src/main.rs:92-109 | the drop computes the specified counts, wrapping included |
| Interop.ExchangeSafe | scripts/interop/peer.rs:135-180 | however sends are chunked and peers scheduled, no read overshoots and no comparison fails, one message is in flight at a time, and a disconnect can discard only the final echo |
| Interop.ExchangeCompletes | scripts/interop/peer.rs:135-180 | with everything delivered, every run is finite and one that cannot continue has finished both scripts |
| Interop.StuckIff | scripts/interop/peer.rs:135-180 | a reachable state cannot move exactly when both peers are done or the final echo was discarded |
| Interop.StepProgress | scripts/interop/peer.rs:135-180 | every step leaves strictly less to do |
| Interop.RunBounded | scripts/interop/peer.rs:135-180 | no run is longer than the bytes and operations there are at the start |
| Interop.HealthyStep | scripts/interop/peer.rs:135-180 | every step keeps the two scripts aligned and the wire a suffix of the message being read |
| Interop.HealthyDiscard | scripts/interop/peer.rs:160-180 | a close can discard only what is left of the final echo |
| Interop.ReadPart | scripts/interop/peer.rs:110-123 | reading part of what is left of a message neither overshoots nor mismatches, and the last part completes it |
| Interop.RecvExactly | scripts/interop/peer.rs:110-123 | returns exactly the wanted bytes from a prefix of non-empty chunks, or says which of silence, an empty chunk or an overshoot came first |
| Duplex.NoLostWakeup | core/examples/embedded_demo.rs:111-148 | in every interleaving bytes come out as they went in, the byte counter is exact between writes, and no reader sleeps on data without a notification coming |
| Duplex.ReaderGetsBytes | core/examples/embedded_demo.rs:111-138 | once the writer is done, a reader waiting on data wakes and gets at least a byte |
| Duplex.EarlyIff | core/examples/embedded_demo.rs:112-126 | no run loses a wakeup exactly when the reader registers before it looks |
| Duplex.LateRegistrationLosesWakeup | core/examples/embedded_demo.rs:112-126 | with the other order a six-step run loses one |
| Duplex.FifoRun | core/examples/embedded_demo.rs:111-148 | with either order, read then buffered bytes are the written bytes |
| Duplex.Channel.BeginRead | core/examples/embedded_demo.rs:111-118 | entering a read registers for the notification first, as the step of the machine |
| Duplex.Channel.Look | core/examples/embedded_demo.rs:112-138 | under the lock: moves as many bytes as fit from the front, one by one, or starts to wait, as the step of the machine |
| Duplex.Channel.GoRound | core/examples/embedded_demo.rs:112-138 | a notified reader registers again and goes round |
| Duplex.Channel.Append | core/examples/embedded_demo.rs:141-148 | appends behind what is buffered, as the step of the machine |
| Duplex.Channel.AddToCount | core/examples/embedded_demo.rs:141-148 | adds what was appended to the counter |
| Duplex.Channel.NotifyWaiters | core/examples/embedded_demo.rs:141-148 | wakes exactly who is registered |
| Scrub.BlankedIff | scripts/check_panic_sites.py:88-154 | a position is blanked exactly when it lies inside a comment, a string or a literal the scan meets |
| Scrub.PositionKept | scripts/check_panic_sites.py:88-154 | every position keeps its character or becomes a space, and what is neither blank nor newline is code |
| Scrub.ScrubIdempotent | scripts/check_panic_sites.py:88-154 | scrubbing what was scrubbed changes nothing, on every input |
| Scrub.NoToken | scripts/check_panic_sites.py:88-154 | no comment, string or literal starts anywhere in the scrubbed text |
| Scrub.NewlineKeptIff | scripts/check_panic_sites.py:144-151 | a newline stays exactly when it is not the inside of a character literal, and none is introduced |
| Scrub.AllNewlinesKeptIff | scripts/check_panic_sites.py:88-95 | the promise that every newline is kept holds exactly of texts with no quoted raw newline |
| Scrub.NewlineLost | scripts/check_panic_sites.py:144-151 | the three characters that break the promise |
| Scrub.ScrubSource | scripts/check_panic_sites.py:88-154 | the scan over a mutable character list computes the specified text |
| Scrub.ScrubToken | scripts/check_panic_sites.py:98-153 | one token is recognised in the source's order of cases and blanked as its kind |
| Scrub.BlankBlock | scripts/check_panic_sites.py:104-120 | a nested block comment is blanked to its matching end or the end of the text, newlines kept |
| Scrub.BlankLine | scripts/check_panic_sites.py:100-103 | a line comment is blanked up to its newline |
| Scrub.BlankText | scripts/check_panic_sites.py:130-143 | a string with its escapes is blanked to its closing quote, newlines kept |
| Scrub.BlankTo | scripts/check_panic_sites.py:121-151 | a raw string or a literal of known length is blanked |
| SourceLines.AlignedIff | scripts/check_panic_sites.py:230-236 | every position is on the same line of source and scrubbed copy exactly when each line break of the source is a newline that is no quoted character, or stands in code |
| SourceLines.BracesAreCode | scripts/check_panic_sites.py:230-236 | in such a file the braces counted on a line of the scrubbed copy are exactly those that stand in code on that line of the source |
| SourceLines.BreakIff | scripts/check_panic_sites.py:88-154 | scrubbing introduces no line break and loses exactly the others |
| SourceLines.SplitCounts | scripts/check_panic_sites.py:230-236 | a character that ends no line occurs on a line of the split exactly as often as it stands there |
| SourceLines.FormFeedMisaligns | scripts/check_panic_sites.py:230-236 | a form feed in a comment is two lines of source and one of scrubbed text |
| TestRanges.TestLineRanges | scripts/check_panic_sites.py:157-189 | from the two copies of a file as lines of text: the spans are disjoint and rising, each runs from a guarding test attribute to the end of the item it guards, and every guarding attribute lies in one of them |
| TestRanges.ListRanges | scripts/check_panic_sites.py:157-189 | the same on lines already classified |
| TestRanges.FindEnd | scripts/check_panic_sites.py:177-186 | the end found is the first line by whose end the item has opened a brace and its braces balance, or the last line of the file |
| TestRanges.ListingUnique | scripts/check_panic_sites.py:157-189 | a file has only one such list of spans |
| Wiring.FindReached | scripts/check_gate_wiring.py:205-227 | the loop ends, and what it reaches is exactly what a chain of invocations from an entry point reaches, each with a cycle-free provenance that is such a chain and names an entry point that invokes its first runner |
| Wiring.FixpointIsExact | scripts/check_gate_wiring.py:205-227 | any justified set closed under relays and holding the seeds is exactly the reachable set |
| Wiring.OrderIrrelevant | scripts/check_gate_wiring.py:205-227 | the order files and runners are listed in does not change what is reached |
| Wiring.ChainIsReached | scripts/check_gate_wiring.py:214-227 | a closed set holds the end of every chain from an entry point |
| Wiring.Seed | scripts/check_gate_wiring.py:205-212 | exactly the runners an entry point names are seeded, each with the first entry point that names it |
| Wiring.Pass | scripts/check_gate_wiring.py:214-227 | a pass grows the set or finds it closed |
| Wiring.FindRelay | scripts/check_gate_wiring.py:220-227 | the first reached relay that may pass an invocation on, the target and its own harness excepted, or none when the target is closed off |
| Generics.StripIsMatched | scripts/check_changelog_breaking.py:89-100 | on every string, removing innermost bracket pairs until nothing changes leaves exactly what one pass with a stack of open brackets leaves |
| Generics.StripKeepsDepthZero | scripts/check_changelog_breaking.py:89-100 | on every balanced symbol exactly the characters outside all brackets are kept |
| Generics.PassKeepsMatched | scripts/check_changelog_breaking.py:80-98 | one substitution does not change which brackets match |
| Generics.DepthZeroPlain | scripts/check_changelog_breaking.py:89-100 | so no bracket is left of a balanced symbol |
| Generics.Pass | scripts/check_changelog_breaking.py:80-98 | a substitution shortens the string or leaves it alone, which is why the loop ends |
| Generics.StripGenerics | scripts/check_changelog_breaking.py:89-100 | the loop returns that result |
| Pacing.ClosedForm | testbed/src/pacing.rs:106-114 | after k exact ticks from empty, the datagrams released are the floor of the credit earned over the threshold and the credit the remainder |
| Pacing.WindowBound | testbed/src/pacing.rs:106-114 | any m consecutive exact ticks release the floor or the ceiling of m ticks' worth |
| Pacing.ConservesIff | testbed/src/pacing.rs:106-114 | one tick conserves credit exactly when neither the saturating sum nor the clamp bites |
| Pacing.BalancedIff | testbed/src/pacing.rs:106-114 | a run's books balance after every tick exactly when no tick of it saturated or clamped |
| Pacing.ExactForeverIff | testbed/src/pacing.rs:90-114 | a pacer built for any rate and size never saturates or clamps exactly when the most credit a tick can find, by the common divisor of its two constants, fits both widths |
| Pacing.RoomyIsExact | testbed/src/pacing.rs:90-114 | a pacer with that room when built is exact after any number of ticks |
| Pacing.MostCreditOccurs | testbed/src/pacing.rs:106-114 | a pacer that is always exact does find that most credit at some tick |
| Pacing.LadderIsRoomy | testbed/src/pacing.rs:54-58 | every rate up to the top of the default ladder has that room, in datagrams of any size whose credit fits 64 bits |
| Pacing.RateExact | testbed/src/pacing.rs:84-114 | a pacer built for a rate is never ahead of its offer and never a whole datagram behind, over any number of ticks |
| Pacing.PacerReachesOffer | testbed/src/pacing.rs:147-149 | driven for ten datagrams' worth it meets the shared threshold for having reached its offer |
| Pacing.ClampLosesCredit | testbed/src/pacing.rs:106-114 | an offer for which the clamp does throw credit away |
| Pacing.Pacer.constructor | testbed/src/pacing.rs:90-104 | the constructor computes the specified constants, degenerate inputs included |
| Pacing.Pacer.OnTick | testbed/src/pacing.rs:106-114 | a tick releases the specified number and keeps the credit below the threshold |
| Clock.EstimateError | testbed/src/clock.rs:40-79 | over any exchanges that share a true offset, the estimate is within half the shortest round trip, rounded up, and that round trip is the shortest there is |
| Clock.ErrorBoundTight | testbed/src/clock.rs:40-79 | an exchange that attains the bound |
| Clock.SampleError | testbed/src/clock.rs:27-38 | one exchange is off by at most half its round trip, rounded up |
| Clock.SymmetricIsExact | testbed/src/clock.rs:40-79 | a symmetric shortest exchange recovers the offset exactly |
| Clock.WrapsOnlyAtTheEnd | testbed/src/clock.rs:27-38 | for every four timestamps, whatever wraps on the way, delay and doubled offset are the true ones wrapped once, and right exactly when those are 64-bit values |
| Clock.DispersionIsSpread | testbed/src/clock.rs:60-64 | for every non-empty set of samples the dispersion is the full spread: no offset is further from the estimate, some two are that far apart, and the subtraction never saturates |
| Clock.NegativeDelayClamps | testbed/src/clock.rs:55-70 | a clock stepped back mid-exchange reads as a zero round trip, never as a wrapped one |
| Clock.Best | testbed/src/clock.rs:55-58 | the first of the samples with the least clamped delay |
| ArrivalReading.SplitInvariantIff | testbed/analyze.py:642-678 | cutting any recorded window into two at the same rate leaves the reading of the sorted log as it was exactly unless it makes three windows four, or the front half closes before every other window and bytes arrived between the old quarter mark and the new |
| ArrivalReading.SplitApart | testbed/analyze.py:642-678 | with windows that do not overlap, exactly unless it makes three windows four |
| ArrivalReading.SplitOverlap | testbed/analyze.py:658-678 | four overlapping windows whose reading a cut changes |
| ArrivalReading.LogOrderIff | testbed/analyze.py:658-661 | two orders of one log read the same exactly unless windows of different widths tie for closing first and bytes arrived between the two marks that gives |
| ArrivalReading.SortedReading | testbed/analyze.py:658-678 | sorting first gives the reading defined on the rows as logged: sums, the first close and the last |
| ArrivalReading.SameReadingIff | testbed/analyze.py:662-678 | two logs with the same sums read the same exactly when neither reads or no byte came between their marks |
| ArrivalReading.TailDrops | testbed/analyze.py:669-677 | a later cut leaves at most as much past it, and as much exactly when nothing came in between |
| ArrivalReading.FlatLoggedIsOneQuarter | testbed/analyze.py:652-661 | however it is cut and in whatever order it is logged, a transfer at one rate has exactly a quarter in its last quarter |
| ArrivalReading.SumsOfSame | testbed/analyze.py:664-677 | the sums do not depend on the order of the rows |
| ArrivalReading.ArrivalTailShare | testbed/analyze.py:658-678 | on rows in any order, with or without their times, the reading is the specified one of the recorded rows |
| ArrivalTail.FlatIsOneQuarter | testbed/analyze.py:652-656 | the same of rows in order |
| ArrivalTail.SplitSums | testbed/analyze.py:664-677 | cutting a window changes neither the total nor what lies past any cut |
| ArrivalTail.TailShareIsShare | testbed/analyze.py:642-678 | the reading is between zero and one |
| ArrivalTail.ReadOrdered | testbed/analyze.py:662-678 | the two loops compute the specified reading, or none when there are too few windows or nothing to divide by |
| ArrivalOrder.SortKeeps | testbed/analyze.py:658-661 | the sort orders the rows by close and keeps them all |
| ArrivalOrder.ChosenIs | testbed/analyze.py:659 | exactly the rows with a width and a time are kept, as often as they are logged |
| Transfers.SpansTileIff | testbed/analyze.py:1612-1627 | the spans run end to end from the first row to the last exactly when the coarseness is positive |
| Transfers.SpansTile | testbed/analyze.py:1612-1627 | for a positive coarseness they tile, and every span but the last is at least that long |
| Transfers.SpansAccountForAll | testbed/analyze.py:1612-1627 | so what any counter grew over the spans adds up to what it grew over the transfer |
| Transfers.CoarseSpans | testbed/analyze.py:1612-1627 | the nested loop computes the specified spans and ends for every coarseness |

## Left out

- The estimator itself: it is an oracle here; its filter, gain cycle and loss response are not modelled, only its in-flight counter.
- Floating-point rounding: credits, rates, shares and readings are exact reals.
- The simulator's trace and the printing of its report.
- Wall-clock time: the simulator's clock counts nanoseconds from the start of the run.
- The layout of the ring buffer behind `partition_point`: on an unsorted deque `Place` admits any index a binary search can stop at.
- `Sack.from_received`: the same merge as `from_inclusive_ranges` on single offsets.
- Sack.FromInclusiveRanges: `sort_unstable_by_key` is modelled by a stable insertion sort; the theorems hold of any sorted permutation.
- ReliableStream.StreamReceiver.Accept: the byte budget is a parameter of each arrival, and stream closing is not modelled.
- SendPath.SendBuffer.PollSend: the timeout and its back-off, the congestion window's room and the connection's marks are given by the caller.
- SendPath.SendBuffer.OnSack: the smoothed round trip and the next offset to be assigned are given.
- SendRuns: payloads are shorter than four gigabytes, where the charge would be cut to 32 bits; offsets are pushed in the order they are assigned.
- Admission: the shutdown drain with its abort, logging and the listener's own errors, which all return the slot.
- Interop.RecvExactly: the timeout and the session error of a receive are both the end of the chunks.
- Interop: a peer's send is atomic, and the transport delivers non-empty chunks.
- Duplex: the pipe's `closed` flag, which nothing sets, and wakers other than the one reader's.
- Wiring: reading the tree, stripping comments and choosing which files are runners or relays are given; reporting of orphans and the exempt list are not modelled.
- ArrivalReading.ArrivalTailShare: row fields are numbers, a missing one is zero, and lengths and byte counts are not negative.
- ArrivalReading.SplitInvariantIff: a cut at the instant zero of the clock is excluded, since a row with that time is read as one without.
- Pacing.RateExact: stated for offers and payloads that leave the 64-bit credit room, which is exactly when a pacer stays exact (`ExactForeverIff`).
- Clock.EstimateError: timestamps whose true delay or doubled offset is no 64-bit value are excluded, as `WrapsOnlyAtTheEnd` shows they must be.
- Handshake, cryptography, sessions, congestion control, bindings and the rest of the test-bed: no part of this model.
