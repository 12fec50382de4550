/**
 The bottleneck-link simulator: a sender with repairs, a capped pacer, a bounded FIFO queue
 with tail drop, a fixed-rate link, a noise process and a return path, ticked one
 millisecond at a time.

 This module is the model on values: one `State`, one function per loop body of the tick, and
 one tail-recursive function per loop. `BottleneckSim` runs the same tick on mutable fields,
 and the other Bottleneck modules prove what every run keeps.

 Times are nanoseconds from the start of the run. Rates and credits are exact reals.
 */
module BottleneckModel {
  import opened WindowedMaximum
  import SplitMix
  import opened Wrappers

  const SEGMENT: nat := 1400
  const TICK: nat := 1_000_000
  const PROPAGATION: nat := 100_000_000
  const SECOND: nat := 1_000_000_000
  /** `BW_FILTER_WINDOW` of the estimator. */
  const HORIZON: nat := 10_000_000_000
  const U64_MAX: nat := 0xFFFF_FFFF_FFFF_FFFF

  /**
   A transmission in the queue or on the wire. `id` names the application segment it carries:
   it is bookkeeping for the proofs, and nothing in the model branches on it.
   */
  datatype InFlight = InFlight(
    id: nat,
    bytes: nat,
    sentAt: nat,
    isRepair: bool,
    deliveredBytes: nat,
    deliveredAt: nat,
    appLimited: bool)

  /** A transmission that has left the bottleneck, or was refused by it, on its way back. */
  datatype Returning = Returning(seg: InFlight, ackAt: nat, lost: bool)

  datatype LossModel = Even | Independent(seed: SplitMix.U64)

  datatype Demand = Bulk | RequestResponse(bytes: nat, every: nat)

  datatype Phase = Phase(
    duration: nat,
    linkStartBps: real,
    linkEndBps: real,
    demand: Demand,
    lossPermille: nat,
    queueLimit: Option<nat>,
    lossModel: LossModel)

  // ----- The congestion controller, as an oracle -----

  /** A call that changes the estimator. */
  datatype Call =
    | OnSend(bytes: nat)
    | OnRetransmit(bytes: nat)
    | OnLoss(bytes: nat)
    | OnAck(seg: InFlight, ackedAt: nat)
    | NoteAppLimitedDrain

  /** Everything the simulator reads back from the estimator. */
  datatype Reading = Reading(
    bandwidth: nat,
    cwnd: nat,
    inflight: nat,
    pacingRate: nat,
    lastRate: nat,
    deliveredBytes: nat,
    deliveredTime: nat,
    appLimited: bool,
    bdp: nat)

  /**
   What the model does not fix. The estimator may answer anything as a function of the calls
   made on it so far. `place` proposes where a binary search over a deque lands; see `Place`.
   */
  datatype Env = Env(estimator: seq<Call> -> Reading, place: (seq<Returning>, nat) -> nat)

  // ----- State -----

  datatype State = State(
    queue: seq<InFlight>,
    queuedBytes: nat,
    returning: seq<Returning>,
    awaiting: seq<nat>,          // holes waiting for a repair; the source keeps the count only
    owed: nat,
    nextRequest: nat,
    linkCredit: real,
    paceCredit: real,
    noise: nat,
    rng: SplitMix.U64,
    calls: seq<Call>,            // the estimator, as its call history
    reference: seq<Sample>,
    recent: seq<Sample>,
    rec: Recorded,
    log: Log)

  /** The counters of the source's `Recorded` that the model keeps. */
  datatype Recorded = Recorded(
    phaseDelivered: nat,
    segmentsSent: nat,
    segmentsDropped: nat,
    droppedByFullQueue: nat,
    maxReferenceEntries: nat,
    maxRttInFinalMs: nat,
    finalQueueMax: nat,
    final: FinalFigures,
    fidelity: Fidelity)

  /** What the final phase is read for, besides the two maxima above. */
  datatype FinalFigures = FinalFigures(
    queueSum: nat,
    queueTicks: nat,
    firstSecond: nat,
    secondSecond: nat,
    msToNinety: Option<nat>)

  /** The estimator's reading against the reference: the worst ratio yet, and their sum and number. */
  datatype Fidelity = Fidelity(worst: Option<real>, sum: real, n: nat)

  /** History kept for the proofs; nothing in the model reads it. */
  datatype Log = Log(
    taken: nat,                  // application segments taken from `owed` so far
    served: nat,                 // segments the link has serialised so far
    noiseDue: nat,               // sum of `lossPermille` over those
    signalled: seq<nat>,         // ids the congestion signal was raised for, in order
    delivered: seq<Returning>,   // acknowledged transmissions, in order
    pushes: seq<Sample>)         // samples offered to the reference maximum, in order

  const NOTHING_RECORDED: Recorded := Recorded(
    0, 0, 0, 0, 0, 0, 0, FinalFigures(0, 0, 0, 0, None), Fidelity(None, 0.0, 0))

  const INITIAL: State := State(
    [], 0, [], [], 0, 0, 0.0, 0.0, 0, 0, [], [], [],
    NOTHING_RECORDED,
    Log(0, 0, 0, [], [], []))

  /** One iteration of the tick loop: which phase, how far into it, and the clock. */
  datatype TickConfig = TickConfig(phase: Phase, into: nat, now: nat, opens: bool, final: bool)

  /** The link rate ramps linearly from the phase's start to its end. */
  function LinkRate(phase: Phase, into: nat): real {
    if phase.duration == 0 then phase.linkStartBps
    else
      phase.linkStartBps
      + (phase.linkEndBps - phase.linkStartBps) * (into as real / phase.duration as real)
  }

  /** Bytes a rate in bytes per second moves in one tick. */
  function PerTick(bps: real): real {
    bps / 1000.0
  }

  function MinReal(a: real, b: real): real {
    if a <= b then a else b
  }

  function Max(a: nat, b: nat): nat {
    if a >= b then a else b
  }

  // ----- Acknowledgements -----

  predicate AckDue(s: State, now: nat) {
    s.returning != [] && s.returning[0].ackAt <= now
  }

  /** A hole: the signal is raised for a first transmission only; a repair is always owed. */
  function DeclareLost(s: State, r: Returning): State {
    var t := s.(awaiting := s.awaiting + [r.seg.id]);
    if r.seg.isRepair then t
    else t.(calls := s.calls + [OnLoss(r.seg.bytes)],
            log := s.log.(signalled := s.log.signalled + [r.seg.id]))
  }

  /** Does the reference see this sample? Exactly what the estimator's own gate admits. */
  predicate Admitted(env: Env, s: State, r: Returning) {
    var raw := env.estimator(s.calls + [OnAck(r.seg, r.ackAt)]).lastRate;
    raw > 0 && (!r.seg.appLimited || raw >= env.estimator(s.calls).bandwidth)
  }

  function OfferSample(s: State, at: nat, raw: nat): State {
    var w := Pushed(HORIZON, s.reference, at, raw);
    s.(reference := w,
       rec := s.rec.(maxReferenceEntries := Max(s.rec.maxReferenceEntries, |w|)),
       log := s.log.(pushes := s.log.pushes + [Sample(at, raw)]))
  }

  function Deliver(env: Env, cfg: TickConfig, s: State, r: Returning): State {
    var calls := s.calls + [OnAck(r.seg, r.ackAt)];
    var rttMs := Since(r.ackAt, r.seg.sentAt) / 1_000_000;
    var t := s.(
      calls := calls,
      recent := s.recent + [Sample(r.ackAt, r.seg.bytes)],
      rec := s.rec.(
        phaseDelivered := s.rec.phaseDelivered + r.seg.bytes,
        maxRttInFinalMs := if cfg.final then Max(s.rec.maxRttInFinalMs, rttMs) else s.rec.maxRttInFinalMs),
      log := s.log.(delivered := s.log.delivered + [r]));
    if Admitted(env, s, r) then OfferSample(t, r.ackAt, env.estimator(calls).lastRate) else t
  }

  function AckOne(env: Env, cfg: TickConfig, s: State): State
    requires s.returning != []
  {
    var r := s.returning[0];
    var t := s.(returning := s.returning[1..]);
    if r.lost then DeclareLost(t, r) else Deliver(env, cfg, t, r)
  }

  function AckLoop(env: Env, cfg: TickConfig, s: State): State
    decreases |s.returning|
  {
    if AckDue(s, cfg.now) then AckLoop(env, cfg, AckOne(env, cfg, s)) else s
  }

  // ----- Demand -----

  function Offer(cfg: TickConfig, s: State): State {
    match cfg.phase.demand
    case Bulk => s.(owed := Max(s.owed, SEGMENT * 64))
    case RequestResponse(bytes, every) =>
      if cfg.into >= s.nextRequest then
        s.(owed := if s.owed + bytes > U64_MAX then U64_MAX else s.owed + bytes,
           nextRequest := s.nextRequest + every)
      else s
  }

  // ----- Sender -----

  /** Does the pacer bind this tick? Once the estimator has measured a bandwidth. */
  predicate Paced(env: Env, s: State) {
    env.estimator(s.calls).bandwidth > 0
  }

  function EarnPace(env: Env, s: State): State {
    if Paced(env, s) then
      s.(paceCredit := MinReal(s.paceCredit + PerTick(env.estimator(s.calls).pacingRate as real),
                               4.0 * SEGMENT as real))
    else s.(paceCredit := 0.0)
  }

  predicate WindowRoom(env: Env, s: State) {
    var e := env.estimator(s.calls);
    e.cwnd >= e.inflight + SEGMENT
  }

  /** The send loop's guard: window or repair, pacer, something to send. */
  predicate MaySend(env: Env, paced: bool, s: State) {
    && (s.awaiting != [] || WindowRoom(env, s))
    && (!paced || s.paceCredit >= SEGMENT as real)
    && (s.awaiting != [] || s.owed >= SEGMENT)
  }

  /** The loop stopped for want of data, with window and pacer to spare. */
  predicate RanDry(env: Env, paced: bool, s: State) {
    && s.awaiting == []
    && WindowRoom(env, s)
    && (!paced || s.paceCredit >= SEGMENT as real)
    && s.owed < SEGMENT
  }

  function DrainNs(queued: nat, bps: real): nat {
    if bps <= 0.0 then 0
    else
      var secs := MinReal(queued as real / bps, 60.0);
      Max0((secs * 1_000_000_000.0 + 0.5).Floor)
  }

  function Max0(x: int): nat {
    if x < 0 then 0 else x
  }

  /**
   Where `partition_point` lands. On a sorted deque there is one answer; on an unsorted one a
   binary search stops at some index whose left neighbour is not later than `t` and whose own
   entry is later, and which such index depends on how the ring buffer happens to be laid
   out. `hint` ranges over every such index; a hint that is none falls back to a scan.
   */
  function Place(r: seq<Returning>, t: nat, hint: nat): (at: nat)
    ensures IsBoundary(r, t, at)
  {
    if IsBoundary(r, t, hint) then hint else Scan(r, t)
  }

  predicate IsBoundary(r: seq<Returning>, t: nat, at: nat) {
    && at <= |r|
    && (at > 0 ==> r[at - 1].ackAt <= t)
    && (at < |r| ==> r[at].ackAt > t)
  }

  function Scan(r: seq<Returning>, t: nat): (at: nat)
    ensures IsBoundary(r, t, at)
  {
    if r == [] || r[|r| - 1].ackAt <= t then |r| else
      var at := Scan(r[..|r| - 1], t);
      assert at < |r| - 1 ==> r[..|r| - 1][at] == r[at];
      at
  }

  /** Take the next transmission: a repair before new data. */
  function Launch(env: Env, paced: bool, now: nat, s: State): (State, InFlight)
    requires MaySend(env, paced, s)
  {
    var repairing := s.awaiting != [];
    var calls := s.calls + [OnSend(SEGMENT)] + (if repairing then [OnRetransmit(SEGMENT)] else []);
    var e := env.estimator(calls);
    var seg := InFlight(if repairing then s.awaiting[0] else s.log.taken,
                        SEGMENT, now, repairing, e.deliveredBytes, e.deliveredTime, e.appLimited);
    (s.(awaiting := if repairing then s.awaiting[1..] else s.awaiting,
        owed := if repairing then s.owed else s.owed - SEGMENT,
        paceCredit := if paced then s.paceCredit - SEGMENT as real else s.paceCredit,
        calls := calls,
        rec := s.rec.(segmentsSent := s.rec.segmentsSent + 1),
        log := s.log.(taken := if repairing then s.log.taken else s.log.taken + 1)),
     seg)
  }

  predicate QueueFull(phase: Phase, s: State) {
    phase.queueLimit.Some? && s.queuedBytes + SEGMENT > phase.queueLimit.value
  }

  function Enqueue(s: State, seg: InFlight): State {
    s.(queue := s.queue + [seg], queuedBytes := s.queuedBytes + SEGMENT)
  }

  /** A refused segment is learned about one queueing delay and a round trip later. */
  function TailDrop(env: Env, cfg: TickConfig, s: State, seg: InFlight): State {
    var ackAt := cfg.now + DrainNs(s.queuedBytes, LinkRate(cfg.phase, cfg.into)) + 2 * PROPAGATION;
    var at := Place(s.returning, ackAt, env.place(s.returning, ackAt));
    s.(returning := s.returning[..at] + [Returning(seg, ackAt, true)] + s.returning[at..],
       rec := s.rec.(segmentsDropped := s.rec.segmentsDropped + 1,
                     droppedByFullQueue := s.rec.droppedByFullQueue + 1))
  }

  function SendOne(env: Env, cfg: TickConfig, paced: bool, s: State): State
    requires MaySend(env, paced, s)
  {
    var (t, seg) := Launch(env, paced, cfg.now, s);
    if QueueFull(cfg.phase, t) then TailDrop(env, cfg, t, seg) else Enqueue(t, seg)
  }

  /**
   Terminates whatever the estimator answers: every iteration uses up a waiting repair or a
   whole segment of what is owed.
   */
  function SendLoop(env: Env, cfg: TickConfig, paced: bool, s: State): State
    decreases |s.awaiting| + s.owed
  {
    if MaySend(env, paced, s) then SendLoop(env, cfg, paced, SendOne(env, cfg, paced, s)) else s
  }

  function NoteDry(env: Env, paced: bool, s: State): State {
    if RanDry(env, paced, s) then s.(calls := s.calls + [NoteAppLimitedDrain]) else s
  }

  function Send(env: Env, cfg: TickConfig, s: State): State {
    var paced := Paced(env, s);
    NoteDry(env, paced, SendLoop(env, cfg, paced, EarnPace(env, s)))
  }

  // ----- Link -----

  /** The noise process: does it drop this segment, and the process's next state. */
  function Noise(phase: Phase, noise: nat, rng: SplitMix.U64): (bool, nat, SplitMix.U64) {
    match phase.lossModel
    case Even =>
      var acc := noise + phase.lossPermille;
      if acc >= 1000 then (true, acc - 1000, rng) else (false, acc, rng)
    case Independent(seed) =>
      var state := if rng == 0 then SplitMix.EffectiveSeed(seed) else rng;
      if phase.lossPermille == 0 then (false, noise, state)
      else (SplitMix.Draw(state, 0) % 1000 < phase.lossPermille, noise, SplitMix.StateAfter(state, 1))
  }

  predicate LinkReady(s: State) {
    s.queue != [] && s.linkCredit >= s.queue[0].bytes as real
  }

  function LinkOne(cfg: TickConfig, s: State): State
    requires s.queue != []
  {
    var seg := s.queue[0];
    var (hit, noise, rng) := Noise(cfg.phase, s.noise, s.rng);
    s.(queue := s.queue[1..],
       linkCredit := s.linkCredit - seg.bytes as real,
       queuedBytes := if s.queuedBytes >= seg.bytes then s.queuedBytes - seg.bytes else 0,
       noise := noise,
       rng := rng,
       returning := s.returning + [Returning(seg, cfg.now + 2 * PROPAGATION, hit)],
       rec := s.rec.(segmentsDropped := s.rec.segmentsDropped + if hit then 1 else 0),
       log := s.log.(served := s.log.served + 1, noiseDue := s.log.noiseDue + cfg.phase.lossPermille))
  }

  function LinkLoop(cfg: TickConfig, s: State): State
    decreases |s.queue|
  {
    if LinkReady(s) then LinkLoop(cfg, LinkOne(cfg, s)) else s
  }

  function EarnLink(cfg: TickConfig, s: State): State {
    s.(linkCredit := s.linkCredit + PerTick(LinkRate(cfg.phase, cfg.into)))
  }

  /** An idle link keeps at most one segment of credit. */
  function CapIdle(s: State): State {
    if s.queue == [] then s.(linkCredit := MinReal(s.linkCredit, SEGMENT as real)) else s
  }

  function Serve(cfg: TickConfig, s: State): State {
    CapIdle(LinkLoop(cfg, EarnLink(cfg, s)))
  }

  // ----- Readings -----

  function TrimRecent(recent: seq<Sample>, now: nat): seq<Sample> {
    if recent != [] && Stale(SECOND, now, recent[0]) then TrimRecent(recent[1..], now) else recent
  }

  /** Bytes delivered in the trailing second. */
  function Trailing(recent: seq<Sample>): nat {
    if recent == [] then 0 else Trailing(recent[..|recent| - 1]) + recent[|recent| - 1].value
  }

  /** What a phase can deliver: its link scaled by what the noise lets through. */
  function Deliverable(cfg: TickConfig): real {
    var passed := if cfg.phase.lossPermille <= 1000 then 1000 - cfg.phase.lossPermille else 0;
    LinkRate(cfg.phase, cfg.into) * passed as real / 1000.0
  }

  /** Has a second of the phase passed, and its trailing second reached nine tenths of that? */
  predicate NinetyReached(cfg: TickConfig, recent: seq<Sample>) {
    cfg.into >= SECOND && Trailing(recent) as real >= 0.9 * Deliverable(cfg)
  }

  function IntoMs(cfg: TickConfig): nat {
    cfg.into / 1_000_000
  }

  function ReadFinal(cfg: TickConfig, recent: seq<Sample>, queued: nat, rec: Recorded): Recorded {
    var f := rec.final;
    rec.(finalQueueMax := Max(rec.finalQueueMax, queued),
         final := FinalFigures(
           f.queueSum + queued,
           f.queueTicks + 1,
           if IntoMs(cfg) == 1000 then rec.phaseDelivered else f.firstSecond,
           if IntoMs(cfg) == 2000 then rec.phaseDelivered else f.secondSecond,
           if f.msToNinety.None? && NinetyReached(cfg, recent) then Some(IntoMs(cfg)) else f.msToNinety))
  }

  function ReadFidelity(bandwidth: nat, head: nat, f: Fidelity): Fidelity {
    if head == 0 then f
    else
      var ratio := bandwidth as real / head as real;
      Fidelity(Some(if f.worst.Some? && f.worst.value <= ratio then f.worst.value else ratio), f.sum + ratio, f.n + 1)
  }

  function Read(env: Env, cfg: TickConfig, s: State): State {
    var recent := TrimRecent(s.recent, cfg.now);
    var rec := if cfg.final then ReadFinal(cfg, recent, s.queuedBytes, s.rec) else s.rec;
    s.(recent := recent,
       rec := rec.(fidelity := ReadFidelity(env.estimator(s.calls).bandwidth, Head(s.reference), rec.fidelity)))
  }

  // ----- The tick and the run -----

  function Open(cfg: TickConfig, s: State): State {
    if cfg.opens then s.(nextRequest := 0, rec := s.rec.(phaseDelivered := 0)) else s
  }

  /** The state the sender sees: acknowledgements taken, demand offered. */
  function BeforeSend(env: Env, cfg: TickConfig, s: State): State {
    Offer(cfg, AckLoop(env, cfg, Open(cfg, s)))
  }

  function BeforeServe(env: Env, cfg: TickConfig, s: State): State {
    Send(env, cfg, BeforeSend(env, cfg, s))
  }

  function Tick(env: Env, cfg: TickConfig, s: State): State {
    Read(env, cfg, Serve(cfg, BeforeServe(env, cfg, s)))
  }

  /** The ticks of one phase from `into` on, the phase having opened at `start`. */
  function PhaseTicks(phase: Phase, final: bool, start: nat, into: nat): seq<TickConfig>
    decreases phase.duration - into
  {
    if into < phase.duration then
      [TickConfig(phase, into, start + into, into == 0, final)]
      + PhaseTicks(phase, final, start, into + TICK)
    else []
  }

  /** The clock reading at which a phase that opened at `start` closes. */
  function PhaseEnd(phase: Phase, start: nat, into: nat): nat
    decreases phase.duration - into
  {
    if into < phase.duration then PhaseEnd(phase, start, into + TICK) else start + into
  }

  /** Every tick of a run, in order. */
  function Schedule(phases: seq<Phase>, start: nat): seq<TickConfig> {
    if phases == [] then []
    else
      PhaseTicks(phases[0], |phases| == 1, start, 0)
      + Schedule(phases[1..], PhaseEnd(phases[0], start, 0))
  }

  /** The state after the first `k` ticks of a schedule. */
  function After(env: Env, sched: seq<TickConfig>, k: nat): State
    requires k <= |sched|
  {
    if k == 0 then INITIAL else Tick(env, sched[k - 1], After(env, sched, k - 1))
  }

  lemma AfterNext(env: Env, sched: seq<TickConfig>, k: nat)
    requires k < |sched|
    ensures After(env, sched, k + 1) == Tick(env, sched[k], After(env, sched, k))
  {
    hide Tick;
  }

  // ----- Lifting a loop-body fact to the loop -----

  /** What every acknowledgement keeps, the acknowledgement loop keeps. */
  lemma {:induction false} AckLoopKeeps(env: Env, cfg: TickConfig, s: State, keeps: State -> bool)
    requires keeps(s)
    requires forall x :: keeps(x) && AckDue(x, cfg.now) ==> keeps(AckOne(env, cfg, x))
    ensures keeps(AckLoop(env, cfg, s)) && !AckDue(AckLoop(env, cfg, s), cfg.now)
    decreases |s.returning|
  {
    if !AckDue(s, cfg.now) {
    } else {
      AckLoopKeeps(env, cfg, AckOne(env, cfg, s), keeps);
    }
  }

  lemma {:induction false} SendLoopKeeps(env: Env, cfg: TickConfig, paced: bool, s: State, keeps: State -> bool)
    requires keeps(s)
    requires forall x :: keeps(x) && MaySend(env, paced, x) ==> keeps(SendOne(env, cfg, paced, x))
    ensures keeps(SendLoop(env, cfg, paced, s)) && !MaySend(env, paced, SendLoop(env, cfg, paced, s))
    decreases |s.awaiting| + s.owed
  {
    if !MaySend(env, paced, s) {
    } else {
      SendLoopKeeps(env, cfg, paced, SendOne(env, cfg, paced, s), keeps);
    }
  }

  lemma {:induction false} LinkLoopKeeps(cfg: TickConfig, s: State, keeps: State -> bool)
    requires keeps(s)
    requires forall x :: keeps(x) && LinkReady(x) ==> keeps(LinkOne(cfg, x))
    ensures keeps(LinkLoop(cfg, s)) && !LinkReady(LinkLoop(cfg, s))
    decreases |s.queue|
  {
    if !LinkReady(s) {
    } else {
      LinkLoopKeeps(cfg, LinkOne(cfg, s), keeps);
    }
  }

  // ----- The clock -----

  lemma {:induction false} PhaseTicksClock(phase: Phase, final: bool, start: nat, into: nat)
    ensures var t := PhaseTicks(phase, final, start, into);
      && (forall k :: 0 <= k < |t| ==>
            t[k].now == start + into + k * TICK && t[k].phase == phase && t[k].final == final)
      && (forall k :: 0 <= k < |t| ==> t[k].into == into + k * TICK && t[k].into < phase.duration)
      && PhaseEnd(phase, start, into) == start + into + |t| * TICK
    decreases phase.duration - into
  {
    if into >= phase.duration {
    } else {
      PhaseTicksClock(phase, final, start, into + TICK);
    }
  }

  /** Tick `k` of a run happens `k` milliseconds in, whatever the phases are. */
  lemma {:induction false} ScheduleClock(phases: seq<Phase>, start: nat)
    ensures forall k :: 0 <= k < |Schedule(phases, start)| ==>
      && Schedule(phases, start)[k].now == start + k * TICK
      && Schedule(phases, start)[k].phase in phases
      && Schedule(phases, start)[k].into < Schedule(phases, start)[k].phase.duration
  {
    if phases == [] {
    } else {
      var first := PhaseTicks(phases[0], |phases| == 1, start, 0);
      var end := PhaseEnd(phases[0], start, 0);
      PhaseTicksClock(phases[0], |phases| == 1, start, 0);
      ScheduleClock(phases[1..], end);
      var all, rest := Schedule(phases, start), Schedule(phases[1..], end);
      forall k | 0 <= k < |all|
        ensures all[k].now == start + k * TICK && all[k].phase in phases && all[k].into < all[k].phase.duration
      {
        if k >= |first| {
          assert all[k] == rest[k - |first|];
          assert end + (k - |first|) * TICK == start + k * TICK;
        }
      }
    }
  }
}
