/**
 The simulator as it runs: one object whose fields the tick loop updates in place. Every method
 is proved to leave the object in the state `BottleneckModel` computes, so what the other
 Bottleneck modules prove of every run holds of this one.
 */
module BottleneckSim {
  import opened WindowedMaximum
  import opened BottleneckModel
  import opened BottleneckReport
  import SplitMix
  import opened Wrappers

  /** Every pass through the send loop uses up a waiting repair or a segment of what is owed. */
  lemma SendOneShrinks(env: Env, cfg: TickConfig, paced: bool, s: State)
    requires MaySend(env, paced, s)
    ensures var t := SendOne(env, cfg, paced, s); |t.awaiting| + t.owed < |s.awaiting| + s.owed
  {}

  /** Inside a phase the next tick on the schedule is the phase's next tick. */
  lemma PhaseNext(phase: Phase, final: bool, start: nat, into: nat, sched: seq<TickConfig>, k: nat,
                  rest: seq<TickConfig>)
    requires k <= |sched| && sched[k..] == PhaseTicks(phase, final, start, into) + rest && into < phase.duration
    ensures k < |sched| && sched[k] == TickConfig(phase, into, start + into, into == 0, final)
    ensures PhaseLength(phase, into) == 1 + PhaseLength(phase, into + TICK)
    ensures sched[k + 1..] == PhaseTicks(phase, final, start, into + TICK) + rest
    ensures PhaseEnd(phase, start, into) == PhaseEnd(phase, start, into + TICK)
  {
    var ticks := PhaseTicks(phase, final, start, into);
    assert ticks[1..] == PhaseTicks(phase, final, start, into + TICK);
    hide PhaseTicks;
    assert sched[k..][0] == sched[k];
    assert sched[k + 1..] == sched[k..][1..] == ticks[1..] + rest;
  }

  /** Past the phase's duration there is no tick left of it. */
  lemma PhaseOver(phase: Phase, final: bool, start: nat, into: nat, sched: seq<TickConfig>, k: nat,
                  rest: seq<TickConfig>)
    requires k <= |sched| && sched[k..] == PhaseTicks(phase, final, start, into) + rest && into >= phase.duration
    ensures sched[k..] == rest && PhaseEnd(phase, start, into) == start + into && PhaseLength(phase, into) == 0
  {}

  class Simulator {
    const env: Env
    const reference: WindowedMax
    var queue: seq<InFlight>
    var queuedBytes: nat
    var returning: seq<Returning>
    var awaiting: seq<nat>
    var owed: nat
    var nextRequest: nat
    var linkCredit: real
    var paceCredit: real
    var noise: nat
    var rng: SplitMix.U64
    var calls: seq<Call>
    var recent: seq<Sample>
    var rec: Recorded
    var log: Log

    function Current(): State
      reads this, reference
    {
      State(queue, queuedBytes, returning, awaiting, owed, nextRequest, linkCredit, paceCredit,
            noise, rng, calls, reference.window, recent, rec, log)
    }

    ghost predicate Valid() {
      reference.horizon == HORIZON
    }

    constructor (env: Env)
      ensures Valid() && fresh(reference) && this.env == env
      ensures Current() == INITIAL
    {
      this.env := env;
      reference := new WindowedMax(HORIZON);
      queue, queuedBytes, returning, awaiting := [], 0, [], [];
      owed, nextRequest, linkCredit, paceCredit := 0, 0, 0.0, 0.0;
      noise, rng, calls, recent := 0, 0, [], [];
      rec := NOTHING_RECORDED;
      log := Log(0, 0, 0, [], [], []);
    }

    // ----- Acknowledgements -----

    method DeclareHole(r: Returning)
      modifies this
      ensures Current() == DeclareLost(old(Current()), r)
    {
      if !r.seg.isRepair {
        calls := calls + [OnLoss(r.seg.bytes)];
        log := log.(signalled := log.signalled + [r.seg.id]);
      }
      awaiting := awaiting + [r.seg.id];
    }

    method BookDelivery(r: Returning)
      modifies this
      ensures var s := old(Current());
        Current() == s.(
          calls := s.calls + [OnAck(r.seg, r.ackAt)],
          recent := s.recent + [Sample(r.ackAt, r.seg.bytes)],
          rec := s.rec.(phaseDelivered := s.rec.phaseDelivered + r.seg.bytes),
          log := s.log.(delivered := s.log.delivered + [r]))
    {
      calls := calls + [OnAck(r.seg, r.ackAt)];
      rec := rec.(phaseDelivered := rec.phaseDelivered + r.seg.bytes);
      log := log.(delivered := log.delivered + [r]);
      recent := recent + [Sample(r.ackAt, r.seg.bytes)];
    }

    method OfferReference(at: nat, raw: nat)
      requires Valid()
      modifies this, reference
      ensures Current() == OfferSample(old(Current()), at, raw)
    {
      hide Pushed;
      reference.Push(at, raw);
      rec := rec.(maxReferenceEntries := Max(rec.maxReferenceEntries, |reference.window|));
      log := log.(pushes := log.pushes + [Sample(at, raw)]);
    }

    method CountDelivery(cfg: TickConfig, r: Returning)
      requires Valid()
      modifies this, reference
      ensures Current() == Deliver(env, cfg, old(Current()), r)
    {
      hide Pushed;
      var before := env.estimator(calls).bandwidth;
      BookDelivery(r);
      var raw := env.estimator(calls).lastRate;
      if raw > 0 && (!r.seg.appLimited || raw >= before) {
        OfferReference(r.ackAt, raw);
      }
      if cfg.final {
        var rtt := Since(r.ackAt, r.seg.sentAt) / 1_000_000;
        rec := rec.(maxRttInFinalMs := Max(rec.maxRttInFinalMs, rtt));
      }
    }

    method TakeAcknowledgements(cfg: TickConfig)
      requires Valid()
      modifies this, reference
      ensures Current() == AckLoop(env, cfg, old(Current()))
    {
      while returning != [] && returning[0].ackAt <= cfg.now
        invariant AckLoop(env, cfg, Current()) == AckLoop(env, cfg, old(Current()))
        decreases |returning|
      {
        ghost var s := Current();
        var r := returning[0];
        returning := returning[1..];
        if r.lost {
          DeclareHole(r);
        } else {
          CountDelivery(cfg, r);
        }
        assert Current() == AckOne(env, cfg, s);
      }
    }

    // ----- Demand -----

    method OfferDemand(cfg: TickConfig)
      modifies this
      ensures Current() == Offer(cfg, old(Current()))
    {
      match cfg.phase.demand {
        case Bulk =>
          owed := Max(owed, SEGMENT * 64);
        case RequestResponse(bytes, every) =>
          if cfg.into >= nextRequest {
            owed := if owed + bytes > U64_MAX then U64_MAX else owed + bytes;
            nextRequest := nextRequest + every;
          }
      }
    }

    // ----- Sender -----

    method LaunchNext(cfg: TickConfig, paced: bool) returns (seg: InFlight)
      requires MaySend(env, paced, Current())
      modifies this
      ensures (Current(), seg) == Launch(env, paced, cfg.now, old(Current()))
    {
      var repairing := awaiting != [];
      var id := if repairing then awaiting[0] else log.taken;
      if repairing {
        awaiting := awaiting[1..];
      } else {
        owed := owed - SEGMENT;
        log := log.(taken := log.taken + 1);
      }
      if paced {
        paceCredit := paceCredit - SEGMENT as real;
      }
      calls := calls + [OnSend(SEGMENT)];
      assert calls == old(calls) + [OnSend(SEGMENT)] + [];
      if repairing {
        calls := calls + [OnRetransmit(SEGMENT)];
      }
      rec := rec.(segmentsSent := rec.segmentsSent + 1);
      var e := env.estimator(calls);
      seg := InFlight(id, SEGMENT, cfg.now, repairing, e.deliveredBytes, e.deliveredTime, e.appLimited);
    }

    method Admit(cfg: TickConfig, seg: InFlight)
      modifies this
      ensures var s := old(Current());
        Current() == if QueueFull(cfg.phase, s) then TailDrop(env, cfg, s, seg) else Enqueue(s, seg)
    {
      hide LinkRate, DrainNs, Place;
      if cfg.phase.queueLimit.Some? && queuedBytes + SEGMENT > cfg.phase.queueLimit.value {
        rec := rec.(segmentsDropped := rec.segmentsDropped + 1,
                    droppedByFullQueue := rec.droppedByFullQueue + 1);
        var ackAt := cfg.now + DrainNs(queuedBytes, LinkRate(cfg.phase, cfg.into)) + 2 * PROPAGATION;
        var at := Place(returning, ackAt, env.place(returning, ackAt));
        returning := returning[..at] + [Returning(seg, ackAt, true)] + returning[at..];
      } else {
        queue := queue + [seg];
        queuedBytes := queuedBytes + SEGMENT;
      }
    }

    method EarnPaceCredit() returns (paced: bool)
      modifies this
      ensures paced == Paced(env, old(Current())) && Current() == EarnPace(env, old(Current()))
    {
      paced := env.estimator(calls).bandwidth > 0;
      if paced {
        paceCredit := paceCredit + PerTick(env.estimator(calls).pacingRate as real);
        paceCredit := MinReal(paceCredit, 4.0 * SEGMENT as real);
      } else {
        paceCredit := 0.0;
      }
    }

    method SendBurst(cfg: TickConfig)
      modifies this
      ensures Current() == Send(env, cfg, old(Current()))
    {
      hide Launch, TailDrop, EarnPace;
      var paced := EarnPaceCredit();
      ghost var earned := Current();
      var ranDry := false;
      while true
        invariant SendLoop(env, cfg, paced, Current()) == SendLoop(env, cfg, paced, earned)
        invariant !ranDry
        decreases |awaiting| + owed
      {
        var repairing := awaiting != [];
        var e := env.estimator(calls);
        var windowRoom := (if e.cwnd >= e.inflight then e.cwnd - e.inflight else 0) >= SEGMENT;
        if !windowRoom && !repairing {
          break;
        }
        if paced && paceCredit < SEGMENT as real {
          break;
        }
        if !repairing && owed < SEGMENT {
          ranDry := true;
          break;
        }
        ghost var s := Current();
        SendOneShrinks(env, cfg, paced, s);
        var seg := LaunchNext(cfg, paced);
        Admit(cfg, seg);
        assert Current() == SendOne(env, cfg, paced, s);
      }
      assert Current() == SendLoop(env, cfg, paced, earned) && ranDry == RanDry(env, paced, Current());
      if ranDry {
        calls := calls + [NoteAppLimitedDrain];
      }
    }

    // ----- Link -----

    method DrawNoise(phase: Phase) returns (hit: bool)
      modifies this
      ensures (hit, noise, rng) == Noise(phase, old(noise), old(rng))
      ensures Current() == old(Current()).(noise := noise, rng := rng)
    {
      match phase.lossModel {
        case Even =>
          noise := noise + phase.lossPermille;
          hit := noise >= 1000;
          if hit {
            noise := noise - 1000;
          }
        case Independent(seed) =>
          if rng == 0 {
            rng := SplitMix.EffectiveSeed(seed);
          }
          if phase.lossPermille > 0 {
            var next, draw := SplitMix.SplitMix64(rng);
            rng := next;
            hit := draw % 1000 < phase.lossPermille;
          } else {
            hit := false;
          }
      }
    }

    method PopFront() returns (seg: InFlight)
      requires queue != []
      modifies this
      ensures seg == old(queue)[0]
      ensures var s := old(Current());
        Current() == s.(
          queue := s.queue[1..],
          linkCredit := s.linkCredit - seg.bytes as real,
          queuedBytes := if s.queuedBytes >= seg.bytes then s.queuedBytes - seg.bytes else 0)
    {
      seg := queue[0];
      queue := queue[1..];
      linkCredit := linkCredit - seg.bytes as real;
      queuedBytes := if queuedBytes >= seg.bytes then queuedBytes - seg.bytes else 0;
    }

    method DepartFront(cfg: TickConfig)
      requires queue != []
      modifies this
      ensures Current() == LinkOne(cfg, old(Current()))
    {
      hide Noise;
      var seg := PopFront();
      var hit := DrawNoise(cfg.phase);
      if hit {
        rec := rec.(segmentsDropped := rec.segmentsDropped + 1);
      }
      log := log.(served := log.served + 1, noiseDue := log.noiseDue + cfg.phase.lossPermille);
      returning := returning + [Returning(seg, cfg.now + 2 * PROPAGATION, hit)];
    }

    method ServeLink(cfg: TickConfig)
      modifies this
      ensures Current() == Serve(cfg, old(Current()))
    {
      linkCredit := linkCredit + PerTick(LinkRate(cfg.phase, cfg.into));
      ghost var earned := Current();
      while queue != [] && linkCredit >= queue[0].bytes as real
        invariant LinkLoop(cfg, Current()) == LinkLoop(cfg, earned)
        decreases |queue|
      {
        DepartFront(cfg);
      }
      if queue == [] {
        linkCredit := MinReal(linkCredit, SEGMENT as real);
      }
    }

    // ----- The tick and the run -----

    /** Bytes delivered in the trailing second. */
    method SumTrailing() returns (bytes: nat)
      ensures bytes == Trailing(recent)
    {
      bytes := 0;
      var i := 0;
      while i < |recent|
        invariant 0 <= i <= |recent| && bytes == Trailing(recent[..i])
      {
        bytes := bytes + recent[i].value;
        assert recent[..i + 1][..i] == recent[..i];
        i := i + 1;
      }
      assert recent[..i] == recent;
    }

    method TakeFinalReadings(cfg: TickConfig)
      modifies this
      ensures var s := old(Current()); Current() == s.(rec := ReadFinal(cfg, s.recent, s.queuedBytes, s.rec))
    {
      var f := rec.final.(queueSum := rec.final.queueSum + queuedBytes, queueTicks := rec.final.queueTicks + 1);
      var intoMs := IntoMs(cfg);
      if intoMs == 1000 {
        f := f.(firstSecond := rec.phaseDelivered);
      }
      if intoMs == 2000 {
        f := f.(secondSecond := rec.phaseDelivered);
      }
      if f.msToNinety.None? && cfg.into >= SECOND {
        var trailing := SumTrailing();
        if trailing as real >= 0.9 * Deliverable(cfg) {
          f := f.(msToNinety := Some(intoMs));
        }
      }
      rec := rec.(finalQueueMax := Max(rec.finalQueueMax, queuedBytes), final := f);
    }

    method TakeFidelity()
      modifies this
      ensures var s := old(Current());
        Current() == s.(rec := s.rec.(
          fidelity := ReadFidelity(env.estimator(s.calls).bandwidth, Head(s.reference), s.rec.fidelity)))
    {
      var head := reference.GetHead();
      if head > 0 {
        var f := rec.fidelity;
        var ratio := env.estimator(calls).bandwidth as real / head as real;
        var worst := if f.worst.Some? && f.worst.value <= ratio then f.worst.value else ratio;
        rec := rec.(fidelity := Fidelity(Some(worst), f.sum + ratio, f.n + 1));
      }
    }

    method TakeReadings(cfg: TickConfig)
      modifies this
      ensures Current() == Read(env, cfg, old(Current()))
    {
      hide ReadFinal, ReadFidelity;
      while recent != [] && Stale(SECOND, cfg.now, recent[0])
        invariant TrimRecent(recent, cfg.now) == TrimRecent(old(recent), cfg.now)
        invariant Current() == old(Current()).(recent := recent)
        decreases |recent|
      {
        recent := recent[1..];
      }
      if cfg.final {
        TakeFinalReadings(cfg);
      }
      TakeFidelity();
    }

    method RunTick(cfg: TickConfig)
      requires Valid()
      modifies this, reference
      ensures Current() == Tick(env, cfg, old(Current()))
    {
      if cfg.opens {
        nextRequest := 0;
        rec := rec.(phaseDelivered := 0);
      }
      TakeAcknowledgements(cfg);
      OfferDemand(cfg);
      SendBurst(cfg);
      ServeLink(cfg);
      TakeReadings(cfg);
    }

    /** The ticks of one phase: they are next on the schedule, and `rest` follows them. */
    method RunPhase(phase: Phase, final: bool, start: nat,
          ghost sched: seq<TickConfig>, ghost k: nat, ghost rest: seq<TickConfig>)
        returns (elapsed: nat, ghost k': nat)
      requires Valid() && k <= |sched| && Current() == After(env, sched, k)
      requires sched[k..] == PhaseTicks(phase, final, start, 0) + rest
      modifies this, reference
      ensures elapsed == PhaseEnd(phase, start, 0)
      ensures k' == k + PhaseLength(phase, 0) && k' <= |sched|
      ensures Current() == After(env, sched, k') && sched[k'..] == rest
    {
      hide Tick, PhaseTicks, PhaseEnd, PhaseLength;
      var into: nat := 0;
      elapsed, k' := start, k;
      while into < phase.duration
        invariant k <= k' <= |sched| && k' + PhaseLength(phase, into) == k + PhaseLength(phase, 0)
        invariant Current() == After(env, sched, k')
        invariant elapsed == start + into
        invariant PhaseEnd(phase, start, into) == PhaseEnd(phase, start, 0)
        invariant sched[k'..] == PhaseTicks(phase, final, start, into) + rest
      {
        PhaseNext(phase, final, start, into, sched, k', rest);
        RunTick(TickConfig(phase, into, elapsed, into == 0, final));
        k' := k' + 1;
        into := into + TICK;
        elapsed := start + into;
      }
      PhaseOver(phase, final, start, into, sched, k', rest);
    }

    method Run(phases: seq<Phase>) returns (report: Report)
      requires Valid() && Current() == INITIAL
      modifies this, reference
      ensures var sched := Schedule(phases, 0); Current() == After(env, sched, |sched|)
      ensures report == Summary(env, phases)
    {
      hide Tick, After, Schedule, DeliveredIn, PhaseLength;
      ghost var sched := Schedule(phases, 0);
      ghost var k := 0;
      var delivered: seq<nat> := [];
      var bandwidthAtResume, cwndAtResume := 0, 0;
      var elapsed: nat := 0;
      var index := 0;
      RunStarts(env, phases);
      while index < |phases|
        invariant 0 <= index <= |phases| && k == OpensAt(phases, index) && k <= |sched|
        invariant Current() == After(env, sched, k)
        invariant sched[k..] == Schedule(phases[index..], elapsed)
        invariant delivered == PerPhase(env, phases, index)
        invariant index < |phases| || phases == [] ==> bandwidthAtResume == 0 && cwndAtResume == 0
        invariant index == |phases| > 0 ==>
          bandwidthAtResume == AtResume(env, phases).bandwidth && cwndAtResume == AtResume(env, phases).cwnd
      {
        var phase := phases[index];
        if index == |phases| - 1 {
          SchedulePhases(phases, 0, index);
          bandwidthAtResume, cwndAtResume := env.estimator(calls).bandwidth, env.estimator(calls).cwnd;
        }
        ghost var rest := Schedule(phases[index + 1..], PhaseEnd(phase, elapsed, 0));
        ScheduleFirst(phases[index..], elapsed);
        assert phases[index..][0] == phase && phases[index..][1..] == phases[index + 1..];
        elapsed, k := RunPhase(phase, index == |phases| - 1, elapsed, sched, k, rest);
        PhaseFigure(env, phases, index);
        delivered := delivered + [if phase.duration == 0 then 0 else rec.phaseDelivered];
        index := index + 1;
      }
      ScheduleLength(phases, 0);
      report := Conclude(env, delivered, bandwidthAtResume, cwndAtResume, Current());
    }
  }

  lemma RunStarts(env: Env, phases: seq<Phase>)
    ensures var sched := Schedule(phases, 0); After(env, sched, 0) == INITIAL && sched[0..] == Schedule(phases[0..], 0)
  {
    assert phases[0..] == phases;
  }

  lemma PhaseFigure(env: Env, phases: seq<Phase>, j: nat)
    requires j < |phases|
    ensures OpensAt(phases, j + 1) <= |Schedule(phases, 0)|
    ensures DeliveredIn(env, phases, j)
         == if phases[j].duration == 0 then 0
            else After(env, Schedule(phases, 0), OpensAt(phases, j + 1)).rec.phaseDelivered
  {
    SchedulePhases(phases, 0, j);
  }
}
