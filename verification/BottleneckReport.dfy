/**
 What the simulator's report says: that the per-phase totals add up, that the ninety-per-cent
 figure is the first tick of the final phase at which the last second of the whole delivery
 history reached the bar, and what every other figure of it is over the run.
 */
module BottleneckReport {
  import opened Wrappers
  import opened Arithmetic
  import opened WindowedMaximum
  import opened BottleneckModel
  import opened BottleneckConservation
  import opened BottleneckFigures
  import opened BottleneckOrder

  // ----- Ninety per cent -----

  /** At tick `j` of the final phase the last second of all deliveries so far meets the bar. */
  ghost predicate Reaches(env: Env, sched: seq<TickConfig>, j: nat) {
    && j < |sched| && sched[j].final
    && NinetyReached(sched[j], LastSecond(Arrivals(After(env, sched, j + 1).log.delivered), sched[j].now))
  }

  ghost predicate NoneReaches(env: Env, sched: seq<TickConfig>, k: nat) {
    forall j :: 0 <= j < k ==> !Reaches(env, sched, j)
  }

  /** Tick `j` is the first that does. */
  ghost predicate FirstReaches(env: Env, sched: seq<TickConfig>, j: nat) {
    Reaches(env, sched, j) && NoneReaches(env, sched, j)
  }

  lemma NinetyTick(env: Env, sched: seq<TickConfig>, k: nat)
    requires k < |sched| && forall m :: 0 <= m < |sched| ==> sched[m].now == m * TICK
    ensures var was, now := After(env, sched, k).rec.final.msToNinety, After(env, sched, k + 1).rec.final.msToNinety;
      now == if was.None? && Reaches(env, sched, k) then Some(IntoMs(sched[k])) else was
  {
    hide Tick, LastSecond, Arrivals, InOrder, NinetyReached;
    AfterNext(env, sched, k);
    InOrderRun(env, sched, k + 1);
    FiguresBeforeRead(env, sched[k], After(env, sched, k));
    hide After, BeforeRead, ReadFidelity;
  }

  /**
   The figure is that of the first tick of the final phase, a second or more into it, at which the
   bytes delivered in the last second, over the whole history, reach nine tenths of what the phase
   can deliver; and there is none exactly when no tick does.
   */
  lemma {:induction false} NinetyIsFirst(env: Env, sched: seq<TickConfig>, k: nat)
    requires k <= |sched| && forall m :: 0 <= m < |sched| ==> sched[m].now == m * TICK
    ensures var ms := After(env, sched, k).rec.final.msToNinety;
      && (ms.None? <==> NoneReaches(env, sched, k))
      && (ms.Some? ==> exists j :: 0 <= j < k && FirstReaches(env, sched, j) && ms.value == IntoMs(sched[j]))
  {
    hide After, Reaches;
    if k == 0 {
      NinetyStart(env, sched);
    } else {
      NinetyIsFirst(env, sched, k - 1);
      NinetyTick(env, sched, k - 1);
      if After(env, sched, k - 1).rec.final.msToNinety.None? && Reaches(env, sched, k - 1) {
        assert FirstReaches(env, sched, k - 1);
      }
    }
  }

  lemma NinetyStart(env: Env, sched: seq<TickConfig>)
    ensures After(env, sched, 0).rec.final.msToNinety.None?
  {}

  // ----- Bytes per phase -----

  lemma {:induction false} AckBytes(env: Env, cfg: TickConfig, s: State)
    requires Booked(s)
    ensures var t := AckLoop(env, cfg, s);
      t.rec.phaseDelivered - s.rec.phaseDelivered == SEGMENT * (|t.log.delivered| - |s.log.delivered|)
  {
    forall x | Paid(s, x) && AckDue(x, cfg.now) ensures Paid(s, AckOne(env, cfg, x)) {
      BookedAck(env, cfg, x);
      AckMoves(env, cfg, x);
      AckPays(env, cfg, x);
      hide AckOne, Booked;
    }
    AckLoopKeeps(env, cfg, s, (x: State) => Paid(s, x));
  }

  /** From `s` to `x` the phase's bytes grew by a segment per delivery. */
  ghost predicate Paid(s: State, x: State) {
    && Booked(x) && |x.log.delivered| >= |s.log.delivered|
    && x.rec.phaseDelivered - s.rec.phaseDelivered == SEGMENT * (|x.log.delivered| - |s.log.delivered|)
  }

  lemma AckPays(env: Env, cfg: TickConfig, s: State)
    requires Booked(s) && s.returning != []
    ensures var r := s.returning[0];
      AckOne(env, cfg, s).rec.phaseDelivered == s.rec.phaseDelivered + if r.lost then 0 else SEGMENT
  {
    hide Pushed, Flight;
  }

  /** A tick adds to the phase's bytes a segment per delivery, from zero if it opens the phase. */
  lemma TickBytes(env: Env, cfg: TickConfig, s: State)
    requires Booked(s)
    ensures var t := Tick(env, cfg, s);
      t.rec.phaseDelivered
        == (if cfg.opens then 0 else s.rec.phaseDelivered) + SEGMENT * (|t.log.delivered| - |s.log.delivered|)
  {
    hide AckLoop, Send, Serve, Read, Flight;
    var open := Open(cfg, s);
    AckBytes(env, cfg, open);
    SendsDeliverNothing(env, cfg, BeforeSend(env, cfg, s));
    LinkDeliversNothing(env, cfg, BeforeServe(env, cfg, s));
  }

  /**
   The one- and two-second figures are both everything the phase delivered from its opening to that
   tick, the tick included: the second is a running total, not the second second alone.
   */
  lemma SecondsAreTotals(env: Env, sched: seq<TickConfig>, a: nat, k: nat)
    requires a <= k < |sched| && sched[k].final && forall m :: a <= m <= k ==> (sched[m].opens <==> m == a)
    ensures var total := SEGMENT * (|After(env, sched, k + 1).log.delivered| - |After(env, sched, a).log.delivered|);
      var f := After(env, sched, k + 1).rec.final;
      && (IntoMs(sched[k]) == 1000 ==> f.firstSecond == total)
      && (IntoMs(sched[k]) == 2000 ==> f.secondSecond == total)
  {
    hide Tick;
    PhaseBytes(env, sched, a, k + 1);
    FiguresBeforeRead(env, sched[k], After(env, sched, k));
    AfterNext(env, sched, k);
    hide After, BeforeRead, ReadFidelity, NinetyReached, TrimRecent;
  }

  /**
   So the figure read at two seconds is what the second second delivered exactly when the first
   delivered nothing.
   */
  lemma SecondSecondIff(env: Env, sched: seq<TickConfig>, a: nat, k: nat, m: nat)
    requires a <= k < m < |sched| && sched[m].final && forall j :: a <= j <= m ==> (sched[j].opens <==> j == a)
    requires IntoMs(sched[k]) == 1000 && IntoMs(sched[m]) == 2000
    ensures var open, one, two := After(env, sched, a).log.delivered, After(env, sched, k + 1).log.delivered,
                                  After(env, sched, m + 1).log.delivered;
      After(env, sched, m + 1).rec.final.secondSecond == SEGMENT * (|two| - |one|) <==> |one| == |open|
  {
    hide After;
    SecondsAreTotals(env, sched, a, m);
  }

  /** Ticks of a phase from `into` on. */
  function PhaseLength(phase: Phase, into: nat): nat
    decreases phase.duration - into
  {
    if into < phase.duration then 1 + PhaseLength(phase, into + TICK) else 0
  }

  lemma {:induction false} LengthIs(phase: Phase, final: bool, start: nat, into: nat)
    ensures |PhaseTicks(phase, final, start, into)| == PhaseLength(phase, into)
    decreases phase.duration - into
  {
    if into >= phase.duration {
    } else {
      LengthIs(phase, final, start, into + TICK);
    }
  }

  /** The tick at which phase `j` opens. */
  function OpensAt(phases: seq<Phase>, j: nat): nat
    requires j <= |phases|
  {
    if j == 0 then 0 else OpensAt(phases, j - 1) + PhaseLength(phases[j - 1], 0)
  }

  lemma {:induction false} OpensShift(phases: seq<Phase>, j: nat)
    requires 0 < j <= |phases|
    ensures OpensAt(phases, j) == PhaseLength(phases[0], 0) + OpensAt(phases[1..], j - 1)
  {
    if j == 1 {
      assert OpensAt(phases, 0) == 0 && OpensAt(phases[1..], 0) == 0;
    } else {
      OpensShift(phases, j - 1);
      assert phases[1..][j - 2] == phases[j - 1];
    }
  }

  /** Phase `j` has its stretch of the schedule, and opens at the first tick of it alone. */
  ghost predicate PhaseAt(phases: seq<Phase>, sched: seq<TickConfig>, j: nat)
    requires j < |phases|
  {
    && OpensAt(phases, j + 1) <= |sched|
    && forall m :: OpensAt(phases, j) <= m < OpensAt(phases, j + 1) ==> (sched[m].opens <==> m == OpensAt(phases, j))
  }

  lemma {:induction false} SchedulePhases(phases: seq<Phase>, start: nat, j: nat)
    requires j < |phases|
    ensures PhaseAt(phases, Schedule(phases, start), j)
  {
    var first := PhaseTicks(phases[0], |phases| == 1, start, 0);
    var rest := Schedule(phases[1..], PhaseEnd(phases[0], start, 0));
    LengthIs(phases[0], |phases| == 1, start, 0);
    PhaseOpens(phases[0], |phases| == 1, start, 0);
    if j == 0 {
      assert OpensAt(phases, 1) == OpensAt(phases, 0) + |first|;
    } else {
      SchedulePhases(phases[1..], PhaseEnd(phases[0], start, 0), j - 1);
      OpensShift(phases, j);
      OpensShift(phases, j + 1);
      var sched := Schedule(phases, start);
      hide Schedule, OpensAt, PhaseTicks;
      assert sched == first + rest;
      forall m | OpensAt(phases, j) <= m < OpensAt(phases, j + 1) ensures sched[m].opens <==> m == OpensAt(phases, j) {
        assert sched[m] == rest[m - |first|];
      }
    }
  }

  /** Only a tick no time into its phase opens it. */
  lemma {:induction false} PhaseOpens(phase: Phase, final: bool, start: nat, into: nat)
    ensures forall m :: 0 <= m < |PhaseTicks(phase, final, start, into)| ==>
      (PhaseTicks(phase, final, start, into)[m].opens <==> into + m == 0)
    decreases phase.duration - into
  {
    if into >= phase.duration {
    } else {
      PhaseOpens(phase, final, start, into + TICK);
      var rest := PhaseTicks(phase, final, start, into + TICK);
      assert forall m :: 0 <= m < |rest| ==> !rest[m].opens;
    }
  }

  lemma {:induction false} ScheduleLength(phases: seq<Phase>, start: nat)
    ensures |Schedule(phases, start)| == OpensAt(phases, |phases|)
  {
    if phases == [] {
    } else {
      ScheduleFirst(phases, start);
      hide Schedule, PhaseTicks, PhaseLength, OpensAt;
      LengthIs(phases[0], |phases| == 1, start, 0);
      ScheduleLength(phases[1..], PhaseEnd(phases[0], start, 0));
      OpensShift(phases, |phases|);
    }
  }

  lemma ScheduleFirst(phases: seq<Phase>, start: nat)
    requires phases != []
    ensures Schedule(phases, start)
         == PhaseTicks(phases[0], |phases| == 1, start, 0) + Schedule(phases[1..], PhaseEnd(phases[0], start, 0))
  {
    hide PhaseTicks;
  }

  /** What the report prints as delivered in phase `j`. */
  function DeliveredIn(env: Env, phases: seq<Phase>, j: nat): nat
    requires j < |phases|
  {
    SchedulePhases(phases, 0, j);
    if phases[j].duration == 0 then 0
    else After(env, Schedule(phases, 0), OpensAt(phases, j + 1)).rec.phaseDelivered
  }

  /** Deliveries within a phase, up to its tick `b`. */
  lemma {:induction false} PhaseBytes(env: Env, sched: seq<TickConfig>, a: nat, b: nat)
    requires a < b <= |sched| && forall m :: a <= m < b ==> (sched[m].opens <==> m == a)
    ensures var s, t := After(env, sched, a), After(env, sched, b);
      t.rec.phaseDelivered == SEGMENT * (|t.log.delivered| - |s.log.delivered|)
    decreases b - a
  {
    hide Tick, Conserved, SignalledOnce, Booked;
    AccountedRun(env, sched, b - 1);
    AfterNext(env, sched, b - 1);
    TickBytes(env, sched[b - 1], After(env, sched, b - 1));
    if b == a + 1 {
    } else {
      PhaseBytes(env, sched, a, b - 1);
    }
    hide After;
  }

  /** Deliveries by tick `m` of a run of these phases. */
  ghost function DeliveredBy(env: Env, phases: seq<Phase>, m: nat): nat
    requires m <= |Schedule(phases, 0)|
  {
    |After(env, Schedule(phases, 0), m).log.delivered|
  }

  /** A phase's figure is a segment for every delivery between its opening and its end. */
  lemma DeliveredIs(env: Env, phases: seq<Phase>, j: nat)
    requires j < |phases|
    ensures OpensAt(phases, j) <= OpensAt(phases, j + 1) <= |Schedule(phases, 0)|
    ensures DeliveredIn(env, phases, j)
         == SEGMENT * (DeliveredBy(env, phases, OpensAt(phases, j + 1)) - DeliveredBy(env, phases, OpensAt(phases, j)))
  {
    SchedulePhases(phases, 0, j);
    assert phases[j].duration == 0 ==> OpensAt(phases, j + 1) == OpensAt(phases, j);
    assert phases[j].duration > 0 ==> OpensAt(phases, j + 1) > OpensAt(phases, j);
    hide Schedule, After, OpensAt;
    if phases[j].duration > 0 {
      PhaseBytes(env, Schedule(phases, 0), OpensAt(phases, j), OpensAt(phases, j + 1));
    }
  }

  ghost function SumDelivered(env: Env, phases: seq<Phase>, j: nat): nat
    requires j <= |phases|
  {
    if j == 0 then 0 else SumDelivered(env, phases, j - 1) + DeliveredIn(env, phases, j - 1)
  }

  lemma {:induction false} DeliveredUpto(env: Env, phases: seq<Phase>, j: nat)
    requires j <= |phases|
    ensures OpensAt(phases, j) <= |Schedule(phases, 0)|
    ensures SumDelivered(env, phases, j) == SEGMENT * DeliveredBy(env, phases, OpensAt(phases, j))
  {
    hide Schedule, DeliveredIn, DeliveredBy, OpensAt;
    if j == 0 {
      NoneYet(env, phases);
    } else {
      DeliveredUpto(env, phases, j - 1);
      DeliveredIs(env, phases, j - 1);
    }
  }

  lemma NoneYet(env: Env, phases: seq<Phase>)
    ensures OpensAt(phases, 0) == 0 && DeliveredBy(env, phases, 0) == 0
  {}

  /** The per-phase figures add up to everything delivered in the run, each delivery counted once. */
  lemma DeliveredAddsUp(env: Env, phases: seq<Phase>)
    ensures var sched := Schedule(phases, 0);
      SumDelivered(env, phases, |phases|) == SEGMENT * |After(env, sched, |sched|).log.delivered|
  {
    DeliveredUpto(env, phases, |phases|);
    ScheduleLength(phases, 0);
  }

  // ----- The report -----

  /** What `run` returns, the counters of the last state included. */
  datatype Report = Report(
    deliveredPerPhase: seq<nat>,
    bandwidthAtResume: nat,
    cwndAtResume: nat,
    queueMean: real,
    bandwidthAtEnd: nat,
    cwndOverBdp: real,
    meanFidelity: real,
    worstFidelity: real,
    rec: Recorded)

  function Mean(sum: real, n: nat): real {
    if n > 0 then sum / n as real else 0.0
  }

  /** What is derived from the last state once the phases are over. */
  function Conclude(env: Env, delivered: seq<nat>, bandwidthAtResume: nat, cwndAtResume: nat, s: State): Report {
    var e, f := env.estimator(s.calls), s.rec.fidelity;
    Report(delivered, bandwidthAtResume, cwndAtResume,
           Mean(s.rec.final.queueSum as real, s.rec.final.queueTicks),
           e.bandwidth, e.cwnd as real / Max(e.bdp, 1) as real,
           Mean(f.sum, f.n), if f.worst.Some? then f.worst.value else 0.0, s.rec)
  }

  /** The figures of the first `n` phases. */
  function PerPhase(env: Env, phases: seq<Phase>, n: nat): seq<nat>
    requires n <= |phases|
  {
    if n == 0 then [] else PerPhase(env, phases, n - 1) + [DeliveredIn(env, phases, n - 1)]
  }

  /** The estimator as the final phase opens. */
  function AtResume(env: Env, phases: seq<Phase>): Reading
    requires phases != []
  {
    SchedulePhases(phases, 0, |phases| - 1);
    env.estimator(After(env, Schedule(phases, 0), OpensAt(phases, |phases| - 1)).calls)
  }

  function Summary(env: Env, phases: seq<Phase>): Report {
    var sched := Schedule(phases, 0);
    Conclude(env, PerPhase(env, phases, |phases|),
             if phases == [] then 0 else AtResume(env, phases).bandwidth,
             if phases == [] then 0 else AtResume(env, phases).cwnd,
             After(env, sched, |sched|))
  }

  // ----- What the report's figures are -----

  lemma {:induction false} SumAtMost(xs: seq<nat>, top: nat)
    requires forall i :: 0 <= i < |xs| ==> xs[i] <= top
    ensures Sum(xs) <= |xs| * top
    decreases |xs|
  {
    if xs == [] {
    } else {
      var k := |xs| - 1;
      SumAtMost(xs[..k], top);
      Distribute(top, k, 1);
    }
  }

  lemma {:induction false} SumAtLeast(xs: seq<real>, low: real)
    requires forall i :: 0 <= i < |xs| ==> low <= xs[i]
    ensures low * |xs| as real <= SumReal(xs)
    decreases |xs|
  {
    if xs == [] {
    } else {
      var k := |xs| - 1;
      SumAtLeast(xs[..k], low);
      assert |xs| as real == k as real + 1.0;
      assert low * (k as real + 1.0) == low * k as real + low;
    }
  }

  lemma MeanAtMost(sum: real, n: nat, top: real)
    requires sum <= n as real * top && top >= 0.0
    ensures Mean(sum, n) <= top
  {
    if n > 0 {
      var m := sum / n as real;
      assert m * n as real == sum;
      assert m > top ==> m * n as real > top * n as real;
    }
  }

  lemma MeanAtLeast(sum: real, n: nat, low: real)
    requires low * n as real <= sum && n > 0
    ensures Mean(sum, n) >= low
  {
    var m := sum / n as real;
    assert m * n as real == sum;
    assert m < low ==> m * n as real < low * n as real;
  }

  /**
   Every figure of every report, over the run it reports on. The queue's are the mean and the
   largest of its depth at the ticks of the final phase; the fidelity's the mean and the least of
   the ratios of estimate to reference at the ticks that have one; the widest round trip is that
   of the deliveries of the final phase; the reference's size the largest it had; and the counters
   count transmissions and drops.
   */
  lemma ReportMeans(env: Env, phases: seq<Phase>)
    ensures var r, sched := Summary(env, phases), Schedule(phases, 0);
      var n, last := |sched|, After(env, sched, |sched|);
      var depths, ratios := Depths(env, sched, n), Ratios(env, sched, n);
      && r.queueMean == Mean(Sum(depths) as real, |depths|) && Largest(r.rec.finalQueueMax, depths)
      && r.meanFidelity == Mean(SumReal(ratios), |ratios|)
      && (if ratios == [] then r.worstFidelity == 0.0 else Least(Some(r.worstFidelity), ratios))
      && Largest(r.rec.maxRttInFinalMs, Rtts(FinalDeliveries(env, sched, n)))
      && Largest(r.rec.maxReferenceEntries, Sizes(last.log.pushes))
      && r.rec == last.rec && Counted(last)
  {
    hide Schedule, After, PerPhase, AtResume, Mean, Sum, SumReal, Rtts, Sizes, Largest, Counted;
    var sched := Schedule(phases, 0);
    QueueFigures(env, sched, |sched|);
    FidelityFigures(env, sched, |sched|);
    WidestFigure(env, sched, |sched|);
    ReferenceFigure(env, sched, |sched|);
    CounterFigures(env, sched, |sched|);
  }

  lemma MeanOfMost(depths: seq<nat>, top: nat)
    requires Largest(top, depths)
    ensures Mean(Sum(depths) as real, |depths|) <= top as real
  {
    hide Mean, Sum;
    var n := |depths|;
    assert forall i :: 0 <= i < n ==> depths[i] in depths;
    SumAtMost(depths, top);
    hide Largest;
    assert (n * top) as real == n as real * top as real;
    MeanAtMost(Sum(depths) as real, n, top as real);
  }

  lemma NoMean()
    ensures Mean(SumReal([]), 0) == 0.0
  {}

  lemma MeanOfLeast(ratios: seq<real>, low: real)
    requires if ratios == [] then low == 0.0 else Least(Some(low), ratios)
    ensures low <= Mean(SumReal(ratios), |ratios|)
  {
    hide Mean, SumReal;
    if ratios == [] {
      NoMean();
    } else {
      assert forall i :: 0 <= i < |ratios| ==> ratios[i] in ratios;
      SumAtLeast(ratios, low);
      MeanAtLeast(SumReal(ratios), |ratios|, low);
    }
  }

  /** So in every report the mean queue is at most the deepest, and the worst fidelity at most the mean. */
  lemma ReportOrdered(env: Env, phases: seq<Phase>)
    ensures var r := Summary(env, phases);
      r.queueMean <= r.rec.finalQueueMax as real && r.worstFidelity <= r.meanFidelity
  {
    hide Schedule, After, Summary, Mean, Depths, Ratios, FinalDeliveries, Rtts, Sizes, Counted;
    hide Sum, SumReal, Largest, Least;
    ReportMeans(env, phases);
    var r, sched := Summary(env, phases), Schedule(phases, 0);
    MeanOfMost(Depths(env, sched, |sched|), r.rec.finalQueueMax);
    MeanOfLeast(Ratios(env, sched, |sched|), r.worstFidelity);
  }
}
