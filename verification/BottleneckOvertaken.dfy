/**
 A run in which the return-path deque does not stay sorted, and what it costs: a delivery that is
 due is taken a tick late, because a tail drop dated later stands in front of it. Its report also
 shows that the figure of the second second is no such thing.
 */
module BottleneckOvertaken {
  import opened Wrappers
  import opened BottleneckModel
  import opened BottleneckFigures
  import opened BottleneckReport
  import opened BottleneckSorted

  /** An estimator that never measures a bandwidth and always leaves the window open. */
  const OPEN_WINDOW: Env := Env(
    (c: seq<Call>) => Reading(0, 1_000_000, 0, 0, 0, 0, 0, false, 0),
    (r: seq<Returning>, t: nat) => 0)

  /** One segment per tick on the link, room for one in the queue, two offered at once. */
  const TIGHT: Phase := Phase(
    1_000_000, 1_400_000.0, 1_400_000.0, RequestResponse(2800, 1_000_000), 0, Some(1400), Even)

  /** The same link with nothing to send, for a little over two seconds. */
  const QUIET: Phase := Phase(
    2_100_000_000, 1_400_000.0, 1_400_000.0, RequestResponse(0, 1_000_000), 0, None, Even)

  const FIRST: TickConfig := TickConfig(TIGHT, 0, 0, true, false)

  lemma TightRate()
    ensures LinkRate(TIGHT, 0) == 1_400_000.0 && DrainNs(1400, 1_400_000.0) == 1_000_000
  {}

  // ----- The first tick -----

  /** What the sender starts from: two segments owed, nothing anywhere. */
  ghost predicate Starting(s: State) {
    && s.owed == 2800 && s.queue == [] && s.queuedBytes == 0 && s.returning == [] && s.awaiting == []
    && s.linkCredit == 0.0 && s.noise == 0 && s.log.delivered == []
  }

  lemma TightOffers()
    ensures Starting(EarnPace(OPEN_WINDOW, BeforeSend(OPEN_WINDOW, FIRST, INITIAL)))
    ensures !Paced(OPEN_WINDOW, BeforeSend(OPEN_WINDOW, FIRST, INITIAL))
  {}

  /** One segment in the queue, one owed. */
  ghost predicate Queued(s: State) {
    && s.owed == 1400 && |s.queue| == 1 && s.queue[0].bytes == SEGMENT && s.queuedBytes == 1400
    && s.returning == [] && s.awaiting == [] && s.linkCredit == 0.0 && s.noise == 0 && s.log.delivered == []
  }

  lemma TightQueues(s: State)
    requires Starting(s)
    ensures MaySend(OPEN_WINDOW, false, s) && Queued(SendOne(OPEN_WINDOW, FIRST, false, s))
  {
    hide TailDrop;
  }

  /** The other refused, and its loss dated 201 ms. */
  ghost predicate Refused(s: State) {
    && s.owed == 0 && |s.queue| == 1 && s.queue[0].bytes == SEGMENT && s.awaiting == [] && s.linkCredit == 0.0
    && s.noise == 0 && s.log.delivered == []
    && |s.returning| == 1 && s.returning[0].ackAt == 201_000_000 && s.returning[0].lost
  }

  lemma TightRefuses(s: State)
    requires Queued(s)
    ensures MaySend(OPEN_WINDOW, false, s) && Refused(SendOne(OPEN_WINDOW, FIRST, false, s))
  {
    TightRate();
    hide LinkRate, DrainNs;
  }

  lemma TightSends()
    ensures Refused(BeforeServe(OPEN_WINDOW, FIRST, INITIAL))
  {
    TightOffers();
    var s0 := EarnPace(OPEN_WINDOW, BeforeSend(OPEN_WINDOW, FIRST, INITIAL));
    TightQueues(s0);
    var s1 := SendOne(OPEN_WINDOW, FIRST, false, s0);
    TightRefuses(s1);
    var s2 := SendOne(OPEN_WINDOW, FIRST, false, s1);
    hide SendOne, BeforeSend, EarnPace, Paced;
    assert !MaySend(OPEN_WINDOW, false, s2);
    assert SendLoop(OPEN_WINDOW, FIRST, false, s0) == SendLoop(OPEN_WINDOW, FIRST, false, s1) == s2;
  }

  lemma TightEarns(s: State)
    requires Refused(s)
    ensures var b := EarnLink(FIRST, s);
      LinkReady(b) && b == s.(linkCredit := 1400.0)
  {
    TightRate();
    hide LinkRate;
  }

  lemma TightDeparts(b: State)
    requires |b.queue| == 1 && LinkReady(b) && b.noise == 0
    ensures var t := LinkLoop(FIRST, b);
      t.queue == [] && t.returning == b.returning + [Returning(b.queue[0], 200_000_000, false)]
      && t.awaiting == b.awaiting && t.owed == b.owed && t.log.delivered == b.log.delivered
  {
    var t := LinkOne(FIRST, b);
    assert t.queue == [];
    assert LinkLoop(FIRST, b) == LinkLoop(FIRST, t) == t;
  }

  /** A drop dated 201 ms in front of a delivery dated 200 ms, and nothing else going on. */
  ghost predicate Crossed(s: State) {
    && |s.returning| == 2
    && s.returning[0].ackAt == 201_000_000 && s.returning[0].lost
    && s.returning[1].ackAt == 200_000_000 && !s.returning[1].lost
    && s.queue == [] && s.awaiting == [] && s.owed == 0 && s.log.delivered == []
  }

  lemma TightTick()
    ensures Crossed(Tick(OPEN_WINDOW, FIRST, INITIAL)) && Overtaken(OPEN_WINDOW, FIRST, INITIAL)
  {
    TightSends();
    hide BeforeServe;
    var s := BeforeServe(OPEN_WINDOW, FIRST, INITIAL);
    TightEarns(s);
    var b := EarnLink(FIRST, s);
    TightDeparts(b);
    hide EarnLink, LinkLoop, ReadFidelity, TrimRecent;
  }

  /**
   The claim that the deque stays sorted is false of a run with a queue limit: in its very
   first tick a tail drop dated 201 ms ends up in front of a delivery dated 200 ms.
   */
  lemma SortednessFails()
    ensures var r := Tick(OPEN_WINDOW, FIRST, INITIAL).returning;
      && Overtaken(OPEN_WINDOW, FIRST, INITIAL)
      && |r| == 2 && r[0].ackAt == 201_000_000 && r[1].ackAt == 200_000_000 && r[0].lost && !r[1].lost
      && !Sorted(r)
  {
    hide Tick, Overtaken;
    TightTick();
  }

  // ----- The ticks after it -----

  lemma QuietSends(cfg: TickConfig, s: State)
    requires Crossed(s) && cfg.phase == QUIET && cfg.now < 201_000_000
    ensures Crossed(BeforeServe(OPEN_WINDOW, cfg, s))
      && BeforeServe(OPEN_WINDOW, cfg, s).returning == s.returning
  {
    hide AckOne, SendOne;
  }

  lemma QuietServes(cfg: TickConfig, s: State)
    requires Crossed(s)
    ensures var t := Read(OPEN_WINDOW, cfg, Serve(cfg, s)); Crossed(t) && t.returning == s.returning
  {
    hide LinkOne, LinkRate, ReadFidelity, TrimRecent, NinetyReached;
  }

  /** Until 201 ms nothing moves: not even the delivery that is due at 200 ms. */
  lemma QuietTick(cfg: TickConfig, s: State)
    requires Crossed(s) && cfg.phase == QUIET && cfg.now < 201_000_000
    ensures var t := Tick(OPEN_WINDOW, cfg, s); Crossed(t) && t.returning == s.returning
  {
    QuietSends(cfg, s);
    hide BeforeServe, Serve, Read;
    QuietServes(cfg, BeforeServe(OPEN_WINDOW, cfg, s));
  }

  lemma {:induction false} PhaseEndPast(phase: Phase, start: nat, into: nat)
    ensures PhaseEnd(phase, start, into) >= start + phase.duration
    decreases phase.duration - into
  {
    if into >= phase.duration {
    } else {
      PhaseEndPast(phase, start, into + TICK);
    }
  }

  function Run(): seq<TickConfig> {
    Schedule([TIGHT, QUIET], 0)
  }

  /** Tick `m` of the run, after the first. */
  ghost predicate QuietAt(m: nat, cfg: TickConfig) {
    cfg.now == m * TICK && cfg.phase == QUIET && cfg.into == (m - 1) * TICK && cfg.final && (cfg.opens <==> m == 1)
  }

  lemma RunSplits()
    ensures Run() == [FIRST] + PhaseTicks(QUIET, true, 1_000_000, 0)
  {
    var quiet := PhaseTicks(QUIET, true, 1_000_000, 0);
    assert PhaseTicks(TIGHT, false, 0, 1_000_000) == [] && PhaseTicks(TIGHT, false, 0, 0) == [FIRST];
    assert PhaseEnd(TIGHT, 0, 0) == PhaseEnd(TIGHT, 0, 1_000_000) == 1_000_000;
    assert [TIGHT, QUIET][1..] == [QUIET] && [QUIET][1..] == [];
    assert Schedule([QUIET], 1_000_000) == quiet + Schedule([], PhaseEnd(QUIET, 1_000_000, 0)) == quiet;
  }

  lemma RunIs()
    ensures |Run()| >= 2100 && Run()[0] == FIRST
    ensures forall m :: 1 <= m < 2100 ==> QuietAt(m, Run()[m])
  {
    hide PhaseTicks, Schedule, Run, PhaseEnd;
    var quiet := PhaseTicks(QUIET, true, 1_000_000, 0);
    RunSplits();
    PhaseTicksClock(QUIET, true, 1_000_000, 0);
    PhaseOpens(QUIET, true, 1_000_000, 0);
    PhaseEndPast(QUIET, 1_000_000, 0);
    assert forall m :: 1 <= m < 2100 ==> Run()[m] == quiet[m - 1];
  }

  lemma {:induction false} StaysCrossed(k: nat)
    requires 1 <= k <= 201
    ensures |Run()| >= 2100 && Crossed(After(OPEN_WINDOW, Run(), k))
    ensures After(OPEN_WINDOW, Run(), k).returning == Tick(OPEN_WINDOW, FIRST, INITIAL).returning
  {
    RunIs();
    hide Run, Tick, Crossed, Overtaken;
    AfterNext(OPEN_WINDOW, Run(), k - 1);
    if k == 1 {
      TightTick();
      assert After(OPEN_WINDOW, Run(), 0) == INITIAL;
    } else {
      StaysCrossed(k - 1);
      hide After;
      QuietTick(Run()[k - 1], After(OPEN_WINDOW, Run(), k - 1));
    }
  }

  lemma LateAcks(cfg: TickConfig, s: State)
    requires Crossed(s) && cfg.now == 201_000_000
    ensures AckLoop(OPEN_WINDOW, cfg, s).log.delivered == [s.returning[1]]
  {
    hide OfferSample;
    var one := AckOne(OPEN_WINDOW, cfg, s);
    assert one.returning == [s.returning[1]] && one.log.delivered == [];
    var two := AckOne(OPEN_WINDOW, cfg, one);
    assert two.returning == [] && two.log.delivered == [s.returning[1]];
    assert AckLoop(OPEN_WINDOW, cfg, s) == AckLoop(OPEN_WINDOW, cfg, one) == AckLoop(OPEN_WINDOW, cfg, two) == two;
  }

  lemma SameLog(cfg: TickConfig, s: State)
    ensures Tick(OPEN_WINDOW, cfg, s).log.delivered == AckLoop(OPEN_WINDOW, cfg, Open(cfg, s)).log.delivered
  {
    hide AckLoop, SendLoop, LinkLoop, LinkRate, DrainNs, Place, Noise, TrimRecent, ReadFidelity;
    var offered := BeforeSend(OPEN_WINDOW, cfg, s);
    var earned, paced := EarnPace(OPEN_WINDOW, offered), Paced(OPEN_WINDOW, offered);
    SendLoopKeeps(OPEN_WINDOW, cfg, paced, earned, (x: State) => x.log.delivered == offered.log.delivered);
    var lit := EarnLink(cfg, BeforeServe(OPEN_WINDOW, cfg, s));
    LinkLoopKeeps(cfg, lit, (x: State) => x.log.delivered == offered.log.delivered);
  }

  /**
   What it costs, in the run of these two phases: at the tick of 200 ms a delivery dated 200 ms is
   on the path and not taken, because the drop dated 201 ms is in front of it; it is taken at the
   tick after.
   */
  lemma DeliveryHeldBack()
    ensures |Run()| >= 2100 && Run()[200].now == 200_000_000
    ensures var before, after := After(OPEN_WINDOW, Run(), 200), After(OPEN_WINDOW, Run(), 201);
      && |before.returning| == 2 && before.returning[1].ackAt == Run()[200].now && !before.returning[1].lost
      && after.returning == before.returning && after.log.delivered == []
      && After(OPEN_WINDOW, Run(), 202).log.delivered == [before.returning[1]]
  {
    hide After, Run, Tick, AckLoop;
    RunIs();
    StaysCrossed(200);
    StaysCrossed(201);
    AfterNext(OPEN_WINDOW, Run(), 201);
    var s, cfg := After(OPEN_WINDOW, Run(), 201), Run()[201];
    SameLog(cfg, s);
    LateAcks(cfg, Open(cfg, s));
  }

  // ----- The second second -----

  /** In this run the figure read at two seconds is not what the second second delivered. */
  lemma SecondSecondFails()
    ensures |Run()| >= 2100 && Run()[1].opens && IntoMs(Run()[1001]) == 1000 && IntoMs(Run()[2001]) == 2000
    ensures var one, two := After(OPEN_WINDOW, Run(), 1002), After(OPEN_WINDOW, Run(), 2002);
      two.rec.final.secondSecond != SEGMENT * (|two.log.delivered| - |one.log.delivered|)
  {
    hide After, Run, Tick;
    RunIs();
    StaysCrossed(1);
    DeliveryHeldBack();
    DeliveredPrefix(OPEN_WINDOW, Run(), 202, 1002);
    SecondSecondIff(OPEN_WINDOW, Run(), 1, 1001, 2001);
  }
}
