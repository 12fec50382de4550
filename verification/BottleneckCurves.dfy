/**
 Service curves of the bottleneck simulator: what the link serves, what the pacer releases and
 what the noise process drops over any window of any run, for every estimator.
 */
module BottleneckCurves {
  import opened Arithmetic
  import opened BottleneckModel
  import opened BottleneckConservation

  // ----- The link -----

  /** The state only the link stage changes. */
  ghost predicate SameLink(s: State, t: State) {
    && t.linkCredit == s.linkCredit && t.noise == s.noise && t.rng == s.rng
    && t.log.served == s.log.served && t.log.noiseDue == s.log.noiseDue
    && t.rec.segmentsDropped - t.rec.droppedByFullQueue == s.rec.segmentsDropped - s.rec.droppedByFullQueue
  }

  lemma AcksKeepLink(env: Env, cfg: TickConfig, s: State)
    ensures SameLink(s, AckLoop(env, cfg, s))
  {
    AckLoopKeeps(env, cfg, s, x => SameLink(s, x));
  }

  lemma SendsKeepLink(env: Env, cfg: TickConfig, paced: bool, s: State)
    ensures SameLink(s, SendLoop(env, cfg, paced, s))
  {
    SendLoopKeeps(env, cfg, paced, s, x => SameLink(s, x));
  }

  lemma BeforeSendKeepsLink(env: Env, cfg: TickConfig, s: State)
    ensures SameLink(s, BeforeSend(env, cfg, s))
  {
    AcksKeepLink(env, cfg, Open(cfg, s));
  }

  lemma BeforeServeKeepsLink(env: Env, cfg: TickConfig, s: State)
    ensures SameLink(s, BeforeServe(env, cfg, s))
  {
    BeforeSendKeepsLink(env, cfg, s);
    var offered := BeforeSend(env, cfg, s);
    SendsKeepLink(env, cfg, Paced(env, offered), EarnPace(env, offered));
  }

  /** Between ticks the link holds at most one segment of credit, and less while it is busy. */
  ghost predicate LinkPoised(s: State) {
    && 0.0 <= s.linkCredit <= SEGMENT as real
    && (s.queue != [] ==> s.linkCredit < SEGMENT as real)
  }

  ghost predicate WholeSegments(q: seq<InFlight>) {
    forall i :: 0 <= i < |q| ==> q[i].bytes == SEGMENT
  }

  /** Credit spent is exactly the bytes served, and it is never overdrawn. */
  lemma LinkLoopSpends(cfg: TickConfig, s: State)
    requires WholeSegments(s.queue) && s.linkCredit >= 0.0
    ensures var t := LinkLoop(cfg, s);
      && t.linkCredit == s.linkCredit - SEGMENT as real * (t.log.served - s.log.served) as real
      && t.linkCredit >= 0.0
      && (t.queue != [] ==> t.linkCredit < SEGMENT as real)
  {
    LinkLoopKeeps(cfg, s, (x: State) =>
      && WholeSegments(x.queue)
      && x.linkCredit >= 0.0
      && x.linkCredit == s.linkCredit - SEGMENT as real * (x.log.served - s.log.served) as real);
  }

  lemma ServeServes(cfg: TickConfig, s: State)
    requires WholeSegments(s.queue) && s.linkCredit >= 0.0 && LinkRate(cfg.phase, cfg.into) >= 0.0
    ensures var t := Serve(cfg, s);
      && LinkPoised(t)
      && SEGMENT as real * (t.log.served - s.log.served) as real + t.linkCredit
           <= s.linkCredit + PerTick(LinkRate(cfg.phase, cfg.into))
      && (t.queue != [] ==>
            SEGMENT as real * (t.log.served - s.log.served) as real + t.linkCredit
              == s.linkCredit + PerTick(LinkRate(cfg.phase, cfg.into)))
  {
    hide LinkRate;
    LinkLoopSpends(cfg, EarnLink(cfg, s));
  }

  /** One tick: bytes served plus credit carried is what there was, less what idling forfeits. */
  lemma TickServes(env: Env, cfg: TickConfig, s: State)
    requires Accounted(s) && LinkPoised(s) && LinkRate(cfg.phase, cfg.into) >= 0.0
    ensures var t := Tick(env, cfg, s);
      && LinkPoised(t)
      && SEGMENT as real * (t.log.served - s.log.served) as real + t.linkCredit
           <= s.linkCredit + PerTick(LinkRate(cfg.phase, cfg.into))
      && (t.queue != [] ==>
            SEGMENT as real * (t.log.served - s.log.served) as real + t.linkCredit
              == s.linkCredit + PerTick(LinkRate(cfg.phase, cfg.into)))
  {
    hide BeforeServe, Serve, LinkRate;
    BeforeServeKeepsLink(env, cfg, s);
    AccountedBeforeServe(env, cfg, s);
    ServeServes(cfg, BeforeServe(env, cfg, s));
  }

  /** The link rate is not negative at any of the first `k` ticks. */
  ghost predicate RatesNonnegative(sched: seq<TickConfig>, k: nat) {
    k <= |sched| && forall m :: 0 <= m < k ==> LinkRate(sched[m].phase, sched[m].into) >= 0.0
  }

  lemma {:induction false} PoisedRun(env: Env, sched: seq<TickConfig>, k: nat)
    requires RatesNonnegative(sched, k)
    ensures LinkPoised(After(env, sched, k))
  {
    hide Tick;
    if k == 0 {
    } else {
      PoisedRun(env, sched, k - 1);
      AccountedRun(env, sched, k - 1);
      TickServes(env, sched[k - 1], After(env, sched, k - 1));
    }
  }

  /** What the link could carry in ticks `i` up to `j`. */
  ghost function LinkBudget(sched: seq<TickConfig>, i: nat, j: nat): real
    requires i <= j <= |sched|
  {
    if i == j then 0.0
    else LinkBudget(sched, i, j - 1) + PerTick(LinkRate(sched[j - 1].phase, sched[j - 1].into))
  }

  function ServedBytes(s: State): real {
    SEGMENT as real * s.log.served as real
  }

  lemma {:induction false} ServiceTelescopes(env: Env, sched: seq<TickConfig>, i: nat, j: nat)
    requires i <= j && RatesNonnegative(sched, j)
    ensures var s, t := After(env, sched, i), After(env, sched, j);
      && ServedBytes(t) + t.linkCredit <= ServedBytes(s) + s.linkCredit + LinkBudget(sched, i, j)
      && ((forall m :: i < m <= j ==> After(env, sched, m).queue != []) ==>
            ServedBytes(t) + t.linkCredit == ServedBytes(s) + s.linkCredit + LinkBudget(sched, i, j))
    decreases j - i
  {
    hide Tick;
    if i >= j {
    } else {
      ServiceTelescopes(env, sched, i, j - 1);
      PoisedRun(env, sched, j - 1);
      AccountedRun(env, sched, j - 1);
      TickServes(env, sched[j - 1], After(env, sched, j - 1));
    }
  }

  /**
   Over any window of ticks the link serves at most what its rate allows plus one segment, and
   strictly more than that less one segment whenever the queue never empties in the window.
   */
  lemma LinkServiceCurve(env: Env, sched: seq<TickConfig>, i: nat, j: nat)
    requires i <= j && RatesNonnegative(sched, j)
    ensures var served := ServedBytes(After(env, sched, j)) - ServedBytes(After(env, sched, i));
      && served <= LinkBudget(sched, i, j) + SEGMENT as real
      && (i < j && (forall m :: i < m <= j ==> After(env, sched, m).queue != []) ==>
            served > LinkBudget(sched, i, j) - SEGMENT as real)
  {
    hide Tick;
    ServiceTelescopes(env, sched, i, j);
    PoisedRun(env, sched, i);
    PoisedRun(env, sched, j);
    assert i < j && (forall m :: i < m <= j ==> After(env, sched, m).queue != []) ==>
      After(env, sched, j).queue != [];
  }

  // ----- The pacer -----

  ghost predicate SamePace(s: State, t: State) {
    t.paceCredit == s.paceCredit && t.rec.segmentsSent == s.rec.segmentsSent
  }

  lemma AcksKeepPace(env: Env, cfg: TickConfig, s: State)
    ensures SamePace(s, AckLoop(env, cfg, s))
  {
    AckLoopKeeps(env, cfg, s, x => SamePace(s, x));
  }

  lemma LinkKeepsPace(cfg: TickConfig, s: State)
    ensures SamePace(s, LinkLoop(cfg, s))
  {
    LinkLoopKeeps(cfg, s, x => SamePace(s, x));
  }

  /** While paced, credit spent is exactly the bytes sent, and it is never overdrawn. */
  lemma SendLoopSpends(env: Env, cfg: TickConfig, s: State)
    requires s.paceCredit >= 0.0
    ensures var t := SendLoop(env, cfg, true, s);
      && t.paceCredit == s.paceCredit - SEGMENT as real * (t.rec.segmentsSent - s.rec.segmentsSent) as real
      && t.paceCredit >= 0.0 && t.rec.segmentsSent >= s.rec.segmentsSent
  {
    SendLoopKeeps(env, cfg, true, s, (x: State) =>
      && x.paceCredit >= 0.0 && x.rec.segmentsSent >= s.rec.segmentsSent
      && x.paceCredit == s.paceCredit - SEGMENT as real * (x.rec.segmentsSent - s.rec.segmentsSent) as real);
  }

  lemma UnpacedKeepsCredit(env: Env, cfg: TickConfig, s: State)
    ensures SendLoop(env, cfg, false, s).paceCredit == s.paceCredit
  {
    SendLoopKeeps(env, cfg, false, s, (x: State) => x.paceCredit == s.paceCredit);
  }

  ghost predicate PacePoised(s: State) {
    0.0 <= s.paceCredit <= 4.0 * SEGMENT as real
  }

  /** The pacing rate the sender reads at a tick, and whether the pacer binds there. */
  ghost function PaceRate(env: Env, cfg: TickConfig, s: State): real {
    env.estimator(BeforeSend(env, cfg, s).calls).pacingRate as real
  }

  ghost predicate PacedTick(env: Env, cfg: TickConfig, s: State) {
    Paced(env, BeforeSend(env, cfg, s))
  }

  lemma TickPaces(env: Env, cfg: TickConfig, s: State)
    requires PacePoised(s)
    ensures var t := Tick(env, cfg, s);
      && PacePoised(t)
      && (PacedTick(env, cfg, s) ==>
            SEGMENT as real * (t.rec.segmentsSent - s.rec.segmentsSent) as real + t.paceCredit
              <= s.paceCredit + PerTick(PaceRate(env, cfg, s)))
  {
    AcksKeepPace(env, cfg, Open(cfg, s));
    var offered := BeforeSend(env, cfg, s);
    assert SamePace(s, offered);
    var earned := EarnPace(env, offered);
    SendLoopSpends(env, cfg, earned);
    UnpacedKeepsCredit(env, cfg, earned);
    var sent := BeforeServe(env, cfg, s);
    LinkKeepsPace(cfg, EarnLink(cfg, sent));
  }

  lemma {:induction false} PacePoisedRun(env: Env, sched: seq<TickConfig>, k: nat)
    requires k <= |sched|
    ensures PacePoised(After(env, sched, k))
  {
    hide Tick;
    if k == 0 {
    } else {
      PacePoisedRun(env, sched, k - 1);
      TickPaces(env, sched[k - 1], After(env, sched, k - 1));
    }
  }

  ghost function PaceBudget(env: Env, sched: seq<TickConfig>, i: nat, j: nat): real
    requires i <= j <= |sched|
  {
    if i == j then 0.0
    else PaceBudget(env, sched, i, j - 1) + PerTick(PaceRate(env, sched[j - 1], After(env, sched, j - 1)))
  }

  function SentBytes(s: State): real {
    SEGMENT as real * s.rec.segmentsSent as real
  }

  lemma {:induction false} PaceTelescopes(env: Env, sched: seq<TickConfig>, i: nat, j: nat)
    requires i <= j <= |sched|
    requires forall m :: i <= m < j ==> PacedTick(env, sched[m], After(env, sched, m))
    ensures var s, t := After(env, sched, i), After(env, sched, j);
      SentBytes(t) + t.paceCredit <= SentBytes(s) + s.paceCredit + PaceBudget(env, sched, i, j)
    decreases j - i
  {
    hide Tick;
    if i >= j {
    } else {
      PaceTelescopes(env, sched, i, j - 1);
      PacePoisedRun(env, sched, j - 1);
      TickPaces(env, sched[j - 1], After(env, sched, j - 1));
    }
  }

  /**
   Over any window in which the pacer binds at every tick, the sender releases at most what the
   pacing rates it read allow, plus four segments, repairs included.
   */
  lemma PacerServiceCurve(env: Env, sched: seq<TickConfig>, i: nat, j: nat)
    requires i <= j <= |sched|
    requires forall m :: i <= m < j ==> PacedTick(env, sched[m], After(env, sched, m))
    ensures SentBytes(After(env, sched, j)) - SentBytes(After(env, sched, i))
         <= PaceBudget(env, sched, i, j) + 4.0 * SEGMENT as real
  {
    hide Tick;
    PaceTelescopes(env, sched, i, j);
    PacePoisedRun(env, sched, i);
    PacePoisedRun(env, sched, j);
  }

  // ----- Even loss -----

  ghost predicate EvenLoss(cfg: TickConfig) {
    cfg.phase.lossModel.Even? && cfg.phase.lossPermille <= 1000
  }

  /** Drops by noise alone: the source counts all drops and the full-queue ones. */
  function NoiseDrops(s: State): int {
    s.rec.segmentsDropped - s.rec.droppedByFullQueue
  }

  ghost predicate NoiseBalanced(s: State) {
    1000 * NoiseDrops(s) + s.noise == s.log.noiseDue && s.noise < 1000
  }

  /** From `s` to `t`, what the rate called for is the rate for each segment served. */
  ghost predicate DueSince(s: State, t: State, permille: nat) {
    && t.log.served >= s.log.served
    && t.log.noiseDue - s.log.noiseDue == permille * (t.log.served - s.log.served)
  }

  lemma NoiseOne(cfg: TickConfig, s: State)
    requires NoiseBalanced(s) && EvenLoss(cfg) && s.queue != []
    ensures NoiseBalanced(LinkOne(cfg, s))
  {}

  lemma DueOne(cfg: TickConfig, from: State, s: State)
    requires DueSince(from, s, cfg.phase.lossPermille) && s.queue != []
    ensures DueSince(from, LinkOne(cfg, s), cfg.phase.lossPermille)
  {
    hide Noise;
    Distribute(cfg.phase.lossPermille, s.log.served - from.log.served, 1);
  }

  lemma NoiseServe(cfg: TickConfig, from: State, s: State)
    requires NoiseBalanced(s) && EvenLoss(cfg) && DueSince(from, s, cfg.phase.lossPermille)
    ensures NoiseBalanced(LinkLoop(cfg, s)) && DueSince(from, LinkLoop(cfg, s), cfg.phase.lossPermille)
  {
    hide NoiseBalanced, EvenLoss, DueSince, LinkOne;
    forall x: State | NoiseBalanced(x) && DueSince(from, x, cfg.phase.lossPermille) && LinkReady(x)
      ensures NoiseBalanced(LinkOne(cfg, x)) && DueSince(from, LinkOne(cfg, x), cfg.phase.lossPermille)
    {
      NoiseOne(cfg, x);
      DueOne(cfg, from, x);
    }
    LinkLoopKeeps(cfg, s, (x: State) => NoiseBalanced(x) && DueSince(from, x, cfg.phase.lossPermille));
  }

  lemma NoiseTick(env: Env, cfg: TickConfig, s: State)
    requires NoiseBalanced(s) && EvenLoss(cfg)
    ensures NoiseBalanced(Tick(env, cfg, s)) && DueSince(s, Tick(env, cfg, s), cfg.phase.lossPermille)
  {
    hide BeforeServe, LinkRate, EvenLoss, LinkLoop;
    BeforeServeKeepsLink(env, cfg, s);
    NoiseServe(cfg, s, EarnLink(cfg, BeforeServe(env, cfg, s)));
  }

  lemma {:induction false} NoiseRun(env: Env, sched: seq<TickConfig>, k: nat)
    requires k <= |sched| && forall m :: 0 <= m < k ==> EvenLoss(sched[m])
    ensures NoiseBalanced(After(env, sched, k))
  {
    hide Tick;
    if k == 0 {
    } else {
      NoiseRun(env, sched, k - 1);
      NoiseTick(env, sched[k - 1], After(env, sched, k - 1));
    }
  }

  /**
   Over a whole run the noise process drops exactly the floor of what the per-mille rates call
   for, phases of different rates included: the remainder is carried, never lost.
   */
  lemma EvenLossIsExact(env: Env, sched: seq<TickConfig>, k: nat)
    requires k <= |sched| && forall m :: 0 <= m < k ==> EvenLoss(sched[m])
    ensures var s := After(env, sched, k);
      NoiseDrops(s) == s.log.noiseDue / 1000 && s.noise == s.log.noiseDue % 1000
  {
    hide Tick;
    NoiseRun(env, sched, k);
  }

  lemma {:induction false} NoiseWindow(env: Env, sched: seq<TickConfig>, i: nat, j: nat, permille: nat)
    requires i <= j <= |sched| && forall m :: 0 <= m < j ==> EvenLoss(sched[m])
    requires forall m :: i <= m < j ==> sched[m].phase.lossPermille == permille
    ensures DueSince(After(env, sched, i), After(env, sched, j), permille)
    decreases j - i
  {
    hide Tick;
    if i >= j {
    } else {
      NoiseWindow(env, sched, i, j - 1, permille);
      NoiseRun(env, sched, j - 1);
      NoiseTick(env, sched[j - 1], After(env, sched, j - 1));
      var a, b := After(env, sched, i).log.served, After(env, sched, j - 1).log.served;
      var c := After(env, sched, j).log.served;
      Distribute(permille, b - a, c - b);
    }
  }

  /** Between two states the noise dropped the floor or the ceiling of `permille` of what was served. */
  ghost predicate FairShare(s: State, t: State, permille: nat) {
    && t.log.served >= s.log.served
    && var due := permille * (t.log.served - s.log.served);
       due / 1000 <= NoiseDrops(t) - NoiseDrops(s) <= CeilDiv(due, 1000)
  }

  /** Even loss is balanced too: any window at one rate drops the floor or the ceiling of its share. */
  lemma EvenLossIsBalanced(env: Env, sched: seq<TickConfig>, i: nat, j: nat, permille: nat)
    requires i <= j <= |sched| && forall m :: 0 <= m < j ==> EvenLoss(sched[m])
    requires forall m :: i <= m < j ==> sched[m].phase.lossPermille == permille
    ensures FairShare(After(env, sched, i), After(env, sched, j), permille)
  {
    hide Tick;
    NoiseWindow(env, sched, i, j, permille);
    NoiseRun(env, sched, i);
    NoiseRun(env, sched, j);
    BalancedIsFair(After(env, sched, i), After(env, sched, j), permille);
  }

  lemma BalancedIsFair(s: State, t: State, permille: nat)
    requires NoiseBalanced(s) && NoiseBalanced(t) && DueSince(s, t, permille)
    ensures FairShare(s, t, permille)
  {
    hide CeilDiv;
    FloorOrCeil(permille * (t.log.served - s.log.served), 1000, s.noise, t.noise, NoiseDrops(t) - NoiseDrops(s));
  }

  // The same at the granularity of single dequeues, from any point of the process.

  /** Drops among the next `k` dequeues of a phase, and the accumulator after them. */
  function EvenSteps(phase: Phase, acc: nat, k: nat): (nat, nat) {
    if k == 0 then (0, acc)
    else
      var (drops, a) := EvenSteps(phase, acc, k - 1);
      var (hit, next, _) := Noise(phase, a, 0);
      (drops + if hit then 1 else 0, next)
  }

  lemma {:induction false} EvenStepsClosedForm(phase: Phase, acc: nat, k: nat)
    requires phase.lossModel.Even? && phase.lossPermille <= 1000 && acc < 1000
    ensures EvenSteps(phase, acc, k) == ((acc + k * phase.lossPermille) / 1000, (acc + k * phase.lossPermille) % 1000)
  {
    if k == 0 {
    } else {
      EvenStepsClosedForm(phase, acc, k - 1);
      Distribute(phase.lossPermille, k, 1);
      NextThousand(acc + (k - 1) * phase.lossPermille, phase.lossPermille);
    }
  }

  lemma NextThousand(x: nat, p: nat)
    requires p <= 1000
    ensures var a := x % 1000 + p;
      if a >= 1000 then (x + p) / 1000 == x / 1000 + 1 && (x + p) % 1000 == a - 1000
      else (x + p) / 1000 == x / 1000 && (x + p) % 1000 == a
  {}

  /** Any `k` consecutive dequeues drop the floor or the ceiling of `k` times the rate. */
  lemma EvenStepsBalanced(phase: Phase, acc: nat, k: nat)
    requires phase.lossModel.Even? && phase.lossPermille <= 1000 && acc < 1000
    ensures k * phase.lossPermille / 1000 <= EvenSteps(phase, acc, k).0 <= CeilDiv(k * phase.lossPermille, 1000)
  {
    EvenStepsClosedForm(phase, acc, k);
    hide EvenSteps, CeilDiv;
    var x := acc + k * phase.lossPermille;
    FloorOrCeil(k * phase.lossPermille, 1000, acc, x % 1000, x / 1000);
  }

  lemma {:induction false} EvenStepsRunaway(phase: Phase, k: nat)
    requires phase.lossModel.Even? && phase.lossPermille > 1000
    ensures EvenSteps(phase, 0, k) == (k, k * (phase.lossPermille - 1000))
  {
    if k == 0 {
    } else {
      EvenStepsRunaway(phase, k - 1);
      assert (k - 1) * (phase.lossPermille - 1000) + phase.lossPermille - 1000 == k * (phase.lossPermille - 1000);
    }
  }

  /**
   The accumulator stays below one thousand for ever exactly when the configured rate is at
   most one thousand per mille. Nothing in the source rejects a larger rate.
   */
  lemma AccumulatorBoundedIff(phase: Phase)
    requires phase.lossModel.Even?
    ensures (forall k: nat :: EvenSteps(phase, 0, k).1 < 1000) <==> phase.lossPermille <= 1000
  {
    if phase.lossPermille <= 1000 {
      forall k: nat ensures EvenSteps(phase, 0, k).1 < 1000 {
        EvenStepsClosedForm(phase, 0, k);
      }
    } else {
      EvenStepsRunaway(phase, 1000);
      assert EvenSteps(phase, 0, 1000).1 >= 1000;
    }
  }
}
