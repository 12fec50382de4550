/**
 The delay bound of the bottleneck simulator. From any tick on, for as long as every tick has a
 queue limit no larger than a bound that also covers the backlog it started from, and a link no
 slower than a given rate, no segment waits longer than the bound takes to drain, whatever the
 estimator does and whatever happened before.
 */
module BottleneckDelay {
  import opened Wrappers
  import opened BottleneckModel
  import opened BottleneckConservation
  import opened BottleneckCurves
  import opened BottleneckFigures

  /** A stretch of a run: when it starts, how deep the queue may be, how slow the link. */
  datatype Stretch = Stretch(since: nat, limit: real, bps: real)

  /** Bytes a link at `bps` moves in `ns` nanoseconds. */
  function Drained(ns: nat, bps: real): real {
    ns as real * bps / 1_000_000_000.0
  }

  lemma DrainedAdds(a: nat, b: nat, bps: real)
    ensures Drained(a + b, bps) == Drained(a, bps) + Drained(b, bps)
  {
    assert (a + b) as real * bps == a as real * bps + b as real * bps;
  }

  lemma DrainedTick(bps: real)
    ensures Drained(TICK, bps) == PerTick(bps)
  {}

  // ----- What came back, in any run -----

  /** Everything delivered, and everything on its way back that will be, satisfies `p`. */
  ghost predicate AllBack(s: State, p: Returning -> bool) {
    && (forall i :: 0 <= i < |s.returning| && !s.returning[i].lost ==> p(s.returning[i]))
    && (forall i :: 0 <= i < |s.log.delivered| ==> p(s.log.delivered[i]))
  }

  lemma BackAck(env: Env, cfg: TickConfig, s: State, p: Returning -> bool)
    requires AllBack(s, p) && s.returning != []
    ensures AllBack(AckOne(env, cfg, s), p)
  {
    AckMoves(env, cfg, s);
    hide AckOne;
    var t := AckOne(env, cfg, s);
    assert forall i :: 0 <= i < |t.returning| ==> t.returning[i] == s.returning[i + 1];
  }

  lemma BackTailDrop(env: Env, cfg: TickConfig, s: State, seg: InFlight, p: Returning -> bool)
    requires AllBack(s, p)
    ensures AllBack(TailDrop(env, cfg, s, seg), p)
  {
    hide LinkRate, DrainNs, Place;
    var ackAt := cfg.now + DrainNs(s.queuedBytes, LinkRate(cfg.phase, cfg.into)) + 2 * PROPAGATION;
    var at := Place(s.returning, ackAt, env.place(s.returning, ackAt));
    var t := TailDrop(env, cfg, s, seg);
    forall i | 0 <= i < |t.returning| && !t.returning[i].lost ensures p(t.returning[i]) {
      assert i != at;
      assert t.returning[i] == s.returning[if i < at then i else i - 1];
    }
  }

  lemma BackLink(cfg: TickConfig, s: State, p: Returning -> bool)
    requires AllBack(s, p) && s.queue != [] && p(Returning(s.queue[0], cfg.now + 2 * PROPAGATION, false))
    ensures AllBack(LinkOne(cfg, s), p)
  {
    hide Noise;
    var t := LinkOne(cfg, s);
    assert forall i :: 0 <= i < |s.returning| ==> t.returning[i] == s.returning[i];
  }

  /** It travelled two propagations or more, and came back before `last`. */
  ghost predicate Travelled(r: Returning, last: nat) {
    r.seg.sentAt + 2 * PROPAGATION <= r.ackAt < last
  }

  ghost predicate SentBy(q: seq<InFlight>, at: nat) {
    forall i :: 0 <= i < |q| ==> q[i].sentAt <= at
  }

  /** No segment is queued before it is sent, or answered sooner than the path allows. */
  ghost predicate Causal(s: State, at: nat, last: nat) {
    SentBy(s.queue, at) && AllBack(s, r => Travelled(r, last))
  }

  lemma CausalLater(s: State, at: nat, last: nat, at': nat, last': nat)
    requires Causal(s, at, last) && at <= at' && last <= last'
    ensures Causal(s, at', last')
  {}

  /** The fields the two invariants look at, besides the link's credit. */
  ghost predicate SameTraffic(s: State, t: State) {
    && t.queue == s.queue && t.returning == s.returning && t.log.delivered == s.log.delivered
    && t.queuedBytes == s.queuedBytes
  }

  lemma CausalFrame(s: State, t: State, at: nat, last: nat)
    requires Causal(s, at, last) && SameTraffic(s, t)
    ensures Causal(t, at, last)
  {
    var p := (r: Returning) => Travelled(r, last);
    assert AllBack(s, p);
    hide Travelled;
    assert AllBack(t, p);
  }

  lemma CausalAcks(env: Env, cfg: TickConfig, s: State, at: nat, last: nat)
    requires Causal(s, at, last)
    ensures Causal(AckLoop(env, cfg, s), at, last)
  {
    forall x | Causal(x, at, last) && AckDue(x, cfg.now) ensures Causal(AckOne(env, cfg, x), at, last) {
      BackAck(env, cfg, x, r => Travelled(r, last));
      AckMoves(env, cfg, x);
      hide AckOne, AllBack;
    }
    AckLoopKeeps(env, cfg, s, (x: State) => Causal(x, at, last));
  }

  lemma CausalSend(env: Env, cfg: TickConfig, paced: bool, s: State, last: nat)
    requires Causal(s, cfg.now, last) && MaySend(env, paced, s)
    ensures Causal(SendOne(env, cfg, paced, s), cfg.now, last)
  {
    hide LinkRate, TailDrop;
    var p := Launch(env, paced, cfg.now, s);
    CausalFrame(s, p.0, cfg.now, last);
    BackTailDrop(env, cfg, p.0, p.1, r => Travelled(r, last));
    TailDropMoves(env, cfg, p.0, p.1);
    CausalEnqueue(p.0, p.1, cfg.now, last);
    hide Launch, Enqueue, AllBack;
  }

  lemma TailDropMoves(env: Env, cfg: TickConfig, s: State, seg: InFlight)
    ensures var t := TailDrop(env, cfg, s, seg);
      && t.queue == s.queue && t.log == s.log && t.queuedBytes == s.queuedBytes && t.linkCredit == s.linkCredit
  {
    hide LinkRate, DrainNs, Place;
  }

  lemma CausalEnqueue(s: State, seg: InFlight, now: nat, last: nat)
    requires Causal(s, now, last) && seg.sentAt == now
    ensures Causal(Enqueue(s, seg), now, last)
  {
    var t := Enqueue(s, seg);
    CausalFrame(s, t.(queue := s.queue, queuedBytes := s.queuedBytes), now, last);
    assert AllBack(s, r => Travelled(r, last)) ==> AllBack(t, r => Travelled(r, last));
  }

  lemma CausalSends(env: Env, cfg: TickConfig, paced: bool, s: State, last: nat)
    requires Causal(s, cfg.now, last)
    ensures Causal(SendLoop(env, cfg, paced, s), cfg.now, last)
  {
    forall x | Causal(x, cfg.now, last) && MaySend(env, paced, x)
      ensures Causal(SendOne(env, cfg, paced, x), cfg.now, last)
    {
      CausalSend(env, cfg, paced, x, last);
    }
    SendLoopKeeps(env, cfg, paced, s, (x: State) => Causal(x, cfg.now, last));
  }

  lemma CausalLink(cfg: TickConfig, s: State, last: nat)
    requires Causal(s, cfg.now, last) && s.queue != [] && last > cfg.now + 2 * PROPAGATION
    ensures Causal(LinkOne(cfg, s), cfg.now, last)
  {
    hide Noise;
    BackLink(cfg, s, r => Travelled(r, last));
    var t := LinkOne(cfg, s);
    assert forall i :: 0 <= i < |t.queue| ==> t.queue[i] == s.queue[i + 1];
    hide AllBack;
  }

  lemma CausalLinks(cfg: TickConfig, s: State, last: nat)
    requires Causal(s, cfg.now, last) && last > cfg.now + 2 * PROPAGATION
    ensures Causal(LinkLoop(cfg, s), cfg.now, last)
  {
    forall x | Causal(x, cfg.now, last) && LinkReady(x) ensures Causal(LinkOne(cfg, x), cfg.now, last) {
      CausalLink(cfg, x, last);
    }
    LinkLoopKeeps(cfg, s, (x: State) => Causal(x, cfg.now, last));
  }

  lemma CausalTick(env: Env, cfg: TickConfig, s: State)
    requires Causal(s, cfg.now, cfg.now + 2 * PROPAGATION)
    ensures Causal(Tick(env, cfg, s), cfg.now + TICK, cfg.now + TICK + 2 * PROPAGATION)
  {
    var last := cfg.now + TICK + 2 * PROPAGATION;
    CausalLater(s, cfg.now, cfg.now + 2 * PROPAGATION, cfg.now, last);
    hide Causal, LinkRate;
    CausalFrame(s, Open(cfg, s), cfg.now, last);
    CausalAcks(env, cfg, Open(cfg, s), cfg.now, last);
    var acked := AckLoop(env, cfg, Open(cfg, s));
    var offered := BeforeSend(env, cfg, s);
    CausalFrame(acked, offered, cfg.now, last);
    var paced, earned := Paced(env, offered), EarnPace(env, offered);
    CausalFrame(offered, earned, cfg.now, last);
    CausalSends(env, cfg, paced, earned, last);
    CausalServe(env, cfg, SendLoop(env, cfg, paced, earned), BeforeServe(env, cfg, s), last);
  }

  lemma CausalServe(env: Env, cfg: TickConfig, sent: State, s: State, last: nat)
    requires Causal(sent, cfg.now, last) && SameTraffic(sent, s) && last > cfg.now + 2 * PROPAGATION
    ensures Causal(Read(env, cfg, Serve(cfg, s)), cfg.now + TICK, last)
  {
    hide Causal, LinkRate, TrimRecent;
    CausalFrame(sent, EarnLink(cfg, s), cfg.now, last);
    CausalLinks(cfg, EarnLink(cfg, s), last);
    var linked := LinkLoop(cfg, EarnLink(cfg, s));
    var served := Serve(cfg, s);
    CausalFrame(linked, Read(env, cfg, served), cfg.now, last);
    CausalLater(Read(env, cfg, served), cfg.now, last, cfg.now + TICK, last);
  }

  ghost predicate Clocked(sched: seq<TickConfig>) {
    forall m :: 0 <= m < |sched| ==> sched[m].now == m * TICK
  }

  /** Of any run, whatever its phases: causes come before their effects. */
  lemma {:induction false} CausalRun(env: Env, sched: seq<TickConfig>, k: nat)
    requires k <= |sched| && Clocked(sched)
    ensures Causal(After(env, sched, k), k * TICK, k * TICK + 2 * PROPAGATION)
  {
    hide Tick, Causal;
    if k == 0 {
      CausalInitial();
    } else {
      CausalRun(env, sched, k - 1);
      CausalTick(env, sched[k - 1], After(env, sched, k - 1));
    }
  }

  lemma CausalInitial()
    ensures Causal(INITIAL, 0, 2 * PROPAGATION)
  {}

  // ----- The invariant of a stretch -----

  /** From when on a segment's waiting counts: when it was sent, or the start of the stretch. */
  function From(sentAt: nat, w: Stretch): nat {
    if sentAt < w.since then w.since else sentAt
  }

  /**
   Every queued segment and all before it fit in the limit, less what the link has moved since:
   a segment's age is paid for by the bytes ahead of it.
   */
  ghost predicate Lag(q: seq<InFlight>, at: nat, credit: real, w: Stretch) {
    forall i :: 0 <= i < |q| ==>
      && From(q[i].sentAt, w) <= at
      && SEGMENT as real * (i + 1) as real + Drained(at - From(q[i].sentAt, w), w.bps) <= w.limit + credit
  }

  /** No queued segment has waited longer than the limit takes to drain. */
  ghost predicate Young(q: seq<InFlight>, at: nat, w: Stretch) {
    forall i :: 0 <= i < |q| ==> InTime(From(q[i].sentAt, w), at, w)
  }

  ghost predicate InTime(from: nat, at: nat, w: Stretch) {
    from <= at && (at - from) % TICK == 0 && Drained(at - from, w.bps) < w.limit
  }

  /** What left the bottleneck within the stretch left it in time. */
  ghost predicate Prompt(r: Returning, w: Stretch) {
    r.ackAt >= w.since + 2 * PROPAGATION ==> InTime(From(r.seg.sentAt, w), r.ackAt - 2 * PROPAGATION, w)
  }

  ghost predicate AllPrompt(s: State, w: Stretch) {
    AllBack(s, r => Prompt(r, w))
  }

  ghost predicate Shallow(s: State, w: Stretch) {
    s.queuedBytes as real <= w.limit
  }

  ghost predicate OnTime(s: State, at: nat, w: Stretch) {
    Lag(s.queue, at, s.linkCredit, w) && Young(s.queue, at, w) && AllPrompt(s, w) && Shallow(s, w)
  }

  /** What the bound assumes of a tick: a limit no larger than the stretch's, a rate no smaller. */
  ghost predicate Bounded(cfg: TickConfig, w: Stretch) {
    && cfg.now >= w.since && cfg.now % TICK == 0
    && cfg.phase.queueLimit.Some? && cfg.phase.queueLimit.value as real <= w.limit
    && LinkRate(cfg.phase, cfg.into) >= w.bps
  }

  // ----- Stage by stage -----

  lemma OnTimeFrame(s: State, t: State, at: nat, w: Stretch)
    requires OnTime(s, at, w) && SameTraffic(s, t) && t.linkCredit == s.linkCredit
    ensures OnTime(t, at, w)
  {
    hide Lag, Young, Prompt;
    var p := (r: Returning) => Prompt(r, w);
    assert AllBack(s, p);
    assert AllBack(t, p);
  }

  lemma OnTimeAcks(env: Env, cfg: TickConfig, s: State, at: nat, w: Stretch)
    requires OnTime(s, at, w)
    ensures OnTime(AckLoop(env, cfg, s), at, w)
  {
    forall x | OnTime(x, at, w) && AckDue(x, cfg.now) ensures OnTime(AckOne(env, cfg, x), at, w) {
      BackAck(env, cfg, x, r => Prompt(r, w));
      AckMoves(env, cfg, x);
      AckKeepsLink(env, cfg, x);
      hide AckOne, AllBack, Lag, Young;
    }
    AckLoopKeeps(env, cfg, s, (x: State) => OnTime(x, at, w));
  }

  lemma AckKeepsLink(env: Env, cfg: TickConfig, s: State)
    requires s.returning != []
    ensures var t := AckOne(env, cfg, s); t.linkCredit == s.linkCredit && t.queuedBytes == s.queuedBytes
  {}

  lemma OnTimeEnqueue(s: State, seg: InFlight, now: nat, w: Stretch)
    requires OnTime(s, now, w) && s.linkCredit >= 0.0 && s.queuedBytes == SEGMENT * |s.queue|
    requires seg.sentAt == now >= w.since && (s.queuedBytes + SEGMENT) as real <= w.limit
    ensures OnTime(Enqueue(s, seg), now, w)
  {
    var t := Enqueue(s, seg);
    assert Drained(0, w.bps) == 0.0;
    assert SEGMENT as real * (|s.queue| + 1) as real == (s.queuedBytes + SEGMENT) as real;
    assert forall i :: 0 <= i < |s.queue| ==> t.queue[i] == s.queue[i];
    assert t.queue[|s.queue|] == seg && From(now, w) == now;
    assert AllBack(s, r => Prompt(r, w)) ==> AllBack(t, r => Prompt(r, w));
    hide AllBack, Drained;
  }

  lemma OnTimeTailDrop(env: Env, cfg: TickConfig, s: State, seg: InFlight, at: nat, w: Stretch)
    requires OnTime(s, at, w)
    ensures OnTime(TailDrop(env, cfg, s, seg), at, w)
  {
    BackTailDrop(env, cfg, s, seg, r => Prompt(r, w));
    TailDropMoves(env, cfg, s, seg);
    hide TailDrop, AllBack, Lag, Young;
  }

  ghost predicate SendPhase(s: State, now: nat, w: Stretch) {
    OnTime(s, now, w) && Booked(s) && s.linkCredit >= 0.0
  }

  lemma OnTimeSend(env: Env, cfg: TickConfig, paced: bool, s: State, w: Stretch)
    requires SendPhase(s, cfg.now, w) && Bounded(cfg, w) && MaySend(env, paced, s)
    ensures SendPhase(SendOne(env, cfg, paced, s), cfg.now, w)
  {
    BookedSend(env, cfg, paced, s);
    hide LinkRate, TailDrop, OnTime, Flight;
    var p := Launch(env, paced, cfg.now, s);
    OnTimeFrame(s, p.0, cfg.now, w);
    if QueueFull(cfg.phase, p.0) {
      OnTimeTailDrop(env, cfg, p.0, p.1, cfg.now, w);
      TailDropMoves(env, cfg, p.0, p.1);
    } else {
      OnTimeEnqueue(p.0, p.1, cfg.now, w);
    }
  }

  lemma OnTimeSends(env: Env, cfg: TickConfig, paced: bool, s: State, w: Stretch)
    requires SendPhase(s, cfg.now, w) && Bounded(cfg, w)
    ensures SendPhase(SendLoop(env, cfg, paced, s), cfg.now, w)
  {
    forall x | SendPhase(x, cfg.now, w) && MaySend(env, paced, x)
      ensures SendPhase(SendOne(env, cfg, paced, x), cfg.now, w)
    {
      OnTimeSend(env, cfg, paced, x, w);
    }
    SendLoopKeeps(env, cfg, paced, s, (x: State) => SendPhase(x, cfg.now, w));
  }

  /** While the link serves at `now`, ages are already counted to the next tick. */
  ghost predicate LinkPhase(s: State, now: nat, w: Stretch) {
    && Lag(s.queue, now + TICK, s.linkCredit, w)
    && Young(s.queue, now, w)
    && WholeSegments(s.queue)
    && AllPrompt(s, w)
    && Shallow(s, w)
  }

  lemma LagEarns(q: seq<InFlight>, now: nat, credit: real, w: Stretch, earned: real)
    requires Lag(q, now, credit, w) && earned >= PerTick(w.bps)
    ensures Lag(q, now + TICK, credit + earned, w)
  {
    forall i | 0 <= i < |q|
      ensures From(q[i].sentAt, w) <= now + TICK
      ensures SEGMENT as real * (i + 1) as real + Drained(now + TICK - From(q[i].sentAt, w), w.bps)
           <= w.limit + credit + earned
    {
      DrainedAdds(now - From(q[i].sentAt, w), TICK, w.bps);
      DrainedTick(w.bps);
      hide Drained, From;
    }
  }

  lemma LagServed(q: seq<InFlight>, at: nat, credit: real, w: Stretch)
    requires q != [] && Lag(q, at, credit, w)
    ensures Lag(q[1..], at, credit - SEGMENT as real, w)
  {
    hide Drained, From;
    forall i | 0 <= i < |q| - 1
      ensures From(q[1..][i].sentAt, w) <= at
      ensures SEGMENT as real * (i + 1) as real + Drained(at - From(q[1..][i].sentAt, w), w.bps)
           <= w.limit + credit - SEGMENT as real
    {
      assert q[1..][i] == q[i + 1];
      assert SEGMENT as real * (i + 2) as real == SEGMENT as real * (i + 1) as real + SEGMENT as real;
    }
  }

  lemma OnTimeLink(cfg: TickConfig, s: State, w: Stretch)
    requires LinkPhase(s, cfg.now, w) && s.queue != []
    ensures LinkPhase(LinkOne(cfg, s), cfg.now, w)
  {
    hide Noise, Drained;
    LagServed(s.queue, cfg.now + TICK, s.linkCredit, w);
    assert InTime(From(s.queue[0].sentAt, w), cfg.now, w);
    BackLink(cfg, s, r => Prompt(r, w));
    var t := LinkOne(cfg, s);
    assert forall i :: 0 <= i < |t.queue| ==> t.queue[i] == s.queue[i + 1];
    hide Lag, AllBack;
  }

  lemma OnTimeLinks(cfg: TickConfig, s: State, w: Stretch)
    requires LinkPhase(s, cfg.now, w)
    ensures LinkPhase(LinkLoop(cfg, s), cfg.now, w) && !LinkReady(LinkLoop(cfg, s))
  {
    forall x | LinkPhase(x, cfg.now, w) && LinkReady(x) ensures LinkPhase(LinkOne(cfg, x), cfg.now, w) {
      OnTimeLink(cfg, x, w);
    }
    LinkLoopKeeps(cfg, s, (x: State) => LinkPhase(x, cfg.now, w));
  }

  /** A queue the link left standing is still young at the next tick: the credit ran out first. */
  lemma StillYoung(q: seq<InFlight>, now: nat, credit: real, w: Stretch)
    requires Lag(q, now + TICK, credit, w) && Young(q, now, w) && credit < SEGMENT as real
    ensures Young(q, now + TICK, w)
  {
    hide Drained, From;
    forall i | 0 <= i < |q| ensures InTime(From(q[i].sentAt, w), now + TICK, w) {
      var from := From(q[i].sentAt, w);
      assert InTime(from, now, w);
      assert SEGMENT as real * (i + 1) as real >= SEGMENT as real;
      assert (now + TICK - from) % TICK == 0;
    }
  }

  lemma OnTimeServe(cfg: TickConfig, s: State, w: Stretch)
    requires SendPhase(s, cfg.now, w) && Bounded(cfg, w)
    ensures OnTime(Serve(cfg, s), cfg.now + TICK, w)
  {
    hide LinkRate, Drained, From, Flight, LinkLoop;
    LagEarns(s.queue, cfg.now, s.linkCredit, w, PerTick(LinkRate(cfg.phase, cfg.into)));
    var earned := EarnLink(cfg, s);
    assert AllBack(s, r => Prompt(r, w)) ==> AllBack(earned, r => Prompt(r, w));
    OnTimeLinks(cfg, earned, w);
    var t := LinkLoop(cfg, earned);
    if t.queue != [] {
      StillYoung(t.queue, cfg.now, t.linkCredit, w);
    }
    assert AllBack(t, r => Prompt(r, w)) ==> AllBack(CapIdle(t), r => Prompt(r, w));
    hide Lag, Young, AllBack;
  }

  // ----- Every tick of a stretch -----

  lemma OnTimeBeforeSend(env: Env, cfg: TickConfig, s: State, w: Stretch)
    requires OnTime(s, cfg.now, w)
    ensures OnTime(BeforeSend(env, cfg, s), cfg.now, w)
  {
    hide OnTime;
    OnTimeFrame(s, Open(cfg, s), cfg.now, w);
    OnTimeAcks(env, cfg, Open(cfg, s), cfg.now, w);
    OnTimeFrame(AckLoop(env, cfg, Open(cfg, s)), BeforeSend(env, cfg, s), cfg.now, w);
  }

  lemma OnTimeSendStage(env: Env, cfg: TickConfig, s: State, w: Stretch)
    requires SendPhase(s, cfg.now, w) && Bounded(cfg, w)
    ensures OnTime(Send(env, cfg, s), cfg.now, w)
  {
    var earned, paced := EarnPace(env, s), Paced(env, s);
    assert Booked(earned);
    hide OnTime, Bounded, Flight, LinkRate;
    OnTimeFrame(s, earned, cfg.now, w);
    OnTimeSends(env, cfg, paced, earned, w);
    OnTimeFrame(SendLoop(env, cfg, paced, earned), Send(env, cfg, s), cfg.now, w);
  }

  lemma OnTimeRead(env: Env, cfg: TickConfig, s: State, at: nat, w: Stretch)
    requires OnTime(s, at, w)
    ensures OnTime(Read(env, cfg, s), at, w)
  {
    hide OnTime, TrimRecent, LinkRate;
    OnTimeFrame(s, Read(env, cfg, s), at, w);
  }

  /** One tick of a stretch keeps the age of every queued segment paid for by the bytes ahead of it. */
  lemma OnTimeTick(env: Env, cfg: TickConfig, s: State, w: Stretch)
    requires OnTime(s, cfg.now, w) && Accounted(s) && LinkPoised(s) && Bounded(cfg, w)
    ensures OnTime(Tick(env, cfg, s), cfg.now + TICK, w)
  {
    hide BeforeSend, Send, Serve, Read, LinkRate, OnTime, Bounded, Conserved, SignalledOnce, Flight;
    var offered, sent := BeforeSend(env, cfg, s), BeforeServe(env, cfg, s);
    OnTimeBeforeSend(env, cfg, s, w);
    AccountedBeforeSend(env, cfg, s);
    BeforeSendKeepsLink(env, cfg, s);
    OnTimeSendStage(env, cfg, offered, w);
    AccountedBeforeServe(env, cfg, s);
    BeforeServeKeepsLink(env, cfg, s);
    OnTimeServe(cfg, sent, w);
    OnTimeRead(env, cfg, Serve(cfg, sent), cfg.now + TICK, w);
  }

  /** What a stretch of ticks `i` up to `k` asks: every tick bounded, and its first backlog within the limit. */
  ghost predicate Stretches(env: Env, sched: seq<TickConfig>, i: nat, k: nat, w: Stretch) {
    && i <= k <= |sched| && Clocked(sched) && w.since == i * TICK
    && RatesNonnegative(sched, i) && w.bps >= 0.0
    && After(env, sched, i).queuedBytes as real <= w.limit
    && forall m :: i <= m < k ==> Bounded(sched[m], w)
  }

  lemma StretchRates(env: Env, sched: seq<TickConfig>, i: nat, k: nat, w: Stretch)
    requires Stretches(env, sched, i, k, w)
    ensures RatesNonnegative(sched, k)
  {
    hide LinkRate, After;
    forall m | 0 <= m < k ensures LinkRate(sched[m].phase, sched[m].into) >= 0.0 {
      assert m >= i ==> Bounded(sched[m], w);
    }
  }

  /** Whatever came before, the stretch starts with its backlog in time. */
  lemma OnTimeStart(s: State, w: Stretch)
    requires Causal(s, w.since, w.since + 2 * PROPAGATION) && Booked(s) && s.linkCredit >= 0.0
    requires s.queuedBytes as real <= w.limit
    ensures OnTime(s, w.since, w)
  {
    assert Drained(0, w.bps) == 0.0;
    forall i | 0 <= i < |s.queue|
      ensures From(s.queue[i].sentAt, w) == w.since && SEGMENT as real * (i + 1) as real <= w.limit && w.limit > 0.0
    {
      assert SEGMENT * (i + 1) <= SEGMENT * |s.queue| == s.queuedBytes;
    }
    assert AllBack(s, r => Travelled(r, w.since + 2 * PROPAGATION));
    hide Drained, Flight;
    assert forall r :: Travelled(r, w.since + 2 * PROPAGATION) ==> Prompt(r, w);
  }

  lemma OnTimeBase(env: Env, sched: seq<TickConfig>, i: nat, w: Stretch)
    requires Stretches(env, sched, i, i, w)
    ensures OnTime(After(env, sched, i), i * TICK, w)
  {
    hide After, OnTime, Causal, Booked, Conserved, SignalledOnce, RatesNonnegative, Bounded;
    AccountedRun(env, sched, i);
    PoisedRun(env, sched, i);
    CausalRun(env, sched, i);
    OnTimeStart(After(env, sched, i), w);
  }

  lemma OnTimeNext(env: Env, sched: seq<TickConfig>, i: nat, k: nat, w: Stretch)
    requires Stretches(env, sched, i, k + 1, w) && i <= k && OnTime(After(env, sched, k), k * TICK, w)
    ensures OnTime(After(env, sched, k + 1), (k + 1) * TICK, w)
  {
    hide Tick, After, OnTime, Bounded, Accounted, LinkPoised, RatesNonnegative;
    StretchRates(env, sched, i, k, w);
    AccountedRun(env, sched, k);
    PoisedRun(env, sched, k);
    AfterNext(env, sched, k);
    OnTimeTick(env, sched[k], After(env, sched, k), w);
  }

  lemma {:induction false} OnTimeRun(env: Env, sched: seq<TickConfig>, i: nat, k: nat, w: Stretch)
    requires Stretches(env, sched, i, k, w)
    ensures OnTime(After(env, sched, k), k * TICK, w)
    decreases k - i
  {
    hide After, OnTime, Bounded, RatesNonnegative;
    if i == k {
      OnTimeBase(env, sched, i, w);
    } else {
      OnTimeRun(env, sched, i, k - 1, w);
      OnTimeNext(env, sched, i, k - 1, w);
    }
  }

  // ----- The theorem -----

  /** A ramp between two rates of at least `bps` never falls below `bps`. */
  lemma RampBounded(phase: Phase, into: nat, bps: real)
    requires phase.linkStartBps >= bps && phase.linkEndBps >= bps && into < phase.duration
    ensures LinkRate(phase, into) >= bps
  {
    var f := into as real / phase.duration as real;
    assert 0.0 <= f <= 1.0;
    assert LinkRate(phase, into) == phase.linkStartBps * (1.0 - f) + phase.linkEndBps * f;
    assert phase.linkStartBps * (1.0 - f) >= bps * (1.0 - f);
    assert phase.linkEndBps * f >= bps * f;
  }

  function Ceil(x: real): int {
    -((-x).Floor)
  }

  /** Ticks the limit takes to drain at the lowest rate, the tick of arrival included. */
  function DrainTicks(w: Stretch): int
    requires w.bps > 0.0
  {
    Ceil(w.limit / PerTick(w.bps))
  }

  lemma InTimeTicks(from: nat, at: nat, w: Stretch)
    requires w.bps > 0.0 && InTime(from, at, w)
    ensures at - from <= (DrainTicks(w) - 1) * TICK
  {
    var n := (at - from) / TICK;
    assert at - from == n * TICK;
    var c := PerTick(w.bps);
    assert Drained(at - from, w.bps) == n as real * c by {
      assert (n * TICK) as real * w.bps / 1_000_000_000.0 == n as real * (TICK as real * w.bps / 1_000_000_000.0);
    }
    QuotientAbove(n as real, c, w.limit);
    assert n as real < w.limit / c <= DrainTicks(w) as real;
  }

  lemma QuotientAbove(n: real, c: real, l: real)
    requires c > 0.0 && n * c < l
    ensures n < l / c
  {
    var q := l / c;
    assert q * c == l;
    assert n >= q ==> n * c >= q * c;
  }

  /** One answer's bound. */
  lemma AnsweredInTime(r: Returning, last: nat, w: Stretch)
    requires w.bps > 0.0 && Prompt(r, w) && Travelled(r, last)
    ensures r.seg.sentAt >= w.since ==>
      2 * PROPAGATION <= r.ackAt - r.seg.sentAt <= 2 * PROPAGATION + (DrainTicks(w) - 1) * TICK
    ensures r.ackAt >= w.since + 2 * PROPAGATION && r.seg.sentAt < w.since ==>
      r.ackAt <= w.since + 2 * PROPAGATION + (DrainTicks(w) - 1) * TICK
  {
    hide DrainTicks, InTime;
    if r.ackAt >= w.since + 2 * PROPAGATION {
      InTimeTicks(From(r.seg.sentAt, w), r.ackAt - 2 * PROPAGATION, w);
    }
  }

  /** Delivered, or on its way to be. */
  ghost predicate Back(s: State, r: Returning) {
    r in s.log.delivered || (r in s.returning && !r.lost)
  }

  lemma BackIs(s: State, r: Returning, p: Returning -> bool)
    requires AllBack(s, p) && Back(s, r)
    ensures p(r)
  {}

  /**
   After any stretch of ticks, whatever came before it and whatever comes after: a segment sent
   within the stretch is answered between two propagation delays and that plus the ticks the
   limit takes to drain less one; what leaves of the backlog the stretch started from leaves within
   those ticks of its start; and nothing still queued has waited longer. The estimator is arbitrary.
   */
  lemma FifoDelayBound(env: Env, sched: seq<TickConfig>, i: nat, k: nat, w: Stretch)
    requires Stretches(env, sched, i, k, w) && w.bps > 0.0
    ensures var s := After(env, sched, k);
      && (forall r :: Back(s, r) && r.seg.sentAt >= w.since ==>
            2 * PROPAGATION <= r.ackAt - r.seg.sentAt <= 2 * PROPAGATION + (DrainTicks(w) - 1) * TICK)
      && (forall r :: Back(s, r) && r.seg.sentAt < w.since && r.ackAt >= w.since + 2 * PROPAGATION ==>
            r.ackAt <= w.since + 2 * PROPAGATION + (DrainTicks(w) - 1) * TICK)
      && (forall q :: q in s.queue ==> k * TICK - From(q.sentAt, w) <= (DrainTicks(w) - 1) * TICK)
  {
    var s, last := After(env, sched, k), k * TICK + 2 * PROPAGATION;
    OnTimeRun(env, sched, i, k, w);
    CausalRun(env, sched, k);
    hide After, InTime, LinkRate, DrainTicks, Stretches, Travelled, Prompt, Lag, From;
    forall r | Back(s, r)
      ensures r.seg.sentAt >= w.since ==>
        2 * PROPAGATION <= r.ackAt - r.seg.sentAt <= 2 * PROPAGATION + (DrainTicks(w) - 1) * TICK
      ensures r.seg.sentAt < w.since && r.ackAt >= w.since + 2 * PROPAGATION ==>
        r.ackAt <= w.since + 2 * PROPAGATION + (DrainTicks(w) - 1) * TICK
    {
      BackIs(s, r, x => Prompt(x, w));
      BackIs(s, r, x => Travelled(x, last));
      AnsweredInTime(r, last, w);
    }
    forall q | q in s.queue ensures k * TICK - From(q.sentAt, w) <= (DrainTicks(w) - 1) * TICK {
      InTimeTicks(From(q.sentAt, w), k * TICK, w);
    }
  }

  /** Ticks before the stretch are not of the final phase. */
  ghost predicate FinalWithin(sched: seq<TickConfig>, i: nat) {
    i <= |sched| && forall m :: 0 <= m < i ==> !sched[m].final
  }

  /** Before the final phase nothing is read for it. */
  lemma {:induction false} NoDepths(env: Env, sched: seq<TickConfig>, i: nat)
    requires FinalWithin(sched, i)
    ensures Depths(env, sched, i) == []
  {
    hide After;
    if i == 0 {
    } else {
      NoDepths(env, sched, i - 1);
    }
  }

  lemma {:induction false} DepthsWithin(env: Env, sched: seq<TickConfig>, i: nat, k: nat, w: Stretch)
    requires Stretches(env, sched, i, k, w) && FinalWithin(sched, i)
    ensures forall d :: d in Depths(env, sched, k) ==> d as real <= w.limit
    decreases k - i
  {
    hide After, Lag, Young, AllPrompt, LinkRate;
    if i == k {
      NoDepths(env, sched, i);
    } else {
      DepthsWithin(env, sched, i, k - 1, w);
      OnTimeRun(env, sched, i, k, w);
    }
  }

  /** A delivery's round trip in milliseconds, under the bound of one sent within the stretch. */
  lemma RttWithin(env: Env, sched: seq<TickConfig>, i: nat, k: nat, w: Stretch, r: Returning)
    requires Stretches(env, sched, i, k, w) && w.bps > 0.0 && r.seg.sentAt >= w.since
    requires r in FinalDeliveries(env, sched, k)
    ensures RttMs(r) <= 200 + DrainTicks(w) - 1
  {
    FinalDelivered(env, sched, k, r);
    FifoDelayBound(env, sched, i, k, w);
    hide After, Stretches, DrainTicks;
    assert Back(After(env, sched, k), r);
  }

  /**
   The two figures the `collapse` report prints, for a final phase that opens within the stretch.
   The deepest standing queue is within the limit. The widest round trip is within the delay bound
   exactly unless a segment sent before the stretch exceeds it, and it is no wider than its widest.
   */
  lemma ReportedExtremes(env: Env, sched: seq<TickConfig>, i: nat, k: nat, w: Stretch)
    requires Stretches(env, sched, i, k, w) && w.bps > 0.0 && FinalWithin(sched, i)
    ensures var s, finals, bound := After(env, sched, k), FinalDeliveries(env, sched, k), 200 + DrainTicks(w) - 1;
      && s.rec.finalQueueMax as real <= w.limit
      && (forall r :: r in finals && r.seg.sentAt >= w.since ==> RttMs(r) <= bound)
      && (s.rec.maxRttInFinalMs <= bound <==> forall r :: r in finals && r.seg.sentAt < w.since ==> RttMs(r) <= bound)
  {
    QueueFigures(env, sched, k);
    DepthsWithin(env, sched, i, k, w);
    BacklogWithin(env, sched, i, k, w);
    WidestFigure(env, sched, k);
    var s, finals, bound := After(env, sched, k), FinalDeliveries(env, sched, k), 200 + DrainTicks(w) - 1;
    hide After, Stretches, DrainTicks, FinalWithin, FinalDeliveries, Depths, RttMs;
    forall r | r in finals && r.seg.sentAt >= w.since ensures RttMs(r) <= bound {
      RttWithin(env, sched, i, k, w, r);
    }
    WidestIff(s.rec.maxRttInFinalMs, finals, bound);
  }

  lemma BacklogWithin(env: Env, sched: seq<TickConfig>, i: nat, k: nat, w: Stretch)
    requires Stretches(env, sched, i, k, w) && w.bps > 0.0
    ensures w.limit >= 0.0 && DrainTicks(w) >= 0
  {
    hide After;
    assert w.limit / PerTick(w.bps) >= 0.0;
  }

  /** A largest is within a bound exactly when everything is. */
  lemma WidestIff(m: nat, ds: seq<Returning>, bound: int)
    requires Largest(m, Rtts(ds)) && bound >= 0
    ensures m <= bound <==> forall r :: r in ds ==> RttMs(r) <= bound
  {
    hide RttMs;
    forall r | r in ds ensures RttMs(r) in Rtts(ds) {
      var n :| 0 <= n < |ds| && ds[n] == r;
      assert Rtts(ds)[n] == RttMs(r);
    }
    if m <= bound {
    } else {
      var n :| 0 <= n < |Rtts(ds)| && Rtts(ds)[n] == m;
      assert ds[n] in ds && RttMs(ds[n]) == m;
    }
  }

  // ----- Whole runs -----

  ghost predicate BoundedPhases(phases: seq<Phase>, limit: nat, bps: real) {
    forall p :: p in phases ==>
      && p.queueLimit.Some? && p.queueLimit.value <= limit
      && p.linkStartBps >= bps && p.linkEndBps >= bps
  }

  /** Every phase with a limit and a rate: then the whole run is one stretch, from an empty queue. */
  lemma WholeRunStretches(env: Env, phases: seq<Phase>, k: nat, limit: nat, bps: real)
    requires k <= |Schedule(phases, 0)| && bps >= 0.0 && BoundedPhases(phases, limit, bps)
    ensures var sched := Schedule(phases, 0);
      Stretches(env, sched, 0, k, Stretch(0, limit as real, bps)) && FinalWithin(sched, 0)
  {
    var sched, w := Schedule(phases, 0), Stretch(0, limit as real, bps);
    ScheduleClock(phases, 0);
    hide Schedule, LinkRate;
    forall m | 0 <= m < |sched| ensures sched[m].now == m * TICK && Bounded(sched[m], w) {
      RampBounded(sched[m].phase, sched[m].into, bps);
    }
  }
}
