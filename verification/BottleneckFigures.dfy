/**
 What the simulator records, said over the run: each figure is the sum, the number, the largest or
 the least of something read off the states the run went through. Nothing here names the field a
 figure is kept in except to say what it holds.
 */
module BottleneckFigures {
  import opened Wrappers
  import opened WindowedMaximum
  import opened BottleneckModel
  import opened BottleneckConservation

  // ----- Sums and extremes of a list -----

  function Sum(xs: seq<nat>): nat {
    if xs == [] then 0 else Sum(xs[..|xs| - 1]) + xs[|xs| - 1]
  }

  function SumReal(xs: seq<real>): real {
    if xs == [] then 0.0 else SumReal(xs[..|xs| - 1]) + xs[|xs| - 1]
  }

  lemma SumPush(xs: seq<nat>, x: nat)
    ensures Sum(xs + [x]) == Sum(xs) + x
  {
    assert (xs + [x])[..|xs|] == xs;
  }

  lemma SumRealPush(xs: seq<real>, x: real)
    ensures SumReal(xs + [x]) == SumReal(xs) + x
  {
    assert (xs + [x])[..|xs|] == xs;
  }

  /** The largest of the list, and one of it; zero of none. */
  ghost predicate Largest(m: nat, xs: seq<nat>) {
    (if xs == [] then m == 0 else m in xs) && forall x :: x in xs ==> x <= m
  }

  lemma LargestPush(m: nat, xs: seq<nat>, x: nat)
    requires Largest(m, xs)
    ensures Largest(Max(m, x), xs + [x])
  {
    assert x in xs + [x];
  }

  /** The least of the list, and one of it; none of none. */
  ghost predicate Least(m: Option<real>, xs: seq<real>) {
    if xs == [] then m.None? else m.Some? && m.value in xs && forall x :: x in xs ==> m.value <= x
  }

  lemma LeastPush(m: Option<real>, xs: seq<real>, x: real)
    requires Least(m, xs)
    ensures Least(Some(if m.Some? && m.value <= x then m.value else x), xs + [x])
  {
    assert x in xs + [x];
  }

  // ----- What only the end of a tick reads -----

  /** The figures that only the readings at the end of a tick change. */
  ghost predicate SameFigures(s: State, t: State) {
    t.rec.final == s.rec.final && t.rec.fidelity == s.rec.fidelity && t.rec.finalQueueMax == s.rec.finalQueueMax
  }

  lemma FiguresAcks(env: Env, cfg: TickConfig, s: State)
    ensures SameFigures(s, AckLoop(env, cfg, s))
  {
    hide Pushed;
    AckLoopKeeps(env, cfg, s, x => SameFigures(s, x));
  }

  lemma FiguresSends(env: Env, cfg: TickConfig, paced: bool, s: State)
    ensures SameFigures(s, SendLoop(env, cfg, paced, s))
  {
    hide LinkRate, DrainNs, Place;
    SendLoopKeeps(env, cfg, paced, s, x => SameFigures(s, x));
  }

  lemma FiguresLinks(cfg: TickConfig, s: State)
    ensures SameFigures(s, LinkLoop(cfg, s))
  {
    hide Noise;
    LinkLoopKeeps(cfg, s, x => SameFigures(s, x));
  }

  /** The state the readings are taken of. */
  function BeforeRead(env: Env, cfg: TickConfig, s: State): State {
    Serve(cfg, BeforeServe(env, cfg, s))
  }

  lemma FiguresBeforeRead(env: Env, cfg: TickConfig, s: State)
    ensures SameFigures(s, BeforeRead(env, cfg, s)) && Tick(env, cfg, s) == Read(env, cfg, BeforeRead(env, cfg, s))
  {
    hide AckLoop, SendLoop, LinkLoop, LinkRate, Read;
    FiguresAcks(env, cfg, Open(cfg, s));
    var offered := BeforeSend(env, cfg, s);
    FiguresSends(env, cfg, Paced(env, offered), EarnPace(env, offered));
    FiguresLinks(cfg, EarnLink(cfg, BeforeServe(env, cfg, s)));
  }

  // ----- The standing queue -----

  /** How deep the queue stood at the end of each tick of the final phase. */
  function Depths(env: Env, sched: seq<TickConfig>, k: nat): seq<nat>
    requires k <= |sched|
  {
    if k == 0 then []
    else
      var before := Depths(env, sched, k - 1);
      if sched[k - 1].final then before + [After(env, sched, k).queuedBytes] else before
  }

  /** What a tick reads of the queue it leaves. */
  lemma DepthTick(env: Env, cfg: TickConfig, s: State)
    ensures var t := Tick(env, cfg, s);
      var a, b := s.rec, t.rec;
      && b.final.queueSum == a.final.queueSum + (if cfg.final then t.queuedBytes else 0)
      && b.final.queueTicks == a.final.queueTicks + (if cfg.final then 1 else 0)
      && b.finalQueueMax == (if cfg.final then Max(a.finalQueueMax, t.queuedBytes) else a.finalQueueMax)
  {
    FiguresBeforeRead(env, cfg, s);
    hide BeforeRead, Tick, NinetyReached, TrimRecent, ReadFidelity;
  }

  /** At every tick of every run: the sum, the number and the largest of those depths. */
  lemma {:induction false} QueueFigures(env: Env, sched: seq<TickConfig>, k: nat)
    requires k <= |sched|
    ensures var rec, depths := After(env, sched, k).rec, Depths(env, sched, k);
      && rec.final.queueSum == Sum(depths) && rec.final.queueTicks == |depths|
      && Largest(rec.finalQueueMax, depths)
  {
    hide Tick;
    if k == 0 {
    } else {
      QueueFigures(env, sched, k - 1);
      DepthTick(env, sched[k - 1], After(env, sched, k - 1));
      AfterNext(env, sched, k - 1);
      var before, depth := Depths(env, sched, k - 1), After(env, sched, k).queuedBytes;
      hide After, Sum, Largest;
      SumPush(before, depth);
      LargestPush(After(env, sched, k - 1).rec.finalQueueMax, before, depth);
    }
  }

  // ----- The estimator against the reference -----

  /** The estimate over the windowed maximum of every rate offered by then. */
  function Ratio(env: Env, s: State): real
    requires Head(s.reference) > 0
  {
    env.estimator(s.calls).bandwidth as real / Head(s.reference) as real
  }

  /** That ratio at the end of each tick that has a reference. */
  function Ratios(env: Env, sched: seq<TickConfig>, k: nat): seq<real>
    requires k <= |sched|
  {
    if k == 0 then []
    else
      var before, s := Ratios(env, sched, k - 1), After(env, sched, k);
      if Head(s.reference) > 0 then before + [Ratio(env, s)] else before
  }

  lemma RatioTick(env: Env, cfg: TickConfig, s: State)
    ensures var t := Tick(env, cfg, s);
      t.rec.fidelity == ReadFidelity(env.estimator(t.calls).bandwidth, Head(t.reference), s.rec.fidelity)
  {
    FiguresBeforeRead(env, cfg, s);
    hide BeforeRead, Tick, NinetyReached, TrimRecent, ReadFidelity;
  }

  /** At every tick of every run: the least, the sum and the number of those ratios. */
  lemma {:induction false} FidelityFigures(env: Env, sched: seq<TickConfig>, k: nat)
    requires k <= |sched|
    ensures var f, ratios := After(env, sched, k).rec.fidelity, Ratios(env, sched, k);
      Least(f.worst, ratios) && f.sum == SumReal(ratios) && f.n == |ratios|
  {
    hide Tick;
    if k == 0 {
    } else {
      FidelityFigures(env, sched, k - 1);
      AfterNext(env, sched, k - 1);
      RatioTick(env, sched[k - 1], After(env, sched, k - 1));
      var before, s := Ratios(env, sched, k - 1), After(env, sched, k);
      hide After, SumReal, Least;
      if Head(s.reference) > 0 {
        SumRealPush(before, Ratio(env, s));
        LeastPush(After(env, sched, k - 1).rec.fidelity.worst, before, Ratio(env, s));
      }
    }
  }

  // ----- Round trips -----

  function RttMs(r: Returning): nat {
    Since(r.ackAt, r.seg.sentAt) / 1_000_000
  }

  function Rtts(ds: seq<Returning>): seq<nat> {
    seq(|ds|, i requires 0 <= i < |ds| => RttMs(ds[i]))
  }

  lemma RttsSplit(a: seq<Returning>, b: seq<Returning>)
    ensures Rtts(a + b) == Rtts(a) + Rtts(b)
  {}

  /** From `s` to `t` deliveries were only added, and the widest round trip is taken over them too. */
  ghost predicate Widens(s: State, t: State, final: bool, before: seq<nat>) {
    && s.log.delivered <= t.log.delivered
    && if final then Largest(t.rec.maxRttInFinalMs, before + Rtts(t.log.delivered[|s.log.delivered|..]))
       else t.rec.maxRttInFinalMs == s.rec.maxRttInFinalMs
  }

  lemma WidestAck(env: Env, cfg: TickConfig, s: State)
    requires s.returning != []
    ensures var r, t := s.returning[0], AckOne(env, cfg, s);
      && t.log.delivered == (if r.lost then s.log.delivered else s.log.delivered + [r])
      && t.rec.maxRttInFinalMs == if r.lost || !cfg.final then s.rec.maxRttInFinalMs
                                  else Max(s.rec.maxRttInFinalMs, RttMs(r))
  {
    hide Pushed;
  }

  lemma WidensAck(env: Env, cfg: TickConfig, s: State, x: State, before: seq<nat>)
    requires Widens(s, x, cfg.final, before) && x.returning != []
    ensures Widens(s, AckOne(env, cfg, x), cfg.final, before)
  {
    WidestAck(env, cfg, x);
    hide AckOne, Largest, Rtts;
    var r, y, n := x.returning[0], AckOne(env, cfg, x), |s.log.delivered|;
    if !r.lost && cfg.final {
      var added := x.log.delivered[n..];
      assert y.log.delivered[n..] == added + [r];
      RttsSplit(added, [r]);
      assert Rtts([r]) == [RttMs(r)] by { RttsOne(r); }
      assert before + (Rtts(added) + [RttMs(r)]) == (before + Rtts(added)) + [RttMs(r)];
      LargestPush(x.rec.maxRttInFinalMs, before + Rtts(added), RttMs(r));
    }
  }

  lemma RttsOne(r: Returning)
    ensures Rtts([r]) == [RttMs(r)] && Rtts([]) == []
  {}

  lemma WidensAcks(env: Env, cfg: TickConfig, s: State, before: seq<nat>)
    requires cfg.final ==> Largest(s.rec.maxRttInFinalMs, before)
    ensures Widens(s, AckLoop(env, cfg, s), cfg.final, before)
  {
    assert s.log.delivered[|s.log.delivered|..] == [] && before + Rtts([]) == before;
    assert Widens(s, s, cfg.final, before);
    hide Widens, Largest;
    forall x | Widens(s, x, cfg.final, before) && AckDue(x, cfg.now)
      ensures Widens(s, AckOne(env, cfg, x), cfg.final, before)
    {
      WidensAck(env, cfg, s, x, before);
    }
    AckLoopKeeps(env, cfg, s, (x: State) => Widens(s, x, cfg.final, before));
  }

  ghost predicate SameDelivered(s: State, t: State) {
    && t.rec.phaseDelivered == s.rec.phaseDelivered && t.log.delivered == s.log.delivered
    && t.rec.maxRttInFinalMs == s.rec.maxRttInFinalMs
  }

  lemma SendsDeliverNothing(env: Env, cfg: TickConfig, s: State)
    ensures SameDelivered(s, Send(env, cfg, s))
  {
    hide SendLoop, LinkRate, DrainNs, Place;
    var earned := EarnPace(env, s);
    SendLoopKeeps(env, cfg, Paced(env, s), earned, x => SameDelivered(earned, x));
  }

  lemma LinkDeliversNothing(env: Env, cfg: TickConfig, s: State)
    ensures SameDelivered(s, Read(env, cfg, Serve(cfg, s)))
  {
    hide LinkLoop, LinkRate, Noise, TrimRecent, ReadFidelity;
    var lit := EarnLink(cfg, s);
    LinkLoopKeeps(cfg, lit, x => SameDelivered(lit, x));
  }

  lemma WidensTick(env: Env, cfg: TickConfig, s: State, before: seq<nat>)
    requires cfg.final ==> Largest(s.rec.maxRttInFinalMs, before)
    ensures Widens(s, Tick(env, cfg, s), cfg.final, before)
  {
    hide AckLoop, Send, Serve, Read, Largest, Rtts;
    WidensAcks(env, cfg, Open(cfg, s), before);
    SendsDeliverNothing(env, cfg, BeforeSend(env, cfg, s));
    LinkDeliversNothing(env, cfg, BeforeServe(env, cfg, s));
  }

  lemma DeliveredGrows(env: Env, sched: seq<TickConfig>, k: nat)
    requires k < |sched|
    ensures After(env, sched, k).log.delivered <= After(env, sched, k + 1).log.delivered
  {
    AfterNext(env, sched, k);
    hide Tick, After;
    var s := After(env, sched, k);
    WidensTick(env, sched[k], s, [s.rec.maxRttInFinalMs]);
  }

  /** The log of deliveries only grows. */
  lemma {:induction false} DeliveredPrefix(env: Env, sched: seq<TickConfig>, i: nat, j: nat)
    requires i <= j <= |sched|
    ensures After(env, sched, i).log.delivered <= After(env, sched, j).log.delivered
    decreases j - i
  {
    hide After;
    if i == j {
    } else {
      DeliveredPrefix(env, sched, i, j - 1);
      DeliveredGrows(env, sched, j - 1);
    }
  }

  /** What tick `k` delivered. */
  function DeliveredAt(env: Env, sched: seq<TickConfig>, k: nat): seq<Returning>
    requires k < |sched|
  {
    DeliveredGrows(env, sched, k);
    After(env, sched, k + 1).log.delivered[|After(env, sched, k).log.delivered|..]
  }

  /** What the ticks of the final phase delivered, in order. */
  function FinalDeliveries(env: Env, sched: seq<TickConfig>, k: nat): seq<Returning>
    requires k <= |sched|
  {
    if k == 0 then []
    else
      var before := FinalDeliveries(env, sched, k - 1);
      if sched[k - 1].final then before + DeliveredAt(env, sched, k - 1) else before
  }

  lemma WidestNext(env: Env, sched: seq<TickConfig>, k: nat)
    requires k < |sched| && Largest(After(env, sched, k).rec.maxRttInFinalMs, Rtts(FinalDeliveries(env, sched, k)))
    ensures Largest(After(env, sched, k + 1).rec.maxRttInFinalMs, Rtts(FinalDeliveries(env, sched, k + 1)))
  {
    AfterNext(env, sched, k);
    hide Tick, After, Largest, Rtts;
    var before := FinalDeliveries(env, sched, k);
    WidensTick(env, sched[k], After(env, sched, k), Rtts(before));
    RttsSplit(before, DeliveredAt(env, sched, k));
  }

  /** At every tick of every run: the widest round trip of those deliveries. */
  lemma {:induction false} WidestFigure(env: Env, sched: seq<TickConfig>, k: nat)
    requires k <= |sched|
    ensures Largest(After(env, sched, k).rec.maxRttInFinalMs, Rtts(FinalDeliveries(env, sched, k)))
  {
    hide Largest, Tick, Rtts;
    if k == 0 {
      NothingYet();
    } else {
      hide After;
      WidestFigure(env, sched, k - 1);
      WidestNext(env, sched, k - 1);
    }
  }

  lemma {:induction false} FinalDelivered(env: Env, sched: seq<TickConfig>, k: nat, r: Returning)
    requires k <= |sched| && r in FinalDeliveries(env, sched, k)
    ensures r in After(env, sched, k).log.delivered
  {
    hide After;
    if k == 0 {
    } else {
      DeliveredGrows(env, sched, k - 1);
      if r in FinalDeliveries(env, sched, k - 1) {
        FinalDelivered(env, sched, k - 1, r);
      }
    }
  }

  // ----- The reference -----

  /** How many samples the reference held after each one it was offered. */
  function Sizes(pushes: seq<Sample>): seq<nat> {
    if pushes == [] then []
    else Sizes(pushes[..|pushes| - 1]) + [|Window(HORIZON, pushes)|]
  }

  /** The reference is the windowed maximum of what it was offered, and its largest size is on record. */
  ghost predicate Sized(s: State) {
    s.reference == Window(HORIZON, s.log.pushes) && Largest(s.rec.maxReferenceEntries, Sizes(s.log.pushes))
  }

  lemma SizedOffer(s: State, at: nat, raw: nat)
    requires Sized(s)
    ensures Sized(OfferSample(s, at, raw))
  {
    var p, x := s.log.pushes, Sample(at, raw);
    assert (p + [x])[..|p|] == p;
    hide Pushed, Largest;
    LargestPush(s.rec.maxReferenceEntries, Sizes(p), |Window(HORIZON, p + [x])|);
  }

  ghost predicate SameReference(s: State, t: State) {
    && t.reference == s.reference && t.log.pushes == s.log.pushes
    && t.rec.maxReferenceEntries == s.rec.maxReferenceEntries
  }

  lemma SizedAck(env: Env, cfg: TickConfig, s: State)
    requires Sized(s) && s.returning != []
    ensures Sized(AckOne(env, cfg, s))
  {
    var r, t := s.returning[0], s.(returning := s.returning[1..]);
    if !r.lost && Admitted(env, t, r) {
      var calls := t.calls + [OnAck(r.seg, r.ackAt)];
      var u := Deliver(env, cfg, t, r).(reference := s.reference, rec := Deliver(env, cfg, t, r).rec.(
        maxReferenceEntries := s.rec.maxReferenceEntries), log := s.log.(delivered := s.log.delivered + [r]));
      hide Window, Sizes, Largest;
      SizedOffer(u, r.ackAt, env.estimator(calls).lastRate);
      hide Pushed;
    }
  }

  lemma SizedTick(env: Env, cfg: TickConfig, s: State)
    requires Sized(s)
    ensures Sized(Tick(env, cfg, s))
  {
    hide Sized, AckLoop, SendLoop, LinkLoop, LinkRate, DrainNs, Place, Noise, TrimRecent, ReadFidelity;
    var open := Open(cfg, s);
    SizedFrame(s, open);
    forall x | Sized(x) && AckDue(x, cfg.now) ensures Sized(AckOne(env, cfg, x)) {
      SizedAck(env, cfg, x);
    }
    AckLoopKeeps(env, cfg, open, (x: State) => Sized(x));
    SizedAfterAcks(env, cfg, s);
  }

  lemma SizedFrame(s: State, t: State)
    requires Sized(s) && SameReference(s, t)
    ensures Sized(t)
  {}

  lemma SizedAfterAcks(env: Env, cfg: TickConfig, s: State)
    requires Sized(AckLoop(env, cfg, Open(cfg, s)))
    ensures Sized(Tick(env, cfg, s))
  {
    hide Sized, AckLoop, SendLoop, LinkLoop, LinkRate, DrainNs, Place, Noise, TrimRecent, ReadFidelity, NinetyReached;
    var acked, offered := AckLoop(env, cfg, Open(cfg, s)), BeforeSend(env, cfg, s);
    var earned := EarnPace(env, offered);
    SendLoopKeeps(env, cfg, Paced(env, offered), earned, x => SameReference(acked, x));
    var lit := EarnLink(cfg, BeforeServe(env, cfg, s));
    LinkLoopKeeps(cfg, lit, x => SameReference(acked, x));
    SizedFrame(acked, Tick(env, cfg, s));
  }

  /** At every tick of every run: the most samples the reference ever held. */
  lemma {:induction false} ReferenceFigure(env: Env, sched: seq<TickConfig>, k: nat)
    requires k <= |sched|
    ensures Sized(After(env, sched, k))
  {
    hide Tick, Sized;
    if k == 0 {
      NothingYet();
    } else {
      ReferenceFigure(env, sched, k - 1);
      SizedTick(env, sched[k - 1], After(env, sched, k - 1));
    }
  }

  // ----- Transmissions and drops -----

  /** Transmissions the estimator was told of, and the repairs among them. */
  function Sends(calls: seq<Call>): nat {
    if calls == [] then 0 else Sends(calls[..|calls| - 1]) + if calls[|calls| - 1].OnSend? then 1 else 0
  }

  function Repairs(calls: seq<Call>): nat {
    if calls == [] then 0 else Repairs(calls[..|calls| - 1]) + if calls[|calls| - 1].OnRetransmit? then 1 else 0
  }

  lemma CallsPush(calls: seq<Call>, c: Call)
    ensures Sends(calls + [c]) == Sends(calls) + if c.OnSend? then 1 else 0
    ensures Repairs(calls + [c]) == Repairs(calls) + if c.OnRetransmit? then 1 else 0
  {
    assert (calls + [c])[..|calls|] == calls;
  }

  /** Losses on their way to be learned of. */
  function LostOn(r: seq<Returning>): nat {
    if r == [] then 0 else LostOn(r[1..]) + if r[0].lost then 1 else 0
  }

  lemma {:induction false} LostSplit(a: seq<Returning>, b: seq<Returning>)
    ensures LostOn(a + b) == LostOn(a) + LostOn(b)
    decreases |a|
  {
    if a == [] {
      assert a + b == b;
    } else {
      LostSplit(a[1..], b);
      assert (a + b)[1..] == a[1..] + b;
    }
  }

  lemma LostOne(r: Returning)
    ensures LostOn([r]) == if r.lost then 1 else 0
  {
    assert [r][1..] == [];
  }

  lemma LostInserted(r: seq<Returning>, at: nat, x: Returning)
    requires at <= |r| && x.lost
    ensures LostOn(r[..at] + [x] + r[at..]) == LostOn(r) + 1
  {
    assert r == r[..at] + r[at..];
    LostSplit(r[..at], r[at..]);
    LostSplit(r[..at] + [x], r[at..]);
    LostSplit(r[..at], [x]);
    LostOne(x);
  }

  /**
   Every transmission is counted; it is queued, served or was refused; it is queued, on its way
   back, delivered or known to be lost, and then it waits for a repair or has had one. A drop is a
   transmission that is lost, known or not.
   */
  ghost predicate Counted(s: State) {
    var known := |s.awaiting| + Repairs(s.calls);
    && s.rec.segmentsSent == Sends(s.calls)
    && s.rec.segmentsSent == |s.queue| + s.log.served + s.rec.droppedByFullQueue
    && s.rec.segmentsSent == |s.queue| + |s.returning| + |s.log.delivered| + known
    && s.rec.segmentsDropped == LostOn(s.returning) + known
  }

  lemma CountedAck(env: Env, cfg: TickConfig, s: State)
    requires Counted(s) && s.returning != []
    ensures Counted(AckOne(env, cfg, s))
  {
    AckMoves(env, cfg, s);
    var r, t := s.returning[0], AckOne(env, cfg, s);
    AckCounts(env, cfg, s);
    if !r.lost {
      CallsPush(s.calls, OnAck(r.seg, r.ackAt));
    } else if !r.seg.isRepair {
      CallsPush(s.calls, OnLoss(r.seg.bytes));
    } else {
      assert s.calls + [] == s.calls;
    }
    hide AckOne, Sends, Repairs;
  }

  lemma AckCounts(env: Env, cfg: TickConfig, s: State)
    requires s.returning != []
    ensures var t := AckOne(env, cfg, s);
      && t.log.served == s.log.served && t.rec.segmentsSent == s.rec.segmentsSent
      && t.rec.segmentsDropped == s.rec.segmentsDropped && t.rec.droppedByFullQueue == s.rec.droppedByFullQueue
  {
    hide Pushed;
  }

  /** A launch is counted; a repair leaves the holes as it joins the repairs. */
  lemma LaunchCounts(env: Env, paced: bool, now: nat, s: State)
    requires MaySend(env, paced, s)
    ensures var t := Launch(env, paced, now, s).0;
      && t.queue == s.queue && t.returning == s.returning && t.log.delivered == s.log.delivered
      && t.log.served == s.log.served && t.rec == s.rec.(segmentsSent := s.rec.segmentsSent + 1)
      && Sends(t.calls) == Sends(s.calls) + 1
      && |t.awaiting| + Repairs(t.calls) == |s.awaiting| + Repairs(s.calls)
  {
    hide Sends, Repairs;
    var one := s.calls + [OnSend(SEGMENT)];
    CallsPush(s.calls, OnSend(SEGMENT));
    CallsPush(one, OnRetransmit(SEGMENT));
    assert one + [] == one;
    hide MaySend;
  }

  lemma DropCounts(env: Env, cfg: TickConfig, t: State, seg: InFlight)
    ensures var u := TailDrop(env, cfg, t, seg);
      && u == t.(returning := u.returning, rec := u.rec) && |u.returning| == |t.returning| + 1
      && u.rec == t.rec.(segmentsDropped := t.rec.segmentsDropped + 1,
                         droppedByFullQueue := t.rec.droppedByFullQueue + 1)
      && LostOn(u.returning) == LostOn(t.returning) + 1
  {
    hide DrainNs, LinkRate, Place, LostOn;
    var ackAt := cfg.now + DrainNs(t.queuedBytes, LinkRate(cfg.phase, cfg.into)) + 2 * PROPAGATION;
    var at := Place(t.returning, ackAt, env.place(t.returning, ackAt));
    LostInserted(t.returning, at, Returning(seg, ackAt, true));
  }

  lemma CountedSend(env: Env, cfg: TickConfig, paced: bool, s: State)
    requires Counted(s) && MaySend(env, paced, s)
    ensures Counted(SendOne(env, cfg, paced, s))
  {
    LaunchCounts(env, paced, cfg.now, s);
    var p := Launch(env, paced, cfg.now, s);
    DropCounts(env, cfg, p.0, p.1);
    hide Launch, TailDrop, Sends, Repairs, LostOn;
  }

  lemma CountedLink(cfg: TickConfig, s: State)
    requires Counted(s) && s.queue != []
    ensures Counted(LinkOne(cfg, s))
  {
    var t := LinkOne(cfg, s);
    var x := t.returning[|s.returning|];
    assert t.returning == s.returning + [x];
    LostSplit(s.returning, [x]);
    LostOne(x);
    hide Noise, LostOn, Sends, Repairs;
  }

  ghost predicate SameCounts(s: State, t: State) {
    && t.queue == s.queue && t.returning == s.returning && t.awaiting == s.awaiting
    && t.log == s.log && Sends(t.calls) == Sends(s.calls) && Repairs(t.calls) == Repairs(s.calls)
    && t.rec.segmentsSent == s.rec.segmentsSent && t.rec.segmentsDropped == s.rec.segmentsDropped
    && t.rec.droppedByFullQueue == s.rec.droppedByFullQueue
  }

  lemma CountedFrame(s: State, t: State)
    requires Counted(s) && SameCounts(s, t)
    ensures Counted(t)
  {}

  lemma CountedBeforeServe(env: Env, cfg: TickConfig, s: State)
    requires Counted(s)
    ensures Counted(BeforeServe(env, cfg, s))
  {
    hide Counted, AckLoop, SendLoop, Sends, Repairs;
    CountedFrame(s, Open(cfg, s));
    forall x | Counted(x) && AckDue(x, cfg.now) ensures Counted(AckOne(env, cfg, x)) {
      CountedAck(env, cfg, x);
    }
    AckLoopKeeps(env, cfg, Open(cfg, s), (x: State) => Counted(x));
    var offered := BeforeSend(env, cfg, s);
    var earned, paced := EarnPace(env, offered), Paced(env, offered);
    CountedFrame(AckLoop(env, cfg, Open(cfg, s)), earned);
    forall x | Counted(x) && MaySend(env, paced, x) ensures Counted(SendOne(env, cfg, paced, x)) {
      CountedSend(env, cfg, paced, x);
    }
    SendLoopKeeps(env, cfg, paced, earned, (x: State) => Counted(x));
    CallsPush(SendLoop(env, cfg, paced, earned).calls, NoteAppLimitedDrain);
    CountedFrame(SendLoop(env, cfg, paced, earned), BeforeServe(env, cfg, s));
  }

  lemma CountedTick(env: Env, cfg: TickConfig, s: State)
    requires Counted(s)
    ensures Counted(Tick(env, cfg, s))
  {
    hide Counted, BeforeServe, LinkLoop, LinkRate, TrimRecent, ReadFidelity, NinetyReached;
    CountedBeforeServe(env, cfg, s);
    var lit := EarnLink(cfg, BeforeServe(env, cfg, s));
    CountedFrame(BeforeServe(env, cfg, s), lit);
    forall x | Counted(x) && LinkReady(x) ensures Counted(LinkOne(cfg, x)) {
      CountedLink(cfg, x);
    }
    LinkLoopKeeps(cfg, lit, (x: State) => Counted(x));
    CountedFrame(LinkLoop(cfg, lit), Tick(env, cfg, s));
  }

  /** At every tick of every run the three counters of the report count just that. */
  lemma {:induction false} CounterFigures(env: Env, sched: seq<TickConfig>, k: nat)
    requires k <= |sched|
    ensures Counted(After(env, sched, k))
  {
    hide Tick, Counted;
    if k == 0 {
      NothingYet();
    } else {
      CounterFigures(env, sched, k - 1);
      CountedTick(env, sched[k - 1], After(env, sched, k - 1));
    }
  }

  /** Nothing is on record before the first tick. */
  lemma NothingYet()
    ensures Counted(INITIAL) && Sized(INITIAL) && Largest(INITIAL.rec.maxRttInFinalMs, Rtts([]))
  {}
}
