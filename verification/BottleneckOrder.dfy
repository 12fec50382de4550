/**
 The return path of the bottleneck simulator: what order acknowledgements come back in, what
 that gives the two sliding windows fed from them.
 */
module BottleneckOrder {
  import opened WindowedMaximum
  import opened BottleneckModel

  // ----- Deliveries come back in order, sorted deque or not -----

  /** The entries that will be delivered are in order, and none is dated past the latest departure. */
  ghost predicate DeliveriesOrdered(r: seq<Returning>, latest: nat) {
    && (forall i, j :: 0 <= i < j < |r| && !r[i].lost && !r[j].lost ==> r[i].ackAt <= r[j].ackAt)
    && (forall i :: 0 <= i < |r| && !r[i].lost ==> r[i].ackAt <= latest)
  }

  ghost predicate TimesBelow(p: seq<Sample>, r: seq<Returning>) {
    forall i, j :: 0 <= i < |p| && 0 <= j < |r| && !r[j].lost ==> p[i].at <= r[j].ackAt
  }

  ghost predicate AllBy(p: seq<Sample>, t: nat) {
    forall i :: 0 <= i < |p| ==> p[i].at <= t
  }

  /** What the acknowledgements delivered, as the `recent` deque records it. */
  function Arrivals(d: seq<Returning>): seq<Sample> {
    seq(|d|, i requires 0 <= i < |d| => Sample(d[i].ackAt, d[i].seg.bytes))
  }

  /** `recent` is the history of arrivals without a prefix that was stale when it was dropped. */
  ghost predicate RecentIsSuffix(s: State, now: nat) {
    var all := Arrivals(s.log.delivered);
    && |s.recent| <= |all|
    && s.recent == all[|all| - |s.recent|..]
    && forall i :: 0 <= i < |all| - |s.recent| ==> Stale(SECOND, now, all[i])
  }

  ghost predicate InOrder(s: State, now: nat) {
    && DeliveriesOrdered(s.returning, now + 2 * PROPAGATION)
    && Nondecreasing(Arrivals(s.log.delivered)) && TimesBelow(Arrivals(s.log.delivered), s.returning)
    && AllBy(Arrivals(s.log.delivered), now)
    && Nondecreasing(s.log.pushes) && TimesBelow(s.log.pushes, s.returning) && AllBy(s.log.pushes, now)
    && s.reference == Window(HORIZON, s.log.pushes)
    && RecentIsSuffix(s, now)
  }

  lemma WindowPush(p: seq<Sample>, x: Sample)
    ensures Window(HORIZON, p + [x]) == Pushed(HORIZON, Window(HORIZON, p), x.at, x.value)
  {
    assert (p + [x])[..|p|] == p;
  }

  lemma AppendInOrder(p: seq<Sample>, x: Sample, r: seq<Returning>)
    requires Nondecreasing(p) && r != [] && !r[0].lost && r[0].ackAt == x.at
    requires TimesBelow(p, r)
    requires forall j :: 1 <= j < |r| && !r[j].lost ==> r[0].ackAt <= r[j].ackAt
    ensures Nondecreasing(p + [x]) && TimesBelow(p + [x], r[1..])
  {
    var q := p + [x];
    forall i, j | 0 <= i < j < |q| ensures q[i].at <= q[j].at {
      assert j == |p| ==> p[i].at <= r[0].ackAt;
    }
    forall i, j | 0 <= i < |q| && 0 <= j < |r[1..]| && !r[1..][j].lost ensures q[i].at <= r[1..][j].ackAt {
      assert r[1..][j] == r[j + 1];
    }
  }

  lemma DroppedFront(p: seq<Sample>, r: seq<Returning>, latest: nat)
    requires r != [] && TimesBelow(p, r) && DeliveriesOrdered(r, latest)
    ensures TimesBelow(p, r[1..]) && DeliveriesOrdered(r[1..], latest)
  {
    assert forall j :: 0 <= j < |r[1..]| ==> r[1..][j] == r[j + 1];
  }

  lemma ArrivalsPush(d: seq<Returning>, r: Returning)
    ensures Arrivals(d + [r]) == Arrivals(d) + [Sample(r.ackAt, r.seg.bytes)]
  {}

  lemma RecentPush(s: State, t: State, now: nat, r: Returning)
    requires RecentIsSuffix(s, now)
    requires t.log.delivered == s.log.delivered + [r]
    requires t.recent == s.recent + [Sample(r.ackAt, r.seg.bytes)]
    ensures RecentIsSuffix(t, now)
  {
    ArrivalsPush(s.log.delivered, r);
    var a, b := Arrivals(s.log.delivered), Arrivals(t.log.delivered);
    assert b[|b| - |t.recent|..] == a[|a| - |s.recent|..] + [Sample(r.ackAt, r.seg.bytes)];
  }

  lemma InOrderDeliver(env: Env, cfg: TickConfig, s: State, r: Returning, rest: seq<Returning>)
    requires InOrder(s.(returning := [r] + rest), cfg.now) && s.returning == rest && !r.lost && r.ackAt <= cfg.now
    ensures InOrder(Deliver(env, cfg, s, r), cfg.now)
  {
    var all := [r] + rest;
    assert all[1..] == rest && all[0] == r;
    var t := Deliver(env, cfg, s, r);
    var arrival := Sample(r.ackAt, r.seg.bytes);
    DroppedFront(s.log.pushes, all, cfg.now + 2 * PROPAGATION);
    AppendInOrder(Arrivals(s.log.delivered), arrival, all);
    ArrivalsPush(s.log.delivered, r);
    RecentPush(s, t, cfg.now, r);
    if Admitted(env, s, r) {
      var x := Sample(r.ackAt, env.estimator(s.calls + [OnAck(r.seg, r.ackAt)]).lastRate);
      AppendInOrder(s.log.pushes, x, all);
      WindowPush(s.log.pushes, x);
    }
  }

  lemma InOrderHole(s: State, t: State, now: nat)
    requires InOrder(s, now) && s.returning != [] && t.returning == s.returning[1..]
    requires t.reference == s.reference && t.recent == s.recent
    requires t.log.delivered == s.log.delivered && t.log.pushes == s.log.pushes
    ensures InOrder(t, now)
  {
    DroppedFront(s.log.pushes, s.returning, now + 2 * PROPAGATION);
    DroppedFront(Arrivals(s.log.delivered), s.returning, now + 2 * PROPAGATION);
    hide DeliveriesOrdered, TimesBelow, Arrivals, Nondecreasing, AllBy;
  }

  lemma InOrderAck(env: Env, cfg: TickConfig, s: State)
    requires InOrder(s, cfg.now) && AckDue(s, cfg.now)
    ensures InOrder(AckOne(env, cfg, s), cfg.now)
  {
    hide InOrder, Deliver;
    var r, rest := s.returning[0], s.returning[1..];
    assert s.returning == [r] + rest;
    if r.lost {
      InOrderHole(s, DeclareLost(s.(returning := rest), r), cfg.now);
    } else {
      assert s.(returning := [r] + rest) == s;
      InOrderDeliver(env, cfg, s.(returning := rest), r, rest);
    }
  }

  lemma InOrderAcks(env: Env, cfg: TickConfig, s: State)
    requires InOrder(s, cfg.now)
    ensures InOrder(AckLoop(env, cfg, s), cfg.now)
  {
    forall x | InOrder(x, cfg.now) && AckDue(x, cfg.now) ensures InOrder(AckOne(env, cfg, x), cfg.now) {
      InOrderAck(env, cfg, x);
    }
    AckLoopKeeps(env, cfg, s, x => InOrder(x, cfg.now));
  }

  /** Placing a lost entry anywhere leaves the deliveries in order around it. */
  lemma LossInserted(p: seq<Sample>, r: seq<Returning>, at: nat, x: Returning, latest: nat)
    requires at <= |r| && x.lost && DeliveriesOrdered(r, latest) && TimesBelow(p, r)
    ensures DeliveriesOrdered(r[..at] + [x] + r[at..], latest) && TimesBelow(p, r[..at] + [x] + r[at..])
  {
    var q := r[..at] + [x] + r[at..];
    assert forall i :: 0 <= i < |q| && i != at ==> q[i] == r[if i < at then i else i - 1];
    assert q[at] == x;
  }

  /** Nothing but the return path and what came off it decides whether it is in order. */
  ghost predicate SameReturnPath(s: State, t: State) {
    && t.returning == s.returning && t.reference == s.reference && t.recent == s.recent
    && t.log.delivered == s.log.delivered && t.log.pushes == s.log.pushes
  }

  lemma InOrderFrame(s: State, t: State, now: nat)
    requires InOrder(s, now) && SameReturnPath(s, t)
    ensures InOrder(t, now)
  {}

  lemma InOrderTailDrop(env: Env, cfg: TickConfig, s: State, seg: InFlight)
    requires InOrder(s, cfg.now)
    ensures InOrder(TailDrop(env, cfg, s, seg), cfg.now)
  {
    hide LinkRate, DrainNs, Place, DeliveriesOrdered, TimesBelow, Arrivals, Nondecreasing, AllBy;
    var ackAt := cfg.now + DrainNs(s.queuedBytes, LinkRate(cfg.phase, cfg.into)) + 2 * PROPAGATION;
    var at := Place(s.returning, ackAt, env.place(s.returning, ackAt));
    var x := Returning(seg, ackAt, true);
    LossInserted(s.log.pushes, s.returning, at, x, cfg.now + 2 * PROPAGATION);
    LossInserted(Arrivals(s.log.delivered), s.returning, at, x, cfg.now + 2 * PROPAGATION);
  }

  lemma InOrderSend(env: Env, cfg: TickConfig, paced: bool, s: State)
    requires InOrder(s, cfg.now) && MaySend(env, paced, s)
    ensures InOrder(SendOne(env, cfg, paced, s), cfg.now)
  {
    hide TailDrop;
    var p := Launch(env, paced, cfg.now, s);
    InOrderFrame(s, p.0, cfg.now);
    InOrderTailDrop(env, cfg, p.0, p.1);
    InOrderFrame(s, Enqueue(p.0, p.1), cfg.now);
  }

  lemma InOrderSends(env: Env, cfg: TickConfig, paced: bool, s: State)
    requires InOrder(s, cfg.now)
    ensures InOrder(SendLoop(env, cfg, paced, s), cfg.now)
  {
    forall x | InOrder(x, cfg.now) && MaySend(env, paced, x) ensures InOrder(SendOne(env, cfg, paced, x), cfg.now) {
      InOrderSend(env, cfg, paced, x);
    }
    SendLoopKeeps(env, cfg, paced, s, x => InOrder(x, cfg.now));
  }

  /** A departure is dated last, so appending it keeps the deliveries in order. */
  lemma DepartureAppended(p: seq<Sample>, r: seq<Returning>, x: Returning)
    requires DeliveriesOrdered(r, x.ackAt) && TimesBelow(p, r) && AllBy(p, x.ackAt)
    ensures DeliveriesOrdered(r + [x], x.ackAt) && TimesBelow(p, r + [x])
  {}

  lemma InOrderLink(cfg: TickConfig, s: State)
    requires InOrder(s, cfg.now) && s.queue != []
    ensures InOrder(LinkOne(cfg, s), cfg.now)
  {
    var t := LinkOne(cfg, s);
    var x := t.returning[|s.returning|];
    DepartureAppended(s.log.pushes, s.returning, x);
    DepartureAppended(Arrivals(s.log.delivered), s.returning, x);
  }

  lemma InOrderLinks(cfg: TickConfig, s: State)
    requires InOrder(s, cfg.now)
    ensures InOrder(LinkLoop(cfg, s), cfg.now)
  {
    forall x | InOrder(x, cfg.now) && LinkReady(x) ensures InOrder(LinkOne(cfg, x), cfg.now) {
      InOrderLink(cfg, x);
    }
    LinkLoopKeeps(cfg, s, x => InOrder(x, cfg.now));
  }

  lemma InOrderLater(s: State, before: nat, now: nat)
    requires InOrder(s, before) && before <= now
    ensures InOrder(s, now)
  {}

  // ----- The trailing second -----

  /** The arrivals of the last second, picked out of the whole history. */
  function LastSecond(all: seq<Sample>, now: nat): seq<Sample> {
    if all == [] then []
    else (if Stale(SECOND, now, all[0]) then [] else [all[0]]) + LastSecond(all[1..], now)
  }

  lemma {:induction false} LastSecondIsSuffix(all: seq<Sample>, now: nat, k: nat)
    requires k <= |all|
    requires forall i :: 0 <= i < k ==> Stale(SECOND, now, all[i])
    requires forall i :: k <= i < |all| ==> !Stale(SECOND, now, all[i])
    ensures LastSecond(all, now) == all[k..]
    decreases |all|
  {
    if all == [] {
    } else {
      LastSecondIsSuffix(all[1..], now, if k == 0 then 0 else k - 1);
      if k == 0 {
        assert all == [all[0]] + all[1..];
      } else {
        assert all[k..] == all[1..][k - 1..];
      }
    }
  }

  /** Trimming the front drops exactly the stale part of a suffix of the history. */
  lemma {:induction false} TrimDropsStale(all: seq<Sample>, recent: seq<Sample>, now: nat)
    requires |recent| <= |all| && recent == all[|all| - |recent|..]
    requires forall i :: 0 <= i < |all| - |recent| ==> Stale(SECOND, now, all[i])
    ensures var t := TrimRecent(recent, now);
      && |t| <= |all| && t == all[|all| - |t|..]
      && (forall i :: 0 <= i < |all| - |t| ==> Stale(SECOND, now, all[i]))
      && (t != [] ==> !Stale(SECOND, now, t[0]))
    decreases |recent|
  {
    if recent == [] || !Stale(SECOND, now, recent[0]) {
    } else {
      assert recent[1..] == all[|all| - |recent| + 1..];
      TrimDropsStale(all, recent[1..], now);
    }
  }

  lemma TrimIsLastSecond(all: seq<Sample>, recent: seq<Sample>, now: nat)
    requires |recent| <= |all| && recent == all[|all| - |recent|..] && Nondecreasing(all)
    requires forall i :: 0 <= i < |all| - |recent| ==> Stale(SECOND, now, all[i])
    ensures TrimRecent(recent, now) == LastSecond(all, now)
  {
    var t := TrimRecent(recent, now);
    var k := |all| - |t|;
    TrimDropsStale(all, recent, now);
    forall i | k <= i < |all| ensures !Stale(SECOND, now, all[i]) {
      assert all[k] == t[0] && all[k].at <= all[i].at;
    }
    LastSecondIsSuffix(all, now, k);
  }

  // ----- Every tick of every run -----

  lemma InOrderBeforeSend(env: Env, cfg: TickConfig, s: State)
    requires InOrder(s, cfg.now)
    ensures InOrder(BeforeSend(env, cfg, s), cfg.now)
  {
    hide InOrder;
    var started := Open(cfg, s);
    InOrderFrame(s, started, cfg.now);
    InOrderAcks(env, cfg, started);
    InOrderFrame(AckLoop(env, cfg, started), BeforeSend(env, cfg, s), cfg.now);
  }

  lemma InOrderSendStage(env: Env, cfg: TickConfig, s: State)
    requires InOrder(s, cfg.now)
    ensures InOrder(Send(env, cfg, s), cfg.now)
  {
    hide InOrder;
    var earned := EarnPace(env, s);
    InOrderFrame(s, earned, cfg.now);
    InOrderSends(env, cfg, Paced(env, s), earned);
    InOrderFrame(SendLoop(env, cfg, Paced(env, s), earned), Send(env, cfg, s), cfg.now);
  }

  lemma InOrderServe(cfg: TickConfig, s: State)
    requires InOrder(s, cfg.now)
    ensures InOrder(Serve(cfg, s), cfg.now)
  {
    hide InOrder;
    var earned := EarnLink(cfg, s);
    InOrderFrame(s, earned, cfg.now);
    InOrderLinks(cfg, earned);
    InOrderFrame(LinkLoop(cfg, earned), Serve(cfg, s), cfg.now);
  }

  lemma InOrderStages(env: Env, cfg: TickConfig, s: State)
    requires InOrder(s, cfg.now)
    ensures InOrder(Serve(cfg, BeforeServe(env, cfg, s)), cfg.now)
  {
    hide InOrder, BeforeSend, Send, Serve;
    InOrderBeforeSend(env, cfg, s);
    InOrderSendStage(env, cfg, BeforeSend(env, cfg, s));
    InOrderServe(cfg, BeforeServe(env, cfg, s));
  }

  lemma InOrderTick(env: Env, cfg: TickConfig, s: State, before: nat)
    requires InOrder(s, before) && before <= cfg.now
    ensures var t := Tick(env, cfg, s);
      InOrder(t, cfg.now) && t.recent == LastSecond(Arrivals(t.log.delivered), cfg.now)
  {
    hide BeforeServe, Serve;
    InOrderLater(s, before, cfg.now);
    InOrderStages(env, cfg, s);
    var u := Serve(cfg, BeforeServe(env, cfg, s));
    TrimIsLastSecond(Arrivals(u.log.delivered), u.recent, cfg.now);
    TrimDropsStale(Arrivals(u.log.delivered), u.recent, cfg.now);
  }

  lemma {:induction false} InOrderRun(env: Env, sched: seq<TickConfig>, k: nat)
    requires 0 < k <= |sched| && forall m :: 0 <= m < |sched| ==> sched[m].now == m * TICK
    ensures var s, now := After(env, sched, k), sched[k - 1].now;
      InOrder(s, now) && s.recent == LastSecond(Arrivals(s.log.delivered), now)
  {
    hide Tick;
    if k == 1 {
      assert InOrder(INITIAL, 0);
      assert After(env, sched, 0) == INITIAL;
      InOrderTick(env, sched[0], INITIAL, 0);
    } else {
      InOrderRun(env, sched, k - 1);
      InOrderTick(env, sched[k - 1], After(env, sched, k - 1), sched[k - 2].now);
    }
  }

  /**
   In every run, for every estimator: acknowledgements are delivered in nondecreasing time, so
   the reference maximum meets its precondition; its head is the maximum of every sample
   offered within the horizon of the last one, and the trailing-second deque is exactly the
   last second of the full delivery history.
   */
  lemma SlidingWindowsAreExact(env: Env, phases: seq<Phase>, k: nat)
    requires 0 < k <= |Schedule(phases, 0)|
    ensures var s, now := After(env, Schedule(phases, 0), k), (k - 1) * TICK;
      && Nondecreasing(Arrivals(s.log.delivered))
      && s.recent == LastSecond(Arrivals(s.log.delivered), now)
      && (s.log.pushes != [] ==>
            var last := s.log.pushes[|s.log.pushes| - 1].at;
            && (exists m :: 0 <= m < |s.log.pushes| && !Stale(HORIZON, last, s.log.pushes[m])
                  && s.log.pushes[m].value == Head(s.reference))
            && (forall m :: 0 <= m < |s.log.pushes| && !Stale(HORIZON, last, s.log.pushes[m])
                  ==> s.log.pushes[m].value <= Head(s.reference)))
  {
    hide After, Schedule;
    var sched := Schedule(phases, 0);
    ScheduleClock(phases, 0);
    InOrderRun(env, sched, k);
    var s := After(env, sched, k);
    if s.log.pushes != [] {
      HeadIsWindowedMaximum(HORIZON, s.log.pushes);
    }
  }
}
