/**
 Conservation over every run of the bottleneck simulator, for every estimator: no segment is
 lost for good or delivered twice, the byte counters agree with the structures they count, and
 the congestion signal is raised once per hole.
 */
module BottleneckConservation {
  import opened Arithmetic
  import opened BottleneckModel

  // ----- Where a segment can be -----

  function SegIds(q: seq<InFlight>): seq<nat> {
    seq(|q|, i requires 0 <= i < |q| => q[i].id)
  }

  function RetIds(r: seq<Returning>): seq<nat> {
    seq(|r|, i requires 0 <= i < |r| => r[i].seg.id)
  }

  /** Every id in the model, with multiplicity, wherever it stands. */
  function Everywhere(s: State): multiset<nat> {
    multiset(SegIds(s.queue)) + multiset(RetIds(s.returning)) + multiset(s.awaiting)
    + multiset(RetIds(s.log.delivered))
  }

  /** Each segment taken from `owed` is in exactly one place, and nothing else is anywhere. */
  ghost predicate Conserved(s: State) {
    Everywhere(s) == Upto(s.log.taken)
  }

  lemma SegIdsSplit(a: seq<InFlight>, b: seq<InFlight>)
    ensures SegIds(a + b) == SegIds(a) + SegIds(b)
  {}

  lemma RetIdsSplit(a: seq<Returning>, b: seq<Returning>)
    ensures RetIds(a + b) == RetIds(a) + RetIds(b)
  {}

  /** A hole goes from the return path to the holes, a delivery to the log, and nothing else moves. */
  lemma AckMoves(env: Env, cfg: TickConfig, s: State)
    requires s.returning != []
    ensures var r, t := s.returning[0], AckOne(env, cfg, s);
      && t.queue == s.queue && t.returning == s.returning[1..] && t.log.taken == s.log.taken
      && t.awaiting == (if r.lost then s.awaiting + [r.seg.id] else s.awaiting)
      && t.log.delivered == (if r.lost then s.log.delivered else s.log.delivered + [r])
      && t.log.signalled == s.log.signalled + (if r.lost && !r.seg.isRepair then [r.seg.id] else [])
      && t.calls == s.calls + (if !r.lost then [OnAck(r.seg, r.ackAt)]
                               else if r.seg.isRepair then [] else [OnLoss(r.seg.bytes)])
  {}

  lemma RetIdsPush(a: seq<Returning>, r: Returning)
    ensures multiset(RetIds(a + [r])) == multiset(RetIds(a)) + multiset{r.seg.id}
  {
    RetIdsSplit(a, [r]);
    assert RetIds([r]) == [r.seg.id];
  }

  lemma RetIdsPop(a: seq<Returning>)
    requires a != []
    ensures multiset(RetIds(a)) == multiset(RetIds(a[1..])) + multiset{a[0].seg.id}
  {
    assert a == [a[0]] + a[1..];
    RetIdsSplit([a[0]], a[1..]);
    assert RetIds([a[0]]) == [a[0].seg.id];
  }

  lemma ConservedAck(env: Env, cfg: TickConfig, s: State)
    requires Conserved(s) && s.returning != []
    ensures Conserved(AckOne(env, cfg, s))
  {
    AckMoves(env, cfg, s);
    RetIdsPop(s.returning);
    RetIdsPush(s.log.delivered, s.returning[0]);
    hide AckOne, Upto, RetIds, SegIds;
  }

  lemma ConservedLaunch(env: Env, paced: bool, now: nat, s: State)
    requires MaySend(env, paced, s) && Conserved(s)
    ensures var p := Launch(env, paced, now, s);
      Everywhere(p.0) + multiset{p.1.id} == Upto(p.0.log.taken)
  {
    var p := Launch(env, paced, now, s);
    assert p.0.queue == s.queue && p.0.returning == s.returning && p.0.log.delivered == s.log.delivered;
    if s.awaiting != [] {
      assert s.awaiting == [s.awaiting[0]] + s.awaiting[1..];
      assert multiset(s.awaiting) == multiset{p.1.id} + multiset(p.0.awaiting);
    } else {
      assert Everywhere(p.0) == Everywhere(s);
      assert Upto(s.log.taken + 1) == Upto(s.log.taken) + multiset{s.log.taken};
    }
  }

  lemma ConservedEnqueue(t: State, seg: InFlight)
    ensures Everywhere(Enqueue(t, seg)) == Everywhere(t) + multiset{seg.id}
  {
    SegIdsSplit(t.queue, [seg]);
    assert SegIds([seg]) == [seg.id];
  }

  lemma InsertedIds(r: seq<Returning>, at: nat, x: Returning)
    requires at <= |r|
    ensures multiset(RetIds(r[..at] + [x] + r[at..])) == multiset(RetIds(r)) + multiset{x.seg.id}
  {
    var l, m, h := r[..at], [x], r[at..];
    assert r == l + h;
    RetIdsSplit(l, h);
    RetIdsSplit(l, m);
    RetIdsSplit(l + m, h);
    assert RetIds(m) == [x.seg.id];
  }

  lemma ConservedTailDrop(env: Env, cfg: TickConfig, t: State, seg: InFlight)
    ensures Everywhere(TailDrop(env, cfg, t, seg)) == Everywhere(t) + multiset{seg.id}
  {
    hide DrainNs, LinkRate, Place, RetIds, SegIds;
    var ackAt := cfg.now + DrainNs(t.queuedBytes, LinkRate(cfg.phase, cfg.into)) + 2 * PROPAGATION;
    var at := Place(t.returning, ackAt, env.place(t.returning, ackAt));
    InsertedIds(t.returning, at, Returning(seg, ackAt, true));
  }

  lemma ConservedSend(env: Env, cfg: TickConfig, paced: bool, s: State)
    requires Conserved(s) && MaySend(env, paced, s)
    ensures Conserved(SendOne(env, cfg, paced, s))
  {
    var p := Launch(env, paced, cfg.now, s);
    ConservedLaunch(env, paced, cfg.now, s);
    ConservedEnqueue(p.0, p.1);
    ConservedTailDrop(env, cfg, p.0, p.1);
  }

  lemma SegIdsPop(a: seq<InFlight>)
    requires a != []
    ensures multiset(SegIds(a)) == multiset(SegIds(a[1..])) + multiset{a[0].id}
  {
    assert a == [a[0]] + a[1..];
    SegIdsSplit([a[0]], a[1..]);
    assert SegIds([a[0]]) == [a[0].id];
  }

  lemma ConservedLink(cfg: TickConfig, s: State)
    requires Conserved(s) && s.queue != []
    ensures Conserved(LinkOne(cfg, s))
  {
    hide Noise, RetIds, SegIds, Upto;
    SegIdsPop(s.queue);
    RetIdsPush(s.returning, LinkOne(cfg, s).returning[|s.returning|]);
  }

  // ----- The byte counters -----

  /**
   The estimator's own flight arithmetic, read off its call history: a send adds, an
   acknowledgement and a retransmission take away (saturating), a loss report changes nothing.
   */
  function Flight(calls: seq<Call>): nat {
    if calls == [] then 0
    else
      var before := Flight(calls[..|calls| - 1]);
      match calls[|calls| - 1]
      case OnSend(bytes) => before + bytes
      case OnRetransmit(bytes) => if before >= bytes then before - bytes else 0
      case OnAck(seg, _) => if before >= seg.bytes then before - seg.bytes else 0
      case OnLoss(_) => before
      case NoteAppLimitedDrain => before
  }

  lemma FlightOne(calls: seq<Call>, c: Call)
    ensures Flight(calls + [c]) == match c
      case OnSend(bytes) => Flight(calls) + bytes
      case OnRetransmit(bytes) => if Flight(calls) >= bytes then Flight(calls) - bytes else 0
      case OnAck(seg, _) => if Flight(calls) >= seg.bytes then Flight(calls) - seg.bytes else 0
      case OnLoss(_) => Flight(calls)
      case NoteAppLimitedDrain => Flight(calls)
  {
    assert (calls + [c])[..|calls|] == calls;
  }

  function Outstanding(s: State): nat {
    |s.queue| + |s.returning| + |s.awaiting|
  }

  /**
   `queued_bytes` is the queue's bytes, every transmission is one whole segment, and what the
   estimator believes is in flight is exactly what is outstanding.
   */
  ghost predicate Booked(s: State) {
    && (forall i :: 0 <= i < |s.queue| ==> s.queue[i].bytes == SEGMENT)
    && (forall i :: 0 <= i < |s.returning| ==> s.returning[i].seg.bytes == SEGMENT)
    && s.queuedBytes == SEGMENT * |s.queue|
    && Flight(s.calls) == SEGMENT * Outstanding(s)
  }

  lemma BookedAck(env: Env, cfg: TickConfig, s: State)
    requires Booked(s) && s.returning != []
    ensures Booked(AckOne(env, cfg, s))
  {
    var r := s.returning[0];
    FlightOne(s.calls, OnAck(r.seg, r.ackAt));
    FlightOne(s.calls, OnLoss(r.seg.bytes));
  }

  lemma FlightLaunch(env: Env, paced: bool, now: nat, s: State)
    requires MaySend(env, paced, s) && Flight(s.calls) == SEGMENT * Outstanding(s)
    ensures var p := Launch(env, paced, now, s);
      Flight(p.0.calls) == SEGMENT * (Outstanding(p.0) + 1)
  {
    FlightOne(s.calls, OnSend(SEGMENT));
    if s.awaiting != [] {
      FlightOne(s.calls + [OnSend(SEGMENT)], OnRetransmit(SEGMENT));
    } else {
      assert s.calls + [OnSend(SEGMENT)] + [] == s.calls + [OnSend(SEGMENT)];
    }
  }

  lemma BookedSend(env: Env, cfg: TickConfig, paced: bool, s: State)
    requires Booked(s) && MaySend(env, paced, s)
    ensures Booked(SendOne(env, cfg, paced, s))
  {
    FlightLaunch(env, paced, cfg.now, s);
    var p := Launch(env, paced, cfg.now, s);
    assert p.0.queue == s.queue && p.0.returning == s.returning && p.0.queuedBytes == s.queuedBytes;
    assert p.1.bytes == SEGMENT;
  }

  lemma BookedLink(cfg: TickConfig, s: State)
    requires Booked(s) && s.queue != []
    ensures Booked(LinkOne(cfg, s))
  {}

  // ----- The congestion signal -----

  function LossSignals(calls: seq<Call>): nat {
    if calls == [] then 0
    else LossSignals(calls[..|calls| - 1]) + if calls[|calls| - 1].OnLoss? then 1 else 0
  }

  lemma LossSignalsOne(calls: seq<Call>, c: Call)
    ensures LossSignals(calls + [c]) == LossSignals(calls) + if c.OnLoss? then 1 else 0
  {
    assert (calls + [c])[..|calls|] == calls;
  }

  ghost predicate NoRepeats(ids: seq<nat>) {
    forall i, j :: 0 <= i < j < |ids| ==> ids[i] != ids[j]
  }

  /**
   A transmission is a repair exactly when the signal was already raised for its segment, every
   hole waiting for a repair has been signalled, and no segment is signalled twice.
   */
  ghost predicate SignalledOnce(s: State) {
    && (forall i :: 0 <= i < |s.queue| ==> (s.queue[i].isRepair <==> s.queue[i].id in s.log.signalled))
    && (forall i :: 0 <= i < |s.returning| ==>
          (s.returning[i].seg.isRepair <==> s.returning[i].seg.id in s.log.signalled))
    && (forall x :: x in s.awaiting ==> x in s.log.signalled)
    && (forall x :: x in s.log.signalled ==> x < s.log.taken)
    && NoRepeats(s.log.signalled)
    && |s.log.signalled| == LossSignals(s.calls)
  }

  /** The front of the return path shares its id with no other transmission. */
  lemma FrontAlone(s: State)
    requires Conserved(s) && s.returning != []
    ensures var x := s.returning[0].seg.id;
      && x < s.log.taken
      && (forall i :: 0 <= i < |s.queue| ==> s.queue[i].id != x)
      && (forall i :: 1 <= i < |s.returning| ==> s.returning[i].seg.id != x)
      && x !in s.awaiting
  {
    var r := s.returning[0];
    var x := r.seg.id;
    UptoOnce(s.log.taken, x);
    assert s.returning == [r] + s.returning[1..];
    RetIdsSplit([r], s.returning[1..]);
    assert RetIds([r]) == [x];
    var rest := RetIds(s.returning[1..]);
    assert multiset(RetIds(s.returning)) == multiset{x} + multiset(rest);
    assert Everywhere(s)[x] >= 1 + multiset(rest)[x] + multiset(SegIds(s.queue))[x] + multiset(s.awaiting)[x];
    forall i | 0 <= i < |s.queue| ensures s.queue[i].id != x {
      assert SegIds(s.queue)[i] in multiset(SegIds(s.queue));
    }
    forall i | 1 <= i < |s.returning| ensures s.returning[i].seg.id != x {
      assert rest[i - 1] in multiset(rest);
    }
    assert x in s.awaiting ==> x in multiset(s.awaiting);
  }

  /** As many signals raised as ids signalled. */
  lemma SignalCountAck(env: Env, cfg: TickConfig, s: State)
    requires |s.log.signalled| == LossSignals(s.calls) && s.returning != []
    ensures |AckOne(env, cfg, s).log.signalled| == LossSignals(AckOne(env, cfg, s).calls)
  {
    var r := s.returning[0];
    AckMoves(env, cfg, s);
    LossSignalsOne(s.calls, OnLoss(r.seg.bytes));
    LossSignalsOne(s.calls, OnAck(r.seg, r.ackAt));
    assert s.calls + [] == s.calls;
    hide AckOne, LossSignals;
  }

  /** Signalling a segment that had not been signalled and stands alone. */
  lemma SignalledNew(s: State, t: State, r: Returning)
    requires SignalledOnce(s) && r.seg.id !in s.log.signalled && r.seg.id < s.log.taken
    requires t.log.taken == s.log.taken && t.log.signalled == s.log.signalled + [r.seg.id]
    requires t.queue == s.queue && forall i :: 0 <= i < |s.queue| ==> s.queue[i].id != r.seg.id
    requires |t.returning| < |s.returning|
    requires forall i :: 0 <= i < |t.returning| ==> t.returning[i] == s.returning[i + 1]
    requires forall i :: 1 <= i < |s.returning| ==> s.returning[i].seg.id != r.seg.id
    requires t.awaiting == s.awaiting + [r.seg.id] && |t.log.signalled| == LossSignals(t.calls)
    ensures SignalledOnce(t)
  {
    hide LossSignals;
    assert forall x :: x in t.log.signalled <==> x in s.log.signalled || x == r.seg.id;
  }

  /** An acknowledgement that signals nothing. */
  lemma SignalledSame(s: State, t: State, id: nat)
    requires SignalledOnce(s) && t.queue == s.queue && t.log.taken == s.log.taken
    requires t.log.signalled == s.log.signalled && |t.log.signalled| == LossSignals(t.calls)
    requires |t.returning| < |s.returning|
    requires forall i :: 0 <= i < |t.returning| ==> t.returning[i] == s.returning[i + 1]
    requires t.awaiting == s.awaiting || (t.awaiting == s.awaiting + [id] && id in s.log.signalled)
    ensures SignalledOnce(t)
  {
    hide LossSignals, NoRepeats;
  }

  lemma SignalledAck(env: Env, cfg: TickConfig, s: State)
    requires Conserved(s) && SignalledOnce(s) && s.returning != []
    ensures SignalledOnce(AckOne(env, cfg, s))
  {
    var r, t := s.returning[0], AckOne(env, cfg, s);
    FrontAlone(s);
    AckMoves(env, cfg, s);
    SignalCountAck(env, cfg, s);
    assert r.seg.isRepair <==> r.seg.id in s.log.signalled;
    hide AckOne, Conserved, SignalledOnce;
    if r.lost && !r.seg.isRepair {
      SignalledNew(s, t, r);
    } else {
      assert t.log.signalled == s.log.signalled;
      SignalledSame(s, t, r.seg.id);
    }
  }

  lemma SignalledLaunch(env: Env, paced: bool, now: nat, s: State)
    requires Conserved(s) && SignalledOnce(s) && MaySend(env, paced, s)
    ensures var (t, seg) := Launch(env, paced, now, s);
      SignalledOnce(t) && (seg.isRepair <==> seg.id in t.log.signalled)
  {
    LossSignalsOne(s.calls, OnSend(SEGMENT));
    LossSignalsOne(s.calls + [OnSend(SEGMENT)], OnRetransmit(SEGMENT));
    assert s.calls + [OnSend(SEGMENT)] + [] == s.calls + [OnSend(SEGMENT)];
    if s.awaiting != [] {
      assert s.awaiting[0] in s.awaiting;
      assert forall x :: x in s.awaiting[1..] ==> x in s.awaiting;
    }
  }

  lemma SignalledEnqueue(s: State, seg: InFlight)
    requires SignalledOnce(s) && (seg.isRepair <==> seg.id in s.log.signalled)
    ensures SignalledOnce(Enqueue(s, seg))
  {
    hide NoRepeats, LossSignals;
    assert forall i :: 0 <= i < |s.queue| ==> Enqueue(s, seg).queue[i] == s.queue[i];
  }

  lemma SignalledTailDrop(env: Env, cfg: TickConfig, s: State, seg: InFlight)
    requires SignalledOnce(s) && (seg.isRepair <==> seg.id in s.log.signalled)
    ensures SignalledOnce(TailDrop(env, cfg, s, seg))
  {
    hide NoRepeats, LossSignals, LinkRate, DrainNs, Place;
    var ackAt := cfg.now + DrainNs(s.queuedBytes, LinkRate(cfg.phase, cfg.into)) + 2 * PROPAGATION;
    var at := Place(s.returning, ackAt, env.place(s.returning, ackAt));
    var t := TailDrop(env, cfg, s, seg);
    forall i | 0 <= i < |t.returning|
      ensures t.returning[i].seg.isRepair <==> t.returning[i].seg.id in t.log.signalled
    {
      assert i != at ==> t.returning[i] == s.returning[if i < at then i else i - 1];
    }
  }

  lemma SignalledSend(env: Env, cfg: TickConfig, paced: bool, s: State)
    requires Conserved(s) && SignalledOnce(s) && MaySend(env, paced, s)
    ensures SignalledOnce(SendOne(env, cfg, paced, s))
  {
    SignalledLaunch(env, paced, cfg.now, s);
    hide SignalledOnce, TailDrop, Enqueue, Conserved, Launch;
    var p := Launch(env, paced, cfg.now, s);
    SignalledEnqueue(p.0, p.1);
    SignalledTailDrop(env, cfg, p.0, p.1);
  }

  lemma SignalledLink(cfg: TickConfig, s: State)
    requires SignalledOnce(s) && s.queue != []
    ensures SignalledOnce(LinkOne(cfg, s))
  {}

  // ----- Every tick of every run -----

  ghost predicate Accounted(s: State) {
    Conserved(s) && Booked(s) && SignalledOnce(s)
  }

  lemma AccountedAcks(env: Env, cfg: TickConfig, s: State)
    requires Accounted(s)
    ensures Accounted(AckLoop(env, cfg, s))
  {
    forall x | Accounted(x) && AckDue(x, cfg.now) ensures Accounted(AckOne(env, cfg, x)) {
      ConservedAck(env, cfg, x);
      BookedAck(env, cfg, x);
      SignalledAck(env, cfg, x);
    }
    AckLoopKeeps(env, cfg, s, x => Accounted(x));
  }

  lemma AccountedSends(env: Env, cfg: TickConfig, paced: bool, s: State)
    requires Accounted(s)
    ensures Accounted(SendLoop(env, cfg, paced, s))
  {
    forall x | Accounted(x) && MaySend(env, paced, x) ensures Accounted(SendOne(env, cfg, paced, x)) {
      ConservedSend(env, cfg, paced, x);
      BookedSend(env, cfg, paced, x);
      SignalledSend(env, cfg, paced, x);
    }
    SendLoopKeeps(env, cfg, paced, s, x => Accounted(x));
  }

  lemma AccountedLink(cfg: TickConfig, s: State)
    requires Accounted(s)
    ensures Accounted(LinkLoop(cfg, s))
  {
    forall x | Accounted(x) && LinkReady(x) ensures Accounted(LinkOne(cfg, x)) {
      ConservedLink(cfg, x);
      BookedLink(cfg, x);
      SignalledLink(cfg, x);
    }
    LinkLoopKeeps(cfg, s, x => Accounted(x));
  }

  /** Nothing but the accounts decides whether they balance. */
  ghost predicate SameAccounts(s: State, t: State) {
    && t.queue == s.queue && t.queuedBytes == s.queuedBytes && t.returning == s.returning
    && t.awaiting == s.awaiting && t.calls == s.calls
    && t.log.taken == s.log.taken && t.log.signalled == s.log.signalled && t.log.delivered == s.log.delivered
  }

  lemma AccountedFrame(s: State, t: State)
    requires Accounted(s) && SameAccounts(s, t)
    ensures Accounted(t)
  {}

  lemma OfferFrame(cfg: TickConfig, s: State)
    ensures SameAccounts(s, Open(cfg, s)) && SameAccounts(s, Offer(cfg, s))
  {}

  lemma AccountedBeforeSend(env: Env, cfg: TickConfig, s: State)
    requires Accounted(s)
    ensures Accounted(BeforeSend(env, cfg, s))
  {
    var started := Open(cfg, s);
    OfferFrame(cfg, s);
    AccountedFrame(s, started);
    AccountedAcks(env, cfg, started);
    var acked := AckLoop(env, cfg, started);
    OfferFrame(cfg, acked);
    AccountedFrame(acked, Offer(cfg, acked));
  }

  lemma AccountedDry(env: Env, paced: bool, s: State)
    requires Accounted(s)
    ensures Accounted(NoteDry(env, paced, s))
  {
    hide RanDry, Upto, NoRepeats, RetIds, SegIds;
    FlightOne(s.calls, NoteAppLimitedDrain);
    LossSignalsOne(s.calls, NoteAppLimitedDrain);
  }

  lemma AccountedSend(env: Env, cfg: TickConfig, s: State)
    requires Accounted(s)
    ensures Accounted(Send(env, cfg, s))
  {
    var paced := Paced(env, s);
    AccountedFrame(s, EarnPace(env, s));
    AccountedSends(env, cfg, paced, EarnPace(env, s));
    AccountedDry(env, paced, SendLoop(env, cfg, paced, EarnPace(env, s)));
  }

  lemma AccountedBeforeServe(env: Env, cfg: TickConfig, s: State)
    requires Accounted(s)
    ensures Accounted(BeforeServe(env, cfg, s))
  {
    AccountedBeforeSend(env, cfg, s);
    AccountedSend(env, cfg, BeforeSend(env, cfg, s));
  }

  lemma AccountedServe(env: Env, cfg: TickConfig, s: State)
    requires Accounted(s)
    ensures Accounted(Read(env, cfg, Serve(cfg, s)))
  {
    AccountedFrame(s, EarnLink(cfg, s));
    AccountedLink(cfg, EarnLink(cfg, s));
    var linked := LinkLoop(cfg, EarnLink(cfg, s));
    AccountedFrame(linked, CapIdle(linked));
    AccountedFrame(Serve(cfg, s), Read(env, cfg, Serve(cfg, s)));
  }

  lemma AccountedTick(env: Env, cfg: TickConfig, s: State)
    requires Accounted(s)
    ensures Accounted(Tick(env, cfg, s))
  {
    AccountedBeforeServe(env, cfg, s);
    AccountedServe(env, cfg, BeforeServe(env, cfg, s));
  }

  lemma AccountedInitial()
    ensures Accounted(INITIAL)
  {}

  lemma {:induction false} AccountedRun(env: Env, sched: seq<TickConfig>, k: nat)
    requires k <= |sched|
    ensures Accounted(After(env, sched, k))
  {
    hide Tick, Accounted;
    if k == 0 {
      AccountedInitial();
    } else {
      AccountedRun(env, sched, k - 1);
      AccountedTick(env, sched[k - 1], After(env, sched, k - 1));
    }
  }

  // ----- What that says -----

  lemma {:induction false} CountAtLeastTwo(ids: seq<nat>, i: nat, j: nat)
    requires i < j < |ids| && ids[i] == ids[j]
    ensures multiset(ids)[ids[i]] >= 2
  {
    assert ids == ids[..j] + ids[j..];
    assert ids[..j][i] in multiset(ids[..j]);
    assert ids[j..][0] in multiset(ids[j..]);
  }

  /**
   At every tick of every run, every segment the application handed over is queued, on the
   return path, waiting for a repair, or delivered, and is in exactly one of the four; so no
   segment is lost for good, and none is delivered twice.
   */
  lemma NothingLostNothingTwice(env: Env, sched: seq<TickConfig>, k: nat)
    requires k <= |sched|
    ensures var s := After(env, sched, k);
      && Outstanding(s) + |s.log.delivered| == s.log.taken
      && NoRepeats(RetIds(s.log.delivered))
      && forall id :: 0 <= id < s.log.taken ==>
           multiset(SegIds(s.queue))[id] + multiset(RetIds(s.returning))[id]
           + multiset(s.awaiting)[id] + multiset(RetIds(s.log.delivered))[id] == 1
  {
    AccountedRun(env, sched, k);
    var s := After(env, sched, k);
    UptoSize(s.log.taken);
    assert |Everywhere(s)| == Outstanding(s) + |s.log.delivered|;
    forall id | 0 <= id < s.log.taken
      ensures multiset(SegIds(s.queue))[id] + multiset(RetIds(s.returning))[id]
            + multiset(s.awaiting)[id] + multiset(RetIds(s.log.delivered))[id] == 1
    {
      UptoOnce(s.log.taken, id);
    }
    var d := RetIds(s.log.delivered);
    forall i, j | 0 <= i < j < |d| ensures d[i] != d[j] {
      if d[i] == d[j] {
        UptoOnce(s.log.taken, d[i]);
        CountAtLeastTwo(d, i, j);
        assert false;
      }
    }
  }

  /**
   At every tick of every run the estimator's in-flight figure is the bytes outstanding, and
   the queue's byte counter is the queue's bytes: neither saturating subtraction ever saturates.
   */
  lemma FlightIsOutstanding(env: Env, sched: seq<TickConfig>, k: nat)
    requires k <= |sched|
    ensures var s := After(env, sched, k);
      Flight(s.calls) == SEGMENT * (s.log.taken - |s.log.delivered|) && s.queuedBytes == SEGMENT * |s.queue|
  {
    AccountedRun(env, sched, k);
    NothingLostNothingTwice(env, sched, k);
  }

  /**
   However many repairs of a segment are lost in turn, the congestion signal is raised at most
   once for it: the signals raised so far are one each for distinct segments.
   */
  lemma SignalOncePerSegment(env: Env, sched: seq<TickConfig>, k: nat)
    requires k <= |sched|
    ensures var s := After(env, sched, k);
      && LossSignals(s.calls) == |s.log.signalled| <= s.log.taken
      && NoRepeats(s.log.signalled)
  {
    AccountedRun(env, sched, k);
    var s := After(env, sched, k);
    DistinctBelow(s.log.signalled, s.log.taken);
  }

  lemma {:induction false} DistinctBelow(ids: seq<nat>, n: nat)
    requires NoRepeats(ids) && forall x :: x in ids ==> x < n
    ensures |ids| <= n
    decreases n
  {
    assert ids != [] ==> ids[0] in ids;
    if n == 0 {
    } else {
      if n - 1 in ids {
        var i :| 0 <= i < |ids| && ids[i] == n - 1;
        var rest := ids[..i] + ids[i + 1..];
        forall x | x in rest ensures x < n - 1 {
          var j :| 0 <= j < |rest| && rest[j] == x;
          var j' := if j < i then j else j + 1;
          assert x == ids[j'] && ids[j'] in ids && j' != i;
        }
        DistinctBelow(rest, n - 1);
      } else {
        DistinctBelow(ids, n - 1);
      }
    }
  }
}
