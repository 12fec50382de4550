/**
 Sortedness of the return-path deque. The simulator drains it from the front and places tail
 drops by binary search, on the stated ground that every other push is in order by
 construction. That ground holds exactly as long as no segment departs while a tail drop is
 dated later than that departure; `BottleneckOvertaken` is a run where it fails.
 */
module BottleneckSorted {
  import opened BottleneckModel
  import opened Wrappers

  ghost predicate Sorted(r: seq<Returning>) {
    forall i, j :: 0 <= i < j < |r| ==> r[i].ackAt <= r[j].ackAt
  }

  // ----- Acknowledgements and tail drops keep the deque sorted -----

  lemma SortedAcks(env: Env, cfg: TickConfig, s: State)
    requires Sorted(s.returning)
    ensures var t := AckLoop(env, cfg, s);
      Sorted(t.returning) && forall r :: r in t.returning ==> r.ackAt > cfg.now
  {
    forall x: State | Sorted(x.returning) && AckDue(x, cfg.now) ensures Sorted(AckOne(env, cfg, x).returning) {
      assert AckOne(env, cfg, x).returning == x.returning[1..];
    }
    AckLoopKeeps(env, cfg, s, (x: State) => Sorted(x.returning));
  }

  /** On a sorted deque a boundary is the partition point, so the insertion is in place. */
  lemma PlacedInOrder(r: seq<Returning>, at: nat, x: Returning)
    requires Sorted(r) && IsBoundary(r, x.ackAt, at)
    ensures Sorted(r[..at] + [x] + r[at..])
  {
    var q := r[..at] + [x] + r[at..];
    assert forall i :: 0 <= i < |q| && i != at ==> q[i] == r[if i < at then i else i - 1];
    assert q[at] == x;
    forall i, j | 0 <= i < j < |q| ensures q[i].ackAt <= q[j].ackAt {
      if j == at {
        assert r[i].ackAt <= r[at - 1].ackAt;
      } else if i == at {
        assert r[at].ackAt <= r[j - 1].ackAt;
      }
    }
  }

  lemma SortedSend(env: Env, cfg: TickConfig, paced: bool, s: State)
    requires Sorted(s.returning) && MaySend(env, paced, s)
    ensures Sorted(SendOne(env, cfg, paced, s).returning)
  {
    hide TailDrop, Sorted;
    var p := Launch(env, paced, cfg.now, s);
    SortedTailDrop(env, cfg, p.0, p.1);
  }

  lemma SortedTailDrop(env: Env, cfg: TickConfig, s: State, seg: InFlight)
    requires Sorted(s.returning)
    ensures Sorted(TailDrop(env, cfg, s, seg).returning)
  {
    hide LinkRate, DrainNs, Sorted;
    var ackAt := cfg.now + DrainNs(s.queuedBytes, LinkRate(cfg.phase, cfg.into)) + 2 * PROPAGATION;
    var at := Place(s.returning, ackAt, env.place(s.returning, ackAt));
    PlacedInOrder(s.returning, at, Returning(seg, ackAt, true));
  }

  lemma SortedSends(env: Env, cfg: TickConfig, paced: bool, s: State)
    requires Sorted(s.returning)
    ensures Sorted(SendLoop(env, cfg, paced, s).returning)
  {
    forall x: State | Sorted(x.returning) && MaySend(env, paced, x)
      ensures Sorted(SendOne(env, cfg, paced, x).returning)
    {
      SortedSend(env, cfg, paced, x);
    }
    SendLoopKeeps(env, cfg, paced, s, (x: State) => Sorted(x.returning));
  }

  lemma SortedBeforeServe(env: Env, cfg: TickConfig, s: State)
    requires Sorted(s.returning)
    ensures Sorted(BeforeServe(env, cfg, s).returning)
  {
    SortedAcks(env, cfg, Open(cfg, s));
    var offered := BeforeSend(env, cfg, s);
    SortedSends(env, cfg, Paced(env, offered), EarnPace(env, offered));
  }

  // ----- Departures do, exactly when nothing is dated later -----

  /** The departures of one tick, all dated two propagations ahead, follow what was there. */
  lemma {:induction false} DeparturesAppended(cfg: TickConfig, s: State)
    ensures var t := LinkLoop(cfg, s);
      && |t.returning| >= |s.returning| + (if LinkReady(s) then 1 else 0)
      && t.returning[..|s.returning|] == s.returning
      && (!LinkReady(s) ==> t.returning == s.returning)
      && forall i :: |s.returning| <= i < |t.returning| ==> t.returning[i].ackAt == cfg.now + 2 * PROPAGATION
    decreases |s.queue|
  {
    if !LinkReady(s) {
    } else {
      var u := LinkOne(cfg, s);
      DeparturesAppended(cfg, u);
      var t := LinkLoop(cfg, u);
      assert t.returning[|s.returning|] == t.returning[..|u.returning|][|s.returning|];
      assert u.returning[..|s.returning|] == s.returning;
      assert t.returning[..|s.returning|] == t.returning[..|u.returning|][..|s.returning|];
    }
  }

  /** Something departs this tick while the deque's last entry is dated later than it. */
  ghost predicate Overtaken(env: Env, cfg: TickConfig, s: State) {
    var b := EarnLink(cfg, BeforeServe(env, cfg, s));
    LinkReady(b) && b.returning != [] && b.returning[|b.returning| - 1].ackAt > cfg.now + 2 * PROPAGATION
  }

  lemma SortedDepartures(cfg: TickConfig, s: State)
    requires Sorted(s.returning)
    ensures Sorted(LinkLoop(cfg, s).returning)
       <==> !(LinkReady(s) && s.returning != [] && s.returning[|s.returning| - 1].ackAt > cfg.now + 2 * PROPAGATION)
  {
    var t := LinkLoop(cfg, s);
    var n := |s.returning|;
    DeparturesAppended(cfg, s);
    assert forall i :: 0 <= i < n ==> t.returning[i] == t.returning[..n][i];
    if LinkReady(s) && n > 0 && s.returning[n - 1].ackAt > cfg.now + 2 * PROPAGATION {
      assert t.returning[n - 1].ackAt > t.returning[n].ackAt;
    } else if LinkReady(s) {
      forall i, j | 0 <= i < j < |t.returning| ensures t.returning[i].ackAt <= t.returning[j].ackAt {
        if i < n <= j {
          assert t.returning[i].ackAt <= s.returning[n - 1].ackAt;
        }
      }
    }
  }

  /** From a sorted deque, a tick leaves a sorted deque exactly when no departure is overtaken. */
  lemma SortedTickIff(env: Env, cfg: TickConfig, s: State)
    requires Sorted(s.returning)
    ensures Sorted(Tick(env, cfg, s).returning) <==> !Overtaken(env, cfg, s)
  {
    hide BeforeServe;
    SortedBeforeServe(env, cfg, s);
    SortedDepartures(cfg, EarnLink(cfg, BeforeServe(env, cfg, s)));
  }

  /**
   The deque is sorted at every tick of a run exactly when no tick of it serves a segment
   while a tail drop is dated beyond that segment's own return.
   */
  lemma {:induction false} SortedRunIff(env: Env, sched: seq<TickConfig>, k: nat)
    requires k <= |sched|
    ensures (forall m :: 0 <= m <= k ==> Sorted(After(env, sched, m).returning))
       <==> (forall m :: 0 <= m < k ==> !Overtaken(env, sched[m], After(env, sched, m)))
  {
    hide After, Tick, Overtaken, Sorted;
    if k == 0 {
      StartsSorted(env, sched);
    } else {
      SortedRunIff(env, sched, k - 1);
      SortedNextIff(env, sched, k - 1);
    }
  }

  lemma SortedNextIff(env: Env, sched: seq<TickConfig>, k: nat)
    requires k < |sched|
    ensures Sorted(After(env, sched, k).returning) ==>
      (Sorted(After(env, sched, k + 1).returning) <==> !Overtaken(env, sched[k], After(env, sched, k)))
  {
    hide After, Tick, Overtaken, Sorted;
    if Sorted(After(env, sched, k).returning) {
      SortedTickIff(env, sched[k], After(env, sched, k));
      AfterNext(env, sched, k);
    }
  }

  lemma StartsSorted(env: Env, sched: seq<TickConfig>)
    ensures Sorted(After(env, sched, 0).returning)
  {}

  // ----- Without a queue limit -----

  ghost predicate OnGrid(t: nat) {
    t % TICK == 0
  }

  lemma Grid(t: nat)
    requires OnGrid(t)
    ensures OnGrid(t + TICK) && OnGrid(t + 2 * PROPAGATION)
  {}

  lemma NextOnGrid(a: nat, b: nat)
    requires OnGrid(a) && OnGrid(b) && a < b
    ensures a + TICK <= b
  {}

  /** Everything on the path is dated on the grid, between two times. */
  ghost predicate DatedWithin(r: seq<Returning>, from: nat, to: nat) {
    forall i :: 0 <= i < |r| ==> from <= r[i].ackAt <= to && OnGrid(r[i].ackAt)
  }

  lemma UnlimitedSends(env: Env, cfg: TickConfig, paced: bool, s: State)
    requires cfg.phase.queueLimit.None?
    ensures SendLoop(env, cfg, paced, s).returning == s.returning
  {
    SendLoopKeeps(env, cfg, paced, s, (x: State) => x.returning == s.returning);
  }

  lemma UnlimitedAcks(env: Env, cfg: TickConfig, s: State)
    requires Sorted(s.returning) && DatedWithin(s.returning, cfg.now, cfg.now + 2 * PROPAGATION)
    ensures var t := AckLoop(env, cfg, s);
      Sorted(t.returning) && DatedWithin(t.returning, cfg.now + 1, cfg.now + 2 * PROPAGATION)
  {
    hide OnGrid, Sorted;
    SortedAcks(env, cfg, s);
    forall x: State | DatedWithin(x.returning, cfg.now, cfg.now + 2 * PROPAGATION) && AckDue(x, cfg.now)
      ensures DatedWithin(AckOne(env, cfg, x).returning, cfg.now, cfg.now + 2 * PROPAGATION)
    {
      assert AckOne(env, cfg, x).returning == x.returning[1..];
    }
    AckLoopKeeps(env, cfg, s, (x: State) => DatedWithin(x.returning, cfg.now, cfg.now + 2 * PROPAGATION));
    var t := AckLoop(env, cfg, s);
    assert forall i :: 0 <= i < |t.returning| ==> t.returning[i] in t.returning;
  }

  lemma UnlimitedBeforeServe(env: Env, cfg: TickConfig, s: State)
    requires cfg.phase.queueLimit.None?
    requires Sorted(s.returning) && DatedWithin(s.returning, cfg.now, cfg.now + 2 * PROPAGATION)
    ensures var b := BeforeServe(env, cfg, s);
      Sorted(b.returning) && DatedWithin(b.returning, cfg.now + 1, cfg.now + 2 * PROPAGATION)
  {
    hide OnGrid, Sorted, DatedWithin;
    UnlimitedAcks(env, cfg, Open(cfg, s));
    var offered := BeforeSend(env, cfg, s);
    UnlimitedSends(env, cfg, Paced(env, offered), EarnPace(env, offered));
  }

  lemma UnlimitedServe(cfg: TickConfig, b: State)
    requires OnGrid(cfg.now) && Sorted(b.returning)
    requires DatedWithin(b.returning, cfg.now + 1, cfg.now + 2 * PROPAGATION)
    ensures var t := LinkLoop(cfg, b);
      Sorted(t.returning) && DatedWithin(t.returning, cfg.now + TICK, cfg.now + TICK + 2 * PROPAGATION)
  {
    hide OnGrid;
    SortedDepartures(cfg, b);
    DeparturesAppended(cfg, b);
    var t := LinkLoop(cfg, b);
    Grid(cfg.now);
    forall i | 0 <= i < |t.returning|
      ensures cfg.now + TICK <= t.returning[i].ackAt <= cfg.now + TICK + 2 * PROPAGATION && OnGrid(t.returning[i].ackAt)
    {
      if i < |b.returning| {
        assert t.returning[i] == t.returning[..|b.returning|][i] == b.returning[i];
        NextOnGrid(cfg.now, b.returning[i].ackAt);
      }
    }
  }

  lemma UnlimitedTick(env: Env, cfg: TickConfig, s: State)
    requires cfg.phase.queueLimit.None? && OnGrid(cfg.now)
    requires Sorted(s.returning) && DatedWithin(s.returning, cfg.now, cfg.now + 2 * PROPAGATION)
    ensures var t := Tick(env, cfg, s);
      Sorted(t.returning) && DatedWithin(t.returning, cfg.now + TICK, cfg.now + TICK + 2 * PROPAGATION)
  {
    hide BeforeServe, OnGrid, DatedWithin, Sorted;
    UnlimitedBeforeServe(env, cfg, s);
    UnlimitedServe(cfg, EarnLink(cfg, BeforeServe(env, cfg, s)));
  }

  /**
   As long as no tick has a queue limit the deque stays sorted, and nothing overstays: at the
   start of tick `k` every entry is dated that tick or later, so each is taken at its own date.
   */
  lemma {:induction false} UnlimitedRun(env: Env, sched: seq<TickConfig>, k: nat)
    requires k <= |sched|
    requires forall m :: 0 <= m < k ==> sched[m].now == m * TICK && sched[m].phase.queueLimit.None?
    ensures var r := After(env, sched, k).returning;
      Sorted(r) && DatedWithin(r, k * TICK, k * TICK + 2 * PROPAGATION)
  {
    hide Tick;
    if k == 0 {
    } else {
      UnlimitedRun(env, sched, k - 1);
      assert OnGrid(sched[k - 1].now) by {
        assert sched[k - 1].now == (k - 1) * TICK;
      }
      UnlimitedTick(env, sched[k - 1], After(env, sched, k - 1));
    }
  }
}
