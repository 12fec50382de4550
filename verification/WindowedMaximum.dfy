/**
 The unbounded windowed maximum that the bottleneck simulator keeps beside the estimator,
 and the proof that its monotonic deque is the naive windowed maximum.

 The deque is a fast form: it forgets every sample that a later, larger one makes
 irrelevant. The reference form (`Survivors`) keeps the whole history and re-reads it.
 */
module WindowedMaximum {

  /** One reading: when it was taken (nanoseconds) and what it read. */
  datatype Sample = Sample(at: nat, value: nat)

  /** `Instant::duration_since`, which saturates at zero. */
  function Since(now: nat, ts: nat): nat {
    if ts <= now then now - ts else 0
  }

  predicate Stale(horizon: nat, now: nat, e: Sample) {
    Since(now, e.at) > horizon
  }

  // ----- The deque, as the source updates it -----

  function DropStale(horizon: nat, w: seq<Sample>, now: nat): seq<Sample> {
    if w != [] && Stale(horizon, now, w[0]) then DropStale(horizon, w[1..], now) else w
  }

  function DropDominated(w: seq<Sample>, value: nat): seq<Sample> {
    if w != [] && w[|w| - 1].value <= value then DropDominated(w[..|w| - 1], value) else w
  }

  function Pushed(horizon: nat, w: seq<Sample>, now: nat, value: nat): seq<Sample> {
    DropDominated(DropStale(horizon, w, now), value) + [Sample(now, value)]
  }

  function Head(w: seq<Sample>): nat {
    if w == [] then 0 else w[0].value
  }

  /** The deque after a whole history of pushes. */
  function Window(horizon: nat, pushes: seq<Sample>): seq<Sample> {
    if pushes == [] then []
    else
      var x := pushes[|pushes| - 1];
      Pushed(horizon, Window(horizon, pushes[..|pushes| - 1]), x.at, x.value)
  }

  // ----- The reference: the full history, re-read -----

  ghost predicate Nondecreasing(p: seq<Sample>) {
    forall i, j :: 0 <= i < j < |p| ==> p[i].at <= p[j].at
  }

  /** Sample `i` is inside the horizon of the last push and larger than everything after it. */
  ghost predicate Survives(horizon: nat, p: seq<Sample>, i: nat)
    requires i < |p|
  {
    && !Stale(horizon, p[|p| - 1].at, p[i])
    && forall j :: i < j < |p| ==> p[j].value < p[i].value
  }

  /** The surviving samples from index `i` on, oldest first. */
  ghost function Survivors(horizon: nat, p: seq<Sample>, i: nat): seq<Sample>
    requires i <= |p|
    decreases |p| - i
  {
    if i == |p| then []
    else (if Survives(horizon, p, i) then [p[i]] else []) + Survivors(horizon, p, i + 1)
  }

  // ----- Dropping from one end is filtering, because the deque is monotonic -----

  /** The members of `w` that are neither stale at `now` nor dominated by `value`. */
  function Keep(horizon: nat, w: seq<Sample>, now: nat, value: nat): seq<Sample> {
    if w == [] then []
    else
      (if !Stale(horizon, now, w[0]) && w[0].value > value then [w[0]] else [])
      + Keep(horizon, w[1..], now, value)
  }

  ghost predicate Monotonic(w: seq<Sample>) {
    && Nondecreasing(w)
    && forall i, j :: 0 <= i < j < |w| ==> w[j].value < w[i].value
  }

  lemma {:induction false} KeepAll(horizon: nat, w: seq<Sample>, now: nat, value: nat)
    requires forall i :: 0 <= i < |w| ==> !Stale(horizon, now, w[i]) && w[i].value > value
    ensures Keep(horizon, w, now, value) == w
  {
    if w == [] {
    } else {
      KeepAll(horizon, w[1..], now, value);
      assert w == [w[0]] + w[1..];
    }
  }

  lemma KeepFirst(horizon: nat, w: seq<Sample>, now: nat, value: nat)
    requires w != []
    ensures Keep(horizon, w, now, value) == Keep(horizon, [w[0]], now, value) + Keep(horizon, w[1..], now, value)
  {
    assert [w[0]][1..] == [];
  }

  lemma {:induction false} KeepAppend(horizon: nat, a: seq<Sample>, b: seq<Sample>, now: nat, value: nat)
    ensures Keep(horizon, a + b, now, value)
         == Keep(horizon, a, now, value) + Keep(horizon, b, now, value)
  {
    if a == [] {
      assert a + b == b;
    } else {
      KeepFirst(horizon, a, now, value);
      KeepFirst(horizon, a + b, now, value);
      hide Keep;
      KeepAppend(horizon, a[1..], b, now, value);
      assert (a + b)[0] == a[0] && (a + b)[1..] == a[1..] + b;
    }
  }

  lemma KeepOne(horizon: nat, x: Sample, now: nat, value: nat)
    ensures Keep(horizon, [x], now, value) == if !Stale(horizon, now, x) && x.value > value then [x] else []
  {
    assert [x][1..] == [];
  }

  lemma MonotonicParts(w: seq<Sample>)
    requires Monotonic(w) && w != []
    ensures Monotonic(w[1..]) && Monotonic(w[..|w| - 1])
  {}

  /** With a live front and an undominated back, the whole deque stays. */
  lemma KeepWhole(horizon: nat, w: seq<Sample>, now: nat, value: nat)
    requires Monotonic(w) && w != [] && !Stale(horizon, now, w[0]) && w[|w| - 1].value > value
    ensures Keep(horizon, w, now, value) == w
  {
    KeepAll(horizon, w, now, value);
  }

  lemma {:induction false} DroppingIsKeeping(horizon: nat, w: seq<Sample>, now: nat, value: nat)
    requires Monotonic(w)
    requires forall i :: 0 <= i < |w| ==> w[i].at <= now
    ensures DropDominated(DropStale(horizon, w, now), value) == Keep(horizon, w, now, value)
    decreases |w|
  {
    if w == [] {
      assert Keep(horizon, w, now, value) == [];
    } else {
      hide Keep, Monotonic;
      MonotonicParts(w);
      var last := |w| - 1;
      if Stale(horizon, now, w[0]) {
        DroppingIsKeeping(horizon, w[1..], now, value);
        KeepFirst(horizon, w, now, value);
        KeepOne(horizon, w[0], now, value);
      } else if w[last].value <= value {
        assert DropStale(horizon, w[..last], now) == w[..last];
        DroppingIsKeeping(horizon, w[..last], now, value);
        KeepAppend(horizon, w[..last], [w[last]], now, value);
        assert w == w[..last] + [w[last]];
        KeepOne(horizon, w[last], now, value);
      } else {
        KeepWhole(horizon, w, now, value);
      }
    }
  }

  // ----- The two forms agree -----

  lemma {:induction false} SurvivesPush(horizon: nat, p: seq<Sample>, x: Sample, i: nat)
    requires i < |p| && Nondecreasing(p + [x])
    ensures Survives(horizon, p + [x], i)
       <==> Survives(horizon, p, i) && !Stale(horizon, x.at, p[i]) && p[i].value > x.value
  {
    var q := p + [x];
    assert q[i] == p[i] && q[|p|] == x && q[|p| - 1] == p[|p| - 1];
    if Survives(horizon, q, i) {
      forall j | i < j < |p| ensures p[j].value < p[i].value {
        assert q[j] == p[j];
      }
    }
  }

  lemma SurvivorsStep(horizon: nat, p: seq<Sample>, i: nat)
    requires i < |p|
    ensures var rest := Survivors(horizon, p, i + 1);
      Survivors(horizon, p, i) == if Survives(horizon, p, i) then [p[i]] + rest else rest
  {
    hide Survives;
  }

  lemma SurvivorsEnd(horizon: nat, p: seq<Sample>)
    ensures Survivors(horizon, p, |p|) == []
  {}

  /** The last sample always survives. */
  lemma LastSurvives(horizon: nat, p: seq<Sample>, x: Sample)
    ensures Survivors(horizon, p + [x], |p|) == [x]
  {
    var q := p + [x];
    assert Survives(horizon, q, |p|);
    hide Survives, Survivors;
    SurvivorsStep(horizon, q, |p|);
    SurvivorsEnd(horizon, q);
  }

  /** Keeping a list that starts with `s` keeps `s` or not, and keeps the rest. */
  lemma KeepCons(horizon: nat, s: Sample, rest: seq<Sample>, now: nat, value: nat)
    ensures var kept := Keep(horizon, rest, now, value);
      Keep(horizon, [s] + rest, now, value) == if !Stale(horizon, now, s) && s.value > value then [s] + kept else kept
  {
    assert ([s] + rest)[1..] == rest;
  }

  lemma KeepNone(horizon: nat, now: nat, value: nat)
    ensures Keep(horizon, [], now, value) == []
  {}

  lemma {:induction false} SurvivorsPush(horizon: nat, p: seq<Sample>, x: Sample, i: nat)
    requires i <= |p| && Nondecreasing(p + [x])
    ensures Survivors(horizon, p + [x], i)
         == Keep(horizon, Survivors(horizon, p, i), x.at, x.value) + [x]
    decreases |p| - i
  {
    hide Survivors, Survives, Keep, Nondecreasing;
    if i == |p| {
      LastSurvives(horizon, p, x);
      SurvivorsEnd(horizon, p);
      KeepNone(horizon, x.at, x.value);
      assert [] + [x] == [x];
    } else {
      var rest := Survivors(horizon, p, i + 1);
      SurvivorsPush(horizon, p, x, i + 1);
      SurvivesPush(horizon, p, x, i);
      SurvivorsStep(horizon, p, i);
      SurvivorsStep(horizon, p + [x], i);
      KeepCons(horizon, p[i], rest, x.at, x.value);
      Regroup([p[i]], Keep(horizon, rest, x.at, x.value), [x]);
    }
  }

  lemma Regroup(a: seq<Sample>, b: seq<Sample>, c: seq<Sample>)
    ensures a + (b + c) == (a + b) + c
  {}

  /** Everything `Survivors` lists is a history entry from index `i` on that survives. */
  lemma {:induction false} SurvivorsOrigin(horizon: nat, p: seq<Sample>, i: nat, k: nat) returns (j: nat)
    requires i <= |p| && k < |Survivors(horizon, p, i)|
    ensures i <= j < |p| && Survives(horizon, p, j) && Survivors(horizon, p, i)[k] == p[j]
    decreases |p| - i
  {
    hide Survives;
    if Survives(horizon, p, i) && k == 0 {
      j := i;
    } else {
      j := SurvivorsOrigin(horizon, p, i + 1, if Survives(horizon, p, i) then k - 1 else k);
    }
  }

  lemma MonotonicPush(x: Sample, rest: seq<Sample>)
    requires Monotonic(rest) && forall k :: 0 <= k < |rest| ==> x.at <= rest[k].at && rest[k].value < x.value
    ensures Monotonic([x] + rest)
  {}

  /** A survivor is below every survivor before it, and not older. */
  lemma SurvivorsAbove(horizon: nat, p: seq<Sample>, i: nat, k: nat)
    requires i < |p| && Nondecreasing(p) && Survives(horizon, p, i) && k < |Survivors(horizon, p, i + 1)|
    ensures var s := Survivors(horizon, p, i + 1)[k]; p[i].at <= s.at && s.value < p[i].value
  {
    hide Survivors;
    var j := SurvivorsOrigin(horizon, p, i + 1, k);
  }

  lemma {:induction false} SurvivorsMonotonic(horizon: nat, p: seq<Sample>, i: nat)
    requires i <= |p| && Nondecreasing(p)
    ensures Monotonic(Survivors(horizon, p, i))
    decreases |p| - i
  {
    hide Survivors, Survives, Monotonic, Nondecreasing;
    if i == |p| {
      SurvivorsEnd(horizon, p);
      MonotonicNone();
    } else {
      var rest := Survivors(horizon, p, i + 1);
      SurvivorsMonotonic(horizon, p, i + 1);
      SurvivorsStep(horizon, p, i);
      if Survives(horizon, p, i) {
        forall k | 0 <= k < |rest| ensures p[i].at <= rest[k].at && rest[k].value < p[i].value {
          SurvivorsAbove(horizon, p, i, k);
        }
        MonotonicPush(p[i], rest);
      }
    }
  }

  lemma MonotonicNone()
    ensures Monotonic([])
  {}

  /**
   The deque is exactly the list of samples that are inside the horizon of the last push and
   strictly above every later sample: nothing else is retained, and nothing of it is missing.
   */
  lemma {:induction false} WindowIsSurvivors(horizon: nat, p: seq<Sample>)
    requires Nondecreasing(p)
    ensures Window(horizon, p) == Survivors(horizon, p, 0)
    decreases |p|
  {
    if p == [] {
    } else {
      var q, x := p[..|p| - 1], p[|p| - 1];
      assert p == q + [x];
      WindowIsSurvivors(horizon, q);
      SurvivorsMonotonic(horizon, q, 0);
      SurvivorsPush(horizon, q, x, 0);
      var w := Survivors(horizon, q, 0);
      forall k | 0 <= k < |w| ensures w[k].at <= x.at {
        var j := SurvivorsOrigin(horizon, q, 0, k);
        assert q[j] == p[j];
      }
      DroppingIsKeeping(horizon, w, x.at, x.value);
    }
  }

  /** Index of the last largest sample among those from `i` on. */
  lemma {:induction false} LargestFrom(p: seq<Sample>, i: nat) returns (m: nat)
    requires i < |p|
    ensures i <= m < |p|
    ensures forall j :: i <= j < |p| ==> p[j].value <= p[m].value
    ensures forall j :: m < j < |p| ==> p[j].value < p[m].value
    decreases |p| - i
  {
    if i + 1 == |p| {
      m := i;
    } else {
      m := LargestFrom(p, i + 1);
      if p[i].value > p[m].value {
        m := i;
      }
    }
  }

  lemma {:induction false} FirstSurvivor(horizon: nat, p: seq<Sample>, i: nat, m: nat)
    requires i <= m < |p| && Survives(horizon, p, m)
    requires forall j :: i <= j < m ==> !Survives(horizon, p, j)
    ensures Survivors(horizon, p, i) != [] && Survivors(horizon, p, i)[0] == p[m]
    decreases m - i
  {
    hide Survives;
    if i >= m {
    } else {
      FirstSurvivor(horizon, p, i + 1, m);
    }
  }

  /**
   `head` is the maximum of every sample within the horizon of the last push: it is one of
   them, and none of them is larger. (The full history decides; the deque is not mentioned.)
   */
  lemma {:induction false} HeadIsWindowedMaximum(horizon: nat, p: seq<Sample>)
    requires p != [] && Nondecreasing(p)
    ensures var now := p[|p| - 1].at;
      && (exists m :: 0 <= m < |p| && !Stale(horizon, now, p[m]) && p[m].value == Head(Window(horizon, p)))
      && (forall j :: 0 <= j < |p| && !Stale(horizon, now, p[j]) ==> p[j].value <= Head(Window(horizon, p)))
  {
    var now := p[|p| - 1].at;
    var lo := FirstFresh(horizon, p, now);
    var m := LargestFrom(p, lo);
    assert p[lo].at <= p[m].at <= now;
    assert Survives(horizon, p, m);
    forall j | 0 <= j < m ensures !Survives(horizon, p, j) {
      if lo <= j {
        assert p[j].value <= p[m].value;
      } else {
        assert p[j].at <= p[lo].at;
      }
    }
    FirstSurvivor(horizon, p, 0, m);
    WindowIsSurvivors(horizon, p);
  }

  /** Where the fresh part of a nondecreasing history begins. */
  lemma {:induction false} FirstFresh(horizon: nat, p: seq<Sample>, now: nat) returns (lo: nat)
    requires p != [] && Nondecreasing(p) && now == p[|p| - 1].at
    ensures lo < |p| && !Stale(horizon, now, p[lo])
    ensures forall j :: 0 <= j < lo ==> Stale(horizon, now, p[j])
  {
    lo := 0;
    while Stale(horizon, now, p[lo])
      invariant lo < |p|
      invariant forall j :: 0 <= j < lo ==> Stale(horizon, now, p[j])
      decreases |p| - lo
    {
      assert lo < |p| - 1;
      lo := lo + 1;
    }
  }

  // ----- The mutable object -----

  class WindowedMax {
    var window: seq<Sample>
    const horizon: nat

    constructor (horizon: nat)
      ensures window == Window(horizon, []) && this.horizon == horizon
    {
      window := [];
      this.horizon := horizon;
    }

    method Push(now: nat, value: nat)
      modifies this
      ensures window == Pushed(horizon, old(window), now, value)
    {
      while window != [] && Stale(horizon, now, window[0])
        invariant DropStale(horizon, window, now) == DropStale(horizon, old(window), now)
        decreases |window|
      {
        window := window[1..];
      }
      ghost var trimmed := window;
      while window != [] && window[|window| - 1].value <= value
        invariant DropDominated(window, value) == DropDominated(trimmed, value)
        decreases |window|
      {
        window := window[..|window| - 1];
      }
      window := window + [Sample(now, value)];
    }

    method GetHead() returns (v: nat)
      ensures v == Head(window)
    {
      if window == [] {
        v := 0;
      } else {
        v := window[0].value;
      }
    }
  }

  /** Any run of pushes on the object leaves its head at the windowed maximum of that run. */
  method PushAll(horizon: nat, p: seq<Sample>) returns (head: nat, retained: nat)
    requires p != [] && Nondecreasing(p)
    ensures forall j :: 0 <= j < |p| && !Stale(horizon, p[|p| - 1].at, p[j]) ==> p[j].value <= head
    ensures exists j :: 0 <= j < |p| && !Stale(horizon, p[|p| - 1].at, p[j]) && p[j].value == head
    ensures retained == |Survivors(horizon, p, 0)|
  {
    var w := new WindowedMax(horizon);
    var i := 0;
    while i < |p|
      invariant i <= |p| && w.window == Window(horizon, p[..i]) && w.horizon == horizon
    {
      w.Push(p[i].at, p[i].value);
      assert p[..i + 1][..i] == p[..i];
      i := i + 1;
    }
    assert p[..i] == p;
    HeadIsWindowedMaximum(horizon, p);
    WindowIsSurvivors(horizon, p);
    head := w.GetHead();
    retained := |w.window|;
  }
}
