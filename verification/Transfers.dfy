/** The coarse spans the transfer analyser takes every rate over. */
module Transfers {

  /** The first index from `j` on at least `coarse` after index `i`, or the last index. */
  function Reach(t: seq<int>, coarse: int, i: nat, j: nat): (e: nat)
    requires i <= j < |t|
    ensures j <= e < |t| && (e == |t| - 1 || t[e] - t[i] >= coarse)
    ensures forall m :: j <= m < e ==> t[m] - t[i] < coarse
    decreases |t| - j
  {
    if j < |t| - 1 && t[j] - t[i] < coarse then Reach(t, coarse, i, j + 1) else j
  }

  /** One turn of the outer loop. */
  lemma SpansNext(out: seq<(nat, nat)>, t: seq<int>, coarse: int, i: nat)
    requires i < |t| - 1
    ensures var j := Reach(t, coarse, i, i);
      out + SpansFrom(t, coarse, i) == (out + [(i, j)]) + SpansFrom(t, coarse, if j > i + 1 then j else i + 1)
  {
    hide Reach;
  }

  method CoarseSpans(t: seq<int>, coarse: int) returns (out: seq<(nat, nat)>)
    ensures out == SpansFrom(t, coarse, 0)
  {
    out := [];
    var i := 0;
    while i < |t| - 1
      invariant 0 <= i && (|t| > 0 ==> i < |t|)
      invariant out + SpansFrom(t, coarse, i) == SpansFrom(t, coarse, 0)
      decreases |t| - i
    {
      var j := i;
      while j < |t| - 1 && t[j] - t[i] < coarse
        invariant i <= j < |t| && Reach(t, coarse, i, j) == Reach(t, coarse, i, i)
      {
        j := j + 1;
      }
      assert j == Reach(t, coarse, i, i);
      hide SpansFrom, Reach;
      SpansNext(out, t, coarse, i);
      out := out + [(i, j)];
      i := if j > i + 1 then j else i + 1;
    }
    assert SpansFrom(t, coarse, i) == [] && out + [] == out;
  }

  function SpansFrom(t: seq<int>, coarse: int, i: nat): seq<(nat, nat)>
    decreases |t| - i
  {
    if i >= |t| - 1 then []
    else
      var j := Reach(t, coarse, i, i);
      [(i, j)] + SpansFrom(t, coarse, if j > i + 1 then j else i + 1)
  }

  /** End to end from index `i` to the last: each span starts where the one before it ended. */
  ghost predicate Tiles(spans: seq<(nat, nat)>, from: nat, to: nat) {
    if spans == [] then from == to
    else spans[0].0 == from && from < spans[0].1 && Tiles(spans[1..], spans[0].1, to)
  }

  /** Every span but the last covers at least `coarse`. */
  ghost predicate LongEnough(t: seq<int>, coarse: int, spans: seq<(nat, nat)>) {
    forall k :: 0 <= k < |spans| ==>
      && spans[k].0 < |t| && spans[k].1 < |t|
      && (spans[k].1 == |t| - 1 || t[spans[k].1] - t[spans[k].0] >= coarse)
  }

  lemma {:induction false} SpansTile(t: seq<int>, coarse: int, i: nat)
    requires coarse > 0 && i < |t|
    ensures Tiles(SpansFrom(t, coarse, i), i, |t| - 1) && LongEnough(t, coarse, SpansFrom(t, coarse, i))
    decreases |t| - i
  {
    if i >= |t| - 1 {
    } else {
      var j := Reach(t, coarse, i, i);
      assert j > i;
      SpansTile(t, coarse, j);
      assert SpansFrom(t, coarse, i)[1..] == SpansFrom(t, coarse, j);
    }
  }

  /** With at least two rows, the spans tile the rows exactly when the coarseness is positive. */
  lemma SpansTileIff(t: seq<int>, coarse: int)
    requires |t| >= 2
    ensures Tiles(SpansFrom(t, coarse, 0), 0, |t| - 1) <==> coarse > 0
  {
    if coarse > 0 {
      SpansTile(t, coarse, 0);
    } else {
      assert SpansFrom(t, coarse, 0)[0] == (0, 0);
    }
  }

  function Growth(v: seq<int>, spans: seq<(nat, nat)>): int
    requires forall k :: 0 <= k < |spans| ==> spans[k].0 < |v| && spans[k].1 < |v|
  {
    if spans == [] then 0 else v[spans[0].1] - v[spans[0].0] + Growth(v, spans[1..])
  }

  lemma {:induction false} GrowthTelescopes(v: seq<int>, spans: seq<(nat, nat)>, from: nat, to: nat)
    requires Tiles(spans, from, to) && from < |v| && to < |v|
    requires forall k :: 0 <= k < |spans| ==> spans[k].0 < |v| && spans[k].1 < |v|
    ensures Growth(v, spans) == v[to] - v[from]
    decreases |spans|
  {
    if spans == [] {
    } else {
      GrowthTelescopes(v, spans[1..], spans[0].1, to);
    }
  }

  /** What a counter grew over the spans adds up to what it grew over the transfer. */
  lemma SpansAccountForAll(t: seq<int>, v: seq<int>, coarse: int)
    requires coarse > 0 && |t| == |v| > 0
    ensures LongEnough(t, coarse, SpansFrom(t, coarse, 0))
    ensures Growth(v, SpansFrom(t, coarse, 0)) == v[|v| - 1] - v[0]
  {
    SpansTile(t, coarse, 0);
    GrowthTelescopes(v, SpansFrom(t, coarse, 0), 0, |t| - 1);
  }
}
