/**
 What the arrival-tail reading depends on: the sums of the rows, which any order and any cutting
 at one rate leaves alone, and the quarter mark, which hangs on the row that closed first. The
 reading changes exactly when bytes arrived between the old mark and the new one.
 */
module ArrivalReading {
  import opened Wrappers
  import opened ArrivalTail
  import opened ArrivalOrder

  // ----- The reading without a sort -----

  function Begin(r: Row): real {
    r.end - r.width
  }

  /** The first logged of the rows that closed first. */
  function Earliest(x: seq<Row>): (e: nat)
    requires x != []
    ensures e < |x| && forall i :: 0 <= i < |x| ==> x[e].end <= x[i].end
    ensures forall i :: 0 <= i < e ==> x[e].end < x[i].end
  {
    var k := |x| - 1;
    if k == 0 then 0
    else
      var e := Earliest(x[..k]);
      assert forall i :: 0 <= i < k ==> x[..k][i] == x[i];
      if x[k].end < x[e].end then k else e
  }

  function Opening(x: seq<Row>): real
    requires x != []
  {
    Begin(x[Earliest(x)])
  }

  function Closing(x: seq<Row>): (c: real)
    requires x != []
    ensures (forall i :: 0 <= i < |x| ==> x[i].end <= c) && (exists i :: 0 <= i < |x| && x[i].end == c)
  {
    var k := |x| - 1;
    assert x[k].end <= x[k].end;
    if k == 0 then x[0].end
    else
      var c := Closing(x[..k]);
      assert forall i :: 0 <= i < k ==> x[..k][i] == x[i];
      if c < x[k].end then x[k].end else c
  }

  function MarkFrom(opening: real, closing: real): real {
    opening + 0.75 * (closing - opening)
  }

  /** Three quarters of the way through the transfer. */
  function Mark(x: seq<Row>): real
    requires x != []
  {
    MarkFrom(Opening(x), Closing(x))
  }

  function Reading(x: seq<Row>): Option<real>
    requires Usable(x)
  {
    if |x| < 4 || Total(x) == 0.0 then None else Some(Tail(x, Mark(x)) / Total(x))
  }

  lemma TailPush(rows: seq<Row>, r: Row, cut: real)
    requires Usable(rows) && r.width > 0.0 && r.bytes >= 0.0
    ensures Usable(rows + [r]) && Tail(rows + [r], cut) == Tail(rows, cut) + Part(r, cut)
    ensures Total(rows + [r]) == Total(rows) + r.bytes
  {
    hide Part;
    assert (rows + [r])[..|rows|] == rows;
  }

  lemma {:induction false} InsertSums(rows: seq<Row>, r: Row, cut: real)
    requires Usable(rows) && r.width > 0.0 && r.bytes >= 0.0
    ensures Usable(Insert(rows, r)) && |Insert(rows, r)| == |rows| + 1
    ensures Tail(Insert(rows, r), cut) == Tail(rows, cut) + Part(r, cut)
    ensures Total(Insert(rows, r)) == Total(rows) + r.bytes
    decreases |rows|
  {
    hide Part, Tail, Total;
    if rows == [] || rows[|rows| - 1].end <= r.end {
      TailPush(rows, r, cut);
    } else {
      var k := |rows| - 1;
      InsertSums(rows[..k], r, cut);
      TailPush(Insert(rows[..k], r), rows[k], cut);
      TailLast(rows, cut);
      assert Insert(rows, r) == Insert(rows[..k], r) + [rows[k]];
    }
  }

  lemma EmptySums(x: seq<Row>, cut: real)
    requires x == []
    ensures Usable(x) && Tail(x, cut) == 0.0 && Total(x) == 0.0 && SortByEnd(x) == []
  {}

  lemma {:induction false} SortSums(x: seq<Row>, cut: real)
    requires Usable(x)
    ensures Usable(SortByEnd(x)) && |SortByEnd(x)| == |x|
    ensures Tail(SortByEnd(x), cut) == Tail(x, cut) && Total(SortByEnd(x)) == Total(x)
    decreases |x|
  {
    hide Part, Insert, Tail, Total;
    if x == [] {
      EmptySums(x, cut);
    } else {
      var k := |x| - 1;
      SortSums(x[..k], cut);
      InsertSums(SortByEnd(x[..k]), x[k], cut);
      TailLast(x, cut);
    }
  }

  lemma {:induction false} InsertEnds(rows: seq<Row>, r: Row)
    requires ByEnd(rows) && rows != []
    ensures var out := Insert(rows, r);
      && |out| == |rows| + 1
      && out[0] == (if r.end < rows[0].end then r else rows[0])
      && out[|out| - 1] == (if rows[|rows| - 1].end <= r.end then r else rows[|rows| - 1])
    decreases |rows|
  {
    var k := |rows| - 1;
    if rows[k].end <= r.end {
      assert rows[0].end <= rows[k].end;
    } else if k == 0 {
      assert Insert(rows[..0], r) == [r];
    } else {
      InsertEnds(rows[..k], r);
    }
  }

  lemma EarliestStep(x: seq<Row>)
    requires |x| > 1
    ensures var k := |x| - 1;
      x[Earliest(x)] == if x[k].end < x[..k][Earliest(x[..k])].end then x[k] else x[..k][Earliest(x[..k])]
  {}

  lemma ClosingStep(x: seq<Row>)
    requires |x| > 1
    ensures var k := |x| - 1; Closing(x) == if Closing(x[..k]) < x[k].end then x[k].end else Closing(x[..k])
  {}

  lemma EndsOfOne(x: seq<Row>)
    requires |x| == 1
    ensures SortByEnd(x) == x && Earliest(x) == 0 && Closing(x) == x[0].end
  {
    assert x[..0] == [] && SortByEnd(x[..0]) == [];
  }

  lemma {:induction false} SortEnds(x: seq<Row>)
    requires x != []
    ensures var out := SortByEnd(x);
      |out| == |x| && out[0] == x[Earliest(x)] && out[|out| - 1].end == Closing(x)
    decreases |x|
  {
    hide ByEnd, Insert, Earliest, Closing;
    var k := |x| - 1;
    if k == 0 {
      EndsOfOne(x);
    } else {
      SortEnds(x[..k]);
      SortKeeps(x[..k]);
      InsertEnds(SortByEnd(x[..k]), x[k]);
      EarliestStep(x);
      ClosingStep(x);
    }
  }

  lemma QuarterSpan(x: seq<Row>)
    requires Usable(x) && x != []
    ensures Closing(x) > Opening(x)
  {
    assert x[Earliest(x)].end <= Closing(x);
  }

  /** Sorting first changes nothing: the reading is that of the rows as logged. */
  lemma SortedReading(x: seq<Row>)
    requires Usable(x)
    ensures Usable(SortByEnd(x)) && TailShare(SortByEnd(x)) == Reading(x)
  {
    SortSums(x, 0.0);
    TailBounds(x, 0.0);
    if x != [] {
      SortSums(x, Mark(x));
      SortEnds(x);
      QuarterSpan(x);
      hide SortByEnd, Tail, Total, Earliest, Closing, Usable;
    }
  }

  // ----- When two logs with the same sums read the same -----

  ghost predicate SameSums(x: seq<Row>, y: seq<Row>)
    requires Usable(x) && Usable(y)
  {
    Total(x) == Total(y) && forall cut: real :: Tail(x, cut) == Tail(y, cut)
  }

  /** Nothing of this row arrived between the two times. */
  predicate Quiet(r: Row, lo: real, hi: real) {
    r.bytes == 0.0 || r.end <= lo || Begin(r) >= hi
  }

  /** No byte arrived between the two marks, whichever comes first. */
  predicate QuietBetween(x: seq<Row>, c: real, d: real) {
    c == d || AllQuiet(x, if c < d then c else d, if c < d then d else c)
  }

  lemma PastDrops(begin: real, end: real, lo: real, hi: real)
    requires begin < end && lo < hi
    ensures Past(begin, end, lo) >= Past(begin, end, hi)
    ensures Past(begin, end, lo) == Past(begin, end, hi) <==> end <= lo || begin >= hi
  {}

  lemma SharePast(r: Row, cut: real)
    requires r.width > 0.0
    ensures r.width * Share(r, cut) == Past(Begin(r), r.end, cut)
  {
    Contribution(Row(r.end, r.width, r.width), cut, 1.0);
  }

  lemma ShareDrops(r: Row, lo: real, hi: real)
    requires r.width > 0.0 && lo < hi
    ensures Share(r, lo) >= Share(r, hi)
    ensures Share(r, lo) == Share(r, hi) <==> r.end <= lo || Begin(r) >= hi
  {
    SharePast(r, lo);
    SharePast(r, hi);
    PastDrops(Begin(r), r.end, lo, hi);
    var a, b := Past(Begin(r), r.end, lo), Past(Begin(r), r.end, hi);
    OrderFrom(r.width, Share(r, lo), Share(r, hi), a, b);
  }

  lemma OrderFrom(w: real, p: real, q: real, a: real, b: real)
    requires w > 0.0 && w * p == a && w * q == b
    ensures (a >= b <==> p >= q) && (a == b <==> p == q)
  {
    ScaledOrder(w, p, q);
  }

  lemma ScaledOrder(w: real, p: real, q: real)
    requires w > 0.0
    ensures (w * p >= w * q <==> p >= q) && (w * p == w * q <==> p == q)
  {
    assert w * (p - q) == w * p - w * q && w * (q - p) == w * q - w * p;
    assert p > q ==> w * (p - q) > 0.0;
    assert p < q ==> w * (q - p) > 0.0;
  }

  lemma RowDrops(r: Row, lo: real, hi: real)
    requires r.width > 0.0 && r.bytes >= 0.0 && lo < hi
    ensures Part(r, lo) >= Part(r, hi)
    ensures Part(r, lo) == Part(r, hi) <==> Quiet(r, lo, hi)
  {
    ShareDrops(r, lo, hi);
    hide Share;
    if r.bytes > 0.0 {
      ScaledOrder(r.bytes, Share(r, lo), Share(r, hi));
    } else {
      assert r.bytes == 0.0;
    }
  }

  predicate AllQuiet(x: seq<Row>, lo: real, hi: real) {
    forall i :: 0 <= i < |x| ==> Quiet(x[i], lo, hi)
  }

  lemma AllQuietLast(x: seq<Row>, lo: real, hi: real)
    requires x != []
    ensures AllQuiet(x, lo, hi) <==> AllQuiet(x[..|x| - 1], lo, hi) && Quiet(x[|x| - 1], lo, hi)
  {
    hide Quiet;
    assert forall i :: 0 <= i < |x| - 1 ==> x[..|x| - 1][i] == x[i];
  }

  /** A later cut leaves at most as much past it, and as much exactly when nothing came in between. */
  lemma {:induction false} TailDrops(x: seq<Row>, lo: real, hi: real)
    requires Usable(x) && lo < hi
    ensures Tail(x, lo) >= Tail(x, hi)
    ensures Tail(x, lo) == Tail(x, hi) <==> AllQuiet(x, lo, hi)
    decreases |x|
  {
    hide Part, Quiet, AllQuiet, Tail, Total;
    if x == [] {
      EmptySums(x, lo);
      EmptySums(x, hi);
      assert AllQuiet([], lo, hi) by {
        NoneQuiet(lo, hi);
      }
    } else {
      var k := |x| - 1;
      TailDrops(x[..k], lo, hi);
      RowDrops(x[k], lo, hi);
      AllQuietLast(x, lo, hi);
      TailLast(x, lo);
      TailLast(x, hi);
    }
  }

  lemma NoneQuiet(lo: real, hi: real)
    ensures AllQuiet([], lo, hi)
  {}

  lemma TailSameIff(x: seq<Row>, c: real, d: real)
    requires Usable(x)
    ensures Tail(x, c) == Tail(x, d) <==> QuietBetween(x, c, d)
  {
    hide Tail, Quiet;
    if c < d {
      TailDrops(x, c, d);
    } else if d < c {
      TailDrops(x, d, c);
    }
  }

  lemma SameQuotient(a: real, b: real, total: real)
    requires total != 0.0
    ensures a / total == b / total <==> a == b
  {
    assert a / total * total == a && b / total * total == b;
  }

  /** Two logs with the same sums read the same exactly when neither reads or no byte came between their marks. */
  lemma SameReadingIff(x: seq<Row>, y: seq<Row>)
    requires Usable(x) && Usable(y) && x != [] && y != [] && SameSums(x, y)
    ensures Reading(x) == Reading(y) <==>
      || Total(x) == 0.0
      || (|x| < 4 && |y| < 4)
      || (|x| >= 4 && |y| >= 4 && QuietBetween(x, Mark(x), Mark(y)))
  {
    TailSameIff(x, Mark(x), Mark(y));
    if Total(x) != 0.0 {
      SameQuotient(Tail(x, Mark(x)), Tail(x, Mark(y)), Total(x));
    }
    hide Mark, Tail, Total, QuietBetween, Usable;
  }

  // ----- The order of the log -----

  lemma UsableChosen(raw: seq<Row>)
    requires Counters(raw)
    ensures Usable(Chosen(raw))
  {
    var x := Chosen(raw);
    forall i | 0 <= i < |x| ensures x[i].width > 0.0 && x[i].bytes >= 0.0 {
      assert x[i] in multiset(x);
      ChosenIs(raw, x[i]);
      assert x[i] in raw;
    }
  }

  lemma ChosenSame(raw: seq<Row>, other: seq<Row>)
    requires multiset(raw) == multiset(other)
    ensures multiset(Chosen(raw)) == multiset(Chosen(other))
  {
    forall r: Row ensures multiset(Chosen(raw))[r] == multiset(Chosen(other))[r] {
      ChosenIs(raw, r);
      ChosenIs(other, r);
    }
  }

  lemma SumsAround(a: seq<Row>, r: Row, b: seq<Row>, cut: real)
    requires Usable(a) && Usable(b) && r.width > 0.0 && r.bytes >= 0.0
    ensures Usable(a + b) && Usable(a + [r] + b)
    ensures Tail(a + [r] + b, cut) == Tail(a + b, cut) + Part(r, cut)
    ensures Total(a + [r] + b) == Total(a + b) + r.bytes
  {
    TailOne(r, cut);
    hide Tail, Total, Share, Usable;
    TailAppend(a, b, cut);
    TailAppend(a, [r], cut);
    TailAppend(a + [r], b, cut);
  }

  lemma EmptyAlike(a: seq<Row>, b: seq<Row>)
    requires multiset(a) == multiset(b)
    ensures a == [] <==> b == []
  {
    if a != [] {
      assert a[0] in multiset(b);
    }
    if b != [] {
      assert b[0] in multiset(a);
    }
  }

  /** The last of one log, taken out of the other. */
  lemma Peel(a: seq<Row>, b: seq<Row>) returns (j: nat)
    requires a != [] && multiset(a) == multiset(b)
    ensures j < |b| && b[j] == a[|a| - 1] && multiset(a[..|a| - 1]) == multiset(b[..j] + b[j + 1..])
  {
    j := Seek(a, b);
    TakeLast(a);
    TakeOut(b, j);
  }

  lemma Seek(a: seq<Row>, b: seq<Row>) returns (j: nat)
    requires a != [] && multiset(a) == multiset(b)
    ensures j < |b| && b[j] == a[|a| - 1]
  {
    assert a[|a| - 1] in multiset(b);
    j :| 0 <= j < |b| && b[j] == a[|a| - 1];
  }

  lemma TakeLast(a: seq<Row>)
    requires a != []
    ensures multiset(a[..|a| - 1]) == multiset(a) - multiset{a[|a| - 1]}
  {
    assert a == a[..|a| - 1] + [a[|a| - 1]];
  }

  lemma TakeOut(b: seq<Row>, j: nat)
    requires j < |b|
    ensures multiset(b[..j] + b[j + 1..]) == multiset(b) - multiset{b[j]}
  {
    var u, v := b[..j], b[j + 1..];
    assert b == u + [b[j]] + v;
    assert multiset(u + [b[j]] + v) == multiset(u) + multiset{b[j]} + multiset(v);
  }

  /** Sums do not depend on the order of the rows. */
  lemma {:induction false} SumsOfSame(a: seq<Row>, b: seq<Row>, cut: real)
    requires Usable(a) && Usable(b) && multiset(a) == multiset(b)
    ensures Tail(a, cut) == Tail(b, cut) && Total(a) == Total(b)
    decreases |a|
  {
    hide Part, Tail, Total;
    EmptyAlike(a, b);
    if a == [] {
    } else {
      var j := Peel(a, b);
      UsableParts(a, |a| - 1);
      UsableParts(b, j);
      hide Usable;
      var before, after := b[..j], b[j + 1..];
      SumsAround(before, b[j], after, cut);
      SumsOfSame(a[..|a| - 1], before + after, cut);
      TailLast(a, cut);
      assert b == before + [b[j]] + after;
    }
  }

  /** When a log has its first and last close, and how wide the window that closed first is. */
  lemma SameEnds(x: seq<Row>, y: seq<Row>)
    requires x != [] && y != [] && multiset(x) == multiset(y)
    ensures x[Earliest(x)].end == y[Earliest(y)].end && Closing(x) == Closing(y)
  {
    assert x[Earliest(x)] in multiset(y) && y[Earliest(y)] in multiset(x);
    var i :| 0 <= i < |x| && x[i].end == Closing(x);
    var j :| 0 <= j < |y| && y[j].end == Closing(y);
    assert x[i] in multiset(y) && y[j] in multiset(x);
    hide Earliest, Closing;
  }

  /** The width of the window that closed first. */
  function FirstWidth(x: seq<Row>): real
    requires x != []
  {
    x[Earliest(x)].width
  }

  /**
   Rows may be logged in any order. The reading changes only if there is a tie for closing first
   between windows of different widths, and then exactly if bytes arrived between the two marks
   the two orders give.
   */
  lemma LogOrderIff(raw: seq<Row>, other: seq<Row>)
    requires Counters(raw) && Counters(other) && multiset(raw) == multiset(other)
    ensures var x, y := Chosen(raw), Chosen(other);
      && |x| == |y| && Usable(SortByEnd(x)) && Usable(SortByEnd(y))
      && (TailShare(SortByEnd(x)) == TailShare(SortByEnd(y)) <==>
            |x| < 4 || Total(x) == 0.0 || FirstWidth(x) == FirstWidth(y) || QuietBetween(x, Mark(x), Mark(y)))
  {
    var x, y := Chosen(raw), Chosen(other);
    UsableChosen(raw);
    UsableChosen(other);
    ChosenSame(raw, other);
    SameLength(x, y);
    SortedReading(x);
    SortedReading(y);
    hide Chosen, SortByEnd, TailShare, Reading;
    if x != [] {
      forall cut: real ensures Tail(x, cut) == Tail(y, cut) {
        SumsOfSame(x, y, cut);
      }
      SumsOfSame(x, y, 0.0);
      SameEnds(x, y);
      SameReadingIff(x, y);
      hide Tail, Total, Usable, Earliest, Closing, Quiet;
      assert FirstWidth(x) == FirstWidth(y) ==> Mark(x) == Mark(y);
    } else {
      assert Reading(x) == Reading(y);
    }
  }

  lemma SameLength(x: seq<Row>, y: seq<Row>)
    requires multiset(x) == multiset(y)
    ensures |x| == |y|
  {
    assert |multiset(x)| == |x| && |multiset(y)| == |y|;
  }

  // ----- Cutting a window in two -----

  lemma {:induction false} ChosenAppend(a: seq<Row>, b: seq<Row>)
    ensures Chosen(a + b) == Chosen(a) + Chosen(b)
    decreases |b|
  {
    if b == [] {
      assert a + b == a;
    } else {
      var k := |b| - 1;
      ChosenAppend(a, b[..k]);
      assert (a + b)[..|a| + k] == a + b[..k] && (a + b)[|a| + k] == b[k];
    }
  }

  lemma ChosenOne(r: Row)
    ensures Chosen([r]) == if Recorded(r) then [r] else []
  {
    assert [r][..0] == [];
  }

  /** Where the recorded row `k` of the log stands among the recorded rows. */
  function PlaceOf(raw: seq<Row>, k: nat): nat
    requires k <= |raw|
  {
    |Chosen(raw[..k])|
  }

  lemma ChosenAround(a: seq<Row>, m: seq<Row>, b: seq<Row>)
    ensures Chosen(a + m + b) == Chosen(a) + Chosen(m) + Chosen(b)
  {
    hide Chosen;
    ChosenAppend(a, m);
    ChosenAppend(a + m, b);
  }

  lemma ChosenPair(f: Row, g: Row)
    requires Recorded(f) && Recorded(g)
    ensures Chosen([f, g]) == [f, g]
  {
    ChosenOne(f);
    ChosenOne(g);
    hide Chosen;
    ChosenAppend([f], [g]);
    assert [f] + [g] == [f, g];
  }

  lemma Middle(a: seq<Row>, r: Row, b: seq<Row>)
    ensures var x := a + [r] + b; x[|a|] == r && x[..|a|] == a && x[|a| + 1..] == b
  {}

  /** Cutting a window of the log is cutting it among the recorded rows. */
  lemma ChosenSplit(raw: seq<Row>, k: nat, first: real)
    requires k < |raw| && raw[k].width > 0.0
    requires Recorded(raw[k]) && Recorded(Front(raw[k], first)) && Recorded(Back(raw[k], first))
    ensures var x, p := Chosen(raw), PlaceOf(raw, k);
      p < |x| && x[p] == raw[k] && Chosen(SplitRow(raw, k, first)) == SplitRow(x, p, first)
  {
    var a, r, b := raw[..k], raw[k], raw[k + 1..];
    assert raw == a + [r] + b;
    hide Chosen, Front, Back;
    ChosenAround(a, [r], b);
    ChosenOne(r);
    ChosenAround(a, [Front(r, first), Back(r, first)], b);
    ChosenPair(Front(r, first), Back(r, first));
    Middle(Chosen(a), r, Chosen(b));
  }

  lemma EarliestIs(x: seq<Row>, e: nat)
    requires e < |x| && forall i :: 0 <= i < |x| ==> x[e].end <= x[i].end
    requires forall i :: 0 <= i < e ==> x[e].end < x[i].end
    ensures Earliest(x) == e
  {
    var d := Earliest(x);
    assert x[d].end <= x[e].end;
  }

  lemma ClosingIs(x: seq<Row>, i: nat)
    requires i < |x| && forall j :: 0 <= j < |x| ==> x[j].end <= x[i].end
    ensures Closing(x) == x[i].end
  {
    var j :| 0 <= j < |x| && x[j].end == Closing(x);
  }

  /** Does the front half of row `k` become the row that closed first? */
  predicate FrontFirst(x: seq<Row>, k: nat, first: real)
    requires k < |x| && x[k].width > 0.0
  {
    var e, f := Earliest(x), Front(x[k], first);
    f.end < x[e].end || (f.end == x[e].end && k <= e)
  }

  /** Where the transfer seems to open once row `k` is cut. */
  function CutOpening(x: seq<Row>, k: nat, first: real): real
    requires k < |x| && x[k].width > 0.0
  {
    if FrontFirst(x, k, first) then Begin(x[k]) else Opening(x)
  }

  /** The rows of the cut log, one by one. */
  lemma SplitAt(x: seq<Row>, k: nat, first: real, i: nat)
    requires k < |x| && x[k].width > 0.0 && i <= |x|
    ensures var y := SplitRow(x, k, first);
      && |y| == |x| + 1
      && y[i] == if i < k then x[i]
                 else if i == k then Front(x[k], first)
                 else if i == k + 1 then Back(x[k], first) else x[i - 1]
  {
    hide Front, Back;
  }

  lemma SplitEarliest(x: seq<Row>, k: nat, first: real)
    requires k < |x| && 0.0 < first < x[k].width
    ensures var y := SplitRow(x, k, first); y != [] && Opening(y) == CutOpening(x, k, first)
  {
    var y, e, f := SplitRow(x, k, first), Earliest(x), Front(x[k], first);
    forall i: nat | i <= |x|
      ensures y[i] == if i < k then x[i] else if i == k then f else if i == k + 1 then Back(x[k], first) else x[i - 1]
    {
      SplitAt(x, k, first, i);
    }
    assert |y| == |x| + 1 && f.end < x[k].end && Back(x[k], first).end == x[k].end && Begin(f) == Begin(x[k]);
    hide Earliest, SplitRow, Front, Back;
    var at := if FrontFirst(x, k, first) then k else if e < k then e else e + 1;
    EarliestIs(y, at);
  }

  lemma HalfEnds(r: Row, first: real)
    requires 0.0 < first < r.width
    ensures Front(r, first).end < r.end && Back(r, first).end == r.end
  {}

  lemma SplitEnds(x: seq<Row>, k: nat, first: real, i: nat)
    requires k < |x| && 0.0 < first < x[k].width && i <= |x|
    ensures var y := SplitRow(x, k, first); |y| == |x| + 1 && y[i].end <= Closing(x)
  {
    hide Closing, SplitRow, Front, Back;
    HalfEnds(x[k], first);
    SplitAt(x, k, first, i);
  }

  lemma SplitClosing(x: seq<Row>, k: nat, first: real)
    requires k < |x| && 0.0 < first < x[k].width
    ensures var y := SplitRow(x, k, first); y != [] && Closing(y) == Closing(x)
  {
    hide Closing, SplitRow, Front, Back;
    var y, c := SplitRow(x, k, first), Closing(x);
    var at :| 0 <= at < |x| && x[at].end == c;
    var to: nat := if at < k then at else at + 1;
    SplitAt(x, k, first, to);
    HalfEnds(x[k], first);
    forall i: nat | i < |y| ensures y[i].end <= c {
      SplitEnds(x, k, first, i);
    }
    ClosingIs(y, to);
  }

  /** The mark of the cut log, from the log as it was. */
  function CutMark(x: seq<Row>, k: nat, first: real): real
    requires k < |x| && x[k].width > 0.0
  {
    MarkFrom(CutOpening(x, k, first), Closing(x))
  }

  lemma SplitReading(x: seq<Row>, k: nat, first: real)
    requires Usable(x) && k < |x| && 0.0 < first < x[k].width
    ensures var y := SplitRow(x, k, first);
      && Usable(y)
      && (Reading(y) == Reading(x) <==>
            Total(x) == 0.0 || |x| < 3 || (|x| > 3 && QuietBetween(x, Mark(x), CutMark(x, k, first))))
  {
    var y := SplitRow(x, k, first);
    SplitSums(x, k, first, 0.0);
    forall cut: real ensures Tail(y, cut) == Tail(x, cut) {
      SplitSums(x, k, first, cut);
    }
    SplitAt(x, k, first, 0);
    SplitEarliest(x, k, first);
    SplitClosing(x, k, first);
    hide Tail, Total, Usable, Quiet, Earliest, Closing, SplitRow, Reading, FrontFirst;
    SameReadingIff(x, y);
  }

  /**
   Cutting a window of the log into two adjoining ones at the same rate leaves the reading as it
   was, exactly unless it makes three windows four, or the front half closes before every other
   window and moves the quarter mark across bytes that arrived.
   */
  lemma SplitInvariantIff(raw: seq<Row>, k: nat, first: real)
    requires Counters(raw) && k < |raw| && 0.0 < first < raw[k].width
    requires Recorded(raw[k]) && Recorded(Front(raw[k], first))
    ensures var x, p, y := Chosen(raw), PlaceOf(raw, k), Chosen(SplitRow(raw, k, first));
      && p < |x| && x[p] == raw[k] && Usable(SortByEnd(x)) && Usable(SortByEnd(y))
      && (TailShare(SortByEnd(y)) == TailShare(SortByEnd(x)) <==>
            Total(x) == 0.0 || |x| < 3 || (|x| > 3 && QuietBetween(x, Mark(x), CutMark(x, p, first))))
  {
    ChosenSplit(raw, k, first);
    UsableChosen(raw);
    var x, p := Chosen(raw), PlaceOf(raw, k);
    SplitReading(x, p, first);
    hide Chosen, Reading, SplitRow, Usable, Total, TailShare, SortByEnd;
    SortedReading(x);
    SortedReading(SplitRow(x, p, first));
  }

  /** No two windows overlap. */
  ghost predicate Apart(x: seq<Row>) {
    forall i, j :: 0 <= i < j < |x| ==> x[i].end <= Begin(x[j]) || x[j].end <= Begin(x[i])
  }

  lemma ApartKeepsOpening(x: seq<Row>, k: nat, first: real)
    requires Usable(x) && Apart(x) && k < |x| && 0.0 < first < x[k].width
    ensures CutOpening(x, k, first) == Opening(x)
  {
    var e := Earliest(x);
    hide Earliest;
    if e != k {
      assert x[e].end <= x[k].end && x[e].width > 0.0;
      assert x[e].end <= Begin(x[k]);
    }
  }

  /** So with windows that do not overlap only the fourth window can change the reading. */
  lemma SplitApart(raw: seq<Row>, k: nat, first: real)
    requires Counters(raw) && k < |raw| && 0.0 < first < raw[k].width && Apart(Chosen(raw))
    requires Recorded(raw[k]) && Recorded(Front(raw[k], first))
    ensures var x, y := Chosen(raw), Chosen(SplitRow(raw, k, first));
      && Usable(SortByEnd(x)) && Usable(SortByEnd(y))
      && (TailShare(SortByEnd(y)) == TailShare(SortByEnd(x)) <==> !(|x| == 3 && Total(x) > 0.0))
  {
    SplitInvariantIff(raw, k, first);
    UsableChosen(raw);
    ApartKeepsOpening(Chosen(raw), PlaceOf(raw, k), first);
    TailBounds(Chosen(raw), 0.0);
    hide Chosen, SortByEnd, TailShare, Total, Tail, Usable, SplitRow, Closing, CutOpening, Opening, Apart, Front;
  }

  /** Windows that overlap: the last one opened before the others, and its front half closes first. */
  const OVERLAPPING: seq<Row> := [Row(10.0, 1.0, 1.0), Row(11.0, 1.0, 1.0), Row(12.0, 1.0, 1.0), Row(13.0, 12.0, 12.0)]

  lemma OverlapMarks()
    ensures Usable(OVERLAPPING) && Total(OVERLAPPING) > 0.0
    ensures Mark(OVERLAPPING) == 12.0 && CutMark(OVERLAPPING, 3, 1.0) == 10.0
  {
    EarliestIs(OVERLAPPING, 0);
    ClosingIs(OVERLAPPING, 3);
    TailBounds(OVERLAPPING[..3], 0.0);
  }

  /** Cutting that one moves the mark from 12 back to 10, across bytes: the reading changes. */
  lemma SplitOverlap()
    ensures var x, y := Chosen(OVERLAPPING), Chosen(SplitRow(OVERLAPPING, 3, 1.0));
      && x == OVERLAPPING && Usable(SortByEnd(x)) && Usable(SortByEnd(y))
      && TailShare(SortByEnd(y)) != TailShare(SortByEnd(x))
  {
    OverlapMarks();
    AllChosen(OVERLAPPING);
    AllChosen(OVERLAPPING[..3]);
    SplitInvariantIff(OVERLAPPING, 3, 1.0);
    hide Chosen, Mark, CutMark;
    assert !Quiet(OVERLAPPING[3], 10.0, 12.0);
    assert !QuietBetween(OVERLAPPING, 12.0, 10.0);
  }

  lemma {:induction false} AllChosen(x: seq<Row>)
    requires forall i :: 0 <= i < |x| ==> Recorded(x[i])
    ensures Chosen(x) == x
    decreases |x|
  {
    if x == [] {
    } else {
      AllChosen(x[..|x| - 1]);
      assert x == x[..|x| - 1] + [x[|x| - 1]];
    }
  }

  // ----- A flat transfer, logged in any order -----

  lemma {:induction false} FlatRises(rows: seq<Row>, rate: real, i: nat, j: nat)
    requires Usable(rows) && Flat(rows, rate) && i < j < |rows|
    ensures rows[i].end < rows[j].end
    decreases j - i
  {
    assert rows[j].end - rows[j].width == rows[j - 1].end && rows[j].width > 0.0;
    if i == j - 1 {
    } else {
      FlatRises(rows, rate, i, j - 1);
    }
  }

  /** Rows in rising order are where sorting puts them, from whatever order. */
  lemma SortsTo(x: seq<Row>, rows: seq<Row>)
    requires Rising(rows) && multiset(x) == multiset(rows)
    ensures SortByEnd(x) == rows
  {
    SortKeeps(x);
    assert DistinctEnds(rows);
    DistinctRises(SortByEnd(x), rows);
    assert forall r :: r in SortByEnd(x) <==> r in multiset(rows);
    hide SortByEnd, Rising;
    RisingUnique(SortByEnd(x), rows);
  }

  /** However its windows are cut and in whatever order they are logged, a transfer at one rate reads one quarter. */
  lemma FlatLoggedIsOneQuarter(raw: seq<Row>, rows: seq<Row>, rate: real)
    requires Usable(rows) && |rows| >= 4 && rate > 0.0 && Flat(rows, rate)
    requires multiset(Chosen(raw)) == multiset(rows)
    ensures SortByEnd(Chosen(raw)) == rows && TailShare(SortByEnd(Chosen(raw))) == Some(0.25)
  {
    forall i, j | 0 <= i < j < |rows| ensures rows[i].end < rows[j].end {
      FlatRises(rows, rate, i, j);
    }
    hide Chosen;
    SortsTo(Chosen(raw), rows);
    FlatIsOneQuarter(rows, rate);
  }

  /** `arrival_tail_share`. */
  method ArrivalTailShare(raw: seq<Row>) returns (share: Option<real>)
    requires Counters(raw)
    ensures Usable(SortByEnd(Chosen(raw))) && share == TailShare(SortByEnd(Chosen(raw)))
    ensures Usable(Chosen(raw)) && share == Reading(Chosen(raw))
  {
    UsableChosen(raw);
    SortedReading(Chosen(raw));
    share := ReadOrdered(SortByEnd(Chosen(raw)));
  }
}
