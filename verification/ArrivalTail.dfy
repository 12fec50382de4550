/**
 The share of a transfer's bytes that arrived in its last quarter, as the transfer analyser reads
 it from sampled windows once they are in order; `ArrivalOrder` puts them in order.
 */
module ArrivalTail {
  import opened Wrappers

  /** A sampling window: when it closed, how long it was, and what arrived in it. */
  datatype Row = Row(end: real, width: real, bytes: real)

  ghost predicate Usable(rows: seq<Row>) {
    forall i :: 0 <= i < |rows| ==> rows[i].width > 0.0 && rows[i].bytes >= 0.0
  }

  function Total(rows: seq<Row>): real {
    if rows == [] then 0.0 else Total(rows[..|rows| - 1]) + rows[|rows| - 1].bytes
  }

  /** The fraction of a window past the cut; a straddling window counts in proportion. */
  function Share(r: Row, cut: real): real
    requires r.width > 0.0
  {
    if r.end <= cut then 0.0
    else if r.end - r.width >= cut then 1.0
    else (r.end - cut) / r.width
  }

  /** What a window contributes past the cut. */
  function Part(r: Row, cut: real): real
    requires r.width > 0.0
  {
    r.bytes * Share(r, cut)
  }

  function Tail(rows: seq<Row>, cut: real): real
    requires Usable(rows)
  {
    if rows == [] then 0.0
    else
      var k := |rows| - 1;
      Tail(rows[..k], cut) + Part(rows[k], cut)
  }

  function Start(rows: seq<Row>): real
    requires rows != []
  {
    rows[0].end - rows[0].width
  }

  function Span(rows: seq<Row>): real
    requires rows != []
  {
    rows[|rows| - 1].end - Start(rows)
  }

  function Cut(rows: seq<Row>): real
    requires rows != []
  {
    Start(rows) + 0.75 * Span(rows)
  }

  /** The reading, or nothing when there are too few windows or nothing to divide by. */
  function TailShare(rows: seq<Row>): Option<real>
    requires Usable(rows)
  {
    if |rows| < 4 then None
    else if Span(rows) <= 0.0 || Total(rows) <= 0.0 then None
    else Some(Tail(rows, Cut(rows)) / Total(rows))
  }

  /** `arrival_tail_share`, once the rows are chosen and in order. */
  method ReadOrdered(rows: seq<Row>) returns (share: Option<real>)
    requires Usable(rows)
    ensures share == TailShare(rows)
  {
    if |rows| < 4 {
      return None;
    }
    var start := rows[0].end - rows[0].width;
    var span := rows[|rows| - 1].end - start;
    var total := 0.0;
    var i := 0;
    while i < |rows|
      invariant 0 <= i <= |rows| && total == Total(rows[..i])
    {
      total := total + rows[i].bytes;
      assert rows[..i + 1][..i] == rows[..i];
      i := i + 1;
    }
    assert rows[..i] == rows;
    if span <= 0.0 || total <= 0.0 {
      return None;
    }
    var cut := start + 0.75 * span;
    var tail := 0.0;
    i := 0;
    while i < |rows|
      invariant 0 <= i <= |rows| && tail == Tail(rows[..i], cut)
    {
      var r := rows[i];
      assert rows[..i + 1][..i] == rows[..i];
      i := i + 1;
      if r.end <= cut {
        continue;
      }
      var begin := r.end - r.width;
      var part := if begin >= cut then 1.0 else (r.end - cut) / r.width;
      tail := tail + r.bytes * part;
    }
    assert rows[..i] == rows;
    return Some(tail / total);
  }

  lemma ShareBounds(r: Row, cut: real)
    requires r.width > 0.0 && r.bytes >= 0.0
    ensures 0.0 <= Share(r, cut) <= 1.0 && 0.0 <= r.bytes * Share(r, cut) <= r.bytes
  {
    if r.end > cut && r.end - r.width < cut {
      QuotientWithin(r.end - cut, r.width);
    }
    ProductWithin(r.bytes, Share(r, cut));
  }

  lemma QuotientWithin(a: real, w: real)
    requires w > 0.0 && 0.0 <= a <= w
    ensures 0.0 <= a / w <= 1.0
  {
    var q := a / w;
    assert q * w == a;
    assert q > 1.0 ==> q * w > w;
    assert q < 0.0 ==> q * w < 0.0;
  }

  lemma ProductWithin(b: real, s: real)
    requires b >= 0.0 && 0.0 <= s <= 1.0
    ensures 0.0 <= b * s <= b
  {}

  lemma {:induction false} TailBounds(rows: seq<Row>, cut: real)
    requires Usable(rows)
    ensures 0.0 <= Tail(rows, cut) <= Total(rows)
    decreases |rows|
  {
    if rows == [] {
    } else {
      var k := |rows| - 1;
      TailBounds(rows[..k], cut);
      ShareBounds(rows[k], cut);
      hide Share;
    }
  }

  /** The reading is always a share. */
  lemma TailShareIsShare(rows: seq<Row>)
    requires Usable(rows) && TailShare(rows).Some?
    ensures 0.0 <= TailShare(rows).value <= 1.0
  {
    TailBounds(rows, Cut(rows));
    hide Tail, Total;
    QuotientWithin(Tail(rows, Cut(rows)), Total(rows));
  }

  // ----- Bytes past the cut, as rate times time -----

  /** How much of the interval lies past the cut. */
  function Past(begin: real, end: real, cut: real): real {
    if end <= cut then 0.0 else if begin >= cut then end - begin else end - cut
  }

  lemma PastSplits(begin: real, mid: real, end: real, cut: real)
    requires begin <= mid <= end
    ensures Past(begin, mid, cut) + Past(mid, end, cut) == Past(begin, end, cut)
  {}

  /** A window's contribution is its rate times the time it spends past the cut. */
  lemma Contribution(r: Row, cut: real, rate: real)
    requires r.width > 0.0 && r.bytes == rate * r.width
    ensures r.bytes * Share(r, cut) == rate * Past(r.end - r.width, r.end, cut)
  {
    if r.end > cut && r.end - r.width < cut {
      var q := (r.end - cut) / r.width;
      assert q * r.width == r.end - cut;
      assert rate * r.width * q == rate * (q * r.width);
    }
  }

  lemma {:induction false} TailAppend(a: seq<Row>, b: seq<Row>, cut: real)
    requires Usable(a) && Usable(b)
    ensures Usable(a + b) && Tail(a + b, cut) == Tail(a, cut) + Tail(b, cut) && Total(a + b) == Total(a) + Total(b)
    decreases |b|
  {
    hide Share;
    if b == [] {
      assert a + b == a;
    } else {
      var k := |b| - 1;
      TailAppend(a, b[..k], cut);
      assert (a + b)[..|a| + k] == a + b[..k] && (a + b)[|a| + k] == b[k];
    }
  }

  lemma TailOne(r: Row, cut: real)
    requires r.width > 0.0 && r.bytes >= 0.0
    ensures Usable([r]) && Tail([r], cut) == r.bytes * Share(r, cut) && Total([r]) == r.bytes
  {
    hide Share;
    assert [r][..0] == [];
  }

  lemma RateAdds(rate: real, x: real, y: real)
    ensures rate * x + rate * y == rate * (x + y)
  {}

  /** The first part of a window cut `first` after it opened, and the rest, at the same rate. */
  function Front(r: Row, first: real): Row
    requires r.width > 0.0
  {
    Row(r.end - (r.width - first), first, r.bytes / r.width * first)
  }

  function Back(r: Row, first: real): Row
    requires r.width > 0.0
  {
    Row(r.end, r.width - first, r.bytes / r.width * (r.width - first))
  }

  /** Row `k` cut into two adjoining windows at the same rate. */
  function SplitRow(rows: seq<Row>, k: nat, first: real): seq<Row>
    requires k < |rows| && rows[k].width > 0.0
  {
    rows[..k] + [Front(rows[k], first), Back(rows[k], first)] + rows[k + 1..]
  }

  lemma RateNonnegative(bytes: real, width: real)
    requires width > 0.0 && bytes >= 0.0
    ensures bytes / width >= 0.0 && bytes / width * width == bytes
  {
    var rate := bytes / width;
    assert rate * width == bytes;
    assert rate < 0.0 ==> rate * width < 0.0;
  }

  lemma ProductNonnegative(a: real, b: real)
    requires a >= 0.0 && b >= 0.0
    ensures a * b >= 0.0
  {}

  lemma HalvesUsable(r: Row, first: real)
    requires r.width > 0.0 && r.bytes >= 0.0 && 0.0 < first < r.width
    ensures var a, b := Front(r, first), Back(r, first);
      a.width > 0.0 && a.bytes >= 0.0 && b.width > 0.0 && b.bytes >= 0.0 && a.bytes + b.bytes == r.bytes
  {
    RateNonnegative(r.bytes, r.width);
    ProductNonnegative(r.bytes / r.width, first);
    ProductNonnegative(r.bytes / r.width, r.width - first);
    RateAdds(r.bytes / r.width, first, r.width - first);
  }

  lemma HalvesContribute(r: Row, first: real, cut: real)
    requires r.width > 0.0 && r.bytes >= 0.0 && 0.0 < first < r.width
    ensures var a, b := Front(r, first), Back(r, first);
      a.width > 0.0 && b.width > 0.0 && a.bytes * Share(a, cut) + b.bytes * Share(b, cut) == r.bytes * Share(r, cut)
  {
    var a, b := Front(r, first), Back(r, first);
    var rate := r.bytes / r.width;
    RateNonnegative(r.bytes, r.width);
    Contribution(r, cut, rate);
    Contribution(a, cut, rate);
    Contribution(b, cut, rate);
    hide Share;
    var begin, mid := r.end - r.width, r.end - (r.width - first);
    assert a.end == mid && a.end - a.width == begin && b.end - b.width == mid;
    PastSplits(begin, mid, r.end, cut);
    RateAdds(rate, Past(begin, mid, cut), Past(mid, r.end, cut));
    hide Past;
  }

  lemma PairTail(r: Row, first: real, cut: real)
    requires r.width > 0.0 && r.bytes >= 0.0 && 0.0 < first < r.width
    ensures var pair := [Front(r, first), Back(r, first)];
      Usable(pair) && Usable([r]) && Tail(pair, cut) == Tail([r], cut) && Total(pair) == Total([r])
  {
    HalvesUsable(r, first);
    HalvesContribute(r, first, cut);
    var a, b := Front(r, first), Back(r, first);
    hide Share, Front, Back;
    TailOne(r, cut);
    TailOne(a, cut);
    TailOne(b, cut);
    TailAppend([a], [b], cut);
    hide Tail, Total;
    assert [a] + [b] == [a, b];
  }

  lemma UsableParts(rows: seq<Row>, k: nat)
    requires Usable(rows) && k < |rows|
    ensures Usable(rows[..k]) && Usable(rows[k + 1..]) && rows[k].width > 0.0 && rows[k].bytes >= 0.0
  {}

  lemma SumsThree(a: seq<Row>, m: seq<Row>, b: seq<Row>, cut: real)
    requires Usable(a) && Usable(m) && Usable(b)
    ensures Usable(a + m + b)
    ensures Tail(a + m + b, cut) == Tail(a, cut) + Tail(m, cut) + Tail(b, cut)
    ensures Total(a + m + b) == Total(a) + Total(m) + Total(b)
  {
    hide Tail, Total, Usable;
    TailAppend(a, m, cut);
    TailAppend(a + m, b, cut);
  }

  lemma SplitSums(rows: seq<Row>, k: nat, first: real, cut: real)
    requires Usable(rows) && k < |rows| && 0.0 < first < rows[k].width
    ensures var s := SplitRow(rows, k, first);
      Usable(s) && Tail(s, cut) == Tail(rows, cut) && Total(s) == Total(rows)
  {
    var r, a, b := rows[k], rows[..k], rows[k + 1..];
    UsableParts(rows, k);
    assert rows == a + [r] + b;
    hide Tail, Total, Usable, Front, Back;
    PairTail(r, first, cut);
    SumsThree(a, [r], b, cut);
    SumsThree(a, [Front(r, first), Back(r, first)], b, cut);
  }

  // ----- A flat transfer reads one quarter -----

  /** The windows adjoin, and bytes arrive at one rate throughout. */
  ghost predicate Flat(rows: seq<Row>, rate: real) {
    && (forall i :: 0 <= i < |rows| ==> rows[i].bytes == rate * rows[i].width)
    && (forall i :: 0 < i < |rows| ==> rows[i].end - rows[i].width == rows[i - 1].end)
  }

  lemma FlatLast(rows: seq<Row>, rate: real)
    requires Usable(rows) && Flat(rows, rate) && rows != []
    ensures var k := |rows| - 1;
      && rows[k].width > 0.0 && rows[k].bytes >= 0.0 && rows[k].bytes == rate * rows[k].width
      && Usable(rows[..k]) && Flat(rows[..k], rate)
      && (k > 0 ==> rows[k].end - rows[k].width == rows[k - 1].end)
  {}

  lemma {:induction false} FlatTail(rows: seq<Row>, rate: real, cut: real)
    requires Usable(rows) && rows != [] && Flat(rows, rate)
    ensures Start(rows) < rows[|rows| - 1].end
    ensures Tail(rows, cut) == rate * Past(Start(rows), rows[|rows| - 1].end, cut)
    ensures Total(rows) == rate * Span(rows)
    decreases |rows|
  {
    hide Share, Tail, Total, Past, Usable, Flat;
    var k := |rows| - 1;
    var r := rows[k];
    FlatLast(rows, rate);
    Contribution(r, cut, rate);
    if k == 0 {
      TailOne(r, cut);
      assert rows == [r];
    } else {
      FlatTail(rows[..k], rate, cut);
      TailLast(rows, cut);
      FlatStep(rate, Start(rows), rows[k - 1].end, r.end, cut);
    }
  }

  lemma TailLast(rows: seq<Row>, cut: real)
    requires Usable(rows) && rows != []
    ensures var k := |rows| - 1;
      Tail(rows, cut) == Tail(rows[..k], cut) + Part(rows[k], cut) && Total(rows) == Total(rows[..k]) + rows[k].bytes
  {
    hide Share;
  }

  lemma FlatStep(rate: real, begin: real, mid: real, end: real, cut: real)
    requires begin <= mid <= end
    ensures rate * Past(begin, mid, cut) + rate * Past(mid, end, cut) == rate * Past(begin, end, cut)
    ensures rate * (mid - begin) + rate * (end - mid) == rate * (end - begin)
  {
    PastSplits(begin, mid, end, cut);
    RateAdds(rate, Past(begin, mid, cut), Past(mid, end, cut));
    RateAdds(rate, mid - begin, end - mid);
    hide Past;
  }

  /** However its windows are cut, a transfer at one rate has exactly a quarter in its last quarter. */
  lemma FlatIsOneQuarter(rows: seq<Row>, rate: real)
    requires Usable(rows) && |rows| >= 4 && rate > 0.0 && Flat(rows, rate)
    ensures TailShare(rows) == Some(0.25)
  {
    hide Tail, Total, Usable, Flat;
    var cut, span := Cut(rows), Span(rows);
    FlatTail(rows, rate, cut);
    LastQuarter(Start(rows), span);
    QuarterOfProduct(rate, span);
    assert Tail(rows, cut) == rate * (0.25 * span) && Total(rows) == rate * span;
  }

  lemma LastQuarter(start: real, span: real)
    requires span > 0.0
    ensures Past(start, start + span, start + 0.75 * span) == 0.25 * span
  {}

  lemma QuarterOfProduct(rate: real, span: real)
    requires rate > 0.0 && span > 0.0
    ensures rate * span > 0.0 && (rate * (0.25 * span)) / (rate * span) == 0.25
  {
    assert rate * (0.25 * span) == 0.25 * (rate * span);
    QuarterOf(rate * span);
  }

  lemma QuarterOf(x: real)
    requires x > 0.0
    ensures (0.25 * x) / x == 0.25
  {}
}
