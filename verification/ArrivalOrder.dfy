/**
 Which sampled windows the arrival-tail reading is taken from, and in which order: the sort keeps
 the rows it is given, and there is only one rising order of them.
 */
module ArrivalOrder {
  import opened ArrivalTail

  // ----- Choosing and ordering the rows -----

  /** A row with both of its times recorded: a missing field reads as zero. */
  predicate Recorded(r: Row) {
    r.width != 0.0 && r.end != 0.0
  }

  function Chosen(raw: seq<Row>): seq<Row> {
    if raw == [] then []
    else Chosen(raw[..|raw| - 1]) + if Recorded(raw[|raw| - 1]) then [raw[|raw| - 1]] else []
  }

  function Insert(rows: seq<Row>, r: Row): seq<Row> {
    if rows == [] || rows[|rows| - 1].end <= r.end then rows + [r]
    else Insert(rows[..|rows| - 1], r) + [rows[|rows| - 1]]
  }

  /** By the time they closed, rows that closed together in the order given. */
  function SortByEnd(rows: seq<Row>): seq<Row> {
    if rows == [] then [] else Insert(SortByEnd(rows[..|rows| - 1]), rows[|rows| - 1])
  }

  /** Lengths and byte counts are never negative. */
  ghost predicate Counters(raw: seq<Row>) {
    forall i :: 0 <= i < |raw| ==> raw[i].width >= 0.0 && raw[i].bytes >= 0.0
  }

  ghost predicate ByEnd(rows: seq<Row>) {
    forall i, j :: 0 <= i < j < |rows| ==> rows[i].end <= rows[j].end
  }

  lemma ByEndPush(rows: seq<Row>, last: Row)
    requires ByEnd(rows) && forall r :: r in multiset(rows) ==> r.end <= last.end
    ensures ByEnd(rows + [last])
  {
    assert forall i :: 0 <= i < |rows| ==> rows[i] in multiset(rows);
  }

  lemma {:induction false} InsertKeeps(rows: seq<Row>, r: Row)
    requires ByEnd(rows)
    ensures ByEnd(Insert(rows, r)) && multiset(Insert(rows, r)) == multiset(rows) + multiset{r}
    decreases |rows|
  {
    if rows == [] || rows[|rows| - 1].end <= r.end {
    } else {
      var init, last := rows[..|rows| - 1], rows[|rows| - 1];
      assert rows == init + [last];
      InsertKeeps(init, r);
      assert Insert(rows, r) == Insert(init, r) + [last];
      forall x | x in multiset(Insert(init, r)) ensures x.end <= last.end {
        assert x in multiset(init) || x == r;
        assert x in multiset(init) ==> x in init;
      }
      hide Insert, ByEnd;
      ByEndPush(Insert(init, r), last);
    }
  }

  lemma {:induction false} SortKeeps(rows: seq<Row>)
    ensures ByEnd(SortByEnd(rows)) && multiset(SortByEnd(rows)) == multiset(rows)
    decreases |rows|
  {
    if rows == [] {
    } else {
      var k := |rows| - 1;
      SortKeeps(rows[..k]);
      hide Insert, ByEnd;
      InsertKeeps(SortByEnd(rows[..k]), rows[k]);
      assert rows == rows[..k] + [rows[k]];
    }
  }

  lemma {:induction false} ChosenIs(raw: seq<Row>, r: Row)
    ensures multiset(Chosen(raw))[r] == if Recorded(r) then multiset(raw)[r] else 0
    decreases |raw|
  {
    if raw == [] {
    } else {
      var k := |raw| - 1;
      ChosenIs(raw[..k], r);
      assert raw == raw[..k] + [raw[k]];
    }
  }

  /** No two of the rows closed at the same time. */
  ghost predicate DistinctEnds(rows: seq<Row>) {
    forall i, j :: 0 <= i < j < |rows| ==> rows[i].end != rows[j].end
  }

  ghost predicate Rising(rows: seq<Row>) {
    forall i, j :: 0 <= i < j < |rows| ==> rows[i].end < rows[j].end
  }

  ghost predicate SameRows(a: seq<Row>, b: seq<Row>) {
    forall r :: r in a <==> r in b
  }

  lemma NoneAlike(a: seq<Row>, b: seq<Row>)
    requires SameRows(a, b)
    ensures a == [] <==> b == []
  {
    if a != [] {
      assert a[0] in b;
    }
    if b != [] {
      assert b[0] in a;
    }
  }

  lemma RisingLast(a: seq<Row>, b: seq<Row>)
    requires Rising(a) && Rising(b) && SameRows(a, b) && a != [] && b != []
    ensures a[|a| - 1] == b[|b| - 1]
  {
    assert a[|a| - 1] in b && b[|b| - 1] in a;
    var i :| 0 <= i < |a| && a[i] == b[|b| - 1];
    var j :| 0 <= j < |b| && b[j] == a[|a| - 1];
  }

  lemma InitWithin(a: seq<Row>, b: seq<Row>, r: Row)
    requires Rising(a) && Rising(b) && SameRows(a, b) && a != [] && b != [] && a[|a| - 1] == b[|b| - 1]
    requires r in a[..|a| - 1]
    ensures r in b[..|b| - 1]
  {
    var i :| 0 <= i < |a| - 1 && a[i] == r;
    assert r in b && r.end < a[|a| - 1].end;
    var j :| 0 <= j < |b| && b[j] == r;
    assert b[..|b| - 1][j] == r;
  }

  /** There is only one rising order of the same rows. */
  lemma {:induction false} RisingUnique(a: seq<Row>, b: seq<Row>)
    requires Rising(a) && Rising(b) && SameRows(a, b)
    ensures a == b
    decreases |a|
  {
    NoneAlike(a, b);
    if a == [] {
    } else {
      var x, y := a[..|a| - 1], b[..|b| - 1];
      RisingLast(a, b);
      RisingInit(a);
      RisingInit(b);
      forall r ensures r in x <==> r in y {
        if r in x {
          InitWithin(a, b, r);
        }
        if r in y {
          InitWithin(b, a, r);
        }
      }
      hide Rising;
      RisingUnique(x, y);
      assert a == x + [a[|a| - 1]] && b == y + [b[|b| - 1]];
    }
  }

  lemma RisingInit(a: seq<Row>)
    requires Rising(a) && a != []
    ensures Rising(a[..|a| - 1])
  {}

  /** In order, rows none of which closed together are strictly in order. */
  lemma DistinctRises(rows: seq<Row>, raw: seq<Row>)
    requires ByEnd(rows) && multiset(rows) == multiset(raw) && DistinctEnds(raw)
    ensures Rising(rows)
  {
    forall i, j | 0 <= i < j < |rows| ensures rows[i].end < rows[j].end {
      if rows[i].end == rows[j].end {
        TwoOfAnEnd(rows, raw, i, j);
      }
    }
  }

  lemma TwoOfAnEnd(rows: seq<Row>, raw: seq<Row>, i: nat, j: nat)
    requires i < j < |rows| && multiset(rows) == multiset(raw) && DistinctEnds(raw)
    ensures rows[i].end != rows[j].end
  {
    assert rows[i] in multiset(raw) && rows[j] in multiset(raw);
    var p :| 0 <= p < |raw| && raw[p] == rows[i];
    var q :| 0 <= q < |raw| && raw[q] == rows[j];
    if p == q {
      SameTwice(rows, i, j);
      OnceOnly(raw, p);
    }
  }

  lemma SameTwice(rows: seq<Row>, i: nat, j: nat)
    requires i < j < |rows| && rows[i] == rows[j]
    ensures multiset(rows)[rows[i]] >= 2
  {
    assert rows == rows[..j] + rows[j..];
    assert rows[..j][i] in multiset(rows[..j]) && rows[j..][0] in multiset(rows[j..]);
  }

  lemma OnceOnly(raw: seq<Row>, p: nat)
    requires p < |raw| && DistinctEnds(raw)
    ensures multiset(raw)[raw[p]] == 1
  {
    var a, b := raw[..p], raw[p + 1..];
    assert raw == a + [raw[p]] + b;
    assert forall i :: 0 <= i < |a| ==> a[i] == raw[i];
    assert forall i :: 0 <= i < |b| ==> b[i] == raw[p + 1 + i];
    assert raw[p] !in a && raw[p] !in b;
  }
}
