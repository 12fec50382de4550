/**
 Selective acknowledgements: the set of received offsets as ranges.

 The builder turns any list of inclusive ranges into the canonical descending one, giving up
 ranges from the middle when there are more than the wire form holds. `SackWire` is the wire form.
 */
module Sack {
  import opened Wrappers

  const U32: nat := 0x1_0000_0000
  const MAX_SACK_RANGES: nat := 32
  const FIXED_HDR_LEN: nat := 10
  const MIN_WIRE_LEN: nat := 14
  const CONTINUATION_BYTES: nat := 8

  datatype Error = Truncated | TooManyRanges | Malformed
  datatype Result<+T> = Ok(value: T) | Err(error: Error)

  /** An inclusive run of acknowledged offsets. */
  datatype Range = Range(low: nat, high: nat)

  datatype Ack = Ack(largest: nat, delay: nat, ranges: seq<Range>)

  predicate Proper(r: Range) {
    r.low <= r.high < U32
  }

  /** Offset `n` lies in one of the ranges: what `acks` answers. */
  predicate Covers(rs: seq<Range>, n: nat) {
    exists i :: 0 <= i < |rs| && rs[i].low <= n <= rs[i].high
  }

  method Acks(a: Ack, n: nat) returns (covered: bool)
    ensures covered <==> Covers(a.ranges, n)
  {
    var i := 0;
    while i < |a.ranges|
      invariant 0 <= i <= |a.ranges|
      invariant forall j :: 0 <= j < i ==> !(a.ranges[j].low <= n <= a.ranges[j].high)
    {
      if a.ranges[i].low <= n <= a.ranges[i].high {
        return true;
      }
      i := i + 1;
    }
    return false;
  }

  ghost predicate AllProper(rs: seq<Range>) {
    forall i :: 0 <= i < |rs| ==> Proper(rs[i])
  }

  /** Rising, and with at least one offset missing between neighbours. */
  ghost predicate Ascending(rs: seq<Range>) {
    AllProper(rs) && forall i, j :: 0 <= i < j < |rs| ==> rs[i].high + 1 < rs[j].low
  }

  ghost predicate Descending(rs: seq<Range>) {
    AllProper(rs) && forall i, j :: 0 <= i < j < |rs| ==> rs[j].high + 1 < rs[i].low
  }

  // ----- Sorting and merging -----

  ghost predicate SortedByLow(rs: seq<Range>) {
    forall i, j :: 0 <= i < j < |rs| ==> rs[i].low <= rs[j].low
  }

  function Insert(rs: seq<Range>, r: Range): seq<Range> {
    if rs == [] || rs[|rs| - 1].low <= r.low then rs + [r]
    else Insert(rs[..|rs| - 1], r) + [rs[|rs| - 1]]
  }

  /** `sort_unstable_by_key` on the low end. */
  function SortByLow(rs: seq<Range>): seq<Range> {
    if rs == [] then [] else Insert(SortByLow(rs[..|rs| - 1]), rs[|rs| - 1])
  }

  lemma SortedPush(rs: seq<Range>, last: Range)
    requires SortedByLow(rs) && forall r :: r in multiset(rs) ==> r.low <= last.low
    ensures SortedByLow(rs + [last])
  {
    assert forall i :: 0 <= i < |rs| ==> rs[i] in multiset(rs);
  }

  lemma {:induction false} InsertKeeps(rs: seq<Range>, r: Range)
    requires SortedByLow(rs)
    ensures SortedByLow(Insert(rs, r)) && multiset(Insert(rs, r)) == multiset(rs) + multiset{r}
    decreases |rs|
  {
    if rs == [] || rs[|rs| - 1].low <= r.low {
    } else {
      var init, last := rs[..|rs| - 1], rs[|rs| - 1];
      assert rs == init + [last];
      InsertKeeps(init, r);
      assert Insert(rs, r) == Insert(init, r) + [last];
      forall x | x in multiset(Insert(init, r)) ensures x.low <= last.low {
        assert x in multiset(init) || x == r;
        assert x in multiset(init) ==> x in init;
      }
      hide Insert, SortedByLow;
      SortedPush(Insert(init, r), last);
    }
  }

  lemma {:induction false} SortKeeps(rs: seq<Range>)
    ensures SortedByLow(SortByLow(rs)) && multiset(SortByLow(rs)) == multiset(rs)
    decreases |rs|
  {
    if rs == [] {
    } else {
      SortKeeps(rs[..|rs| - 1]);
      InsertKeeps(SortByLow(rs[..|rs| - 1]), rs[|rs| - 1]);
      assert rs == rs[..|rs| - 1] + [rs[|rs| - 1]];
    }
  }

  /** Same ranges, same cover. */
  lemma SameCover(a: seq<Range>, b: seq<Range>, n: nat)
    requires multiset(a) == multiset(b)
    ensures Covers(a, n) <==> Covers(b, n)
  {
    if Covers(a, n) {
      var i :| 0 <= i < |a| && a[i].low <= n <= a[i].high;
      assert a[i] in multiset(b);
    }
    if Covers(b, n) {
      var i :| 0 <= i < |b| && b[i].low <= n <= b[i].high;
      assert b[i] in multiset(a);
    }
  }

  /** One iteration of the merge: extend the last range, or start a new one. */
  function Absorb(asc: seq<Range>, r: Range): seq<Range> {
    if asc == [] then [r]
    else
      var n := |asc| - 1;
      var next := if asc[n].high >= U32 - 1 then asc[n].high else asc[n].high + 1;
      if r.low > next then asc + [r]
      else if r.high > asc[n].high then asc[..n] + [Range(asc[n].low, r.high)]
      else asc
  }

  function Coalesce(base: seq<Range>, rs: seq<Range>): seq<Range> {
    if rs == [] then base else Absorb(Coalesce(base, rs[..|rs| - 1]), rs[|rs| - 1])
  }

  lemma CoversSplit(a: seq<Range>, b: seq<Range>, n: nat)
    ensures Covers(a + b, n) <==> Covers(a, n) || Covers(b, n)
  {
    if Covers(a, n) {
      var i :| 0 <= i < |a| && a[i].low <= n <= a[i].high;
      assert (a + b)[i] == a[i];
    }
    if Covers(b, n) {
      var i :| 0 <= i < |b| && b[i].low <= n <= b[i].high;
      assert (a + b)[|a| + i] == b[i];
    }
  }

  lemma CoversNone(n: nat)
    ensures !Covers([], n)
  {}

  lemma CoversOne(r: Range, n: nat)
    ensures Covers([r], n) <==> r.low <= n <= r.high
  {
    assert [r][0] == r;
  }

  lemma AbsorbShape(asc: seq<Range>, r: Range)
    requires Ascending(asc) && Proper(r) && (asc != [] ==> asc[|asc| - 1].low <= r.low)
    ensures var out := Absorb(asc, r);
      out != [] && Ascending(out) && out[|out| - 1].low <= r.low
  {}

  lemma AbsorbCover(asc: seq<Range>, r: Range, n: nat)
    requires Ascending(asc) && Proper(r) && (asc != [] ==> asc[|asc| - 1].low <= r.low)
    ensures Covers(Absorb(asc, r), n) <==> Covers(asc, n) || r.low <= n <= r.high
  {
    CoversOne(r, n);
    if asc != [] {
      var last := asc[|asc| - 1];
      var init := asc[..|asc| - 1];
      var grown := Range(last.low, r.high);
      assert asc == init + [last];
      CoversSplit(asc, [r], n);
      CoversSplit(init, [last], n);
      CoversSplit(init, [grown], n);
      CoversOne(last, n);
      CoversOne(grown, n);
      hide Covers;
    } else {
      assert !Covers([], n);
    }
  }

  lemma {:induction false} CoalesceShape(base: seq<Range>, rs: seq<Range>)
    requires Ascending(base) && AllProper(rs) && SortedByLow(rs)
    requires base != [] && rs != [] ==> base[|base| - 1].low <= rs[0].low
    ensures var out := Coalesce(base, rs);
      && Ascending(out)
      && (out == [] <==> base == [] && rs == [])
      && (rs != [] ==> out[|out| - 1].low <= rs[|rs| - 1].low)
    decreases |rs|
  {
    hide Absorb;
    if rs == [] {
    } else {
      var k := |rs| - 1;
      CoalesceShape(base, rs[..k]);
      AbsorbShape(Coalesce(base, rs[..k]), rs[k]);
    }
  }

  lemma ProperPrefix(rs: seq<Range>)
    requires rs != [] && AllProper(rs) && SortedByLow(rs)
    ensures var k := |rs| - 1;
      && AllProper(rs[..k]) && SortedByLow(rs[..k]) && Proper(rs[k])
      && (k > 0 ==> rs[..k][0] == rs[0] && rs[k - 1].low <= rs[k].low)
  {}

  lemma {:induction false} CoalesceCover(base: seq<Range>, rs: seq<Range>, n: nat)
    requires Ascending(base) && AllProper(rs) && SortedByLow(rs)
    requires base != [] && rs != [] ==> base[|base| - 1].low <= rs[0].low
    ensures Covers(Coalesce(base, rs), n) <==> Covers(base, n) || Covers(rs, n)
    decreases |rs|
  {
    hide Absorb, Covers, Ascending, AllProper, SortedByLow;
    if rs == [] {
      CoversNone(n);
    } else {
      var k := |rs| - 1;
      ProperPrefix(rs);
      CoalesceCover(base, rs[..k], n);
      CoalesceShape(base, rs[..k]);
      AbsorbCover(Coalesce(base, rs[..k]), rs[k], n);
      assert rs == rs[..k] + [rs[k]];
      CoversSplit(rs[..k], [rs[k]], n);
      CoversOne(rs[k], n);
    }
  }

  function Reverse(rs: seq<Range>): (out: seq<Range>)
    ensures |out| == |rs| && forall i :: 0 <= i < |rs| ==> out[i] == rs[|rs| - 1 - i]
  {
    if rs == [] then [] else [rs[|rs| - 1]] + Reverse(rs[..|rs| - 1])
  }

  /** Keep the top thirty-one and the lowest when the wire form cannot hold them all. */
  function Cap(desc: seq<Range>): seq<Range> {
    if |desc| > MAX_SACK_RANGES then desc[..MAX_SACK_RANGES - 1] + [desc[|desc| - 1]] else desc
  }

  /** `from_ascending_coalesced`. */
  function FromAscending(asc: seq<Range>, delay: nat): Option<Ack> {
    if asc == [] then None
    else
      var ranges := Cap(Reverse(asc));
      Some(Ack(ranges[0].high, delay, ranges))
  }

  /** What the wire form can carry: between one and thirty-two canonical ranges. */
  ghost predicate ValidAck(a: Ack) {
    && 0 < |a.ranges| <= MAX_SACK_RANGES && Descending(a.ranges)
    && a.largest == a.ranges[0].high && a.delay < U32
  }

  lemma ReverseCover(rs: seq<Range>, n: nat)
    ensures Covers(Reverse(rs), n) <==> Covers(rs, n)
  {
    var out := Reverse(rs);
    if Covers(rs, n) {
      var i :| 0 <= i < |rs| && rs[i].low <= n <= rs[i].high;
      assert out[|rs| - 1 - i] == rs[i];
    }
  }

  lemma CapCover(desc: seq<Range>, n: nat)
    requires desc != []
    ensures Covers(Cap(desc), n) ==> Covers(desc, n)
    ensures desc[|desc| - 1].low <= n <= desc[|desc| - 1].high ==> Covers(Cap(desc), n)
    ensures Cap(desc)[0] == desc[0]
  {
    var c := Cap(desc);
    assert c[|c| - 1] == desc[|desc| - 1];
    if Covers(c, n) {
      var i :| 0 <= i < |c| && c[i].low <= n <= c[i].high;
      assert c[i] == desc[if i == |c| - 1 then |desc| - 1 else i];
    }
  }

  lemma CapShape(desc: seq<Range>)
    requires Descending(desc) && desc != []
    ensures Descending(Cap(desc)) && 0 < |Cap(desc)| <= MAX_SACK_RANGES
  {}

  lemma FromAscendingKeeps(asc: seq<Range>, delay: nat, n: nat)
    requires Ascending(asc) && asc != [] && delay < U32
    ensures var a := FromAscending(asc, delay).value;
      && ValidAck(a)
      && (Covers(a.ranges, n) ==> Covers(asc, n))
      && (|asc| <= MAX_SACK_RANGES ==> (Covers(a.ranges, n) <==> Covers(asc, n)))
      && (asc[0].low <= n <= asc[0].high ==> Covers(a.ranges, n))
      && a.largest == asc[|asc| - 1].high
  {
    var desc := Reverse(asc);
    assert Descending(desc);
    CapShape(desc);
    CapCover(desc, n);
    ReverseCover(asc, n);
    hide Covers, Descending, Ascending;
  }

  /**
   `from_inclusive_ranges`: the ranges may come in any order and may overlap. The result
   acknowledges nothing the input does not; when the merged set fits the wire form it
   acknowledges exactly the input; and it always keeps the lowest run and the largest offset.
   */
  method FromInclusiveRanges(ranges: seq<Range>, delay: nat) returns (out: Option<Ack>)
    requires AllProper(ranges) && delay < U32
    ensures out == FromRanges(ranges, delay)
  {
    if ranges == [] {
      return None;
    }
    var sorted := SortByLow(ranges);
    var asc: seq<Range> := [];
    var i := 0;
    while i < |sorted|
      invariant 0 <= i <= |sorted| && asc == Coalesce([], sorted[..i])
    {
      var r := sorted[i];
      if asc != []
         && r.low <= (if asc[|asc| - 1].high >= U32 - 1 then asc[|asc| - 1].high else asc[|asc| - 1].high + 1) {
        if r.high > asc[|asc| - 1].high {
          asc := asc[..|asc| - 1] + [Range(asc[|asc| - 1].low, r.high)];
        }
      } else {
        asc := asc + [r];
      }
      assert sorted[..i + 1][..i] == sorted[..i];
      i := i + 1;
    }
    assert sorted[..i] == sorted;
    out := FromAscending(asc, delay);
  }

  function FromRanges(ranges: seq<Range>, delay: nat): Option<Ack> {
    if ranges == [] then None else FromAscending(Merged(ranges), delay)
  }

  /** The merged set, before the cap. */
  function Merged(ranges: seq<Range>): seq<Range> {
    Coalesce([], SortByLow(ranges))
  }

  lemma SortProper(ranges: seq<Range>)
    requires AllProper(ranges)
    ensures AllProper(SortByLow(ranges))
  {
    SortKeeps(ranges);
    var s := SortByLow(ranges);
    forall i | 0 <= i < |s| ensures Proper(s[i]) {
      assert s[i] in multiset(ranges);
    }
  }

  lemma MergedKeeps(ranges: seq<Range>, n: nat)
    requires AllProper(ranges)
    ensures Ascending(Merged(ranges)) && (Merged(ranges) == [] <==> ranges == [])
    ensures Covers(Merged(ranges), n) <==> Covers(ranges, n)
  {
    SortProper(ranges);
    SortKeeps(ranges);
    SameCover(ranges, SortByLow(ranges), n);
    CoalesceShape([], SortByLow(ranges));
    CoalesceCover([], SortByLow(ranges), n);
    assert |multiset(ranges)| == |ranges|;
    assert |multiset(SortByLow(ranges))| == |SortByLow(ranges)|;
  }

  lemma LargestCovered(asc: seq<Range>, n: nat)
    requires Ascending(asc) && Covers(asc, n)
    ensures n <= asc[|asc| - 1].high
  {}

  /** Every offset up to and including `n` is in the input. */
  ghost predicate RunTo(ranges: seq<Range>, n: nat) {
    forall m: nat :: m <= n ==> Covers(ranges, m)
  }

  lemma FromRangesKeeps(ranges: seq<Range>, delay: nat, n: nat)
    requires AllProper(ranges) && ranges != [] && delay < U32
    ensures FromRanges(ranges, delay).Some?
    ensures var a := FromRanges(ranges, delay).value;
      && ValidAck(a)
      && (Covers(a.ranges, n) ==> Covers(ranges, n))
      && (|Merged(ranges)| <= MAX_SACK_RANGES ==> (Covers(a.ranges, n) <==> Covers(ranges, n)))
      && (n > a.largest ==> !Covers(ranges, n))
      && (RunTo(ranges, n) ==> Covers(a.ranges, n))
  {
    var asc := Merged(ranges);
    MergedKeeps(ranges, n);
    FromAscendingKeeps(asc, delay, n);
    if Covers(asc, n) {
      LargestCovered(asc, n);
    }
    if RunTo(ranges, n) {
      LowestRun(asc, ranges, n);
    }
    hide Covers, Ascending, ValidAck, Coalesce, SortByLow, RunTo;
  }

  /** A run from zero that is wholly covered lies in the lowest merged range. */
  lemma {:induction false} LowestRun(asc: seq<Range>, ranges: seq<Range>, n: nat)
    requires AllProper(ranges) && asc == Merged(ranges) && Ascending(asc) && asc != []
    requires RunTo(ranges, n)
    ensures asc[0].low <= n <= asc[0].high
    decreases n
  {
    MergedKeeps(ranges, n);
    assert forall j :: 0 < j < |asc| ==> asc[0].high + 1 < asc[j].low;
    if n != 0 {
      LowestRun(asc, ranges, n - 1);
    } else {
      assert Covers(ranges, 0);
    }
  }
}
