/**
 The sender's half of the flow-control ledger, over whole runs: what is charged, when a charge
 stands, and that no more is ever put on the wire than the peer has allowed.

 A charge is levied in one place and given back in one place, by marks kept on the segments. The
 proof follows each segment: whether a copy of it is out, being written, or neither.
 */
module FlowLedger {
  import opened Arithmetic
  import opened LossDetection
  import opened Sack
  import opened SendPath
  import opened SendRuns
  import opened Wrappers
  import ReliableStream

  // ----- Sums over segments -----

  function Charge(x: Segment): nat {
    if x.charged then x.size else 0
  }

  function Charges(xs: seq<Segment>): nat {
    if xs == [] then 0 else Charge(xs[0]) + Charges(xs[1..])
  }

  /** Bytes of the segments of which a copy is on the wire, each counted once. */
  function OnWire(xs: seq<Segment>, wire: set<nat>): nat {
    if xs == [] then 0 else (if xs[0].offset in wire then xs[0].size else 0) + OnWire(xs[1..], wire)
  }

  lemma {:induction false} ChargesSplit(a: seq<Segment>, b: seq<Segment>)
    ensures Charges(a + b) == Charges(a) + Charges(b)
    decreases |a|
  {
    if a == [] {
      assert a + b == b;
    } else {
      ChargesSplit(a[1..], b);
      assert (a + b)[1..] == a[1..] + b;
    }
  }

  lemma ChargesOne(x: Segment)
    ensures Charges([x]) == Charge(x) && Charges([]) == 0
  {
    assert [x][1..] == [];
  }

  lemma {:induction false} ChargesUpdate(xs: seq<Segment>, i: nat, y: Segment)
    requires i < |xs|
    ensures Charges(xs[i := y]) + Charge(xs[i]) == Charges(xs) + Charge(y)
    decreases |xs|
  {
    if i == 0 {
      assert xs[0 := y][1..] == xs[1..];
    } else {
      ChargesUpdate(xs[1..], i - 1, y);
      assert xs[i := y][1..] == xs[1..][i - 1 := y];
    }
  }

  lemma {:induction false} ChargesFlagged(xs: seq<Segment>, largest: nat, now: nat, limit: Option<nat>)
    ensures Charges(Flagged(xs, largest, now, limit)) == Charges(xs)
    decreases |xs|
  {
    hide Verdict;
    if xs == [] {
    } else {
      ChargesFlagged(xs[1..], largest, now, limit);
      assert Flagged(xs, largest, now, limit)[1..] == Flagged(xs[1..], largest, now, limit);
    }
  }

  lemma {:induction false} ChargesKept(xs: seq<Segment>, a: Ack)
    ensures Charges(xs) == Charges(Kept(xs, a)) + Charges(Covered(xs, a))
    decreases |xs|
  {
    hide Covers;
    if xs == [] {
    } else {
      var x, rest := xs[0], xs[1..];
      ChargesKept(rest, a);
      ChargesSplit([x], Kept(rest, a));
      ChargesSplit([x], Covered(rest, a));
      ChargesOne(x);
      assert [] + Kept(rest, a) == Kept(rest, a) && [] + Covered(rest, a) == Covered(rest, a);
    }
  }

  lemma {:induction false} NoneCharged(xs: seq<Segment>)
    requires forall x :: x in xs ==> !x.charged
    ensures Charges(xs) == 0
    decreases |xs|
  {
    if xs == [] {
    } else {
      assert xs[0] in xs && forall x :: x in xs[1..] ==> x in xs;
      NoneCharged(xs[1..]);
    }
  }

  lemma {:induction false} WireWithin(xs: seq<Segment>, wire: set<nat>)
    requires forall x :: x in xs && x.offset in wire ==> x.charged || x.size == 0
    ensures OnWire(xs, wire) <= Charges(xs)
    decreases |xs|
  {
    if xs == [] {
    } else {
      assert xs[0] in xs && forall x :: x in xs[1..] ==> x in xs;
      WireWithin(xs[1..], wire);
    }
  }

  // ----- Where a segment stands -----

  /** A copy of this segment is being written. */
  predicate Trying(s: State, offset: nat) {
    s.attempt.Some? && !s.attempt.value.probe && s.attempt.value.offset == offset
  }

  /** A copy is on the wire or being written. */
  predicate Launched(s: State, offset: nat) {
    offset in s.wire || Trying(s, offset)
  }

  /** What a buffered segment's own marks say of it. */
  ghost predicate Settled(s: State, x: Segment) {
    && (x.fin ==> x.size == 0)
    && (x.charged <==> !x.fin && Launched(s, x.offset))
    && (x.sentAt.Some? ==> Launched(s, x.offset) && x.marks.Some?)
    && (Trying(s, x.offset) ==> x.sentAt.Some?)
    && (x.retries > 0 ==> x.offset in s.wire)
    && (x.retries == 0 && (x.sentAt.None? || Trying(s, x.offset)) ==> x.offset !in s.wire)
  }

  ghost predicate AllSettled(s: State) {
    forall x :: x in s.sender.buffer ==> Settled(s, x)
  }

  /** What went before is on the wire. */
  ghost predicate InTurn(s: State) {
    forall x, y :: x in s.sender.buffer && y in s.sender.buffer && x.offset < y.offset && Launched(s, y.offset) ==>
      x.offset in s.wire
  }

  ghost predicate Ascending(b: seq<Segment>, end: nat) {
    && (forall i :: 0 <= i < |b| ==> b[i].offset < end)
    && forall i, j :: 0 <= i < j < |b| ==> b[i].offset < b[j].offset
  }

  /** A retired segment that was ever launched keeps its charge. */
  ghost predicate GoneSettled(s: State) {
    forall x :: x in s.gone && Launched(s, x.offset) ==> x.charged || x.size == 0
  }

  /** The highest offset acknowledged is of a retired segment. */
  ghost predicate AckedGone(s: State) {
    && (s.sender.acked == 0 ==> s.gone == [])
    && (s.sender.acked > 0 ==> s.sender.acked - 1 in Offsets(s.gone))
    && forall n :: n in Offsets(s.gone) ==> n < |s.sizes|
  }

  /** Nothing is launched that was not pushed. */
  ghost predicate LaunchedPushed(s: State) {
    forall n: nat :: Launched(s, n) ==> n < |s.sizes|
  }

  ghost predicate Ledger(s: State) {
    && s.sender.bytesSent == Charges(s.sender.buffer) + Charges(s.gone)
    && s.sender.bytesSent <= s.sender.limit <= U64_MAX
  }

  ghost predicate Balanced(s: State) {
    && Accounted(s) && Ascending(s.sender.buffer, |s.sizes|)
    && AllSettled(s) && InTurn(s) && LaunchedPushed(s) && GoneSettled(s) && AckedGone(s) && Ledger(s)
  }

  lemma NotBoth(s: State, x: Segment, y: Segment)
    requires Accounted(s) && x in s.sender.buffer && y in s.gone
    ensures x.offset != y.offset
  {
    var a: multiset<nat>, b: multiset<nat> := multiset(Offsets(s.sender.buffer)), multiset(Offsets(s.gone));
    OffsetIn(s.sender.buffer, x);
    OffsetIn(s.gone, y);
    UptoOnce(|s.sizes|, x.offset);
    hide Offsets, Upto;
    assert (a + b)[x.offset] <= 1;
    assert a[x.offset] >= 1 && b[y.offset] >= 1;
  }

  lemma OffsetIn(xs: seq<Segment>, x: Segment)
    requires x in xs
    ensures x.offset in Offsets(xs) && x.offset in multiset(Offsets(xs))
  {
    var i :| 0 <= i < |xs| && xs[i] == x;
    assert Offsets(xs)[i] == x.offset;
  }

  lemma UpdateIn(b: seq<Segment>, i: nat, y: Segment, end: nat)
    requires i < |b| && Ascending(b, end) && y.offset == b[i].offset
    ensures Ascending(b[i := y], end)
    ensures forall x :: x in b[i := y] <==> x == y || (x in b && x.offset != y.offset)
  {
    var c := b[i := y];
    forall x | x in c ensures x == y || (x in b && x.offset != y.offset) {
      var j :| 0 <= j < |c| && c[j] == x;
      assert j != i ==> c[j] == b[j];
    }
    forall x | x == y || (x in b && x.offset != y.offset) ensures x in c {
      if x == y {
        assert c[i] == y;
      } else {
        var j :| 0 <= j < |b| && b[j] == x;
        assert c[j] == x;
      }
    }
  }

  // ----- Pushing and writing -----

  /** The states differ in nothing that says where a segment stands. */
  ghost predicate SameStanding(s: State, t: State) {
    t.gone == s.gone && t.wire == s.wire && t.attempt == s.attempt
  }

  lemma StandingPush(s: State, t: State, x: Segment)
    requires AllSettled(s) && InTurn(s) && GoneSettled(s) && SameStanding(s, t)
    requires t.sender.buffer == s.sender.buffer + [x] && !Launched(s, x.offset)
    requires forall y :: y in s.sender.buffer ==> y.offset < x.offset
    requires !x.charged && x.sentAt.None? && x.retries == 0 && (x.fin ==> x.size == 0)
    ensures AllSettled(t) && InTurn(t) && GoneSettled(t)
  {
    assert forall n: nat :: (Launched(t, n) <==> Launched(s, n)) && (Trying(t, n) <==> Trying(s, n));
    assert forall y :: y in t.sender.buffer <==> y in s.sender.buffer || y == x;
    hide Launched, Trying;
  }

  lemma AscendingPush(b: seq<Segment>, x: Segment, end: nat)
    requires Ascending(b, end) && x.offset == end
    ensures Ascending(b + [x], end + 1)
  {}

  lemma BalancedPush(s: State, step: Step)
    requires Balanced(s) && Enabled(s, step) && step.Push?
    ensures Balanced(Apply(s, step))
  {
    AccountedStep(s, step);
    var b, x, t := s.sender.buffer, Fresh(s, step.size, step.fin), Apply(s, step);
    assert forall y :: y in b ==> y.offset < x.offset;
    hide Accounted, Charges, Offsets, Ascending, AllSettled, InTurn, GoneSettled;
    assert !Launched(s, |s.sizes|) && forall n: nat :: Launched(t, n) <==> Launched(s, n);
    hide Launched;
    ChargesSplit(b, [x]);
    ChargesOne(x);
    StandingPush(s, t, x);
    AscendingPush(b, x, |s.sizes|);
  }

  lemma StandingWrote(s: State, t: State, o: nat)
    requires AllSettled(s) && InTurn(s) && GoneSettled(s) && Trying(s, o)
    requires t.sender == s.sender && t.gone == s.gone && t.attempt.None? && t.wire == s.wire + {o}
    ensures AllSettled(t) && InTurn(t) && GoneSettled(t)
  {
    assert forall n: nat :: (Launched(t, n) <==> Launched(s, n)) && !Trying(t, n);
    assert forall n: nat :: Trying(s, n) <==> n == o;
    hide Launched, Trying;
  }

  lemma BalancedWrote(s: State)
    requires Balanced(s) && s.attempt.Some?
    ensures Balanced(Apply(s, Wrote))
  {
    hide Accounted, Charges, Offsets, Ascending, AllSettled, InTurn, GoneSettled;
    AccountedStep(s, Wrote);
    var t, a := Apply(s, Wrote), s.attempt.value;
    if a.probe {
      BalancedFrame(s, t);
    } else {
      assert forall n: nat :: Launched(t, n) <==> Launched(s, n);
      hide Launched;
      StandingWrote(s, t, a.offset);
    }
  }

  // ----- Acknowledgements -----

  lemma {:induction false} AckedUptoIs(acked: nat, gone: seq<Retired>)
    requires forall i :: 0 <= i < |gone| ==> gone[i].offset + 1 < U32
    ensures var n := AckedUpto(acked, gone);
      && n >= acked && (gone != [] ==> n > 0)
      && (n == acked || exists i :: 0 <= i < |gone| && n == gone[i].offset + 1)
    decreases |gone|
  {
    if gone == [] {
    } else {
      var k := |gone| - 1;
      AckedUptoIs(acked, gone[..k]);
      if AckedUpto(acked, gone[..k]) != acked && AckedUpto(acked, gone) == AckedUpto(acked, gone[..k]) {
        var i :| 0 <= i < k && AckedUpto(acked, gone[..k]) == gone[..k][i].offset + 1;
        assert gone[i] == gone[..k][i];
      }
    }
  }

  lemma CoveredOffsets(b: seq<Segment>, a: Ack, end: nat, n: nat)
    requires Ascending(b, end) && n in Offsets(Covered(b, a))
    ensures n < end
  {
    KeptOrRetired(b, a, 0);
    InOffsets(Covered(b, a), n);
    hide Covered, Covers, Offsets, Kept, RetiredOf;
    var x :| x in Covered(b, a) && x.offset == n;
    OffsetBelow(b, x, end);
  }

  lemma RetiredOffset(b: seq<Segment>, a: Ack, now: nat, i: nat)
    requires i < |RetiredOf(b, a, now)|
    ensures RetiredOf(b, a, now)[i].offset in Offsets(Covered(b, a))
  {
    RetiredCovered(b, a, now, i);
    hide Covered, RetiredOf;
    OffsetIn(Covered(b, a), Covered(b, a)[i]);
  }

  lemma AckedHeard(s: State, step: Step)
    requires AckedGone(s) && Ascending(s.sender.buffer, |s.sizes|) && Enabled(s, step) && step.Heard? && |s.sizes| < U32
    ensures AckedGone(Apply(s, step))
  {
    hide Covers, RetiredOf, Covered, Kept, DeclaredOf, Flagged, AckedUpto, Offsets, AgeLimit, Ascending, Believed;
    var b, end := s.sender.buffer, |s.sizes|;
    var gone, covered := RetiredOf(b, step.ack, step.now), Covered(b, step.ack);
    KeptOrRetired(b, step.ack, step.now);
    OffsetsSplit(s.gone, covered);
    forall n | n in Offsets(covered) ensures n < end {
      CoveredOffsets(b, step.ack, end, n);
    }
    forall i | 0 <= i < |gone| ensures gone[i].offset in Offsets(covered) {
      RetiredOffset(b, step.ack, step.now, i);
    }
    AckedUptoIs(s.sender.acked, gone);
  }

  lemma OffsetBelow(b: seq<Segment>, x: Segment, end: nat)
    requires Ascending(b, end) && x in b
    ensures x.offset < end
  {}

  lemma InOffsets(xs: seq<Segment>, n: nat)
    requires n in Offsets(xs)
    ensures exists x :: x in xs && x.offset == n
  {
    var i :| 0 <= i < |xs| && Offsets(xs)[i] == n;
    assert xs[i] in xs;
  }

  lemma AscendingCons(x: Segment, rest: seq<Segment>, end: nat)
    requires Ascending(rest, end) && x.offset < end && forall y :: y in rest ==> x.offset < y.offset
    ensures Ascending([x] + rest, end)
  {
    var all := [x] + rest;
    forall i | 0 < i < |all| ensures all[i] == rest[i - 1] && all[i] in rest {}
  }

  lemma AscendingRest(b: seq<Segment>, end: nat)
    requires Ascending(b, end) && b != []
    ensures Ascending(b[1..], end) && b[0].offset < end && forall y :: y in b[1..] ==> b[0].offset < y.offset
  {}

  lemma {:induction false} AscendingKept(b: seq<Segment>, a: Ack, end: nat)
    requires Ascending(b, end)
    ensures Ascending(Kept(b, a), end)
    decreases |b|
  {
    if b == [] {
    } else {
      hide Covers, Ascending;
      AscendingRest(b, end);
      AscendingKept(b[1..], a, end);
      KeptOrRetired(b[1..], a, 0);
      var rest := Kept(b[1..], a);
      AscendingCons(b[0], rest, end);
      assert [] + rest == rest;
    }
  }

  lemma FlagKeeps(x: Segment, largest: nat, now: nat, limit: Option<nat>)
    ensures var y := Flag(x, largest, now, limit); y == x.(lost := y.lost)
  {
    hide Verdict;
  }

  /** What is left after an acknowledgement is what was there, its flags apart. */
  lemma LeftOver(b: seq<Segment>, a: Ack, largest: nat, now: nat, limit: Option<nat>, y: Segment)
    requires y in Flagged(Kept(b, a), largest, now, limit)
    ensures exists x :: x in b && y == x.(lost := y.lost)
  {
    var rest := Kept(b, a);
    KeptOrRetired(b, a, now);
    hide Kept, Covers, Flag;
    var i :| 0 <= i < |rest| && Flagged(rest, largest, now, limit)[i] == y;
    FlagKeeps(rest[i], largest, now, limit);
    assert rest[i] in b;
  }

  lemma AscendingFlagged(b: seq<Segment>, largest: nat, now: nat, limit: Option<nat>, end: nat)
    requires Ascending(b, end)
    ensures Ascending(Flagged(b, largest, now, limit), end)
  {
    hide Verdict;
  }

  lemma LedgerHeard(s: State, step: Step)
    requires Ledger(s) && Enabled(s, step) && step.Heard?
    ensures Ledger(Apply(s, step))
  {
    hide Charges, Kept, Covered, Flagged, DeclaredOf, RetiredOf, AgeLimit, Believed, AckedUpto;
    var b := s.sender.buffer;
    ChargesKept(b, step.ack);
    ChargesSplit(s.gone, Covered(b, step.ack));
    ChargesFlagged(Kept(b, step.ack), Believed(step.ack, |s.sizes|), step.now, AgeLimit(step.srtt));
  }

  lemma SettledHeard(s: State, step: Step)
    requires AllSettled(s) && InTurn(s) && GoneSettled(s) && Enabled(s, step) && step.Heard?
    ensures var t := Apply(s, step); AllSettled(t) && InTurn(t) && GoneSettled(t)
  {
    var b, t := s.sender.buffer, Apply(s, step);
    KeptOrRetired(b, step.ack, step.now);
    hide Kept, Covered, Covers, Flagged, DeclaredOf, RetiredOf, AgeLimit, Believed, AckedUpto;
    assert forall n: nat :: Launched(t, n) <==> Launched(s, n);
    forall y | y in t.sender.buffer
      ensures Settled(t, y) && exists x :: x in b && y == x.(lost := y.lost)
    {
      LeftOver(b, step.ack, Believed(step.ack, |s.sizes|), step.now, AgeLimit(step.srtt), y);
      var x :| x in b && y == x.(lost := y.lost);
      assert Settled(s, x);
    }
  }

  lemma BalancedHeard(s: State, step: Step)
    requires Balanced(s) && Enabled(s, step) && step.Heard? && |s.sizes| < U32
    ensures Balanced(Apply(s, step))
  {
    AccountedStep(s, step);
    var b, rest := s.sender.buffer, Kept(s.sender.buffer, step.ack);
    AscendingKept(b, step.ack, |s.sizes|);
    AscendingFlagged(rest, Believed(step.ack, |s.sizes|), step.now, AgeLimit(step.srtt), |s.sizes|);
    AckedHeard(s, step);
    LedgerHeard(s, step);
    SettledHeard(s, step);
    hide Kept, Covered, Flagged, DeclaredOf, RetiredOf, AgeLimit, Believed, AckedUpto;
    hide Accounted, Ascending, AllSettled, InTurn, GoneSettled, AckedGone, Ledger;
    assert forall n: nat :: Launched(Apply(s, step), n) <==> Launched(s, n);
  }

  // ----- Polls and refusals -----

  /** The states differ in nothing the ledger looks at. */
  ghost predicate SameBooks(s: State, t: State) {
    && t.sender.buffer == s.sender.buffer && t.sender.bytesSent == s.sender.bytesSent && t.gone == s.gone
    && t.sizes == s.sizes && t.permits == s.permits && t.wire == s.wire && t.sender.acked == s.sender.acked
    && s.sender.limit <= t.sender.limit <= U64_MAX
  }

  lemma BalancedFrame(s: State, t: State)
    requires Balanced(s) && SameBooks(s, t) && forall n: nat :: Trying(t, n) <==> Trying(s, n)
    ensures Balanced(t)
  {
    hide Accounted, Ascending, Charges, Offsets;
    assert forall n: nat :: Launched(t, n) <==> Launched(s, n);
    assert Accounted(t) by { AccountedSame(s, t); }
  }

  lemma AccountedSame(s: State, t: State)
    requires Accounted(s) && SameBooks(s, t)
    ensures Accounted(t)
  {}

  /** `t` is `s` with segment `i` replaced by `y`, and a new standing of that segment alone. */
  ghost predicate Replaces(s: State, t: State, i: nat, y: Segment) {
    && i < |s.sender.buffer| && y.offset == s.sender.buffer[i].offset
    && t.sender.buffer == s.sender.buffer[i := y] && t.gone == s.gone && t.sizes == s.sizes
    && t.wire == s.wire && t.sender.acked == s.sender.acked && t.sender.limit == s.sender.limit
    && forall n: nat :: n != y.offset ==> (Trying(t, n) <==> Trying(s, n))
  }

  lemma ReplacedSettled(s: State, t: State, i: nat, y: Segment)
    requires Balanced(s) && Replaces(s, t, i, y) && Settled(t, y)
    requires Launched(t, y.offset) && !Launched(s, y.offset) ==>
      forall x :: x in s.sender.buffer && x.offset < y.offset ==> x.offset in s.wire
    ensures Ascending(t.sender.buffer, |t.sizes|) && AllSettled(t) && InTurn(t) && LaunchedPushed(t)
    ensures GoneSettled(t) && AckedGone(t)
  {
    var b := s.sender.buffer;
    UpdateIn(b, i, y, |s.sizes|);
    forall x | x in s.gone ensures x.offset != y.offset {
      NotBoth(s, b[i], x);
    }
    hide Accounted, Ascending, Charges, Offsets;
    assert forall n: nat :: n != y.offset ==> (Launched(t, n) <==> Launched(s, n));
    assert y.offset < |s.sizes| by { BelowEnd(b, i, |s.sizes|); }
    TurnKept(s, t, i, y);
  }

  lemma BelowEnd(b: seq<Segment>, i: nat, end: nat)
    requires Ascending(b, end) && i < |b|
    ensures b[i].offset < end
  {}

  lemma TurnKept(s: State, t: State, i: nat, y: Segment)
    requires InTurn(s) && Replaces(s, t, i, y)
    requires forall x :: x in t.sender.buffer <==> x == y || (x in s.sender.buffer && x.offset != y.offset)
    requires Launched(t, y.offset) && !Launched(s, y.offset) ==>
      forall x :: x in s.sender.buffer && x.offset < y.offset ==> x.offset in s.wire
    ensures InTurn(t)
  {
    var b := s.sender.buffer;
    assert b[i] in b;
    forall x, z | x in t.sender.buffer && z in t.sender.buffer && x.offset < z.offset && Launched(t, z.offset)
      ensures x.offset in t.wire
    {
      var x' := if x == y then b[i] else x;
      var z' := if z == y then b[i] else z;
      assert x' in b && z' in b && x'.offset == x.offset && z'.offset == z.offset;
    }
  }

  lemma LedgerReplaced(s: State, t: State, i: nat, y: Segment)
    requires Ledger(s) && Replaces(s, t, i, y)
    requires t.sender.bytesSent + Charge(s.sender.buffer[i]) == s.sender.bytesSent + Charge(y)
    requires t.sender.bytesSent <= t.sender.limit
    ensures Ledger(t)
  {
    hide Charges, Charge;
    ChargesUpdate(s.sender.buffer, i, y);
  }

  /** A segment sent once more was on the wire already. */
  lemma BalancedResend(s: State, t: State, i: nat, y: Segment)
    requires Balanced(s) && Accounted(t) && Replaces(s, t, i, y) && s.attempt.None? && Trying(t, y.offset)
    requires var x := s.sender.buffer[i];
      x.sentAt.Some? && y == x.(lost := y.lost, sentAt := y.sentAt, retries := x.retries + 1) && y.sentAt.Some?
    requires t.sender.bytesSent == s.sender.bytesSent
    ensures Balanced(t)
  {
    var x := s.sender.buffer[i];
    assert x in s.sender.buffer && Settled(s, x);
    ReplacedSettled(s, t, i, y);
    LedgerReplaced(s, t, i, y);
    hide Accounted, Ascending, AllSettled, InTurn, LaunchedPushed, GoneSettled, AckedGone, Charges;
  }

  /** A segment sent as new pays unless it has paid, and all before it are on the wire. */
  lemma BalancedOffer(s: State, t: State, i: nat, ask: Ask)
    requires Balanced(s) && Accounted(t) && i == First(s.sender.buffer, Unsent) < |s.sender.buffer| && s.attempt.None?
    requires var x := s.sender.buffer[i]; Pays(x) ==> Fits(s.sender, x.size)
    requires t.sender == Offer(s.sender, i, ask) && Trying(t, s.sender.buffer[i].offset)
    requires t.gone == s.gone && t.sizes == s.sizes && t.wire == s.wire
    ensures Balanced(t)
  {
    var b := s.sender.buffer;
    var x, y := b[i], t.sender.buffer[i];
    assert x in b && Settled(s, x);
    assert Replaces(s, t, i, y);
    forall z | z in b && z.offset < y.offset ensures z.offset in s.wire {
      BeforeFirst(b, |s.sizes|, i, z);
      assert Settled(s, z);
    }
    ReplacedSettled(s, t, i, y);
    LedgerReplaced(s, t, i, y);
    hide Accounted, Ascending, AllSettled, InTurn, LaunchedPushed, GoneSettled, AckedGone, Charges;
  }

  lemma BeforeFirst(b: seq<Segment>, end: nat, i: nat, z: Segment)
    requires Ascending(b, end) && i == First(b, Unsent) < |b| && z in b && z.offset < b[i].offset
    ensures z.sentAt.Some?
  {
    var j :| 0 <= j < |b| && b[j] == z;
  }

  lemma BalancedPoll(s: State, step: Step)
    requires Balanced(s) && Enabled(s, step) && step.Polled?
    ensures Balanced(Apply(s, step))
  {
    hide Balanced, Accounted, Poll, Offer;
    AccountedStepOf(s, step);
    var ask, t := step.ask, Apply(s, step);
    var out := Poll(s.sender, ask).1;
    if !out.Sent? {
      PollRests(s.sender, ask);
      LimitHeld(s);
      BalancedFrame(s, t);
    } else if out.reason.New? {
      PollOffers(s.sender, ask);
      BalancedOffer(s, t, First(s.sender.buffer, Unsent), ask);
    } else {
      var i, y := PollResends(s.sender, ask);
      BalancedResend(s, t, i, y);
    }
  }

  lemma LimitHeld(s: State)
    requires Balanced(s)
    ensures s.sender.limit <= U64_MAX
  {}

  // ----- Refusals -----

  /** A refusal of an offset that is not in the buffer changes nothing. */
  lemma RefuseNone(s: Sender, offset: nat)
    requires forall x :: x in s.buffer ==> x.offset != offset
    ensures Refuse(s, offset) == s
  {}

  /** A refused write leaves its segment not out, and charged exactly if another copy is. */
  lemma RefuseOne(s: Sender, i: nat, end: nat)
    requires Ascending(s.buffer, end) && i < |s.buffer|
    ensures First(s.buffer, (x: Segment) => x.offset == s.buffer[i].offset) == i
  {}

  lemma BalancedRefuseOne(s: State, t: State, i: nat)
    requires Balanced(s) && Accounted(t) && i < |s.sender.buffer| && Trying(s, s.sender.buffer[i].offset)
    requires t.sender == Refuse(s.sender, s.sender.buffer[i].offset) && t.attempt.None?
    requires t.gone == s.gone && t.sizes == s.sizes && t.wire == s.wire
    ensures Balanced(t)
  {
    var b := s.sender.buffer;
    RefuseOne(s.sender, i, |s.sizes|);
    var x, y := b[i], t.sender.buffer[i];
    assert x in b && Settled(s, x);
    ChargesUpdate(b, i, x.(charged := false));
    hide Charges, First;
    assert Replaces(s, t, i, y);
    ReplacedSettled(s, t, i, y);
    LedgerReplaced(s, t, i, y);
    hide Accounted, Ascending, AllSettled, InTurn, LaunchedPushed, GoneSettled, AckedGone;
  }

  /** Ending an attempt whose segment is not in the buffer touches nothing buffered. */
  lemma BalancedLetGo(s: State, t: State)
    requires Balanced(s) && SameBooks(s, t) && t.attempt.None?
    requires forall x :: x in s.sender.buffer ==> !Trying(s, x.offset)
    ensures Balanced(t)
  {
    AccountedSame(s, t);
    hide Accounted, Ascending, Charges, Offsets;
    assert forall n: nat :: Launched(t, n) ==> Launched(s, n);
    assert forall x :: x in s.sender.buffer ==> (Launched(t, x.offset) <==> Launched(s, x.offset));
  }

  /** The offset a probe repeats is of a retired segment. */
  ghost predicate ProbeGone(s: State) {
    s.attempt.Some? && s.attempt.value.probe ==> s.attempt.value.offset in Offsets(s.gone)
  }

  lemma GoneNotBuffered(s: State, n: nat, x: Segment)
    requires Balanced(s) && n in Offsets(s.gone) && x in s.sender.buffer
    ensures x.offset != n
  {
    InOffsets(s.gone, n);
    var y :| y in s.gone && y.offset == n;
    NotBoth(s, x, y);
  }

  lemma BalancedRefused(s: State)
    requires Balanced(s) && s.attempt.Some? && ProbeGone(s)
    ensures Balanced(Apply(s, Refused))
  {
    hide Balanced, Accounted, Refuse, Offsets;
    AccountedStepOf(s, Refused);
    LimitHeld(s);
    var t, o := Apply(s, Refused), s.attempt.value.offset;
    if x :| x in s.sender.buffer && x.offset == o {
      if s.attempt.value.probe {
        GoneNotBuffered(s, o, x);
        assert false;
      }
      var i :| 0 <= i < |s.sender.buffer| && s.sender.buffer[i] == x;
      BalancedRefuseOne(s, t, i);
    } else {
      RefuseNone(s.sender, o);
      BalancedLetGo(s, t);
    }
  }

  lemma AccountedStepOf(s: State, step: Step)
    requires Balanced(s) && Enabled(s, step)
    ensures Accounted(Apply(s, step))
  {
    AccountedStep(s, step);
  }

  // ----- Every step of every run -----

  /** The books, what a probe under way repeats, and the room left among the offsets. */
  ghost predicate Sane(s: State) {
    Balanced(s) && ProbeGone(s) && |s.sizes| < U32
  }

  lemma ProbeStep(s: State, step: Step)
    requires Sane(s) && Enabled(s, step)
    ensures ProbeGone(Apply(s, step)) && |Apply(s, step).sizes| < U32
  {
    hide Offsets, Ledger, GoneSettled, AllSettled, InTurn, Ascending, Accounted, Refuse, LaunchedPushed;
    if step.Heard? {
      OffsetsSplit(s.gone, Covered(s.sender.buffer, step.ack));
    }
    hide Covered, RetiredOf, Kept, Flagged, DeclaredOf, AckedUpto;
  }

  lemma SaneStep(s: State, step: Step)
    requires Sane(s) && Enabled(s, step)
    ensures Sane(Apply(s, step))
  {
    ProbeStep(s, step);
    LimitHeld(s);
    hide Balanced, ProbeGone;
    match step
    case Push(_, _) => BalancedPush(s, step);
    case Queue(_) => BalancedFrame(s, Apply(s, step));
    case Polled(_) => BalancedPoll(s, step);
    case Wrote => BalancedWrote(s);
    case Refused => BalancedRefused(s);
    case Heard(_, _, _) => BalancedHeard(s, step);
    case Raised(_) => BalancedFrame(s, Apply(s, step));
  }

  lemma {:induction false} SaneRun(steps: seq<Step>)
    requires Exec(steps).Some?
    ensures Sane(Exec(steps).value)
    decreases |steps|
  {
    hide Sane, Apply, Enabled;
    if steps == [] {
      SaneStart();
    } else {
      var k := |steps| - 1;
      SaneRun(steps[..k]);
      SaneStep(Exec(steps[..k]).value, steps[k]);
    }
  }

  lemma SaneStart()
    ensures Sane(START)
  {}

  /**
   In every run, whatever the peer acknowledges and allows: the bytes on the wire, each counted
   once, are within the bytes charged, and those within the peer's limit; the charge of a
   buffered data segment stands exactly while a copy of it is out or being written; and what is
   charged is those and what was retired charged.
   */
  lemma WindowRespected(steps: seq<Step>)
    requires Exec(steps).Some?
    ensures var s := Exec(steps).value;
      && OnWire(s.sender.buffer, s.wire) + OnWire(s.gone, s.wire) <= s.sender.bytesSent <= s.sender.limit
      && s.sender.bytesSent == Charges(s.sender.buffer) + Charges(s.gone)
      && forall x :: x in s.sender.buffer && !x.fin ==> (x.charged <==> Launched(s, x.offset))
  {
    SaneRun(steps);
    var s := Exec(steps).value;
    hide Exec, Accounted, Ascending, InTurn, AckedGone, LaunchedPushed, ProbeGone, Charges, OnWire;
    WireWithin(s.sender.buffer, s.wire);
    WireWithin(s.gone, s.wire);
  }

  // ----- The peer's limit -----

  /** Limits may be repeated and come in any order: the largest counts. */
  lemma LimitsCommute(s: Sender, m: nat, n: nat)
    ensures Raise(Raise(s, m), n) == Raise(s, if m >= n then m else n)
    ensures Raise(Raise(s, m), n) == Raise(Raise(s, n), m) && Raise(Raise(s, m), m) == Raise(s, m)
  {}

  // ----- Asking for room -----

  /** A stream the window stops, with nothing out that could open it and nothing to ask with. */
  ghost predicate Stranded(s: Sender, ask: Ask) {
    Poll(s, ask).1 == Blocked(FlowControl) && First(s.buffer, Out) == |s.buffer| && s.acked == 0
  }

  /** The first segment is a data segment larger than all the peer allows. */
  ghost predicate TooLarge(s: Sender, ask: Ask) {
    && s.datagrams == [] && s.acked == 0 && s.buffer != [] && !s.buffer[0].fin
    && s.limit < s.buffer[0].size <= ask.cwnd
  }

  /** With the first segment not launched, none is, and nothing is charged. */
  lemma NoneLaunched(s: State)
    requires Balanced(s) && s.attempt.None? && s.sender.acked == 0 && s.sender.buffer != []
    requires !s.sender.buffer[0].fin && !s.sender.buffer[0].charged
    ensures s.sender.bytesSent == 0 && forall x :: x in s.sender.buffer ==> x.sentAt.None?
  {
    var b := s.sender.buffer;
    assert b[0] in b && Settled(s, b[0]);
    forall x | x in b ensures !x.charged && x.sentAt.None? {
      assert Settled(s, x);
      FirstLeast(b, |s.sizes|, x);
    }
    NoneCharged(b);
    ChargesNone();
    hide Charges;
  }

  lemma ChargesNone()
    ensures Charges([]) == 0
  {}

  lemma FirstLeast(b: seq<Segment>, end: nat, x: Segment)
    requires Ascending(b, end) && x in b
    ensures x == b[0] || b[0].offset < x.offset
  {
    var i :| 0 <= i < |b| && b[i] == x;
  }

  lemma NoneOut(b: seq<Segment>, now: nat, timeout: nat)
    requires b != [] && forall x :: x in b ==> x.sentAt.None?
    ensures First(b, Out) == First(b, Recoverable) == First(b, (x: Segment) => Expired(x, now, timeout)) == |b|
    ensures First(b, Unsent) == 0
  {
    assert forall i :: 0 <= i < |b| ==> b[i] in b;
    assert Unsent(b[0]);
  }

  /**
   A stream is left stranded, blocked by the window with nothing out, nothing acknowledged and so
   nothing to probe with, exactly when its first segment alone is larger than the peer's limit.
   */
  lemma StrandedIff(steps: seq<Step>, ask: Ask)
    requires Exec(steps).Some? && Exec(steps).value.attempt.None?
    ensures var s := Exec(steps).value; Stranded(s.sender, ask) <==> TooLarge(s.sender, ask)
  {
    SaneRun(steps);
    var s := Exec(steps).value;
    hide Exec, Balanced, ProbeGone;
    if TooLarge(s.sender, ask) {
      StrandedIf(s, ask);
    }
    if Stranded(s.sender, ask) {
      StrandedOnlyIf(s, ask);
    }
  }

  lemma StrandedIf(s: State, ask: Ask)
    requires Balanced(s) && s.attempt.None? && TooLarge(s.sender, ask)
    ensures Stranded(s.sender, ask)
  {
    var b := s.sender.buffer;
    assert Charges(b) >= Charge(b[0]);
    NoneLaunched(s);
    NoneOut(b, ask.now, ask.timeout);
    hide First, Balanced;
  }

  lemma StrandedOnlyIf(s: State, ask: Ask)
    requires Balanced(s) && s.attempt.None? && Stranded(s.sender, ask)
    ensures TooLarge(s.sender, ask)
  {
    var b := s.sender.buffer;
    assert forall i :: 0 <= i < |b| ==> !Out(b[i]);
    NoneLaunched(s);
    hide Balanced;
  }

  /** Such a run: one segment larger than the initial window. */
  lemma StrandedRun(ask: Ask)
    requires ask.cwnd > INITIAL_WINDOW
    ensures var steps := [Push(INITIAL_WINDOW + 1, false)];
      Exec(steps).Some? && Stranded(Exec(steps).value.sender, ask)
  {
    var step := Push(INITIAL_WINDOW + 1, false);
    NothingYet();
    hide Exec;
    ExecPush([], START, step);
    assert [] + [step] == [step];
    hide Stranded;
    StrandedIff([step], ask);
  }

  lemma NothingYet()
    ensures Exec([]) == Some(START)
  {}

  /** A probe repeats the highest offset acknowledged, at least a timeout after the last one. */
  lemma PollProbes(s: Sender, ask: Ask)
    ensures var (t, out) := Poll(s, ask);
      && (out.Probe? ==> MayProbe(s, ask) && t.probeAt == Some(ask.now) && out.offset == s.acked - 1)
      && (!out.Probe? ==> t.probeAt == s.probeAt)
  {}

  ghost predicate ProbesSpaced(s: State) {
    && (forall i, j :: 0 <= i < j < |s.probes| ==> s.probes[j].at >= s.probes[i].at + s.probes[j].interval)
    && (if s.probes == [] then s.sender.probeAt.None?
        else s.sender.probeAt == Some(s.probes[|s.probes| - 1].at) && s.probes[|s.probes| - 1].at <= s.clock)
    && forall i :: 0 <= i < |s.probes| ==> s.probes[i].at <= s.clock
  }

  lemma SpacedPush(ps: seq<Probed>, p: Probed)
    requires forall i, j :: 0 <= i < j < |ps| ==> ps[j].at >= ps[i].at + ps[j].interval
    requires ps != [] ==> p.at >= ps[|ps| - 1].at + p.interval
    ensures var qs := ps + [p]; forall i, j :: 0 <= i < j < |qs| ==> qs[j].at >= qs[i].at + qs[j].interval
  {
    var qs, n := ps + [p], |ps|;
    forall i, j | 0 <= i < j < |qs| ensures qs[j].at >= qs[i].at + qs[j].interval {
      if j == n && i < n - 1 {
        assert ps[n - 1].at >= ps[i].at + ps[n - 1].interval;
      }
    }
  }

  lemma ProbesPoll(s: State, step: Step)
    requires ProbesSpaced(s) && Enabled(s, step) && step.Polled?
    ensures ProbesSpaced(Apply(s, step))
  {
    PollProbes(s.sender, step.ask);
    hide Poll, First;
    var ask, out := step.ask, Poll(s.sender, step.ask).1;
    if out.Probe? {
      SpacedPush(s.probes, Probed(out.offset, ask.now, ask.timeout));
    }
  }

  lemma {:induction false} ProbesRun(steps: seq<Step>)
    requires Exec(steps).Some?
    ensures ProbesSpaced(Exec(steps).value)
    decreases |steps|
  {
    hide Poll, Acknowledge, Refuse;
    if steps == [] {
    } else {
      var k := |steps| - 1;
      ProbesRun(steps[..k]);
      var s := Exec(steps[..k]).value;
      if steps[k].Polled? {
        ProbesPoll(s, steps[k]);
      } else {
        RestKeepsProbes(s, steps[k]);
      }
    }
  }

  lemma RestKeepsProbes(s: State, step: Step)
    requires Enabled(s, step) && !step.Polled?
    ensures var t := Apply(s, step);
      t.probes == s.probes && t.sender.probeAt == s.sender.probeAt && t.clock >= s.clock
  {}

  /** In every run, of two probes the later leaves at least its timeout after the earlier. */
  lemma ProbesAreApart(steps: seq<Step>, i: nat, j: nat)
    requires Exec(steps).Some? && i < j < |Exec(steps).value.probes|
    ensures var ps := Exec(steps).value.probes; ps[j].at >= ps[i].at + ps[j].interval
  {
    ProbesRun(steps);
  }

  /** And a probe changes nothing at the receiver: it repeats an offset the receiver holds. */
  lemma ProbeChangesNothing(r: ReliableStream.Receiver, n: nat, b: ReliableStream.Bundle, limit: nat)
    requires ReliableStream.Held(r, n) && ReliableStream.Waiting(r)
    ensures ReliableStream.AcceptInOrder(r, n, b, limit) == (r, [])
  {}
}
