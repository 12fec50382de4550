/**
 The marks a segment leaves with: how much the connection had delivered, since when, and whether it
 was starved of data. They feed the delivery-rate sample its acknowledgement makes, and are meant
 to be those of its first transmission, whatever is resent. They are, exactly until a refused
 retransmission is offered again as if it were new.
 */
module DeliveryMarks {
  import opened FlowLedger
  import opened LossDetection
  import opened Sack
  import opened SendPath
  import opened SendRuns
  import opened Wrappers

  /** Every buffered segment with a copy on the wire carries the marks its first copy left with. */
  ghost predicate Pinned(s: State) {
    forall x :: x in s.sender.buffer && x.offset in s.wire ==>
      x.offset in s.first && x.marks == Some(s.first[x.offset])
  }

  /** This poll offers as new a segment that is on the wire, and with other marks. */
  ghost predicate Restamps(s: State, step: Step) {
    step.Polled? &&
      var out := Poll(s.sender, step.ask).1;
      && out.Sent? && out.reason.New? && out.offset in s.wire
      && !(out.offset in s.first && step.ask.marks == s.first[out.offset])
  }

  /** A segment offered as new is on the wire exactly when it has been resent. */
  lemma ReofferedIff(s: State, ask: Ask)
    requires Sane(s) && s.attempt.None?
    requires Poll(s.sender, ask).1.Sent? && Poll(s.sender, ask).1.reason.New?
    ensures exists x :: x in s.sender.buffer && x.offset == Poll(s.sender, ask).1.offset && x.sentAt.None?
                     && (x.offset in s.wire <==> x.retries > 0)
  {
    PollOffers(s.sender, ask);
    hide Poll;
    var x := s.sender.buffer[First(s.sender.buffer, Unsent)];
    assert x in s.sender.buffer && Settled(s, x);
  }

  /** What is known of marks before a first copy is written. */
  ghost predicate Stamped(s: State) {
    && s.first.Keys == s.wire
    && forall x :: x in s.sender.buffer && Trying(s, x.offset) && x.offset !in s.wire ==>
         x.marks == Some(s.attempt.value.marks)
  }

  // ----- Steps other than a poll -----

  lemma MarksPush(s: State, step: Step)
    requires Sane(s) && Stamped(s) && Pinned(s) && Enabled(s, step) && step.Push?
    ensures Stamped(Apply(s, step)) && Pinned(Apply(s, step))
  {
    assert !Launched(s, |s.sizes|);
    hide Sane;
    var t, x := Apply(s, step), Fresh(s, step.size, step.fin);
    assert forall y :: y in t.sender.buffer <==> y in s.sender.buffer || y == x;
  }

  lemma MarksWrote(s: State)
    requires Stamped(s) && Pinned(s) && s.attempt.Some?
    ensures Stamped(Apply(s, Wrote)) && Pinned(Apply(s, Wrote))
  {
    var t, a := Apply(s, Wrote), s.attempt.value;
    forall x | x in t.sender.buffer && x.offset in t.wire
      ensures x.offset in t.first && x.marks == Some(t.first[x.offset])
    {
      if x.offset !in s.wire {
        assert Trying(s, x.offset);
      }
    }
  }

  /** Every segment of the later buffer has the offset and marks of one of the earlier. */
  ghost predicate SameMarks(b: seq<Segment>, c: seq<Segment>) {
    forall y :: y in c ==> exists x :: x in b && x.offset == y.offset && x.marks == y.marks
  }

  lemma MarksKept(s: State, t: State)
    requires Stamped(s) && Pinned(s) && SameMarks(s.sender.buffer, t.sender.buffer)
    requires t.wire == s.wire && t.first == s.first && (t.attempt == s.attempt || t.attempt.None?)
    ensures Stamped(t) && Pinned(t)
  {}

  lemma RefuseMarks(s: Sender, offset: nat)
    ensures SameMarks(s.buffer, Refuse(s, offset).buffer)
  {
    var b, c := s.buffer, Refuse(s, offset).buffer;
    forall y | y in c ensures exists x :: x in b && x.offset == y.offset && x.marks == y.marks {
      var i :| 0 <= i < |c| && c[i] == y;
      assert b[i] in b && b[i].offset == y.offset && b[i].marks == y.marks;
    }
  }

  lemma HeardMarks(s: Sender, a: Ack, end: nat, now: nat, srtt: Option<nat>)
    ensures SameMarks(s.buffer, Acknowledge(s, a, end, now, srtt).buffer)
  {
    hide Kept, Flagged, AckedUpto, AgeLimit, Believed;
    var b, c := s.buffer, Acknowledge(s, a, end, now, srtt).buffer;
    forall y | y in c ensures exists x :: x in b && x.offset == y.offset && x.marks == y.marks {
      LeftOver(b, a, Believed(a, end), now, AgeLimit(srtt), y);
    }
  }

  lemma SelfMarks(b: seq<Segment>)
    ensures SameMarks(b, b)
  {}

  // ----- Polls -----

  lemma UpdateMarks(b: seq<Segment>, i: nat, y: Segment)
    requires i < |b| && b[i].offset == y.offset && b[i].marks == y.marks
    ensures SameMarks(b, b[i := y])
  {
    var c := b[i := y];
    forall z | z in c ensures exists x :: x in b && x.offset == z.offset && x.marks == z.marks {
      var j :| 0 <= j < |c| && c[j] == z;
      assert b[j] in b && b[j].offset == z.offset && b[j].marks == z.marks;
    }
  }

  lemma MarksPollRests(s: State, step: Step)
    requires Stamped(s) && Pinned(s) && Enabled(s, step) && step.Polled?
    requires !Poll(s.sender, step.ask).1.Sent?
    ensures Stamped(Apply(s, step)) && Pinned(Apply(s, step))
  {
    PollRests(s.sender, step.ask);
    hide Poll;
  }

  /** A segment sent once more keeps its marks. */
  lemma MarksPollResends(s: State, step: Step)
    requires Sane(s) && Stamped(s) && Pinned(s) && Enabled(s, step) && step.Polled?
    requires var out := Poll(s.sender, step.ask).1; out.Sent? && !out.reason.New?
    ensures Stamped(Apply(s, step)) && Pinned(Apply(s, step))
  {
    var i, y := PollResends(s.sender, step.ask);
    hide Poll;
    var b, t := s.sender.buffer, Apply(s, step);
    assert b[i] in b && Settled(s, b[i]);
    hide Sane;
    UpdateMarks(b, i, y);
    hide SameMarks;
    SameMarksPinned(s, t);
    assert forall n: nat :: Trying(t, n) ==> n in s.wire;
  }

  lemma SameMarksPinned(s: State, t: State)
    requires Pinned(s) && SameMarks(s.sender.buffer, t.sender.buffer) && t.wire == s.wire && t.first == s.first
    ensures Pinned(t)
  {}

  /** One offered as new takes the marks of the moment. */
  lemma MarksPollOffers(s: State, step: Step)
    requires Sane(s) && Stamped(s) && Pinned(s) && Enabled(s, step) && step.Polled?
    requires var out := Poll(s.sender, step.ask).1; out.Sent? && out.reason.New?
    ensures Stamped(Apply(s, step)) && (Pinned(Apply(s, step)) <==> !Restamps(s, step))
  {
    PollOffers(s.sender, step.ask);
    var b, i, t := s.sender.buffer, First(s.sender.buffer, Unsent), Apply(s, step);
    var y := t.sender.buffer[i];
    UpdateIn(b, i, y, |s.sizes|);
    hide Poll, Sane;
    assert y in t.sender.buffer && y.marks == Some(step.ask.marks);
    hide Offer;
    assert forall x :: x in t.sender.buffer && x != y ==> x in b && x.offset != y.offset;
  }

  lemma PinnedStepIff(s: State, step: Step)
    requires Sane(s) && Stamped(s) && Pinned(s) && Enabled(s, step)
    ensures Stamped(Apply(s, step)) && (Pinned(Apply(s, step)) <==> !Restamps(s, step))
  {
    var t := Apply(s, step);
    match step
    case Push(_, _) => MarksPush(s, step);
    case Wrote => MarksWrote(s);
    case Refused =>
      RefuseMarks(s.sender, s.attempt.value.offset);
      hide Refuse, Stamped, Pinned, SameMarks;
      MarksKept(s, t);
    case Heard(ack, now, srtt) =>
      HeardMarks(s.sender, ack, |s.sizes|, now, srtt);
      hide Acknowledge, Stamped, Pinned, SameMarks;
      MarksKept(s, t);
    case Polled(ask) =>
      hide Apply, Stamped, Pinned, Sane;
      if !Poll(s.sender, ask).1.Sent? {
        MarksPollRests(s, step);
      } else if Poll(s.sender, ask).1.reason.New? {
        MarksPollOffers(s, step);
      } else {
        MarksPollResends(s, step);
      }
    case _ =>
      SelfMarks(s.sender.buffer);
      hide Stamped, Pinned, SameMarks;
      MarksKept(s, t);
  }

  // ----- Whole runs -----

  /** Pinned at every point of the run. */
  ghost predicate AlwaysPinned(steps: seq<Step>)
    requires Exec(steps).Some?
  {
    Pinned(Exec(steps).value) && (steps != [] ==> AlwaysPinned(steps[..|steps| - 1]))
  }

  /** No step of the run restamps. */
  ghost predicate NeverRestamps(steps: seq<Step>)
    requires Exec(steps).Some?
  {
    steps != [] ==>
      var k := |steps| - 1;
      NeverRestamps(steps[..k]) && !Restamps(Exec(steps[..k]).value, steps[k])
  }

  lemma {:induction false} StampedRun(steps: seq<Step>)
    requires Exec(steps).Some?
    ensures AlwaysPinned(steps) <==> NeverRestamps(steps)
    ensures AlwaysPinned(steps) ==> Stamped(Exec(steps).value)
    decreases |steps|
  {
    hide Apply, Enabled, Restamps, Pinned, Stamped;
    if steps == [] {
      StampedStart();
    } else {
      var k := |steps| - 1;
      var s := Exec(steps[..k]).value;
      StampedRun(steps[..k]);
      if AlwaysPinned(steps[..k]) {
        PinnedNow(steps[..k]);
        SaneRun(steps[..k]);
        PinnedStepIff(s, steps[k]);
      }
    }
  }

  lemma PinnedNow(steps: seq<Step>)
    requires Exec(steps).Some? && AlwaysPinned(steps)
    ensures Pinned(Exec(steps).value)
  {}

  lemma StampedStart()
    ensures Stamped(START) && Pinned(START)
  {}

  /**
   The marks of every segment on the wire stay those of its first copy throughout a run exactly
   when no poll of it offers as new, with other marks, a segment that has been resent.
   */
  lemma PinnedIff(steps: seq<Step>)
    requires Exec(steps).Some?
    ensures AlwaysPinned(steps) <==> NeverRestamps(steps)
  {
    StampedRun(steps);
  }

  // ----- A run that restamps -----

  const EARLY: Marks := Marks(0, 0, false)
  const LATE: Marks := Marks(1, 1, true)

  const POLL_EARLY: Step := Polled(Ask(0, 9, 9, EARLY))
  const POLL_LATE: Step := Polled(Ask(9, 9, 9, LATE))

  const WRITTEN: seq<Step> := [Push(1, false), POLL_EARLY, Wrote]

  /** Timed out and sent again, which is refused; offered again, by when the marks have moved. */
  const REFUSED_RESEND: seq<Step> := WRITTEN + [POLL_LATE, Refused, POLL_LATE]

  lemma OneSegment(b: seq<Segment>, now: nat, timeout: nat)
    requires |b| == 1 && b[0].lost.None?
    ensures First(b, Recoverable) == 1
    ensures First(b, Unsent) == if b[0].sentAt.None? then 0 else 1
    ensures First(b, (x: Segment) => Expired(x, now, timeout)) == if Expired(b[0], now, timeout) then 0 else 1
    ensures First(b, (x: Segment) => x.offset == b[0].offset) == 0
  {
    assert b[1..] == [];
  }

  /** A stream of one segment, `x`, with a write of it under way or not. */
  function Single(x: Segment, bytes: nat, clock: nat, trying: Option<Marks>, wire: set<nat>,
                  first: map<nat, Marks>): State {
    State(Sender([x], [], bytes, INITIAL_WINDOW, 0, None), [1], CAPACITY - 1, clock,
          if trying.None? then None else Some(Attempt(0, trying.value, false)), [], wire, first, [], [])
  }

  lemma SingleOffered(x: Segment, bytes: nat, clock: nat, wire: set<nat>, first: map<nat, Marks>, ask: Ask)
    requires x.offset == 0 && x.size == 1 && !x.fin && x.lost.None? && x.sentAt.None?
    requires bytes <= 1 && clock <= ask.now && ask.cwnd == 9
    ensures var s := Single(x, bytes, clock, None, wire, first);
      var y := x.(charged := true, sentAt := Some(ask.now), marks := Some(ask.marks));
      && Enabled(s, Polled(ask))
      && Apply(s, Polled(ask))
         == Single(y, if x.charged then bytes else bytes + 1, ask.now, Some(ask.marks), wire, first)
  {
    OneSegment([x], ask.now, ask.timeout);
    hide First;
  }

  lemma SingleExpired(x: Segment, bytes: nat, clock: nat, wire: set<nat>, first: map<nat, Marks>, ask: Ask)
    requires x.offset == 0 && x.lost.None? && Expired(x, ask.now, ask.timeout) && clock <= ask.now
    ensures var s := Single(x, bytes, clock, None, wire, first);
      var y := x.(sentAt := Some(ask.now), retries := x.retries + 1);
      && Enabled(s, Polled(ask))
      && Apply(s, Polled(ask)) == Single(y, bytes, ask.now, Some(ask.marks), wire, first)
  {
    OneSegment([x], ask.now, ask.timeout);
    hide First;
  }

  lemma SingleRefused(x: Segment, bytes: nat, clock: nat, marks: Marks, wire: set<nat>, first: map<nat, Marks>)
    requires x.offset == 0 && x.lost.None? && x.retries > 0
    ensures var s := Single(x, bytes, clock, Some(marks), wire, first);
      Enabled(s, Refused) && Apply(s, Refused) == Single(x.(sentAt := None), bytes, clock, None, wire, first)
  {
    OneSegment([x], 0, 0);
    hide First;
  }

  lemma SingleWrote(x: Segment, bytes: nat, clock: nat, marks: Marks)
    ensures var s := Single(x, bytes, clock, Some(marks), {}, map[]);
      Enabled(s, Wrote) && Apply(s, Wrote) == Single(x, bytes, clock, None, {0}, map[0 := marks])
  {}

  const X0: Segment := Segment(0, 1, false, None, None, 0, None, false)
  const X1: Segment := X0.(charged := true, sentAt := Some(0), marks := Some(EARLY))
  const X2: Segment := X1.(sentAt := Some(9), retries := 1)
  const X3: Segment := X2.(sentAt := None)
  const X4: Segment := X3.(sentAt := Some(9), marks := Some(LATE))

  lemma SinglePushed()
    ensures Enabled(START, Push(1, false)) && Apply(START, Push(1, false)) == Single(X0, 0, 0, None, {}, map[])
  {}

  lemma Written()
    ensures Exec(WRITTEN) == Some(Single(X1, 1, 0, None, {0}, map[0 := EARLY]))
  {
    var push := Push(1, false);
    NothingYet();
    hide Exec, Poll, Apply, Single, Enabled;
    SinglePushed();
    SingleOffered(X0, 0, 0, {}, map[], Ask(0, 9, 9, EARLY));
    SingleWrote(X1, 1, 0, EARLY);
    ExecPush([], START, push);
    ExecPush([] + [push], Single(X0, 0, 0, None, {}, map[]), POLL_EARLY);
    ExecPush([] + [push] + [POLL_EARLY], Single(X1, 1, 0, Some(EARLY), {}, map[]), Wrote);
    assert [] + [push] + [POLL_EARLY] + [Wrote] == WRITTEN;
  }

  lemma OtherMarks()
    ensures !Pinned(Single(X4, 1, 9, Some(LATE), {0}, map[0 := EARLY]))
  {
    assert X4 in Single(X4, 1, 9, Some(LATE), {0}, map[0 := EARLY]).sender.buffer;
  }

  lemma ResendTimedOut()
    ensures Exec(WRITTEN + [POLL_LATE]) == Some(Single(X2, 1, 9, Some(LATE), {0}, map[0 := EARLY]))
  {
    hide Exec, Poll, Apply, Enabled, WRITTEN, Single;
    Written();
    SingleExpired(X1, 1, 0, {0}, map[0 := EARLY], Ask(9, 9, 9, LATE));
    ExecPush(WRITTEN, Single(X1, 1, 0, None, {0}, map[0 := EARLY]), POLL_LATE);
  }

  lemma ResendRefused()
    ensures Exec(WRITTEN + [POLL_LATE] + [Refused]) == Some(Single(X3, 1, 9, None, {0}, map[0 := EARLY]))
  {
    hide Exec, Poll, Apply, Enabled, WRITTEN, Single;
    ResendTimedOut();
    SingleRefused(X2, 1, 9, LATE, {0}, map[0 := EARLY]);
    ExecPush(WRITTEN + [POLL_LATE], Single(X2, 1, 9, Some(LATE), {0}, map[0 := EARLY]), Refused);
  }

  /** After the run the segment on the wire carries other marks than its first copy left with. */
  lemma RestampRun()
    ensures Exec(REFUSED_RESEND).Some? && !Pinned(Exec(REFUSED_RESEND).value)
  {
    var first := map[0 := EARLY];
    hide Exec, Poll, Apply, Enabled, WRITTEN, Single, Pinned;
    ResendRefused();
    SingleOffered(X3, 1, 9, {0}, first, Ask(9, 9, 9, LATE));
    ExecPush(WRITTEN + [POLL_LATE] + [Refused], Single(X3, 1, 9, None, {0}, first), POLL_LATE);
    assert WRITTEN + [POLL_LATE] + [Refused] + [POLL_LATE] == REFUSED_RESEND;
    OtherMarks();
  }
}
