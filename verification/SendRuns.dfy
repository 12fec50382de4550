/**
 Whole runs of the sending half of a stream. The application pushes segments and datagrams; the
 pump polls, and what it is handed is written or refused before it polls again; acknowledgements
 and window updates arrive at any time, whatever they say. Time does not run backwards.
 */
module SendRuns {
  import opened Arithmetic
  import opened LossDetection
  import opened Sack
  import opened SendPath
  import opened Wrappers
  import ReliableStream

  const CAPACITY: nat := ReliableStream.MAX_PENDING_PACKETS

  /** A write under way: of which offset, with which marks, and whether it is a probe. */
  datatype Attempt = Attempt(offset: nat, marks: Marks, probe: bool)

  datatype Probed = Probed(offset: nat, at: nat, interval: nat)

  datatype State = State(
    sender: Sender,
    sizes: seq<nat>,           // of every segment pushed, by offset
    permits: nat,
    clock: nat,
    attempt: Option<Attempt>,
    // What has happened so far, which no step looks at.
    gone: seq<Segment>,        // segments retired
    wire: set<nat>,            // offsets of which a copy was written
    first: map<nat, Marks>,    // the marks its first written copy left with
    declared: seq<Declared>,
    probes: seq<Probed>)

  const START: State := State(IDLE, [], CAPACITY, 0, None, [], {}, map[], [], [])

  datatype Step =
    | Push(size: nat, fin: bool)
    | Queue(size: nat)                               // a datagram
    | Polled(ask: Ask)
    | Wrote
    | Refused
    | Heard(ack: Ack, now: nat, srtt: Option<nat>)
    | Raised(limit: nat)

  /**
   A push waits for a permit and fails once the offsets are used up; the last segment is empty. The
   pump polls when no write is under way.
   */
  predicate Enabled(s: State, step: Step) {
    match step
    case Push(size, fin) => s.permits > 0 && |s.sizes| < U32 - 1 && size < U32 && (fin ==> size == 0)
    case Queue(_) => true
    case Polled(ask) => s.attempt.None? && s.clock <= ask.now
    case Wrote => s.attempt.Some?
    case Refused => s.attempt.Some?
    case Heard(_, now, _) => s.clock <= now
    case Raised(limit) => limit <= U64_MAX
  }

  /** The segments an acknowledgement covers. */
  function Covered(buffer: seq<Segment>, a: Ack): seq<Segment> {
    if buffer == [] then []
    else (if Covers(a.ranges, buffer[0].offset) then [buffer[0]] else []) + Covered(buffer[1..], a)
  }

  function Fresh(s: State, size: nat, fin: bool): Segment {
    Segment(|s.sizes|, size, fin, None, None, 0, None, false)
  }

  function Attempted(out: Outcome, marks: Marks): Option<Attempt> {
    match out
    case Sent(offset, _, _) => Some(Attempt(offset, marks, false))
    case Probe(offset) => Some(Attempt(offset, marks, true))
    case _ => None
  }

  function Apply(s: State, step: Step): State
    requires Enabled(s, step)
  {
    match step
    case Push(size, fin) =>
      s.(sender := s.sender.(buffer := s.sender.buffer + [Fresh(s, size, fin)]),
         sizes := s.sizes + [size], permits := s.permits - 1)
    case Queue(size) => s.(sender := s.sender.(datagrams := s.sender.datagrams + [size]))
    case Polled(ask) =>
      var (t, out) := Poll(s.sender, ask);
      s.(sender := t, clock := ask.now, attempt := Attempted(out, ask.marks),
         probes := if out.Probe? then s.probes + [Probed(out.offset, ask.now, ask.timeout)] else s.probes)
    case Wrote =>
      var a := s.attempt.value;
      if a.probe then s.(attempt := None)
      else s.(attempt := None, wire := s.wire + {a.offset},
              first := if a.offset in s.wire then s.first else s.first[a.offset := a.marks])
    case Refused => s.(attempt := None, sender := Refuse(s.sender, s.attempt.value.offset))
    case Heard(ack, now, srtt) =>
      var end, b := |s.sizes|, s.sender.buffer;
      s.(sender := Acknowledge(s.sender, ack, end, now, srtt), clock := now,
         permits := s.permits + |RetiredOf(b, ack, now)|, gone := s.gone + Covered(b, ack),
         declared := s.declared + DeclaredOf(Kept(b, ack), Believed(ack, end), now, AgeLimit(srtt)))
    case Raised(limit) => s.(sender := Raise(s.sender, limit))
  }

  function Exec(steps: seq<Step>): Option<State> {
    if steps == [] then Some(START)
    else
      var k := |steps| - 1;
      match Exec(steps[..k])
      case None => None
      case Some(s) => if Enabled(s, steps[k]) then Some(Apply(s, steps[k])) else None
  }

  lemma ExecPush(steps: seq<Step>, s: State, step: Step)
    requires Exec(steps) == Some(s) && Enabled(s, step)
    ensures Exec(steps + [step]) == Some(Apply(s, step))
  {
    assert (steps + [step])[..|steps|] == steps;
  }

  // ----- What one acknowledgement does -----

  function Offsets(buffer: seq<Segment>): seq<nat> {
    seq(|buffer|, i requires 0 <= i < |buffer| => buffer[i].offset)
  }

  lemma OffsetsSplit(a: seq<Segment>, b: seq<Segment>)
    ensures Offsets(a + b) == Offsets(a) + Offsets(b)
  {}

  lemma OffsetsOne(x: Segment)
    ensures Offsets([x]) == [x.offset] && Offsets([]) == []
  {}

  /** On the offsets alone, retiring is what the reliable stream is proved with. */
  lemma {:induction false} KeptOffsets(buffer: seq<Segment>, a: Ack)
    ensures Offsets(Kept(buffer, a)) == ReliableStream.Retire(Offsets(buffer), a)
    decreases |buffer|
  {
    hide Covers;
    if buffer == [] {
    } else {
      var s, rest := buffer[0], buffer[1..];
      KeptOffsets(rest, a);
      assert Offsets(buffer)[1..] == Offsets(rest);
      assert Offsets([s] + Kept(rest, a)) == [s.offset] + Offsets(Kept(rest, a));
      assert [] + Kept(rest, a) == Kept(rest, a);
    }
  }

  /** Everything in the buffer is kept or retired, by exactly what is covered. */
  lemma {:induction false} KeptOrRetired(buffer: seq<Segment>, a: Ack, now: nat)
    ensures |Kept(buffer, a)| + |RetiredOf(buffer, a, now)| == |buffer|
    ensures |RetiredOf(buffer, a, now)| == |Covered(buffer, a)|
    ensures forall x :: x in Kept(buffer, a) <==> x in buffer && !Covers(a.ranges, x.offset)
    ensures forall x :: x in Covered(buffer, a) <==> x in buffer && Covers(a.ranges, x.offset)
    decreases |buffer|
  {
    hide Covers, RetiredAs;
    if buffer == [] {
    } else {
      KeptOrRetired(buffer[1..], a, now);
      assert buffer == [buffer[0]] + buffer[1..];
    }
  }

  /** What is reported retired is what is covered, in order. */
  lemma {:induction false} RetiredCovered(buffer: seq<Segment>, a: Ack, now: nat, i: nat)
    requires i < |RetiredOf(buffer, a, now)|
    ensures i < |Covered(buffer, a)| && RetiredOf(buffer, a, now)[i] == RetiredAs(Covered(buffer, a)[i], now)
    decreases |buffer|
  {
    hide Covers, RetiredAs;
    if Covers(a.ranges, buffer[0].offset) && i == 0 {
    } else {
      RetiredCovered(buffer[1..], a, now, if Covers(a.ranges, buffer[0].offset) then i - 1 else i);
    }
  }

  lemma {:induction false} KeptAndCovered(buffer: seq<Segment>, a: Ack)
    ensures multiset(Offsets(buffer)) == multiset(Offsets(Kept(buffer, a))) + multiset(Offsets(Covered(buffer, a)))
    decreases |buffer|
  {
    if buffer == [] {
    } else {
      var x, rest := buffer[0], buffer[1..];
      KeptAndCovered(rest, a);
      assert buffer == [x] + rest;
      hide Covers, Offsets;
      OffsetsSplit([x], rest);
      OffsetsSplit([x], Kept(rest, a));
      OffsetsSplit([x], Covered(rest, a));
      OffsetsOne(x);
      assert [] + Kept(rest, a) == Kept(rest, a) && [] + Covered(rest, a) == Covered(rest, a);
    }
  }

  // ----- What a poll or a refusal does to each segment -----

  /** Same offset, same flag or a later copy: nothing a declaration left behind is forgotten. */
  predicate Follows(x: Segment, y: Segment, now: nat) {
    && y.offset == x.offset && y.retries >= x.retries
    && (y.lost.Some? ==> x.lost.Some?)
    && (x.lost.Some? && y.lost.None? ==> y.retries > 0 && y.sentAt == Some(now))
    && (y.sentAt == x.sentAt || y.sentAt == None || y.sentAt == Some(now))
  }

  ghost predicate AllFollow(b: seq<Segment>, c: seq<Segment>, now: nat) {
    |b| == |c| && forall i :: 0 <= i < |b| ==> Follows(b[i], c[i], now)
  }

  lemma PollFollows(s: Sender, ask: Ask)
    ensures AllFollow(s.buffer, Poll(s, ask).0.buffer, ask.now)
  {}

  lemma RefuseFollows(s: Sender, offset: nat, now: nat)
    ensures AllFollow(s.buffer, Refuse(s, offset).buffer, now)
  {}

  lemma FlaggedOffsets(b: seq<Segment>, largest: nat, now: nat, limit: Option<nat>)
    ensures Offsets(Flagged(b, largest, now, limit)) == Offsets(b)
  {
    hide Verdict;
  }

  lemma FollowOffsets(b: seq<Segment>, c: seq<Segment>, now: nat)
    requires AllFollow(b, c, now)
    ensures Offsets(c) == Offsets(b)
  {
    forall i | 0 <= i < |b| ensures Offsets(c)[i] == Offsets(b)[i] {
      assert Follows(b[i], c[i], now);
    }
  }

  // ----- Every offset is somewhere, once -----

  ghost predicate Accounted(s: State) {
    && s.permits + |s.sender.buffer| == CAPACITY
    && multiset(Offsets(s.sender.buffer)) + multiset(Offsets(s.gone)) == Upto(|s.sizes|)
  }

  lemma AccountedHeard(s: State, step: Step)
    requires Accounted(s) && Enabled(s, step) && step.Heard?
    ensures Accounted(Apply(s, step))
  {
    hide Covers, Verdict, Kept, RetiredOf, DeclaredOf, AgeLimit, Believed, Covered, Offsets, Upto, AckedUpto;
    var b, rest := s.sender.buffer, Kept(s.sender.buffer, step.ack);
    KeptOrRetired(b, step.ack, step.now);
    KeptAndCovered(b, step.ack);
    FlaggedOffsets(rest, Believed(step.ack, |s.sizes|), step.now, AgeLimit(step.srtt));
    OffsetsSplit(s.gone, Covered(b, step.ack));
    hide Flag;
  }

  lemma AccountedFollows(s: State, t: State, now: nat)
    requires Accounted(s) && AllFollow(s.sender.buffer, t.sender.buffer, now)
    requires t.permits == s.permits && t.gone == s.gone && t.sizes == s.sizes
    ensures Accounted(t)
  {
    FollowOffsets(s.sender.buffer, t.sender.buffer, now);
  }

  lemma AccountedPush(s: State, step: Step)
    requires Accounted(s) && Enabled(s, step) && step.Push?
    ensures Accounted(Apply(s, step))
  {
    hide Offsets;
    var x := Fresh(s, step.size, step.fin);
    OffsetsSplit(s.sender.buffer, [x]);
    OffsetsOne(x);
    assert Upto(|s.sizes| + 1) == Upto(|s.sizes|) + multiset{|s.sizes|};
  }

  lemma AccountedStep(s: State, step: Step)
    requires Accounted(s) && Enabled(s, step)
    ensures Accounted(Apply(s, step))
  {
    match step
    case Push(_, _) => AccountedPush(s, step);
    case Polled(ask) =>
      hide Poll;
      PollFollows(s.sender, ask);
      AccountedFollows(s, Apply(s, step), ask.now);
    case Refused =>
      hide Refuse;
      RefuseFollows(s.sender, s.attempt.value.offset, s.clock);
      AccountedFollows(s, Apply(s, step), s.clock);
    case Heard(_, _, _) => AccountedHeard(s, step);
    case _ =>
  }

  lemma {:induction false} AccountedRun(steps: seq<Step>)
    requires Exec(steps).Some?
    ensures Accounted(Exec(steps).value)
    decreases |steps|
  {
    hide Accounted, Apply, Enabled;
    if steps == [] {
      NothingPushed();
    } else {
      var k := |steps| - 1;
      AccountedRun(steps[..k]);
      AccountedStep(Exec(steps[..k]).value, steps[k]);
    }
  }

  lemma NothingPushed()
    ensures Accounted(START)
  {}

  /**
   In every run every permit is free or held by a buffered segment, and every offset ever assigned
   is in the buffer or has been retired, exactly once.
   */
  lemma PermitsAreConserved(steps: seq<Step>)
    requires Exec(steps).Some?
    ensures var s := Exec(steps).value;
      && s.permits + |s.sender.buffer| == CAPACITY
      && forall n: nat :: multiset(Offsets(s.sender.buffer))[n] + multiset(Offsets(s.gone))[n]
                          == if n < |s.sizes| then 1 else 0
  {
    AccountedRun(steps);
    var s := Exec(steps).value;
    hide Exec, Offsets, Upto;
    forall n: nat ensures multiset(Offsets(s.sender.buffer))[n] + multiset(Offsets(s.gone))[n]
                          == if n < |s.sizes| then 1 else 0
    {
      UptoOnce(|s.sizes|, n);
      assert (multiset(Offsets(s.sender.buffer)) + multiset(Offsets(s.gone)))[n] == Upto(|s.sizes|)[n];
    }
  }
}
