/**
 Declarations of loss over whole runs. The flag that declares a segment lost is cleared by the
 resend, while the acknowledgement that raised it stays true for ever. What keeps one drop from
 being declared by every acknowledgement that follows is that the first threshold looks at the
 retry count and the second at the time of the latest copy. That is proved here over every run.
 */
module LossRuns {
  import opened LossDetection
  import opened Sack
  import opened SendPath
  import opened SendRuns
  import opened Wrappers

  // ----- How far an acknowledgement reaches -----

  /**
   How far an acknowledgement can reach by distance alone. One that claims more than was ever
   assigned is believed up to the next offset to be assigned, not the last one assigned, and so
   reaches one segment further than any honest one; when the offsets are used up the addition
   saturates, and it reaches them all.
   */
  lemma InflatedReach(s: Segment, end: nat, now: nat)
    requires s.offset < end < U32 && s.retries == 0 && s.lost.None? && s.sentAt.Some?
    ensures (exists a: Ack :: Verdict(s, Believed(a, end), now, None).Some?)
       <==> SaturatingAdd(s.offset, PACKET_THRESHOLD) <= end
    ensures (exists a: Ack :: a.largest < end && Verdict(s, Believed(a, end), now, None).Some?)
       <==> s.offset + PACKET_THRESHOLD < end
  {
    var far, near := Ack(end, 0, []), Ack(end - 1, 0, []);
    assert Believed(far, end) == end && Believed(near, end) == end - 1;
    if SaturatingAdd(s.offset, PACKET_THRESHOLD) <= end {
      assert Verdict(s, Believed(far, end), now, None).Some?;
    }
    if s.offset + PACKET_THRESHOLD < end {
      assert Verdict(s, Believed(near, end), now, None).Some?;
    }
  }

  // ----- What every step keeps -----

  /** Offsets are assigned once. */
  ghost predicate Distinct(buffer: seq<Segment>, end: nat) {
    && (forall i :: 0 <= i < |buffer| ==> buffer[i].offset < end)
    && forall i, j :: 0 <= i < j < |buffer| ==> buffer[i].offset != buffer[j].offset
  }

  /** What a segment remembers of a declaration: the flag, or else a resend at least as late. */
  predicate Remembers(s: Segment, d: Declared) {
    d.offset == s.offset ==> s.lost.Some? || (s.retries > 0 && (s.sentAt.Some? ==> s.sentAt.value >= d.at))
  }

  /** The later declaration is by age alone, and its age limit and a millisecond lie between the two. */
  predicate Apart(d: Declared, e: Declared) {
    d.offset == e.offset ==>
      e.cause == TimeThreshold && e.limit.Some? && e.limit.value >= GRANULARITY && e.at >= d.at + e.limit.value
  }

  ghost predicate Spaced(ds: seq<Declared>) {
    forall i, j :: 0 <= i < j < |ds| ==> Apart(ds[i], ds[j])
  }

  ghost predicate AllRemember(buffer: seq<Segment>, ds: seq<Declared>) {
    forall i, j :: 0 <= i < |buffer| && 0 <= j < |ds| ==> Remembers(buffer[i], ds[j])
  }

  ghost predicate Past(ds: seq<Declared>, end: nat, clock: nat) {
    forall j :: 0 <= j < |ds| ==> ds[j].at <= clock && ds[j].offset < end
  }

  ghost predicate Sound(s: State) {
    && Distinct(s.sender.buffer, |s.sizes|) && Past(s.declared, |s.sizes|, s.clock)
    && AllRemember(s.sender.buffer, s.declared) && Spaced(s.declared)
  }

  lemma FollowsRemembers(s: Segment, t: Segment, now: nat, d: Declared)
    requires Follows(s, t, now) && Remembers(s, d) && d.at <= now
    ensures Remembers(t, d)
  {}

  lemma SoundFollows(s: State, t: State, now: nat)
    requires Sound(s) && AllFollow(s.sender.buffer, t.sender.buffer, now) && s.clock <= now == t.clock
    requires t.sizes == s.sizes && t.declared == s.declared
    ensures Sound(t)
  {
    hide Apart, Remembers, Follows;
    var b, c, ds := s.sender.buffer, t.sender.buffer, s.declared;
    forall i, j | 0 <= i < |c| && 0 <= j < |ds| ensures Remembers(c[i], ds[j]) {
      assert Remembers(b[i], ds[j]);
      FollowsRemembers(b[i], c[i], now, ds[j]);
    }
    DistinctFollows(b, c, now, |s.sizes|);
  }

  lemma DistinctFollows(b: seq<Segment>, c: seq<Segment>, now: nat, end: nat)
    requires Distinct(b, end) && AllFollow(b, c, now)
    ensures Distinct(c, end)
  {
    forall i | 0 <= i < |c| ensures c[i].offset == b[i].offset {}
  }

  lemma SoundPush(s: State, step: Step)
    requires Sound(s) && Enabled(s, step) && step.Push?
    ensures Sound(Apply(s, step))
  {
    hide Apart;
    var b, c, ds := s.sender.buffer, Apply(s, step).sender.buffer, s.declared;
    forall i, j | 0 <= i < |c| && 0 <= j < |ds| ensures Remembers(c[i], ds[j]) {
      if i < |b| {
        assert Remembers(b[i], ds[j]);
      }
    }
  }

  // Declarations by an acknowledgement.

  lemma DistinctCons(x: Segment, rest: seq<Segment>, end: nat)
    requires Distinct(rest, end) && x.offset < end && forall s :: s in rest ==> s.offset != x.offset
    ensures Distinct([x] + rest, end)
  {
    var all := [x] + rest;
    forall i | 0 < i < |all| ensures all[i] == rest[i - 1] && all[i] in rest {}
  }

  lemma DistinctRest(b: seq<Segment>, end: nat)
    requires Distinct(b, end) && b != []
    ensures Distinct(b[1..], end) && forall s :: s in b[1..] ==> s.offset != b[0].offset
  {}

  lemma {:induction false} DistinctKept(b: seq<Segment>, a: Ack, end: nat)
    requires Distinct(b, end)
    ensures Distinct(Kept(b, a), end)
    decreases |b|
  {
    if b == [] {
    } else {
      assert b[0].offset < end;
      hide Covers, Distinct;
      DistinctRest(b, end);
      DistinctKept(b[1..], a, end);
      KeptOrRetired(b[1..], a, 0);
      var rest := Kept(b[1..], a);
      DistinctCons(b[0], rest, end);
      assert [] + rest == rest;
    }
  }

  lemma RememberKept(b: seq<Segment>, a: Ack, ds: seq<Declared>)
    requires AllRemember(b, ds)
    ensures AllRemember(Kept(b, a), ds)
  {
    hide Remembers, Covers, Kept;
    KeptOrRetired(b, a, 0);
    var rest := Kept(b, a);
    forall i, j | 0 <= i < |rest| && 0 <= j < |ds| ensures Remembers(rest[i], ds[j]) {
      assert rest[i] in b;
    }
  }

  ghost predicate DeclaredFrom(d: Declared, s: Segment, largest: nat, now: nat, limit: Option<nat>) {
    Verdict(s, largest, now, limit).Some?
    && d == Declared(s.offset, s.size, now, Verdict(s, largest, now, limit).value, limit)
  }

  ghost predicate Justified(d: Declared, b: seq<Segment>, largest: nat, now: nat, limit: Option<nat>) {
    exists i :: 0 <= i < |b| && DeclaredFrom(d, b[i], largest, now, limit)
  }

  ghost predicate AllJustified(ds: seq<Declared>, b: seq<Segment>, largest: nat, now: nat, limit: Option<nat>) {
    && (forall j :: 0 <= j < |ds| ==> Justified(ds[j], b, largest, now, limit))
    && forall i, j :: 0 <= i < j < |ds| ==> ds[i].offset != ds[j].offset
  }

  /** A declaration of an earlier segment is not one of the next. */
  lemma JustifiedBefore(d: Declared, b: seq<Segment>, k: nat, largest: nat, now: nat, limit: Option<nat>, end: nat)
    requires Distinct(b, end) && k < |b| && Justified(d, b[..k], largest, now, limit)
    ensures Justified(d, b[..k + 1], largest, now, limit) && d.offset != b[k].offset
  {
    hide Verdict;
    var i :| 0 <= i < k && DeclaredFrom(d, b[..k][i], largest, now, limit);
    assert b[..k + 1][i] == b[..k][i] == b[i];
  }

  lemma JustifiedNext(ds: seq<Declared>, b: seq<Segment>, k: nat, largest: nat, now: nat, limit: Option<nat>, end: nat)
    requires Distinct(b, end) && k < |b| && AllJustified(ds, b[..k], largest, now, limit)
    ensures AllJustified(ds, b[..k + 1], largest, now, limit)
    ensures forall j :: 0 <= j < |ds| ==> ds[j].offset != b[k].offset
  {
    hide Justified, Distinct;
    forall j | 0 <= j < |ds| ensures Justified(ds[j], b[..k + 1], largest, now, limit) && ds[j].offset != b[k].offset {
      JustifiedBefore(ds[j], b, k, largest, now, limit, end);
    }
  }

  lemma JustifiedLast(ds: seq<Declared>, d: Declared, b: seq<Segment>, largest: nat, now: nat, limit: Option<nat>)
    requires b != [] && AllJustified(ds, b, largest, now, limit) && DeclaredFrom(d, b[|b| - 1], largest, now, limit)
    requires forall j :: 0 <= j < |ds| ==> ds[j].offset != b[|b| - 1].offset
    ensures AllJustified(ds + [d], b, largest, now, limit)
  {
    hide Verdict;
    assert Justified(d, b, largest, now, limit);
    hide Justified;
  }

  /** Each declaration is of one segment of the buffer, and no two are of the same offset. */
  lemma {:induction false} DeclaredOnce(b: seq<Segment>, largest: nat, now: nat, limit: Option<nat>, end: nat)
    requires Distinct(b, end)
    ensures AllJustified(DeclaredOf(b, largest, now, limit), b, largest, now, limit)
    decreases |b|
  {
    if b == [] {
    } else {
      hide AllJustified, Verdict;
      var k := |b| - 1;
      var ds := DeclaredOf(b[..k], largest, now, limit);
      DeclaredOnce(b[..k], largest, now, limit, end);
      JustifiedNext(ds, b, k, largest, now, limit, end);
      assert b[..k + 1] == b;
      var v := Verdict(b[k], largest, now, limit);
      if v.Some? {
        JustifiedLast(ds, Declared(b[k].offset, b[k].size, now, v.value, limit), b, largest, now, limit);
      } else {
        assert ds + [] == ds;
      }
    }
  }

  /** A segment that remembers a declaration is declared again only by age, counted from a later copy. */
  lemma DeclaredAgain(s: Segment, d: Declared, e: Declared, largest: nat, now: nat, srtt: Option<nat>)
    requires Remembers(s, d) && DeclaredFrom(e, s, largest, now, AgeLimit(srtt))
    ensures Apart(d, e)
  {}

  lemma SpacedGrows(ds: seq<Declared>, es: seq<Declared>)
    requires Spaced(ds)
    requires forall i, j :: 0 <= i < |ds| && 0 <= j < |es| ==> Apart(ds[i], es[j])
    requires forall i, j :: 0 <= i < j < |es| ==> es[i].offset != es[j].offset
    ensures Spaced(ds + es)
  {
    var all := ds + es;
    forall i, j | 0 <= i < j < |all| ensures Apart(all[i], all[j]) {
      if i < |ds| <= j {
        assert Apart(ds[i], es[j - |ds|]);
      }
    }
  }

  lemma SpacedHeard(rest: seq<Segment>, ds: seq<Declared>, largest: nat, now: nat, srtt: Option<nat>, end: nat)
    requires Distinct(rest, end) && AllRemember(rest, ds) && Spaced(ds)
    ensures Spaced(ds + DeclaredOf(rest, largest, now, AgeLimit(srtt)))
  {
    hide Apart, Remembers, AgeLimit, DeclaredFrom, DeclaredOf;
    var limit := AgeLimit(srtt);
    var es := DeclaredOf(rest, largest, now, limit);
    DeclaredOnce(rest, largest, now, limit, end);
    forall i, j | 0 <= i < |ds| && 0 <= j < |es| ensures Apart(ds[i], es[j]) {
      assert Justified(es[j], rest, largest, now, limit);
      var k :| 0 <= k < |rest| && DeclaredFrom(es[j], rest[k], largest, now, limit);
      assert Remembers(rest[k], ds[i]);
      DeclaredAgain(rest[k], ds[i], es[j], largest, now, srtt);
    }
    SpacedGrows(ds, es);
  }

  lemma FlagRemembers(s: Segment, d: Declared, largest: nat, now: nat, limit: Option<nat>)
    ensures Remembers(s, d) ==> Remembers(Flag(s, largest, now, limit), d)
    ensures DeclaredFrom(d, s, largest, now, limit) ==> Flag(s, largest, now, limit).lost.Some?
    ensures Flag(s, largest, now, limit).offset == s.offset
  {}

  lemma RememberFlagged(rest: seq<Segment>, ds: seq<Declared>, largest: nat, now: nat, limit: Option<nat>, end: nat)
    requires Distinct(rest, end) && AllRemember(rest, ds)
    ensures var c := Flagged(rest, largest, now, limit);
      AllRemember(c, ds + DeclaredOf(rest, largest, now, limit)) && Distinct(c, end)
  {
    hide DeclaredFrom, DeclaredOf, Flag, Remembers;
    var c, es := Flagged(rest, largest, now, limit), DeclaredOf(rest, largest, now, limit);
    DeclaredOnce(rest, largest, now, limit, end);
    forall i | 0 <= i < |c| ensures c[i].offset == rest[i].offset {
      FlagRemembers(rest[i], Declared(0, 0, 0, PacketThreshold, None), largest, now, limit);
    }
    forall i, j | 0 <= i < |c| && 0 <= j < |ds| ensures Remembers(c[i], ds[j]) {
      assert Remembers(rest[i], ds[j]);
      FlagRemembers(rest[i], ds[j], largest, now, limit);
    }
    forall i, j | 0 <= i < |c| && 0 <= j < |es| ensures Remembers(c[i], es[j]) {
      assert Justified(es[j], rest, largest, now, limit);
      RememberNew(rest, i, es[j], largest, now, limit, end);
    }
  }

  lemma RememberNew(rest: seq<Segment>, i: nat, e: Declared, largest: nat, now: nat, limit: Option<nat>, end: nat)
    requires Distinct(rest, end) && i < |rest| && Justified(e, rest, largest, now, limit)
    ensures Remembers(Flag(rest[i], largest, now, limit), e)
  {
    hide Verdict;
    var k :| 0 <= k < |rest| && DeclaredFrom(e, rest[k], largest, now, limit);
    if k != i {
      assert rest[k].offset != rest[i].offset;
    }
  }

  lemma PastHeard(rest: seq<Segment>, ds: seq<Declared>, largest: nat, now: nat, limit: Option<nat>, end: nat,
                  clock: nat)
    requires Distinct(rest, end) && Past(ds, end, clock) && clock <= now
    ensures Past(ds + DeclaredOf(rest, largest, now, limit), end, now)
  {
    hide Verdict, DeclaredOf;
    DeclaredOnce(rest, largest, now, limit, end);
    var es := DeclaredOf(rest, largest, now, limit);
    forall j | 0 <= j < |es| ensures es[j].at <= now && es[j].offset < end {
      assert Justified(es[j], rest, largest, now, limit);
    }
  }

  lemma SoundHeard(s: State, step: Step)
    requires Sound(s) && Enabled(s, step) && step.Heard?
    ensures Sound(Apply(s, step))
  {
    hide Distinct, AllRemember, Spaced, Past, AgeLimit, Believed, DeclaredOf, Flagged, Kept, RetiredOf, Covered;
    var b, end := s.sender.buffer, |s.sizes|;
    var rest, largest, limit := Kept(b, step.ack), Believed(step.ack, end), AgeLimit(step.srtt);
    DistinctKept(b, step.ack, end);
    RememberKept(b, step.ack, s.declared);
    SpacedHeard(rest, s.declared, largest, step.now, step.srtt, end);
    RememberFlagged(rest, s.declared, largest, step.now, limit, end);
    PastHeard(rest, s.declared, largest, step.now, limit, end, s.clock);
  }

  lemma SoundStep(s: State, step: Step)
    requires Sound(s) && Enabled(s, step)
    ensures Sound(Apply(s, step))
  {
    match step
    case Push(_, _) => SoundPush(s, step);
    case Polled(ask) =>
      hide Poll, Sound;
      PollFollows(s.sender, ask);
      SoundFollows(s, Apply(s, step), ask.now);
    case Refused =>
      hide Refuse, Sound;
      RefuseFollows(s.sender, s.attempt.value.offset, s.clock);
      SoundFollows(s, Apply(s, step), s.clock);
    case Heard(_, _, _) => SoundHeard(s, step);
    case _ =>
      hide Distinct, AllRemember, Spaced, Past;
  }

  lemma {:induction false} SoundRun(steps: seq<Step>)
    requires Exec(steps).Some?
    ensures Sound(Exec(steps).value)
    decreases |steps|
  {
    if steps == [] {
    } else {
      hide Sound, Apply, Enabled;
      var k := |steps| - 1;
      SoundRun(steps[..k]);
      SoundStep(Exec(steps[..k]).value, steps[k]);
    }
  }

  /**
   In every run: of two declarations of one segment, the later is by age alone, so distance
   declares a segment at most once however many acknowledgements repeat it; and at least the age
   limit it was judged by, never less than a millisecond, lies between the two.
   */
  lemma DeclaredSparingly(steps: seq<Step>, i: nat, j: nat)
    requires Exec(steps).Some? && i < j < |Exec(steps).value.declared|
    requires var ds := Exec(steps).value.declared; ds[i].offset == ds[j].offset
    ensures var ds := Exec(steps).value.declared;
      && ds[j].cause == TimeThreshold && ds[j].limit.Some? && ds[j].limit.value >= GRANULARITY
      && ds[j].at >= ds[i].at + ds[j].limit.value
  {
    SoundRun(steps);
    assert Apart(Exec(steps).value.declared[i], Exec(steps).value.declared[j]);
  }

  // ----- An acknowledgement that claims too much, in a run -----

  const ASK: Ask := Ask(0, 1, 1000, Marks(0, 0, false))

  /** Three segments pushed, and each of them sent. */
  const THREE_SENT: seq<Step> :=
    [Push(1, false), Push(1, false), Push(1, false), Polled(ASK), Wrote, Polled(ASK), Wrote, Polled(ASK), Wrote]

  /** Three segments in the buffer, the first `n` of them out. */
  ghost predicate Stage(s: State, n: nat) {
    && |s.sender.buffer| == |s.sizes| == 3 && s.sender.datagrams == [] && s.attempt.None? && s.clock == 0
    && s.sender.bytesSent == n && s.sender.limit == INITIAL_WINDOW && s.declared == []
    && forall i :: 0 <= i < 3 ==>
         s.sender.buffer[i] == (if i < n then Segment(i, 1, false, Some(0), Some(ASK.marks), 0, None, true)
                                else Segment(i, 1, false, None, None, 0, None, false))
  }

  lemma StageNext(s: State, n: nat)
    requires Stage(s, n) && n < 3
    ensures Enabled(s, Polled(ASK)) && Enabled(Apply(s, Polled(ASK)), Wrote)
    ensures Stage(Apply(Apply(s, Polled(ASK)), Wrote), n + 1)
  {
    assert First(s.sender.buffer, Recoverable) == 3;
    assert First(s.sender.buffer, (x: Segment) => Expired(x, 0, 1)) == 3;
    assert Unsent(s.sender.buffer[n]);
    assert First(s.sender.buffer, Unsent) == n;
  }

  lemma StageNextRun(steps: seq<Step>, s: State, n: nat) returns (t: State)
    requires Exec(steps) == Some(s) && Stage(s, n) && n < 3
    ensures Exec(steps + [Polled(ASK), Wrote]) == Some(t) && Stage(t, n + 1)
  {
    StageNext(s, n);
    hide Apply, Stage, Exec, Enabled;
    ExecPush(steps, s, Polled(ASK));
    ExecPush(steps + [Polled(ASK)], Apply(s, Polled(ASK)), Wrote);
    t := Apply(Apply(s, Polled(ASK)), Wrote);
    assert steps + [Polled(ASK)] + [Wrote] == steps + [Polled(ASK), Wrote];
  }

  lemma Pushed(steps: seq<Step>, s: State) returns (t: State)
    requires Exec(steps) == Some(s) && Enabled(s, Push(1, false))
    ensures Exec(steps + [Push(1, false)]) == Some(t) && t == Apply(s, Push(1, false))
  {
    ExecPush(steps, s, Push(1, false));
    t := Apply(s, Push(1, false));
  }

  lemma ThreeSent() returns (t: State)
    ensures Exec(THREE_SENT) == Some(t) && Stage(t, 3)
  {
    hide Exec, Poll;
    assert Exec([]) == Some(START) by { Nothing(); }
    var a := Pushed([], START);
    var b := Pushed([] + [Push(1, false)], a);
    var c := Pushed([] + [Push(1, false)] + [Push(1, false)], b);
    var pushes := [] + [Push(1, false)] + [Push(1, false)] + [Push(1, false)];
    assert Stage(c, 0);
    hide Apply, Stage;
    var d := StageNextRun(pushes, c, 0);
    var e := StageNextRun(pushes + [Polled(ASK), Wrote], d, 1);
    t := StageNextRun(pushes + [Polled(ASK), Wrote] + [Polled(ASK), Wrote], e, 2);
    assert pushes + [Polled(ASK), Wrote] + [Polled(ASK), Wrote] + [Polled(ASK), Wrote] == THREE_SENT;
  }

  lemma Nothing()
    ensures Exec([]) == Some(START)
  {}

  /**
   With three segments out, an acknowledgement that does not cover the first declares it lost by
   distance exactly when it claims offset three, which was never assigned.
   */
  lemma InflatedRun(a: Ack)
    requires !Covers(a.ranges, 0)
    ensures var end := Exec(THREE_SENT + [Heard(a, 0, None)]);
      end.Some? && ((exists d :: d in end.value.declared && d.offset == 0) <==> a.largest >= 3)
  {
    var s := ThreeSent();
    hide Exec;
    ExecPush(THREE_SENT, s, Heard(a, 0, None));
    DeclaredThree(s.sender.buffer, a);
    hide DeclaredOf, Kept, RetiredOf, Flagged, Covers;
    assert Apply(s, Heard(a, 0, None)).declared
        == [] + DeclaredOf(Kept(s.sender.buffer, a), Believed(a, 3), 0, AgeLimit(None));
  }

  lemma DeclaredThree(b: seq<Segment>, a: Ack)
    requires |b| == 3 && !Covers(a.ranges, 0)
    requires forall i :: 0 <= i < 3 ==> b[i] == Segment(i, 1, false, Some(0), Some(ASK.marks), 0, None, true)
    ensures (exists d :: d in DeclaredOf(Kept(b, a), Believed(a, 3), 0, None) && d.offset == 0) <==> a.largest >= 3
  {
    var rest, largest := Kept(b, a), Believed(a, 3);
    var ds := DeclaredOf(rest, largest, 0, None);
    KeptOrRetired(b, a, 0);
    assert rest != [] && rest[0] == b[0];
    if a.largest >= 3 {
      DeclaredFirst(rest, largest, 0, None);
    } else {
      NoneDeclared(rest, largest);
    }
  }

  lemma {:induction false} DeclaredFirst(b: seq<Segment>, largest: nat, now: nat, limit: Option<nat>)
    requires b != [] && Verdict(b[0], largest, now, limit).Some?
    ensures exists d :: d in DeclaredOf(b, largest, now, limit) && d.offset == b[0].offset
    decreases |b|
  {
    hide Verdict;
    var k := |b| - 1;
    var ds := DeclaredOf(b[..k], largest, now, limit);
    if k == 0 {
      var d := Declared(b[0].offset, b[0].size, now, Verdict(b[0], largest, now, limit).value, limit);
      assert DeclaredOf(b, largest, now, limit) == ds + [d];
      assert d in ds + [d];
    } else {
      DeclaredFirst(b[..k], largest, now, limit);
      var d :| d in ds && d.offset == b[0].offset;
      assert d in DeclaredOf(b, largest, now, limit);
    }
  }

  lemma {:induction false} NoneDeclared(rest: seq<Segment>, largest: nat)
    requires largest < 3 && forall x :: x in rest ==> x.retries == 0
    ensures DeclaredOf(rest, largest, 0, None) == []
    decreases |rest|
  {
    if rest == [] {
    } else {
      var k := |rest| - 1;
      assert rest[k] in rest && forall x :: x in rest[..k] ==> x in rest;
      NoneDeclared(rest[..k], largest);
    }
  }
}
