/**
 The sending half of a stream: what goes out next, what a refused write takes back, and the two
 numbers that bound it, the bytes charged so far and the limit the peer has set on them.
 */
module SendPath {
  import opened LossDetection
  import opened Sack
  import opened Wrappers

  const U64_MAX: nat := 0xFFFF_FFFF_FFFF_FFFF
  const INITIAL_WINDOW: nat := 64 * 1024
  const MAX_SEND_WINDOW: nat := 16 * INITIAL_WINDOW

  datatype Sender = Sender(
    buffer: seq<Segment>,
    datagrams: seq<nat>,       // sizes of the unreliable payloads waiting
    bytesSent: nat,
    limit: nat,
    acked: nat,                // one more than the highest offset acknowledged, zero for none
    probeAt: Option<nat>)

  const IDLE: Sender := Sender([], [], 0, INITIAL_WINDOW, 0, None)

  /** What the pump passes in: the time, the timeout, the congestion window's room, the connection's marks. */
  datatype Ask = Ask(now: nat, timeout: nat, cwnd: nat, marks: Marks)

  datatype Reason = Lost(cause: Cause) | TimedOut | New

  datatype Why = CongestionWindow | FlowControl | Idle

  /** What `poll_send` hands out. */
  datatype Outcome =
    | Datagram(size: nat)
    | Sent(offset: nat, reason: Reason, firstRetransmit: bool)
    | Probe(offset: nat)
    | Blocked(why: Why)

  // ----- Choosing a segment -----

  /** The index of the first segment for which `p` holds, or the length. */
  function First(buffer: seq<Segment>, p: Segment -> bool): (i: nat)
    ensures i <= |buffer| && (i < |buffer| ==> p(buffer[i]))
    ensures forall j :: 0 <= j < i ==> !p(buffer[j])
  {
    if buffer == [] || p(buffer[0]) then 0 else 1 + First(buffer[1..], p)
  }

  /** Declared lost, and out. */
  predicate Recoverable(x: Segment) {
    x.lost.Some? && x.sentAt.Some?
  }

  predicate Expired(x: Segment, now: nat, timeout: nat) {
    x.sentAt.Some? && Since(now, x.sentAt.value) >= timeout
  }

  predicate Unsent(x: Segment) {
    x.sentAt.None?
  }

  predicate Out(x: Segment) {
    x.sentAt.Some?
  }

  // ----- The peer's window -----

  /** Does a segment have to pay for its bytes, or has it paid? The last segment never pays. */
  predicate Pays(x: Segment) {
    !x.fin && !x.charged
  }

  predicate Fits(s: Sender, size: nat) {
    s.bytesSent + size <= U64_MAX && s.bytesSent + size <= s.limit
  }

  /** With nothing out and something acknowledged, a stream the window stops asks for room, once per timeout. */
  predicate MayProbe(s: Sender, ask: Ask) {
    && First(s.buffer, Out) == |s.buffer| && s.acked > 0
    && (s.probeAt.None? || Since(ask.now, s.probeAt.value) >= ask.timeout)
  }

  // ----- Polling -----

  /** Send `x`, segment `i`, once more. */
  function Resend(s: Sender, i: nat, x: Segment, now: nat): Sender
    requires i < |s.buffer|
  {
    s.(buffer := s.buffer[i := x.(sentAt := Some(now), retries := x.retries + 1)])
  }

  /** Send segment `i` as new: charge it if it has not paid, and stamp it with the marks of the moment. */
  function Offer(s: Sender, i: nat, ask: Ask): Sender
    requires i < |s.buffer|
  {
    var x := s.buffer[i];
    s.(bytesSent := if Pays(x) then s.bytesSent + x.size else s.bytesSent,
       buffer := s.buffer[i := x.(charged := x.charged || Pays(x), sentAt := Some(ask.now), marks := Some(ask.marks))])
  }

  /** The third pass: the first segment that is not out, if both windows let it. */
  function PollNew(s: Sender, ask: Ask): (Sender, Outcome) {
    var u := First(s.buffer, Unsent);
    if u == |s.buffer| then (s, Blocked(Idle))
    else
      var x := s.buffer[u];
      if x.size > ask.cwnd then (s, Blocked(CongestionWindow))
      else if Pays(x) && !Fits(s, x.size) then
        if MayProbe(s, ask) then (s.(probeAt := Some(ask.now)), Probe(s.acked - 1)) else (s, Blocked(FlowControl))
      else (Offer(s, u, ask), Sent(x.offset, New, false))
  }

  /** `poll_send`: a datagram, else a declared loss, else a timeout, else the next new segment. */
  function Poll(s: Sender, ask: Ask): (Sender, Outcome) {
    var f, e := First(s.buffer, Recoverable), First(s.buffer, (x: Segment) => Expired(x, ask.now, ask.timeout));
    if s.datagrams != [] then (s.(datagrams := s.datagrams[1..]), Datagram(s.datagrams[0]))
    else if f < |s.buffer| then
      var x := s.buffer[f];
      (Resend(s, f, x.(lost := None), ask.now),
       Sent(x.offset, Lost(x.lost.value), x.retries == 0))
    else if e < |s.buffer| then
      (Resend(s, e, s.buffer[e], ask.now), Sent(s.buffer[e].offset, TimedOut, s.buffer[e].retries == 0))
    else PollNew(s, ask)
  }

  /** A segment resent on a timeout carries no flag, so the timeout pass has none to clear. */
  lemma TimeoutsCarryNoFlag(s: Sender, ask: Ask)
    requires Poll(s, ask).1.Sent? && Poll(s, ask).1.reason == TimedOut
    ensures exists i :: 0 <= i < |s.buffer| && s.buffer[i].offset == Poll(s, ask).1.offset
                     && s.buffer[i].lost.None? && Expired(s.buffer[i], ask.now, ask.timeout)
  {}

  /** A poll that sends no segment leaves the segments and the books alone. */
  lemma PollRests(s: Sender, ask: Ask)
    requires !Poll(s, ask).1.Sent?
    ensures var t := Poll(s, ask).0;
      t.buffer == s.buffer && t.bytesSent == s.bytesSent && t.limit == s.limit && t.acked == s.acked
  {}

  /** One that sends a segment as new offers the first that is not out, and it has paid or fits. */
  lemma PollOffers(s: Sender, ask: Ask)
    requires Poll(s, ask).1.Sent? && Poll(s, ask).1.reason.New?
    ensures var i := First(s.buffer, Unsent);
      && i < |s.buffer| && Poll(s, ask) == (Offer(s, i, ask), Sent(s.buffer[i].offset, New, false))
      && (Pays(s.buffer[i]) ==> Fits(s, s.buffer[i].size))
  {}

  /** Any other sends one that is out once more. */
  lemma PollResends(s: Sender, ask: Ask) returns (i: nat, y: Segment)
    requires Poll(s, ask).1.Sent? && !Poll(s, ask).1.reason.New?
    ensures i < |s.buffer| && Poll(s, ask).0 == s.(buffer := s.buffer[i := y])
    ensures var x := s.buffer[i];
      && x.sentAt.Some? && Poll(s, ask).1.offset == x.offset && y.sentAt.Some?
      && y == x.(lost := y.lost, sentAt := y.sentAt, retries := x.retries + 1)
  {
    i := if Poll(s, ask).1.reason.Lost? then First(s.buffer, Recoverable)
         else First(s.buffer, (x: Segment) => Expired(x, ask.now, ask.timeout));
    y := Poll(s, ask).0.buffer[i];
  }

  // ----- Refusals, limits and acknowledgements -----

  /** `mark_unsent`: the write was refused; if no copy was ever out, the charge comes back. */
  function Refuse(s: Sender, offset: nat): Sender {
    var i := First(s.buffer, (x: Segment) => x.offset == offset);
    if i == |s.buffer| then s
    else
      var x := s.buffer[i];
      var refund := x.charged && x.retries == 0;
      s.(buffer := s.buffer[i := x.(sentAt := None, charged := x.charged && !refund)],
         bytesSent := if !refund then s.bytesSent else if s.bytesSent >= x.size then s.bytesSent - x.size else 0)
  }

  /** `apply_peer_window_limit`: the largest limit seen, none honoured beyond one full window more. */
  function Raise(s: Sender, n: nat): Sender {
    var ceiling := if s.bytesSent + MAX_SEND_WINDOW > U64_MAX then U64_MAX else s.bytesSent + MAX_SEND_WINDOW;
    var honoured := if n <= ceiling then n else ceiling;
    s.(limit := if s.limit >= honoured then s.limit else honoured)
  }

  function AckedUpto(acked: nat, gone: seq<Retired>): nat {
    if gone == [] then acked
    else
      var before, next := AckedUpto(acked, gone[..|gone| - 1]), SaturatingAdd(gone[|gone| - 1].offset, 1);
      if before >= next then before else next
  }

  /** The sender after an acknowledgement. */
  function Acknowledge(s: Sender, a: Ack, end: nat, now: nat, srtt: Option<nat>): Sender {
    s.(buffer := Flagged(Kept(s.buffer, a), Believed(a, end), now, AgeLimit(srtt)),
       acked := AckedUpto(s.acked, RetiredOf(s.buffer, a, now)))
  }

  // ----- The methods -----

  lemma NoneAcked(acked: nat, none: seq<Retired>)
    requires none == []
    ensures AckedUpto(acked, none) == acked
  {}

  lemma NextAcked(acked: nat, gone: seq<Retired>, r: Retired)
    ensures var before, next := AckedUpto(acked, gone), SaturatingAdd(r.offset, 1);
      AckedUpto(acked, gone + [r]) == if before >= next then before else next
  {
    assert (gone + [r])[..|gone|] == gone;
  }

  class SendBuffer {
    var buffer: seq<Segment>
    var datagrams: seq<nat>
    var bytesSent: nat
    var limit: nat
    var acked: nat
    var probeAt: Option<nat>
    var permits: nat

    ghost function Current(): Sender
      reads this
    {
      Sender(buffer, datagrams, bytesSent, limit, acked, probeAt)
    }

    constructor (capacity: nat)
      ensures Current() == IDLE && permits == capacity
    {
      buffer, datagrams, bytesSent, limit, acked, probeAt := [], [], 0, INITIAL_WINDOW, 0, None;
      permits := capacity;
    }

    /** Find the first segment for which `p` holds, from the front. */
    method Seek(p: Segment -> bool) returns (i: nat)
      ensures i == First(buffer, p)
    {
      i := 0;
      while i < |buffer| && !p(buffer[i])
        invariant 0 <= i <= |buffer| && i + First(buffer[i..], p) == First(buffer, p)
      {
        assert buffer[i..][1..] == buffer[i + 1..];
        i := i + 1;
      }
    }

    /** `poll_send`, in its passes. */
    method PollSend(ask: Ask) returns (out: Outcome)
      modifies this
      ensures (Current(), out) == Poll(old(Current()), ask) && permits == old(permits)
    {
      if datagrams != [] {
        out := Datagram(datagrams[0]);
        datagrams := datagrams[1..];
        return;
      }
      var i := Seek(Recoverable);
      if i < |buffer| {
        var x := buffer[i];
        out := Sent(x.offset, Lost(x.lost.value), x.retries == 0);
        buffer := buffer[i := x.(lost := None, sentAt := Some(ask.now), retries := x.retries + 1)];
        return;
      }
      i := Seek((x: Segment) => Expired(x, ask.now, ask.timeout));
      if i < |buffer| {
        var x := buffer[i];
        out := Sent(x.offset, TimedOut, x.retries == 0);
        buffer := buffer[i := x.(sentAt := Some(ask.now), retries := x.retries + 1)];
        return;
      }
      out := OfferNext(ask);
    }

    /** The pass that hands out new segments, and the probe in its place. */
    method OfferNext(ask: Ask) returns (out: Outcome)
      modifies this
      ensures (Current(), out) == PollNew(old(Current()), ask) && permits == old(permits)
    {
      var inFlight := Seek(Out);
      var i := Seek(Unsent);
      if i == |buffer| {
        return Blocked(Idle);
      }
      var x := buffer[i];
      if x.size > ask.cwnd {
        return Blocked(CongestionWindow);
      }
      if !x.fin && !x.charged {
        if bytesSent + x.size > U64_MAX || bytesSent + x.size > limit {
          if inFlight < |buffer| || acked == 0 || (probeAt.Some? && Since(ask.now, probeAt.value) < ask.timeout) {
            return Blocked(FlowControl);
          }
          probeAt := Some(ask.now);
          return Probe(acked - 1);
        }
        bytesSent := bytesSent + x.size;
        x := x.(charged := true);
      }
      out := Sent(x.offset, New, false);
      buffer := buffer[i := x.(sentAt := Some(ask.now), marks := Some(ask.marks))];
    }

    method MarkUnsent(offset: nat)
      modifies this
      ensures Current() == Refuse(old(Current()), offset) && permits == old(permits)
    {
      var i := Seek((x: Segment) => x.offset == offset);
      if i < |buffer| {
        var x := buffer[i].(sentAt := None);
        if x.charged && x.retries == 0 {
          x := x.(charged := false);
          bytesSent := if bytesSent >= x.size then bytesSent - x.size else 0;
        }
        buffer := buffer[i := x];
      }
    }

    method ApplyPeerWindowLimit(n: nat)
      modifies this
      ensures Current() == Raise(old(Current()), n) && permits == old(permits)
    {
      var ceiling := if bytesSent + MAX_SEND_WINDOW > U64_MAX then U64_MAX else bytesSent + MAX_SEND_WINDOW;
      var honoured := if n < ceiling then n else ceiling;
      if limit < honoured {
        limit := honoured;
      }
    }

    /** Remove every covered segment in place, and report it. */
    method RetireCovered(a: Ack, now: nat) returns (retired: seq<Retired>)
      modifies this
      ensures retired == RetiredOf(old(buffer), a, now) && permits == old(permits)
      ensures Current() == old(Current()).(buffer := Kept(old(buffer), a), acked := AckedUpto(old(acked), retired))
    {
      hide Covers, RetiredAs, Kept, RetiredOf, AckedUpto;
      retired := [];
      NoneAcked(acked, retired);
      var i := 0;
      ghost var kept, lost := Kept(buffer, a), RetiredOf(buffer, a, now);
      assert buffer[0..] == buffer;
      while i < |buffer|
        invariant 0 <= i <= |buffer| && permits == old(permits)
        invariant Current() == old(Current()).(buffer := buffer, acked := AckedUpto(old(acked), retired))
        invariant buffer[..i] + Kept(buffer[i..], a) == kept && retired + RetiredOf(buffer[i..], a, now) == lost
        decreases |buffer| - i
      {
        var covered := Acks(a, buffer[i].offset);
        ghost var b := buffer;
        RetireNext(b[..i], retired, b[i..], a, now);
        assert b[i..][1..] == b[i + 1..];
        if covered {
          var gone := RetiredAs(buffer[i], now);
          NextAcked(old(acked), retired, gone);
          var next := SaturatingAdd(gone.offset, 1);
          acked := if acked >= next then acked else next;
          retired := retired + [gone];
          buffer := buffer[..i] + buffer[i + 1..];
          assert buffer[i..] == b[i + 1..] && buffer[..i] == b[..i];
        } else {
          assert b[..i + 1] == b[..i] + [b[i]];
          i := i + 1;
        }
      }
      NothingRetired(buffer[i..], a, now);
      assert buffer[..i] == buffer;
    }

    /** Flag every segment that is lost by now, and report it. */
    method DeclareLost(largest: nat, now: nat, limit: Option<nat>) returns (lost: seq<Declared>)
      modifies this
      ensures Current() == old(Current()).(buffer := Flagged(old(buffer), largest, now, limit))
      ensures lost == DeclaredOf(old(buffer), largest, now, limit) && permits == old(permits)
    {
      hide Verdict, DeclaredOf, Since, SaturatingAdd;
      lost := [];
      var i := 0;
      ghost var was := buffer;
      NothingDeclared(was[..0], largest, now, limit);
      while i < |buffer|
        invariant 0 <= i <= |buffer| == |was| && permits == old(permits)
        invariant Current() == old(Current()).(buffer := buffer)
        invariant forall j :: i <= j < |was| ==> buffer[j] == was[j]
        invariant forall j :: 0 <= j < i ==> buffer[j] == Flag(was[j], largest, now, limit)
        invariant lost == DeclaredOf(was[..i], largest, now, limit)
      {
        var s := buffer[i];
        DeclareNext(was, i, largest, now, limit);
        var cause := Judge(s, largest, now, limit);
        if cause.Some? {
          buffer := buffer[i := s.(lost := cause)];
          lost := lost + [Declared(s.offset, s.size, now, cause.value, limit)];
        }
        i := i + 1;
      }
      assert was[..i] == was;
    }

    /** `on_sack`: retire what is covered, look for losses among the rest, and return the permits. */
    method OnSack(a: Ack, end: nat, now: nat, srtt: Option<nat>)
      returns (retired: seq<Retired>, lost: seq<Declared>)
      modifies this
      ensures retired == RetiredOf(old(buffer), a, now) && permits == old(permits) + |retired|
      ensures Current() == Acknowledge(old(Current()), a, end, now, srtt)
      ensures lost == DeclaredOf(Kept(old(buffer), a), Believed(a, end), now, AgeLimit(srtt))
    {
      retired := RetireCovered(a, now);
      lost := DeclareLost(Believed(a, end), now, AgeLimit(srtt));
      permits := permits + |retired|;
    }
  }
}
