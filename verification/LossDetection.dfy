/**
 What an acknowledgement does to the send buffer. It retires what it covers and declares lost, of
 the rest, what is far enough behind it or has been out too long (section 6.1 of RFC 9002). A
 declaration is a flag that the resend clears, so the flag is no record of it: the retry count and
 the restamped send time are.
 */
module LossDetection {
  import opened Sack
  import opened Wrappers

  const PACKET_THRESHOLD: nat := 3
  const GRANULARITY: nat := 1_000_000   // nanoseconds

  datatype Cause = PacketThreshold | TimeThreshold | BothThresholds

  /** The connection as it stood when a segment left: bytes delivered, since when, and whether starved of data. */
  datatype Marks = Marks(delivered: nat, since: nat, appLimited: bool)

  /**
   A buffered segment: when it last left and with which marks, how often it was resent, whether it
   is declared lost, and whether its bytes are charged to the peer's window.
   */
  datatype Segment = Segment(
    offset: nat,
    size: nat,
    fin: bool,
    sentAt: Option<nat>,
    marks: Option<Marks>,
    retries: nat,
    lost: Option<Cause>,
    charged: bool)

  function Since(now: nat, instant: nat): nat {
    if now >= instant then now - instant else 0
  }

  // ----- Retiring -----

  /** What retiring a segment reports; a round trip is sampled only if it was never resent. */
  datatype Retired = Retired(
    offset: nat,
    size: nat,
    sentAt: Option<nat>,
    wasRetransmit: bool,
    marks: Option<Marks>,
    rtt: Option<nat>)

  function RetiredAs(s: Segment, now: nat): Retired {
    Retired(s.offset, s.size, s.sentAt, s.retries > 0, s.marks,
            if s.retries == 0 && s.sentAt.Some? then Some(Since(now, s.sentAt.value)) else None)
  }

  function Kept(buffer: seq<Segment>, a: Ack): seq<Segment> {
    if buffer == [] then []
    else (if Covers(a.ranges, buffer[0].offset) then [] else [buffer[0]]) + Kept(buffer[1..], a)
  }

  function RetiredOf(buffer: seq<Segment>, a: Ack, now: nat): seq<Retired> {
    if buffer == [] then []
    else
      (if Covers(a.ranges, buffer[0].offset) then [RetiredAs(buffer[0], now)] else [])
      + RetiredOf(buffer[1..], a, now)
  }

  // ----- Declaring lost -----

  function SaturatingAdd(x: nat, y: nat): nat {
    if x + y >= U32 then U32 - 1 else x + y
  }

  /** How long is too long: nine eighths of the smoothed round trip, and at least a millisecond. */
  function AgeLimit(srtt: Option<nat>): Option<nat> {
    if srtt.None? then None
    else if srtt.value * 9 / 8 < GRANULARITY then Some(GRANULARITY) else Some(srtt.value * 9 / 8)
  }

  /** The largest offset an acknowledgement is believed about: not beyond the next to be assigned. */
  function Believed(a: Ack, end: nat): nat {
    if a.largest < end then a.largest else end
  }

  predicate PacketLost(s: Segment, largest: nat) {
    s.retries == 0 && largest >= SaturatingAdd(s.offset, PACKET_THRESHOLD)
  }

  predicate TimeLost(s: Segment, now: nat, limit: Option<nat>) {
    s.sentAt.Some? && limit.Some? && Since(now, s.sentAt.value) >= limit.value
  }

  /** Why a segment is declared lost now, if it is. */
  function Verdict(s: Segment, largest: nat, now: nat, limit: Option<nat>): Option<Cause> {
    if s.lost.Some? || s.sentAt.None? || s.offset >= largest then None
    else if PacketLost(s, largest) then Some(if TimeLost(s, now, limit) then BothThresholds else PacketThreshold)
    else if TimeLost(s, now, limit) then Some(TimeThreshold)
    else None
  }

  function Flag(s: Segment, largest: nat, now: nat, limit: Option<nat>): Segment {
    var v := Verdict(s, largest, now, limit);
    if v.Some? then s.(lost := v) else s
  }

  /** A declaration: of which segment, when, why, and by which age limit. */
  datatype Declared = Declared(offset: nat, size: nat, at: nat, cause: Cause, limit: Option<nat>)

  function Flagged(buffer: seq<Segment>, largest: nat, now: nat, limit: Option<nat>): seq<Segment> {
    seq(|buffer|, i requires 0 <= i < |buffer| => Flag(buffer[i], largest, now, limit))
  }

  function DeclaredOf(buffer: seq<Segment>, largest: nat, now: nat, limit: Option<nat>): seq<Declared> {
    if buffer == [] then []
    else
      var k := |buffer| - 1;
      var v := Verdict(buffer[k], largest, now, limit);
      DeclaredOf(buffer[..k], largest, now, limit)
      + if v.Some? then [Declared(buffer[k].offset, buffer[k].size, now, v.value, limit)] else []
  }

  // ----- One step of the loops -----

  lemma NothingRetired(none: seq<Segment>, a: Ack, now: nat)
    requires none == []
    ensures Kept(none, a) == [] && RetiredOf(none, a, now) == []
  {}

  lemma Shift<T>(front: seq<T>, x: T, back: seq<T>)
    ensures front + ([x] + back) == (front + [x]) + back
    ensures front + ([] + back) == front + back
  {}

  /** One step of the in-place removal: the part already looked at takes in the next survivor. */
  lemma RetireNext(kept: seq<Segment>, retired: seq<Retired>, rest: seq<Segment>, a: Ack, now: nat)
    requires rest != []
    ensures var s, covered := rest[0], Covers(a.ranges, rest[0].offset);
      && kept + Kept(rest, a) == (if covered then kept else kept + [s]) + Kept(rest[1..], a)
      && retired + RetiredOf(rest, a, now)
         == (if covered then retired + [RetiredAs(s, now)] else retired) + RetiredOf(rest[1..], a, now)
  {
    hide Covers, RetiredAs;
    Shift(kept, rest[0], Kept(rest[1..], a));
    Shift(retired, RetiredAs(rest[0], now), RetiredOf(rest[1..], a, now));
  }

  lemma NothingDeclared(none: seq<Segment>, largest: nat, now: nat, limit: Option<nat>)
    requires none == []
    ensures DeclaredOf(none, largest, now, limit) == []
  {}

  lemma DeclareNext(buffer: seq<Segment>, k: nat, largest: nat, now: nat, limit: Option<nat>)
    requires k < |buffer|
    ensures var before, s := DeclaredOf(buffer[..k], largest, now, limit), buffer[k];
      var v := Verdict(s, largest, now, limit);
      DeclaredOf(buffer[..k + 1], largest, now, limit)
      == if v.Some? then before + [Declared(s.offset, s.size, now, v.value, limit)] else before
  {
    assert buffer[..k + 1][..k] == buffer[..k];
  }

  /** The two thresholds, as the loop applies them to one segment. */
  method Judge(s: Segment, largest: nat, now: nat, limit: Option<nat>) returns (cause: Option<Cause>)
    ensures cause == Verdict(s, largest, now, limit)
  {
    if s.lost.Some? || s.sentAt.None? || s.offset >= largest {
      return None;
    }
    var packetLost := s.retries == 0 && largest >= SaturatingAdd(s.offset, PACKET_THRESHOLD);
    var timeLost := limit.Some? && Since(now, s.sentAt.value) >= limit.value;
    match (packetLost, timeLost) {
      case (true, true) => cause := Some(BothThresholds);
      case (true, false) => cause := Some(PacketThreshold);
      case (false, true) => cause := Some(TimeThreshold);
      case (false, false) => cause := None;
    }
  }
}
