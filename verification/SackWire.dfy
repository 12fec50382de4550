/**
 The wire form of a selective acknowledgement, and the proof that encoding and decoding are
 inverse: every valid acknowledgement survives the trip, and every byte string the decoder
 accepts begins with the one encoding of what it decoded.
 */
module SackWire {
  import opened Sack
  import opened Wrappers

  // ----- Big-endian integers -----

  function Be2(n: nat): (b: seq<Byte>)
    requires n < 0x1_0000
    ensures |b| == 2
  {
    [n / 256, n % 256]
  }

  function De2(b: seq<Byte>): (n: nat)
    requires |b| == 2
    ensures n < 0x1_0000
  {
    var hi: int, lo: int := b[0], b[1];
    hi * 256 + lo
  }

  function Be4(n: nat): (b: seq<Byte>)
    requires n < U32
    ensures |b| == 4
  {
    Be2(n / 0x1_0000) + Be2(n % 0x1_0000)
  }

  function De4(b: seq<Byte>): (n: nat)
    requires |b| == 4
    ensures n < U32
  {
    De2(b[..2]) * 0x1_0000 + De2(b[2..])
  }

  lemma De2Be2(n: nat)
    requires n < 0x1_0000
    ensures De2(Be2(n)) == n
  {}

  lemma Be2De2(b: seq<Byte>)
    requires |b| == 2
    ensures Be2(De2(b)) == b
  {}

  lemma De4Be4(n: nat)
    requires n < U32
    ensures De4(Be4(n)) == n
  {
    var hi, lo := Be2(n / 0x1_0000), Be2(n % 0x1_0000);
    assert (hi + lo)[..2] == hi && (hi + lo)[2..] == lo;
    hide Be2, De2;
    De2Be2(n / 0x1_0000);
    De2Be2(n % 0x1_0000);
  }

  lemma Be4De4(b: seq<Byte>)
    requires |b| == 4
    ensures Be4(De4(b)) == b
  {
    hide Be2, De2;
    var hi, lo := De2(b[..2]), De2(b[2..]);
    assert De4(b) / 0x1_0000 == hi && De4(b) % 0x1_0000 == lo;
    Be2De2(b[..2]);
    Be2De2(b[2..]);
    assert b == b[..2] + b[2..];
  }

  // ----- Encoding -----

  /** Offsets skipped between a range that starts at `prevLow` and the next one down. */
  function Gap(prevLow: nat, r: Range): nat {
    if prevLow >= 1 + r.high then prevLow - 1 - r.high else 0
  }

  function EncodeRest(prevLow: nat, rs: seq<Range>): (b: seq<Byte>)
    requires prevLow < U32 && AllProper(rs)
    ensures |b| == CONTINUATION_BYTES * |rs|
    decreases |rs|
  {
    if rs == [] then []
    else Be4(Gap(prevLow, rs[0])) + Be4(rs[0].high - rs[0].low) + EncodeRest(rs[0].low, rs[1..])
  }

  function Header(a: Ack): (b: seq<Byte>)
    requires ValidAck(a)
    ensures |b| == MIN_WIRE_LEN
  {
    Be4(a.largest) + Be4(a.delay) + Be2(|a.ranges|) + Be4(a.ranges[0].high - a.ranges[0].low)
  }

  function Encode(a: Ack): (b: seq<Byte>)
    requires ValidAck(a)
    ensures |b| == MIN_WIRE_LEN + CONTINUATION_BYTES * (|a.ranges| - 1)
  {
    Header(a) + EncodeRest(a.ranges[0].low, a.ranges[1..])
  }

  // ----- Decoding -----

  /** One `(gap, len)` pair below `prevLow`, or why it is no range. */
  function DecodePair(prevLow: nat, gap: nat, len: nat): Result<Range> {
    if gap == 0 || prevLow < 1 + gap then Err(Malformed)
    else
      var high := prevLow - 1 - gap;
      if high < len then Err(Malformed) else Ok(Range(high - len, high))
  }

  function DecodeRest(prevLow: nat, b: seq<Byte>, count: nat): Result<seq<Range>>
    requires |b| >= CONTINUATION_BYTES * count
  {
    if count == 0 then Ok([])
    else
      match DecodePair(prevLow, De4(b[0..4]), De4(b[4..8]))
      case Err(e) => Err(e)
      case Ok(r) =>
        match DecodeRest(r.low, b[8..], count - 1)
        case Err(e) => Err(e)
        case Ok(rs) => Ok([r] + rs)
  }

  function Decode(b: seq<Byte>): Result<Ack> {
    if |b| < MIN_WIRE_LEN then Err(Truncated)
    else
      var largest, delay, count, len := De4(b[0..4]), De4(b[4..8]), De2(b[8..10]), De4(b[10..14]);
      if count == 0 then Err(Malformed)
      else if count > MAX_SACK_RANGES then Err(TooManyRanges)
      else if |b| < MIN_WIRE_LEN + CONTINUATION_BYTES * (count - 1) then Err(Truncated)
      else if largest < len then Err(Malformed)
      else
        match DecodeRest(largest - len, b[14..], count - 1)
        case Err(e) => Err(e)
        case Ok(rs) => Ok(Ack(largest, delay, [Range(largest - len, largest)] + rs))
  }

  // ----- There and back -----

  /** Below `low` and apart from it, the rest descends. */
  ghost predicate Continues(low: nat, rs: seq<Range>) {
    Descending(rs) && forall i :: 0 <= i < |rs| ==> rs[i].high + 1 < low
  }

  lemma ContinuesTail(low: nat, rs: seq<Range>)
    requires Continues(low, rs) && rs != []
    ensures Continues(rs[0].low, rs[1..]) && rs[0].high + 1 < low && Proper(rs[0])
  {
    var t := rs[1..];
    assert forall i :: 0 <= i < |t| ==> t[i] == rs[i + 1];
  }

  lemma ContinuesCons(low: nat, r: Range, rs: seq<Range>)
    requires Proper(r) && r.high + 1 < low && Continues(r.low, rs)
    ensures Continues(low, [r] + rs)
  {
    var all := [r] + rs;
    assert forall i :: 1 <= i < |all| ==> all[i] == rs[i - 1];
  }

  lemma PairRoundTrip(low: nat, r: Range)
    requires Proper(r) && r.high + 1 < low
    ensures DecodePair(low, Gap(low, r), r.high - r.low) == Ok(r)
  {}

  lemma PairUnique(low: nat, gap: nat, len: nat)
    requires low < U32 && DecodePair(low, gap, len).Ok?
    ensures var r := DecodePair(low, gap, len).value;
      Proper(r) && r.high + 1 < low && Gap(low, r) == gap && r.high - r.low == len
  {}

  lemma SplitPair(g: seq<Byte>, l: seq<Byte>, rest: seq<Byte>, tail: seq<Byte>)
    requires |g| == 4 && |l| == 4
    ensures var b := g + l + rest + tail; b[0..4] == g && b[4..8] == l && b[8..] == rest + tail
  {}

  lemma {:induction false} RestRoundTrip(low: nat, rs: seq<Range>, tail: seq<Byte>)
    requires low < U32 && Continues(low, rs)
    ensures DecodeRest(low, EncodeRest(low, rs) + tail, |rs|) == Ok(rs)
    decreases |rs|
  {
    if rs == [] {
    } else {
      var r := rs[0];
      ContinuesTail(low, rs);
      hide Be4, De4, Gap, DecodePair, Continues;
      var g, l, rest := Be4(Gap(low, r)), Be4(r.high - r.low), EncodeRest(r.low, rs[1..]);
      assert EncodeRest(low, rs) == g + l + rest;
      SplitPair(g, l, rest, tail);
      De4Be4(Gap(low, r));
      De4Be4(r.high - r.low);
      PairRoundTrip(low, r);
      RestRoundTrip(r.low, rs[1..], tail);
      assert rs == [r] + rs[1..];
    }
  }

  lemma JoinPair(b: seq<Byte>, count: nat)
    requires count > 0 && |b| >= CONTINUATION_BYTES * count
    ensures b[0..4] + b[4..8] + b[8..][..CONTINUATION_BYTES * (count - 1)] == b[..CONTINUATION_BYTES * count]
  {}

  lemma EncodeCons(low: nat, r: Range, rs: seq<Range>)
    requires low < U32 && Proper(r) && AllProper(rs)
    ensures AllProper([r] + rs)
    ensures EncodeRest(low, [r] + rs) == Be4(Gap(low, r)) + Be4(r.high - r.low) + EncodeRest(r.low, rs)
  {
    hide Be4, Gap;
    assert ([r] + rs)[1..] == rs;
  }

  lemma {:induction false} RestUnique(low: nat, b: seq<Byte>, count: nat)
    requires low < U32 && |b| >= CONTINUATION_BYTES * count && DecodeRest(low, b, count).Ok?
    ensures var rs := DecodeRest(low, b, count).value;
      |rs| == count && Continues(low, rs) && EncodeRest(low, rs) == b[..CONTINUATION_BYTES * count]
    decreases count
  {
    if count != 0 {
      var gap, len := De4(b[0..4]), De4(b[4..8]);
      var r := DecodePair(low, gap, len).value;
      var rs := DecodeRest(r.low, b[8..], count - 1).value;
      assert DecodeRest(low, b, count) == Ok([r] + rs);
      hide Be4, De4, DecodePair, Continues, EncodeRest, DecodeRest, Gap;
      PairUnique(low, gap, len);
      RestUnique(r.low, b[8..], count - 1);
      ContinuesCons(low, r, rs);
      ContinuesProper(r.low, rs);
      EncodeCons(low, r, rs);
      Be4De4(b[0..4]);
      Be4De4(b[4..8]);
      JoinPair(b, count);
    } else {
      assert Continues(low, []);
    }
  }

  lemma ContinuesProper(low: nat, rs: seq<Range>)
    requires Continues(low, rs)
    ensures AllProper(rs)
  {}

  lemma SplitHeader(l: seq<Byte>, d: seq<Byte>, c: seq<Byte>, f: seq<Byte>, tail: seq<Byte>)
    requires |l| == 4 && |d| == 4 && |c| == 2 && |f| == 4
    ensures var b := l + d + c + f + tail;
      b[0..4] == l && b[4..8] == d && b[8..10] == c && b[10..14] == f && b[14..] == tail
  {}

  lemma HeaderFields(a: Ack, tail: seq<Byte>)
    requires ValidAck(a)
    ensures var b := Header(a) + tail;
      && De4(b[0..4]) == a.largest && De4(b[4..8]) == a.delay && De2(b[8..10]) == |a.ranges|
      && De4(b[10..14]) == a.ranges[0].high - a.ranges[0].low && b[14..] == tail
  {
    hide Be4, De4, Be2, De2;
    SplitHeader(Be4(a.largest), Be4(a.delay), Be2(|a.ranges|), Be4(a.ranges[0].high - a.ranges[0].low), tail);
    De4Be4(a.largest);
    De4Be4(a.delay);
    De4Be4(a.ranges[0].high - a.ranges[0].low);
    De2Be2(|a.ranges|);
  }

  lemma ValidContinues(a: Ack)
    requires ValidAck(a)
    ensures Continues(a.ranges[0].low, a.ranges[1..]) && Proper(a.ranges[0])
  {
    assert forall i :: 0 <= i < |a.ranges| - 1 ==> a.ranges[1..][i] == a.ranges[i + 1];
  }

  /** A valid acknowledgement decodes to itself, whatever bytes follow it. */
  lemma DecodeEncode(a: Ack, tail: seq<Byte>)
    requires ValidAck(a)
    ensures Decode(Encode(a) + tail) == Ok(a)
  {
    ValidContinues(a);
    var rest := EncodeRest(a.ranges[0].low, a.ranges[1..]);
    HeaderFields(a, rest + tail);
    RestRoundTrip(a.ranges[0].low, a.ranges[1..], tail);
    assert Encode(a) + tail == Header(a) + (rest + tail);
    assert a.ranges == [Range(a.ranges[0].low, a.largest)] + a.ranges[1..];
    hide Header, EncodeRest, DecodeRest, De4, De2;
  }

  lemma HeaderUnique(a: Ack, b: seq<Byte>)
    requires ValidAck(a) && |b| >= MIN_WIRE_LEN
    requires De4(b[0..4]) == a.largest && De4(b[4..8]) == a.delay && De2(b[8..10]) == |a.ranges|
    requires De4(b[10..14]) == a.ranges[0].high - a.ranges[0].low
    ensures Header(a) == b[..14]
  {
    hide Be4, De4, Be2, De2;
    Be4De4(b[0..4]);
    Be4De4(b[4..8]);
    Be2De2(b[8..10]);
    Be4De4(b[10..14]);
    assert b[..14] == b[0..4] + b[4..8] + b[8..10] + b[10..14];
  }

  /** What an accepted header says. */
  lemma DecodedHeader(b: seq<Byte>)
    requires Decode(b).Ok?
    ensures |b| >= MIN_WIRE_LEN
    ensures var largest, count, len := De4(b[0..4]), De2(b[8..10]), De4(b[10..14]);
      && 0 < count <= MAX_SACK_RANGES && |b| >= MIN_WIRE_LEN + CONTINUATION_BYTES * (count - 1)
      && len <= largest && DecodeRest(largest - len, b[14..], count - 1).Ok?
      && Decode(b).value == Ack(largest, De4(b[4..8]),
           [Range(largest - len, largest)] + DecodeRest(largest - len, b[14..], count - 1).value)
  {
    hide DecodeRest, De4, De2;
  }

  /** The value of an accepted header over accepted continuations is valid. */
  lemma DecodedValid(largest: nat, delay: nat, len: nat, rs: seq<Range>)
    requires len <= largest < U32 && delay < U32 && |rs| < MAX_SACK_RANGES && Continues(largest - len, rs)
    ensures var a := Ack(largest, delay, [Range(largest - len, largest)] + rs);
      && ValidAck(a) && |a.ranges| == |rs| + 1
      && a.ranges[0] == Range(largest - len, largest) && a.ranges[1..] == rs && AllProper(rs)
  {
    ContinuesProper(largest - len, rs);
    ContinuesCons(largest + 2, Range(largest - len, largest), rs);
  }

  /** What the decoder accepts is valid, and the bytes it read are that value's one encoding. */
  lemma EncodeDecode(b: seq<Byte>)
    requires Decode(b).Ok?
    ensures var a := Decode(b).value;
      ValidAck(a) && |Encode(a)| <= |b| && Encode(a) == b[..|Encode(a)|]
  {
    DecodedHeader(b);
    hide Decode, Encode, Header, EncodeRest, DecodeRest, De4, De2, ValidAck, Continues, AllProper;
    var largest, delay, count, len := De4(b[0..4]), De4(b[4..8]), De2(b[8..10]), De4(b[10..14]);
    RestUnique(largest - len, b[14..], count - 1);
    Reencoded(b, largest, delay, count, len, DecodeRest(largest - len, b[14..], count - 1).value);
  }

  lemma Reencoded(b: seq<Byte>, largest: nat, delay: nat, count: nat, len: nat, rs: seq<Range>)
    requires |b| >= MIN_WIRE_LEN + CONTINUATION_BYTES * (count - 1) && 0 < count <= MAX_SACK_RANGES
    requires De4(b[0..4]) == largest && De4(b[4..8]) == delay
    requires De2(b[8..10]) == count && De4(b[10..14]) == len <= largest
    requires Continues(largest - len, rs) && |rs| == count - 1 && AllProper(rs)
    requires EncodeRest(largest - len, rs) == b[14..][..CONTINUATION_BYTES * (count - 1)]
    ensures var a := Ack(largest, delay, [Range(largest - len, largest)] + rs);
      ValidAck(a) && |Encode(a)| <= |b| && Encode(a) == b[..|Encode(a)|]
  {
    hide Header, Encode, EncodeRest, De4, De2, ValidAck, Continues, AllProper;
    var a := Ack(largest, delay, [Range(largest - len, largest)] + rs);
    DecodedValid(largest, delay, len, rs);
    HeaderUnique(a, b);
    EncodeIs(a, b);
  }

  lemma EncodeIs(a: Ack, b: seq<Byte>)
    requires ValidAck(a) && |b| >= MIN_WIRE_LEN + CONTINUATION_BYTES * (|a.ranges| - 1)
    requires Header(a) == b[..14]
    requires AllProper(a.ranges[1..])
    requires EncodeRest(a.ranges[0].low, a.ranges[1..]) == b[14..][..CONTINUATION_BYTES * (|a.ranges| - 1)]
    ensures Encode(a) == b[..|Encode(a)|]
  {
    hide Header, EncodeRest;
  }

  /** The decoder accepts exactly the byte strings that begin with a valid encoding. */
  lemma AcceptedIff(b: seq<Byte>)
    ensures Decode(b).Ok? <==> exists a: Ack :: ValidAck(a) && Encode(a) <= b
  {
    if Decode(b).Ok? {
      EncodeDecode(b);
    }
    forall a: Ack | ValidAck(a) && Encode(a) <= b ensures Decode(b).Ok? {
      DecodeEncode(a, b[|Encode(a)|..]);
      assert Encode(a) + b[|Encode(a)|..] == b;
    }
  }

  // ----- The loops -----

  /** What the decode loop has so far, in front of what is still to come. */
  function Prepend(done: seq<Range>, rest: Result<seq<Range>>): Result<seq<Range>> {
    match rest
    case Err(e) => Err(e)
    case Ok(rs) => Ok(done + rs)
  }

  lemma PrependOne(done: seq<Range>, r: Range, rest: Result<seq<Range>>)
    ensures Prepend(done + [r], rest) == Prepend(done, Prepend([r], rest))
  {
    if rest.Ok? {
      assert done + [r] + rest.value == done + ([r] + rest.value);
    }
  }

  /** One turn of the encoding loop. */
  lemma EncodeNext(done: seq<Byte>, prevLow: nat, rs: seq<Range>)
    requires prevLow < U32 && AllProper(rs) && rs != []
    ensures done + EncodeRest(prevLow, rs)
         == done + Be4(Gap(prevLow, rs[0])) + Be4(rs[0].high - rs[0].low) + EncodeRest(rs[0].low, rs[1..])
  {
    hide Be4, Gap;
  }

  method ToWire(a: Ack) returns (buf: seq<Byte>)
    requires ValidAck(a)
    ensures buf == Encode(a)
  {
    ValidContinues(a);
    buf := Header(a);
    var prevLow := a.ranges[0].low;
    var i := 1;
    while i < |a.ranges|
      invariant 1 <= i <= |a.ranges| && prevLow == a.ranges[i - 1].low
      invariant buf + EncodeRest(prevLow, a.ranges[i..]) == Encode(a)
    {
      hide EncodeRest, Encode, Be4, Gap, Header;
      var r := a.ranges[i];
      assert a.ranges[i..][0] == r && a.ranges[i..][1..] == a.ranges[i + 1..];
      EncodeNext(buf, prevLow, a.ranges[i..]);
      buf := buf + Be4(Gap(prevLow, r));
      buf := buf + Be4(r.high - r.low);
      prevLow := r.low;
      i := i + 1;
    }
  }

  /** One turn of the decoding loop. */
  lemma DecodeNext(done: seq<Range>, prevLow: nat, b: seq<Byte>, left: nat)
    requires left > 0 && |b| >= CONTINUATION_BYTES * left
    ensures var next := DecodePair(prevLow, De4(b[0..4]), De4(b[4..8]));
      Prepend(done, DecodeRest(prevLow, b, left))
        == if next.Err? then Err(next.error)
           else Prepend(done + [next.value], DecodeRest(next.value.low, b[8..], left - 1))
  {
    hide De4, DecodePair;
    var next := DecodePair(prevLow, De4(b[0..4]), De4(b[4..8]));
    if next.Ok? {
      PrependOne(done, next.value, DecodeRest(next.value.low, b[8..], left - 1));
    }
  }

  lemma SlicePair(b: seq<Byte>, pos: nat)
    requires pos + 8 <= |b|
    ensures b[pos..][0..4] == b[pos..pos + 4] && b[pos..][4..8] == b[pos + 4..pos + 8] && b[pos..][8..] == b[pos + 8..]
  {}

  /** The continuation loop of the decoder, from position 14 on. */
  method ReadContinuations(buf: seq<Byte>, first: Range, count: nat) returns (out: Result<seq<Range>>)
    requires |buf| >= FIXED_HDR_LEN + 4 + CONTINUATION_BYTES * count
    ensures out == Prepend([first], DecodeRest(first.low, buf[14..], count))
  {
    hide DecodeRest, De4;
    var ranges := [first];
    var prevLow := first.low;
    var pos, left := 14, count;
    while left > 0
      invariant 0 <= left && 14 <= pos && pos + CONTINUATION_BYTES * left <= |buf|
      invariant Prepend(ranges, DecodeRest(prevLow, buf[pos..], left))
             == Prepend([first], DecodeRest(first.low, buf[14..], count))
    {
      SlicePair(buf, pos);
      DecodeNext(ranges, prevLow, buf[pos..], left);
      var gap, len := De4(buf[pos..pos + 4]), De4(buf[pos + 4..pos + 8]);
      pos := pos + 8;
      if gap == 0 || prevLow < 1 || prevLow - 1 < gap || prevLow - 1 - gap < len {
        return Err(Malformed);
      }
      prevLow := prevLow - 1 - gap - len;
      ranges := ranges + [Range(prevLow, prevLow + len)];
      left := left - 1;
    }
    DecodeDone(prevLow, buf[pos..], ranges);
    out := Ok(ranges);
  }

  lemma DecodeDone(prevLow: nat, b: seq<Byte>, done: seq<Range>)
    ensures Prepend(done, DecodeRest(prevLow, b, 0)) == Ok(done)
  {
    assert done + [] == done;
  }

  method FromWire(buf: seq<Byte>) returns (out: Result<Ack>)
    ensures out == Decode(buf)
  {
    hide DecodeRest, De4, De2;
    if |buf| < MIN_WIRE_LEN {
      return Err(Truncated);
    }
    var largest, delay, count := De4(buf[0..4]), De4(buf[4..8]), De2(buf[8..10]);
    if count == 0 {
      return Err(Malformed);
    }
    if count > MAX_SACK_RANGES {
      return Err(TooManyRanges);
    }
    if |buf| < FIXED_HDR_LEN + 4 + CONTINUATION_BYTES * (count - 1) {
      return Err(Truncated);
    }
    var firstLen := De4(buf[10..14]);
    if largest < firstLen {
      return Err(Malformed);
    }
    var ranges := ReadContinuations(buf, Range(largest - firstLen, largest), count - 1);
    out := if ranges.Ok? then Ok(Ack(largest, delay, ranges.value)) else Err(ranges.error);
  }
}
