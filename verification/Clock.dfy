/**
 Clock-offset estimation by the four-timestamp exchange (sections 8 and 10 of RFC 5905): the
 offset of the exchange with the shortest round trip, the spread of all offsets, and how far off
 the estimate can be.
 */
module Clock {
  import opened Arithmetic
  import opened Wrappers

  const TWO63: int := 0x8000_0000_0000_0000
  const TWO64: int := 0x1_0000_0000_0000_0000

  /** Client send, server receive, server send, client receive; each on its own clock. */
  datatype Sample = Sample(t1: nat, t2: nat, t3: nat, t4: nat)

  /** Two's-complement wrap-around of a 64-bit signed result. */
  function I64(x: int): int {
    (x + TWO63) % TWO64 - TWO63
  }

  /** Signed division truncates toward zero. */
  function HalfTowardZero(x: int): int {
    if x >= 0 then x / 2 else -((-x) / 2)
  }

  function Delay(s: Sample): int {
    I64(I64(I64(s.t4) - I64(s.t1)) - I64(I64(s.t3) - I64(s.t2)))
  }

  function Offset(s: Sample): int {
    HalfTowardZero(I64(I64(I64(s.t2) - I64(s.t1)) + I64(I64(s.t3) - I64(s.t4))))
  }

  // ----- The wrap-around cancels -----

  /** Is `x` a 64-bit signed value? */
  predicate Fits(x: int) {
    -TWO63 <= x < TWO63
  }

  lemma FitsIff(x: int)
    ensures Fits(I64(x)) && (I64(x) == x <==> Fits(x))
  {
    DivMod(x + TWO63, TWO64);
    if Fits(x) {
      DivisionUnique(x + TWO63, TWO64, 0, x + TWO63);
    }
  }

  /** Wrapping is taking away a multiple of the word. */
  lemma WrapShift(x: int, k: int)
    ensures I64(x + TWO64 * k) == I64(x)
  {
    DivMod(x + TWO63, TWO64);
    var q, r := (x + TWO63) / TWO64, (x + TWO63) % TWO64;
    Distribute(TWO64, q, k);
    DivisionUnique(x + TWO64 * k + TWO63, TWO64, q + k, r);
  }

  /** So a sum or difference of wrapped values wraps like the sum or difference itself. */
  lemma WrapSum(x: int, y: int)
    ensures I64(I64(x) + I64(y)) == I64(x + y) && I64(I64(x) - I64(y)) == I64(x - y)
  {
    DivMod(x + TWO63, TWO64);
    DivMod(y + TWO63, TWO64);
    var p, q := (x + TWO63) / TWO64, (y + TWO63) / TWO64;
    Distribute(TWO64, -p, q);
    WrapShift(x + y, -p - q);
    WrapShift(x - y, q - p);
    assert I64(x) == x - TWO64 * p && I64(y) == y - TWO64 * q;
    hide I64;
    Distribute(TWO64, -p, -q);
    assert TWO64 * (-p) == -(TWO64 * p) && TWO64 * (-q) == -(TWO64 * q);
  }

  function TrueDelay(s: Sample): int {
    (s.t4 - s.t1) - (s.t3 - s.t2)
  }

  function TrueSum(s: Sample): int {
    (s.t2 - s.t1) + (s.t3 - s.t4)
  }

  /**
   Whatever the six conversions and subtractions wrap on the way, only the end result counts: the
   delay is right exactly when the true delay is a 64-bit value, and so is the doubled offset.
   */
  lemma WrapsOnlyAtTheEnd(s: Sample)
    ensures Delay(s) == I64(TrueDelay(s)) && (Delay(s) == TrueDelay(s) <==> Fits(TrueDelay(s)))
    ensures Offset(s) == HalfTowardZero(I64(TrueSum(s)))
    ensures Offset(s) == HalfTowardZero(TrueSum(s)) <==> Fits(TrueSum(s))
  {
    WrapSum(s.t4, s.t1);
    WrapSum(s.t3, s.t2);
    WrapSum(s.t2, s.t1);
    WrapSum(s.t3, s.t4);
    WrapSum(s.t4 - s.t1, s.t3 - s.t2);
    WrapSum(s.t2 - s.t1, s.t3 - s.t4);
    FitsIff(TrueDelay(s));
    FitsIff(TrueSum(s));
    HalfWrapped(TrueSum(s));
    hide I64, HalfTowardZero;
  }

  /** A wrapped value is a whole word off, so its half is off too. */
  lemma HalfWrapped(x: int)
    ensures HalfTowardZero(I64(x)) == HalfTowardZero(x) <==> Fits(x)
  {
    FitsIff(x);
    DivMod(x + TWO63, TWO64);
    var q, y := (x + TWO63) / TWO64, I64(x);
    assert y == x - TWO64 * q;
    if !Fits(x) {
      assert q != 0;
      assert q >= 1 ==> x - y >= TWO64;
      assert q <= -1 ==> y - x >= TWO64;
      hide I64;
    }
  }

  // ----- Reducing a set of exchanges -----

  /** The delay, clamped at zero: a clock stepped mid-exchange must not wrap. */
  function Key(s: Sample): nat {
    if Delay(s) < 0 then 0 else Delay(s)
  }

  /** Index of the first sample with the least key. */
  function Best(samples: seq<Sample>): (b: nat)
    requires samples != []
    ensures b < |samples|
    ensures forall i :: 0 <= i < |samples| ==> Key(samples[b]) <= Key(samples[i])
    ensures forall i :: 0 <= i < b ==> Key(samples[b]) < Key(samples[i])
  {
    if |samples| == 1 then 0
    else
      var k := |samples| - 1;
      var b := Best(samples[..k]);
      assert forall i :: 0 <= i < k ==> samples[..k][i] == samples[i];
      if Key(samples[k]) < Key(samples[b]) then k else b
  }

  function Lowest(samples: seq<Sample>): (lo: int)
    requires samples != []
    ensures forall i :: 0 <= i < |samples| ==> lo <= Offset(samples[i])
    ensures exists i :: 0 <= i < |samples| && lo == Offset(samples[i])
  {
    var k := |samples| - 1;
    assert samples[k] in samples;
    if k == 0 then Offset(samples[0])
    else
      var lo := Lowest(samples[..k]);
      assert forall i :: 0 <= i < k ==> samples[..k][i] == samples[i];
      if Offset(samples[k]) < lo then Offset(samples[k]) else lo
  }

  function Highest(samples: seq<Sample>): (hi: int)
    requires samples != []
    ensures forall i :: 0 <= i < |samples| ==> Offset(samples[i]) <= hi
    ensures exists i :: 0 <= i < |samples| && hi == Offset(samples[i])
  {
    var k := |samples| - 1;
    assert samples[k] in samples;
    if k == 0 then Offset(samples[0])
    else
      var hi := Highest(samples[..k]);
      assert forall i :: 0 <= i < k ==> samples[..k][i] == samples[i];
      if Offset(samples[k]) > hi then Offset(samples[k]) else hi
  }

  datatype ClockEstimate = ClockEstimate(samples: nat, offset: int, dispersion: nat, minRtt: nat)

  function SaturatingSpread(hi: int, lo: int): nat
    requires lo <= hi
  {
    if hi - lo >= TWO63 then TWO63 - 1 else hi - lo
  }

  function Estimate(samples: seq<Sample>): Option<ClockEstimate> {
    if samples == [] then None
    else
      var best := samples[Best(samples)];
      Some(ClockEstimate(|samples|, Offset(best), SaturatingSpread(Highest(samples), Lowest(samples)), Key(best)))
  }

  // ----- How far off it can be -----

  /** The server's clock is `theta` ahead, neither direction took negative time, and nothing overflows. */
  ghost predicate Honest(s: Sample, theta: int) {
    Fits(TrueDelay(s)) && Fits(TrueSum(s)) && s.t2 - s.t1 - theta >= 0 && s.t4 - s.t3 + theta >= 0
  }

  function Abs(x: int): nat {
    if x < 0 then -x else x
  }

  /** One exchange is off by at most half its round trip, rounded up. */
  lemma SampleError(s: Sample, theta: int)
    requires Honest(s, theta)
    ensures Delay(s) >= 0 && Abs(Offset(s) - theta) <= (Delay(s) + 1) / 2
  {
    WrapsOnlyAtTheEnd(s);
    hide Delay, Offset;
    HalfNear(theta, s.t2 - s.t1 - theta, s.t4 - s.t3 + theta);
  }

  lemma HalfNear(theta: int, d1: int, d2: int)
    requires d1 >= 0 && d2 >= 0
    ensures Abs(HalfTowardZero(2 * theta + d1 - d2) - theta) <= (d1 + d2 + 1) / 2
  {}

  /**
   For any exchanges that share a true offset, the estimate is within half the shortest round
   trip, rounded up, of it; and the shortest round trip is the shortest there is.
   */
  lemma EstimateError(samples: seq<Sample>, theta: int)
    requires samples != [] && forall i :: 0 <= i < |samples| ==> Honest(samples[i], theta)
    ensures var e := Estimate(samples).value;
      && Abs(e.offset - theta) <= (e.minRtt + 1) / 2
      && (forall i :: 0 <= i < |samples| ==> e.minRtt <= Delay(samples[i]))
      && (exists i :: 0 <= i < |samples| && e.minRtt == Delay(samples[i]) && e.offset == Offset(samples[i]))
  {
    hide Delay, Offset;
    forall i | 0 <= i < |samples| ensures Delay(samples[i]) >= 0 {
      SampleError(samples[i], theta);
    }
    SampleError(samples[Best(samples)], theta);
  }

  /** The bound is attained, so no smaller one holds of all inputs. */
  lemma ErrorBoundTight()
    ensures var s := Sample(5, 5, 5, 6);
      && Honest(s, -1)
      && var e := Estimate([s]).value; Abs(e.offset - (-1)) == (e.minRtt + 1) / 2 == 1
  {
    WrapsOnlyAtTheEnd(Sample(5, 5, 5, 6));
    hide Delay, Offset;
  }

  /** A symmetric shortest exchange recovers the offset exactly. */
  lemma SymmetricIsExact(samples: seq<Sample>, theta: int)
    requires samples != []
    requires var b := samples[Best(samples)]; Honest(b, theta) && b.t2 - b.t1 - theta == b.t4 - b.t3 + theta
    ensures Estimate(samples).value.offset == theta
  {
    WrapsOnlyAtTheEnd(samples[Best(samples)]);
    hide Delay, Offset;
  }

  /** Half a 64-bit value: two of them are never more than a 64-bit value apart. */
  predicate HalfRange(x: int) {
    -TWO63 <= 2 * x < TWO63
  }

  lemma OffsetRange(s: Sample)
    ensures HalfRange(Offset(s))
  {
    WrapsOnlyAtTheEnd(s);
    FitsIff(TrueSum(s));
    hide Offset, I64;
  }

  /** The subtraction behind the dispersion never saturates. */
  lemma SpreadIsExact(samples: seq<Sample>)
    requires samples != []
    ensures Lowest(samples) <= Highest(samples)
    ensures SaturatingSpread(Highest(samples), Lowest(samples)) == Highest(samples) - Lowest(samples)
  {
    var i :| 0 <= i < |samples| && Highest(samples) == Offset(samples[i]);
    var j :| 0 <= j < |samples| && Lowest(samples) == Offset(samples[j]);
    hide Highest, Lowest, Offset;
    OffsetRange(samples[i]);
    OffsetRange(samples[j]);
  }

  /**
   The dispersion is the full spread: every exchange's offset differs from the estimate by at
   most it, and some two exchanges differ by exactly it.
   */
  lemma DispersionIsSpread(samples: seq<Sample>)
    requires samples != []
    ensures var e := Estimate(samples).value;
      && (forall i :: 0 <= i < |samples| ==> Abs(Offset(samples[i]) - e.offset) <= e.dispersion)
      && (exists i, j :: 0 <= i < |samples| && 0 <= j < |samples|
                      && Offset(samples[i]) - Offset(samples[j]) == e.dispersion)
  {
    SpreadIsExact(samples);
    hide Highest, Lowest, Offset, Best, Key, SaturatingSpread;
    var i :| 0 <= i < |samples| && Highest(samples) == Offset(samples[i]);
    var j :| 0 <= j < |samples| && Lowest(samples) == Offset(samples[j]);
  }

  /** A sample whose clock stepped backwards reads as a zero round trip, never as a wrapped one. */
  lemma NegativeDelayClamps(s: Sample)
    requires Fits(TrueDelay(s))
    ensures Estimate([s]).value.minRtt == if TrueDelay(s) < 0 then 0 else TrueDelay(s)
  {
    WrapsOnlyAtTheEnd(s);
    hide Delay, Offset;
  }
}
