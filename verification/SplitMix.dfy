/**
 SplitMix64, the seeded generator behind the simulator's independent loss model.

 The state walks the ring of 64-bit words by an odd constant and each draw is a bijective
 scrambling of the state, so one full period never repeats a draw. Words are naturals below
 two to the sixty-fourth; wrapping arithmetic and the bitwise operators are written out.
 */
module SplitMix {
  import opened Arithmetic

  const TWO64: nat := 0x1_0000_0000_0000_0000
  /** The Weyl constant the state advances by, and its inverse modulo `TWO64`. */
  const GAMMA: nat := 0x9E37_79B9_7F4A_7C15
  const GAMMA_INVERSE: nat := 0xF1DE_83E1_9937_733D
  /** The two multipliers of the output map, and their inverses modulo `TWO64`. */
  const MIX1: nat := 0xBF58_476D_1CE4_E5B9
  const MIX1_INVERSE: nat := 0x96DE_1B17_3F11_9089
  const MIX2: nat := 0x94D0_49BB_1331_11EB
  const MIX2_INVERSE: nat := 0x3196_42B2_D24D_8EC3

  type U64 = x: int | 0 <= x < TWO64

  // ----- Bitwise operators on naturals -----

  function Xor(a: nat, b: nat): nat
    decreases a + b
  {
    if a == 0 && b == 0 then 0
    else (a % 2 + b % 2) % 2 + 2 * Xor(a / 2, b / 2)
  }

  function Shr(x: nat, k: nat): nat {
    if k == 0 then x else Shr(x / 2, k - 1)
  }

  function Pow2(k: nat): nat {
    if k == 0 then 1 else 2 * Pow2(k - 1)
  }

  /** The recurrence every fact about `Xor` follows from. */
  lemma {:induction false} XorBits(a: nat, b: nat)
    ensures Xor(a, b) % 2 == (a % 2 + b % 2) % 2 && Xor(a, b) / 2 == Xor(a / 2, b / 2)
  {
    var low, high := (a % 2 + b % 2) % 2, Xor(a / 2, b / 2);
    assert Xor(a, b) == low + 2 * high;
    hide Xor;
    LowAndHigh(low, high);
  }

  lemma LowAndHigh(low: nat, high: nat)
    requires low < 2
    ensures (low + 2 * high) % 2 == low && (low + 2 * high) / 2 == high
  {}

  lemma ParityAssociative(a: nat, b: nat, c: nat)
    requires a < 2 && b < 2 && c < 2
    ensures ((a + b) % 2 + c) % 2 == (a + (b + c) % 2) % 2
  {}

  lemma HalvesDecide(x: nat, y: nat)
    requires x % 2 == y % 2 && x / 2 == y / 2
    ensures x == y
  {}

  lemma XorAssociativeLow(a: nat, b: nat, c: nat)
    ensures Xor(Xor(a, b), c) % 2 == Xor(a, Xor(b, c)) % 2
  {
    hide Xor;
    XorBits(Xor(a, b), c);
    XorBits(a, Xor(b, c));
    XorBits(a, b);
    XorBits(b, c);
    ParityAssociative(a % 2, b % 2, c % 2);
  }

  lemma XorHigh(a: nat, b: nat, c: nat)
    ensures Xor(Xor(a, b), c) / 2 == Xor(Xor(a / 2, b / 2), c / 2)
    ensures Xor(a, Xor(b, c)) / 2 == Xor(a / 2, Xor(b / 2, c / 2))
  {
    XorBits(Xor(a, b), c);
    XorBits(a, Xor(b, c));
    XorBits(a, b);
    XorBits(b, c);
  }

  lemma {:induction false} XorAssociative(a: nat, b: nat, c: nat)
    ensures Xor(Xor(a, b), c) == Xor(a, Xor(b, c))
    decreases a + b + c
  {
    if a == 0 && b == 0 && c == 0 {
    } else {
      XorAssociative(a / 2, b / 2, c / 2);
      XorAssociativeLow(a, b, c);
      XorHigh(a, b, c);
      HalvesDecide(Xor(Xor(a, b), c), Xor(a, Xor(b, c)));
    }
  }

  lemma {:induction false} XorSelf(a: nat)
    ensures Xor(a, a) == 0
  {
    if a == 0 {
    } else {
      XorSelf(a / 2);
    }
  }

  lemma {:induction false} XorZero(a: nat)
    ensures Xor(a, 0) == a && Xor(0, a) == a
  {
    if a == 0 {
    } else {
      XorZero(a / 2);
    }
  }

  /** Two equal words cancel wherever they meet. */
  lemma XorCancels(a: nat, b: nat)
    ensures Xor(a, Xor(a, b)) == b && Xor(Xor(a, b), b) == a
  {
    XorAssociative(a, a, b);
    XorSelf(a);
    XorAssociative(a, b, b);
    XorSelf(b);
    XorZero(a);
    XorZero(b);
  }

  lemma {:induction false} ShrXor(a: nat, b: nat, k: nat)
    ensures Shr(Xor(a, b), k) == Xor(Shr(a, k), Shr(b, k))
    decreases k
  {
    if k == 0 {
    } else {
      XorBits(a, b);
      ShrXor(a / 2, b / 2, k - 1);
    }
  }

  lemma {:induction false} ShrShr(x: nat, j: nat, k: nat)
    ensures Shr(Shr(x, j), k) == Shr(x, j + k)
    decreases j
  {
    if j == 0 {
    } else {
      ShrShr(x / 2, j - 1, k);
    }
  }

  lemma {:induction false} ShrOut(x: nat, k: nat)
    requires x < Pow2(k)
    ensures Shr(x, k) == 0
    decreases k
  {
    if k == 0 {
    } else {
      ShrOut(x / 2, k - 1);
    }
  }

  lemma {:induction false} XorBound(a: nat, b: nat, k: nat)
    requires a < Pow2(k) && b < Pow2(k)
    ensures Xor(a, b) < Pow2(k)
    decreases k
  {
    if k == 0 {
    } else {
      XorBits(a, b);
      XorBound(a / 2, b / 2, k - 1);
    }
  }

  lemma ShrBound(x: nat, k: nat)
    ensures Shr(x, k) <= x
  {}

  lemma {:induction false} Pow2Sum(j: nat, k: nat)
    ensures Pow2(j + k) == Pow2(j) * Pow2(k)
    decreases j
  {
    if j == 0 {
    } else {
      Pow2Sum(j - 1, k);
    }
  }

  lemma SixtyFour()
    ensures Pow2(64) == TWO64
  {
    assert Pow2(4) == 16;
    Pow2Sum(4, 4);
    Pow2Sum(8, 8);
    Pow2Sum(16, 16);
    Pow2Sum(32, 32);
  }

  lemma {:induction false} Pow2Grows(j: nat, k: nat)
    requires j <= k
    ensures 1 <= Pow2(j) <= Pow2(k)
    decreases k - j, j
  {
    if k == 0 {
    } else if j < k {
      Pow2Grows(j, k - 1);
    } else {
      Pow2Grows(j - 1, j - 1);
    }
  }

  // ----- One scrambling round -----

  /** `z ^ (z >> k)`. */
  function XorShift(z: U64, k: nat): (r: U64) {
    SixtyFour();
    ShrBound(z, k);
    XorBound(z, Shr(z, k), 64);
    Xor(z, Shr(z, k))
  }

  function UnXorShift(r: U64, k: nat): U64 {
    SixtyFour();
    ShrBound(r, k);
    ShrBound(r, 2 * k);
    XorBound(r, Shr(r, k), 64);
    XorBound(Xor(r, Shr(r, k)), Shr(r, 2 * k), 64);
    Xor(Xor(r, Shr(r, k)), Shr(r, 2 * k))
  }

  lemma XorShiftInverts(z: U64, k: nat)
    requires 64 <= 3 * k
    ensures UnXorShift(XorShift(z, k), k) == z
  {
    var z1, z2, z3 := Shr(z, k), Shr(z, 2 * k), Shr(z, 3 * k);
    var r := XorShift(z, k);
    SixtyFour();
    Pow2Grows(64, 3 * k);
    ShrOut(z, 3 * k);
    ShrShr(z, k, k);
    ShrShr(z, k, 2 * k);
    ShrXor(z, z1, k);
    ShrXor(z, z1, 2 * k);
    XorZero(z2);
    assert Shr(r, k) == Xor(z1, z2) && Shr(r, 2 * k) == z2;
    XorAssociative(z, z1, Xor(z1, z2));
    XorCancels(z1, z2);
    XorCancels(z, z2);
  }

  /** `wrapping_mul`. */
  function WrappingMul(z: U64, m: nat): U64 {
    (z * m) % TWO64
  }

  lemma MulModulo(a: int, b: int, m: int)
    requires m > 0
    ensures (a % m * b) % m == (a * b) % m
  {
    var q := a / m;
    assert a == q * m + a % m;
    assert a * b == a % m * b + (q * b) * m by {
      assert (q * m) * b == (q * b) * m;
    }
    AddMultiple(a % m * b, q * b, m);
  }

  lemma AddMultiple(x: int, k: int, m: int)
    requires m > 0
    ensures (x + k * m) % m == x % m
  {
    DivMod(x, m);
    Distribute(m, x / m, k);
    DivisionUnique(x + k * m, m, x / m + k, x % m);
  }

  lemma WrappingMulInverts(z: U64, m: nat, inverse: nat)
    requires (m * inverse) % TWO64 == 1
    ensures WrappingMul(WrappingMul(z, m), inverse) == z
  {
    MulModulo(z * m, inverse, TWO64);
    assert z * m * inverse == (m * inverse) * z;
    MulModulo(m * inverse, z, TWO64);
  }

  /** One xor-shift-multiply round of the output map, and its inverse. */
  function Round(z: U64, k: nat, m: nat): U64 {
    WrappingMul(XorShift(z, k), m)
  }

  function Unround(r: U64, k: nat, inverse: nat): U64 {
    UnXorShift(WrappingMul(r, inverse), k)
  }

  lemma RoundInverts(z: U64, k: nat, m: nat, inverse: nat)
    requires 64 <= 3 * k && (m * inverse) % TWO64 == 1
    ensures Unround(Round(z, k, m), k, inverse) == z
  {
    WrappingMulInverts(XorShift(z, k), m, inverse);
    XorShiftInverts(z, k);
  }

  // ----- The generator -----

  /** `*state = state.wrapping_add(GAMMA)`. */
  function Step(state: U64): U64 {
    (state + GAMMA) % TWO64
  }

  /** The output map, applied to the advanced state. */
  function Mix(s: U64): U64 {
    XorShift(Round(Round(s, 30, MIX1), 27, MIX2), 31)
  }

  function Unmix(out: U64): U64 {
    Unround(Unround(UnXorShift(out, 31), 27, MIX2_INVERSE), 30, MIX1_INVERSE)
  }

  lemma UnmixMix(s: U64)
    ensures Unmix(Mix(s)) == s
  {
    MultipliersInvert();
    var z1 := Round(s, 30, MIX1);
    var z2 := Round(z1, 27, MIX2);
    RoundInverts(s, 30, MIX1, MIX1_INVERSE);
    RoundInverts(z1, 27, MIX2, MIX2_INVERSE);
    XorShiftInverts(z2, 31);
  }

  lemma MultipliersInvert()
    ensures (MIX1 * MIX1_INVERSE) % TWO64 == 1
    ensures (MIX2 * MIX2_INVERSE) % TWO64 == 1
  {}

  lemma MixInjective(x: U64, y: U64)
    requires Mix(x) == Mix(y)
    ensures x == y
  {
    UnmixMix(x);
    UnmixMix(y);
  }

  /** The state after `k` draws. */
  function StateAfter(seed: U64, k: nat): U64 {
    if k == 0 then seed else Step(StateAfter(seed, k - 1))
  }

  /** Draw number `k` (from zero). */
  function Draw(seed: U64, k: nat): U64 {
    Mix(StateAfter(seed, k + 1))
  }

  /** `split_mix_64` on a mutable state: the state advances, the draw is its scrambling. */
  method SplitMix64(state: U64) returns (next: U64, draw: U64)
    ensures next == StateAfter(state, 1) && draw == Draw(state, 0)
  {
    next := (state + GAMMA) % TWO64;
    assert next == Step(StateAfter(state, 0));
    var z := Round(next, 30, MIX1);
    z := Round(z, 27, MIX2);
    draw := XorShift(z, 31);
  }

  lemma {:induction false} StateClosedForm(seed: U64, k: nat)
    ensures StateAfter(seed, k) == (seed + k * GAMMA) % TWO64
  {
    if k == 0 {
    } else {
      StateClosedForm(seed, k - 1);
      var x := seed + (k - 1) * GAMMA;
      var y := x % TWO64;
      AddMultiple(y + GAMMA, x / TWO64, TWO64);
      assert y + GAMMA + x / TWO64 * TWO64 == seed + k * GAMMA;
    }
  }

  /** Equal residues differ by a multiple. */
  lemma SameResidue(x: int, y: int, m: int)
    requires m > 0 && x % m == y % m
    ensures y - x == (y / m - x / m) * m
  {}

  /** `GAMMA` is invertible, so only multiples of the ring size are annihilated by it. */
  lemma GammaCancels(d: int, k: int)
    requires d * GAMMA == k * TWO64
    ensures d % TWO64 == 0
  {
    MulModulo(GAMMA * GAMMA_INVERSE, d, TWO64);
    assert GAMMA * GAMMA_INVERSE * d == (k * GAMMA_INVERSE) * TWO64 by {
      assert GAMMA * GAMMA_INVERSE * d == d * GAMMA * GAMMA_INVERSE;
      assert k * TWO64 * GAMMA_INVERSE == (k * GAMMA_INVERSE) * TWO64;
    }
    AddMultiple(0, k * GAMMA_INVERSE, TWO64);
  }

  lemma FullPeriodState(seed: U64, i: nat, j: nat)
    requires i < j < i + TWO64
    ensures StateAfter(seed, i) != StateAfter(seed, j)
  {
    StateClosedForm(seed, i);
    StateClosedForm(seed, j);
    hide StateAfter;
    if StateAfter(seed, i) == StateAfter(seed, j) {
      var x, y := seed + i * GAMMA, seed + j * GAMMA;
      SameResidue(x, y, TWO64);
      GammaCancels(j - i, y / TWO64 - x / TWO64);
      assert false;
    }
  }

  /** Over any stretch of two to the sixty-fourth draws, every draw is different. */
  lemma DrawsAllDistinct(seed: U64, i: nat, j: nat)
    requires i < j < i + TWO64
    ensures Draw(seed, i) != Draw(seed, j)
  {
    if Draw(seed, i) == Draw(seed, j) {
      MixInjective(StateAfter(seed, i + 1), StateAfter(seed, j + 1));
      FullPeriodState(seed, i + 1, j + 1);
    }
  }

  /** The generator then starts over: draw `k` returns after exactly one full period. */
  lemma DrawsRepeatAfterPeriod(seed: U64, k: nat)
    ensures Draw(seed, k + TWO64) == Draw(seed, k)
  {
    StateClosedForm(seed, k + 1);
    StateClosedForm(seed, k + 1 + TWO64);
    assert seed + (k + 1 + TWO64) * GAMMA == seed + (k + 1) * GAMMA + GAMMA * TWO64;
    AddMultiple(seed + (k + 1) * GAMMA, GAMMA, TWO64);
  }

  /** How the simulator turns a configured seed into a starting state: only zero is moved. */
  function EffectiveSeed(seed: U64): U64 {
    if seed == 0 then 1 else seed
  }

  lemma StepInjective(x: U64, y: U64)
    requires Step(x) == Step(y)
    ensures x == y
  {
    SameResidue(x + GAMMA, y + GAMMA, TWO64);
  }

  /**
   Two configured seeds open with the same draw exactly when they are the same seed, or are
   the pair zero and one that the simulator folds together. No other two seeds collide.
   */
  lemma FirstDrawSeparatesSeeds(a: U64, b: U64)
    ensures Draw(EffectiveSeed(a), 0) == Draw(EffectiveSeed(b), 0)
       <==> a == b || (a == 0 && b == 1) || (a == 1 && b == 0)
  {
    var x, y := EffectiveSeed(a), EffectiveSeed(b);
    var x1, y1 := StateAfter(x, 1), StateAfter(y, 1);
    assert x1 == Step(StateAfter(x, 0)) && y1 == Step(StateAfter(y, 0));
    if Mix(x1) == Mix(y1) {
      MixInjective(x1, y1);
      StepInjective(x, y);
    }
  }
}
