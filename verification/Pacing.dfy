/**
 The credit-bucket pacer of the raw capacity controls: exact integer credit in thousandths of a
 byte, with the source's saturating sum and its clamp to 32 bits written out.
 */
module Pacing {
  import opened Arithmetic

  const U64_MAX: nat := 0xFFFF_FFFF_FFFF_FFFF
  const U32_MAX: nat := 0xFFFF_FFFF
  const MILLI: nat := 1000

  function Saturate(x: nat): nat {
    if x > U64_MAX then U64_MAX else x
  }

  function AtLeastOne(x: nat): (y: nat)
    ensures y >= 1
  {
    if x == 0 then 1 else x
  }

  /** Everything about a pacer that does not change, and its unspent credit. */
  datatype Bucket = Bucket(kbps: nat, payload: nat, threshold: nat, perTick: nat, credit: nat)

  ghost predicate Valid(b: Bucket) {
    b.threshold > 0 && b.credit < b.threshold
  }

  function New(kbps: nat, payload: nat): (b: Bucket)
    ensures Valid(b)
  {
    var k, p := AtLeastOne(kbps), AtLeastOne(payload);
    Bucket(k, p, Saturate(p * MILLI), Saturate(k * 125), 0)
  }

  /** Datagrams released by one tick, and the bucket after it. */
  function Tick(b: Bucket): (nat, Bucket)
    requires b.threshold > 0
  {
    var c := Saturate(b.credit + b.perTick);
    var n := c / b.threshold;
    (if n > U32_MAX then U32_MAX else n, b.(credit := c - n * b.threshold))
  }

  lemma TickKeeps(b: Bucket)
    requires b.threshold > 0
    ensures var t := Tick(b).1; Valid(t) && t == b.(credit := t.credit)
  {
    DivMod(Saturate(b.credit + b.perTick), b.threshold);
  }

  // ----- When a tick is exact -----

  /** Neither the saturating sum nor the clamp bites on this tick. */
  predicate Exact(b: Bucket)
    requires b.threshold > 0
  {
    b.credit + b.perTick <= U64_MAX && (b.credit + b.perTick) / b.threshold <= U32_MAX
  }

  /**
   A tick conserves credit, spending one threshold per datagram released, exactly when neither
   the saturating sum nor the clamp bites.
   */
  lemma ConservesIff(b: Bucket)
    requires Valid(b)
    ensures b.threshold * Tick(b).0 + Tick(b).1.credit == b.credit + b.perTick <==> Exact(b)
  {
    var sum := b.credit + b.perTick;
    var c := Saturate(sum);
    var n := c / b.threshold;
    DivMod(c, b.threshold);
    var out := Tick(b).0;
    if out < n {
      MulGrows(out + 1, n, b.threshold);
      Distribute(b.threshold, out, 1);
    }
  }

  // ----- The closed form -----

  function After(b: Bucket, k: nat): Bucket
    requires b.threshold > 0
    ensures After(b, k).threshold == b.threshold
  {
    if k == 0 then b else Tick(After(b, k - 1)).1
  }

  function Released(b: Bucket, k: nat): nat
    requires b.threshold > 0
  {
    if k == 0 then 0 else Released(b, k - 1) + Tick(After(b, k - 1)).0
  }

  lemma {:induction false} AfterKeeps(b: Bucket, k: nat)
    requires Valid(b)
    ensures var t := After(b, k); Valid(t) && t == b.(credit := t.credit)
  {
    if k == 0 {
    } else {
      AfterKeeps(b, k - 1);
      TickKeeps(After(b, k - 1));
    }
  }

  ghost predicate ExactUpto(b: Bucket, k: nat)
    requires b.threshold > 0
  {
    forall j :: 0 <= j < k ==> Exact(After(b, j))
  }

  /** Released credit plus unspent credit is all the credit earned. */
  ghost predicate Balanced(b: Bucket, k: nat)
    requires b.threshold > 0
  {
    b.threshold * Released(b, k) + After(b, k).credit == b.credit + k * b.perTick
  }

  lemma BalancedStep(b: Bucket, k: nat)
    requires Valid(b) && Balanced(b, k)
    ensures Balanced(b, k + 1) <==> Exact(After(b, k))
  {
    AfterKeeps(b, k);
    ConservesIff(After(b, k));
    hide Tick, Exact;
    Distribute(b.threshold, Released(b, k), Tick(After(b, k)).0);
    Distribute(b.perTick, k, 1);
  }

  /**
   The books balance after every tick of a run exactly when no tick of it saturated or clamped.
   */
  lemma {:induction false} BalancedIff(b: Bucket, k: nat)
    requires Valid(b)
    ensures (forall j :: 0 <= j <= k ==> Balanced(b, j)) <==> ExactUpto(b, k)
  {
    hide Exact;
    if k == 0 {
      assert Balanced(b, 0);
    } else {
      BalancedIff(b, k - 1);
      hide Balanced;
      if ExactUpto(b, k - 1) {
        assert Balanced(b, k - 1);
        BalancedStep(b, k - 1);
      }
    }
  }

  /**
   After `k` ticks from an empty bucket, exactly the whole datagrams the earned credit pays for
   have been released, and the credit is the remainder.
   */
  lemma ClosedForm(b: Bucket, k: nat)
    requires Valid(b) && b.credit == 0 && ExactUpto(b, k)
    ensures Released(b, k) == k * b.perTick / b.threshold && After(b, k).credit == k * b.perTick % b.threshold
  {
    BalancedIff(b, k);
    AfterKeeps(b, k);
    hide Exact, Tick;
    assert Balanced(b, k);
    DivisionUnique(k * b.perTick, b.threshold, Released(b, k), After(b, k).credit);
  }

  /**
   Any `m` consecutive ticks anywhere in a run release the floor or the ceiling of `m` ticks'
   worth: the offer is a rate, never a burst.
   */
  lemma WindowBound(b: Bucket, i: nat, m: nat)
    requires Valid(b) && ExactUpto(b, i + m)
    ensures m * b.perTick / b.threshold <= Released(b, i + m) - Released(b, i) <= CeilDiv(m * b.perTick, b.threshold)
  {
    BalancedIff(b, i + m);
    AfterKeeps(b, i);
    AfterKeeps(b, i + m);
    hide Exact, Tick;
    assert Balanced(b, i) && Balanced(b, i + m);
    hide Released, After;
    BetweenBalances(b.threshold, b.perTick, b.credit, i, m,
                    Released(b, i), After(b, i).credit, Released(b, i + m), After(b, i + m).credit);
  }

  lemma BetweenBalances(d: nat, perTick: nat, credit: nat, i: nat, m: nat, r: nat, c: nat, r': nat, c': nat)
    requires d > 0 && c < d && c' < d
    requires d * r + c == credit + i * perTick && d * r' + c' == credit + (i + m) * perTick
    ensures m * perTick / d <= r' - r <= CeilDiv(m * perTick, d)
  {
    Distribute(d, r', r);
    Distribute(perTick, i, m);
    FloorOrCeil(m * perTick, d, c, c', r' - r);
  }

  // ----- What the arguments have to satisfy -----

  /** The most credit a tick can ever find: the carry is a multiple of what rate and threshold share. */
  function MostCredit(b: Bucket): int
    requires b.threshold > 0
  {
    b.threshold - Gcd(b.perTick, b.threshold) + b.perTick
  }

  /** That much credit fits both widths. */
  predicate Roomy(b: Bucket)
    requires b.threshold > 0
  {
    MostCredit(b) <= U64_MAX && MostCredit(b) / b.threshold <= U32_MAX
  }

  lemma TickDivides(b: Bucket, g: int)
    requires Valid(b) && Exact(b) && Divides(g, b.credit) && Divides(g, b.perTick) && Divides(g, b.threshold)
    ensures Divides(g, Tick(b).1.credit)
  {
    var sum := b.credit + b.perTick;
    var n := sum / b.threshold;
    DividesSum(g, b.credit, b.perTick);
    DividesProduct(g, b.threshold, n);
    DividesSum(g, sum, b.threshold * n);
    assert Tick(b).1.credit == sum - b.threshold * n;
  }

  lemma {:induction false} CreditDivides(b: Bucket, k: nat)
    requires Valid(b) && b.credit == 0 && ExactUpto(b, k)
    ensures Divides(Gcd(b.perTick, b.threshold), After(b, k).credit)
  {
    var g := Gcd(b.perTick, b.threshold);
    if k == 0 {
      assert 0 == g * 0;
    } else {
      CreditDivides(b, k - 1);
      AfterKeeps(b, k - 1);
      GcdDivides(b.perTick, b.threshold);
      hide Gcd, Exact, Tick, Divides;
      TickDivides(After(b, k - 1), g);
    }
  }

  /** A tick that finds no more than the most is exact. */
  lemma RoomyTick(b: Bucket, k: nat)
    requires Valid(b) && b.credit == 0 && Roomy(b) && ExactUpto(b, k)
    ensures Exact(After(b, k))
  {
    CreditDivides(b, k);
    AfterKeeps(b, k);
    GcdPositive(b.perTick, b.threshold);
    GcdDivides(b.perTick, b.threshold);
    var t := After(b, k);
    hide Gcd, After, Divides;
    MultipleBelow(Gcd(b.perTick, b.threshold), t.credit, b.threshold);
    DivMonotone(t.credit + b.perTick, MostCredit(b), b.threshold);
  }

  /** A pacer that is roomy when built stays exact for ever. */
  lemma {:induction false} RoomyIsExact(b: Bucket, k: nat)
    requires Valid(b) && b.credit == 0 && Roomy(b)
    ensures ExactUpto(b, k)
  {
    hide Exact, Roomy;
    if k == 0 {
    } else {
      RoomyIsExact(b, k - 1);
      RoomyTick(b, k - 1);
    }
  }

  /**
   A pacer built for any rate and any datagram size never saturates and never clamps exactly when
   the most credit a tick can find fits both widths.
   */
  lemma ExactForeverIff(kbps: nat, payload: nat)
    ensures var b := New(kbps, payload); (forall k: nat :: ExactUpto(b, k)) <==> Roomy(b)
  {
    var b := New(kbps, payload);
    assert b.credit == 0;
    hide New, Roomy;
    if Roomy(b) {
      forall k: nat ensures ExactUpto(b, k) {
        RoomyIsExact(b, k);
      }
    }
    if forall k: nat :: ExactUpto(b, k) {
      MostCreditOccurs(b);
    }
  }

  lemma MostCreditOccurs(b: Bucket)
    requires Valid(b) && b.credit == 0 && forall k: nat :: ExactUpto(b, k)
    ensures Roomy(b)
  {
    var n := LargestRemainder(b.perTick, b.threshold);
    assert ExactUpto(b, n) && ExactUpto(b, n + 1);
    assert Exact(After(b, n));
    ClosedForm(b, n);
    AfterKeeps(b, n);
    hide Gcd, After, ExactUpto;
  }

  /** The arguments a rung may have: the exact rate and datagram size fit, with room to spare. */
  predicate Rung(kbps: nat, payload: nat) {
    kbps >= 1 && payload >= 1 && payload * MILLI <= U64_MAX && kbps * 125 <= U64_MAX && Roomy(New(kbps, payload))
  }

  /** Every rate up to the top of the default ladder is such a rung, in datagrams of any size whose credit fits. */
  lemma LadderIsRoomy(kbps: nat, payload: nat)
    requires 1 <= kbps <= 200_000 && 1 <= payload
    ensures payload * MILLI + kbps * 125 <= U64_MAX ==> Rung(kbps, payload)
    ensures Rung(kbps, payload) ==> payload * MILLI <= U64_MAX
  {
    if payload * MILLI + kbps * 125 <= U64_MAX {
      var b := New(kbps, payload);
      var d := b.threshold;
      GcdPositive(b.perTick, d);
      hide Gcd;
      var x := MostCredit(b);
      DivMod(x, d);
      assert x <= d + 25_000_000 && d >= 1000;
      if x / d > U32_MAX {
        MulGrows(U32_MAX + 1, x / d, d);
        MulGrows(1, d, U32_MAX);
        Distribute(d, U32_MAX, 1);
        assert false;
      }
    }
  }

  /** Credit earned and datagrams paid for, in bits. */
  lemma InBits(kbps: nat, payload: nat, k: nat, r: nat, credit: nat)
    requires k * (kbps * 125) == payload * MILLI * r + credit && credit < payload * MILLI
    ensures 8 * payload * r <= k * kbps < 8 * payload * r + 8 * payload
  {
    var earned, paid := k * kbps, payload * r;
    assert k * (kbps * 125) == earned * 125;
    assert payload * MILLI * r == paid * MILLI;
    assert 8 * payload * r == 8 * paid;
  }

  /**
   A pacer built for `kbps` in `payload`-byte datagrams is never ahead of its offer and never
   as much as one datagram behind it: in bits, over any number of one-millisecond ticks.
   */
  lemma RateExact(kbps: nat, payload: nat, k: nat)
    requires Rung(kbps, payload)
    ensures var bits := 8 * payload * Released(New(kbps, payload), k); bits <= k * kbps < bits + 8 * payload
  {
    var b := New(kbps, payload);
    RoomyIsExact(b, k);
    BalancedIff(b, k);
    AfterKeeps(b, k);
    assert b.threshold == payload * MILLI && b.perTick == kbps * 125 && b.credit == 0;
    hide Exact, Tick, Released, After, New;
    assert Balanced(b, k);
    InBits(kbps, payload, k, Released(b, k), After(b, k).credit);
  }

  /** `reached_offer` on the pacer's own output: bits sent against nine tenths of bits offered. */
  predicate ReachedOffer(offeredBits: int, sentBits: int) {
    offeredBits > 0 && 10 * sentBits >= 9 * offeredBits
  }

  /** Driven for at least ten datagrams' worth of offer, the pacer by itself reaches its rung. */
  lemma PacerReachesOffer(kbps: nat, payload: nat, k: nat)
    requires Rung(kbps, payload) && k * kbps >= 80 * payload
    ensures ReachedOffer(k * kbps, 8 * payload * Released(New(kbps, payload), k))
  {
    RateExact(kbps, payload, k);
    hide Released, New, Rung;
    NineTenths(k * kbps, 8 * payload * Released(New(kbps, payload), k), payload);
  }

  lemma NineTenths(offered: nat, sent: nat, payload: nat)
    requires sent <= offered < sent + 8 * payload && offered >= 80 * payload && payload >= 1
    ensures ReachedOffer(offered, sent)
  {}

  /** Beyond the widths the closed form is false: the clamp throws released credit away. */
  lemma ClampLosesCredit()
    ensures var b := New(0x10_0000_0000, 1); !Exact(b) && !Balanced(b, 1)
  {
    var b := New(0x10_0000_0000, 1);
    assert b.perTick == 8_589_934_592_000 && b.threshold == 1000 && b.credit == 0;
    assert Tick(b) == (U32_MAX, b);
    assert Released(b, 1) == Released(b, 0) + Tick(After(b, 0)).0;
  }

  // ----- The mutable pacer -----

  class Pacer {
    const kbps: nat
    const payload: nat
    const threshold: nat
    const perTick: nat
    var credit: nat

    ghost function Current(): Bucket
      reads this
    {
      Bucket(kbps, payload, threshold, perTick, credit)
    }

    constructor (offered: nat, payloadLen: nat)
      ensures Current() == New(offered, payloadLen)
    {
      kbps := AtLeastOne(offered);
      payload := AtLeastOne(payloadLen);
      threshold := Saturate(AtLeastOne(payloadLen) * MILLI);
      perTick := Saturate(AtLeastOne(offered) * 125);
      credit := 0;
    }

    method OnTick() returns (n: nat)
      requires Valid(Current())
      modifies this
      ensures (n, Current()) == Tick(old(Current())) && Valid(Current())
    {
      TickKeeps(Current());
      credit := Saturate(credit + perTick);
      n := credit / threshold;
      credit := credit - n * threshold;
      if n > U32_MAX {
        n := U32_MAX;
      }
    }
  }
}
