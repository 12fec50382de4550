/** The few facts about products, quotients and counting up that the solver needs to be told. */
module Arithmetic {

  lemma Distribute(a: int, b: int, c: int)
    ensures a * (b + c) == a * b + a * c && a * (b - c) == a * b - a * c
  {}

  lemma MulGrows(a: int, b: int, d: int)
    requires a <= b && d >= 0
    ensures a * d <= b * d && d * a <= d * b
  {}

  lemma DivMod(x: int, d: int)
    requires d > 0
    ensures x == d * (x / d) + x % d && 0 <= x % d < d
  {}

  /** Quotient and remainder are the only ones. */
  lemma DivisionUnique(x: int, d: int, q: int, r: int)
    requires d > 0 && 0 <= r < d && x == d * q + r
    ensures x / d == q && x % d == r
  {
    DivMod(x, d);
    var p := x / d;
    if p < q {
      MulGrows(p + 1, q, d);
      Distribute(d, p, 1);
    } else if p > q {
      MulGrows(q + 1, p, d);
      Distribute(d, q, 1);
    }
  }

  lemma DivMonotone(a: int, b: int, d: int)
    requires d > 0 && a <= b
    ensures a / d <= b / d
  {
    DivMod(a, d);
    DivMod(b, d);
    if b / d < a / d {
      MulGrows(b / d + 1, a / d, d);
      Distribute(d, b / d, 1);
    }
  }

  function CeilDiv(a: int, d: int): int
    requires d > 0
  {
    (a + d - 1) / d
  }

  lemma CeilDivIs(a: int, d: int)
    requires d > 0
    ensures CeilDiv(a, d) == a / d + (if a % d == 0 then 0 else 1)
  {
    DivMod(a, d);
    var q, r := a / d, a % d;
    if r == 0 {
      DivisionUnique(a + d - 1, d, q, d - 1);
    } else {
      Distribute(d, q, 1);
      DivisionUnique(a + d - 1, d, q + 1, r - 1);
    }
  }

  /**
   A count that pays for `due` out of a carry below `d` and leaves a carry below `d` is the
   floor or the ceiling of the share.
   */
  lemma FloorOrCeil(due: int, d: int, before: int, after: int, n: int)
    requires d > 0 && 0 <= before < d && 0 <= after < d && d * n + after == due + before
    ensures due / d <= n <= CeilDiv(due, d)
  {
    DivMod(due, d);
    CeilDivIs(due, d);
    var q := due / d;
    if n < q {
      MulGrows(n + 1, q, d);
      Distribute(d, n, 1);
    }
    if n > q + 1 {
      MulGrows(q + 2, n, d);
      Distribute(d, q, 2);
    } else if n == q + 1 {
      Distribute(d, q, 1);
    }
  }

  // ----- Common divisors -----

  ghost predicate Divides(g: int, x: int) {
    exists m: int :: x == g * m
  }

  function Gcd(a: nat, b: nat): nat
    decreases b
  {
    if b == 0 then a else Gcd(b, a % b)
  }

  lemma {:induction false} GcdPositive(a: nat, b: nat)
    requires a > 0 || b > 0
    ensures Gcd(a, b) > 0
    decreases b
  {
    if b == 0 {
    } else {
      GcdPositive(b, a % b);
    }
  }

  lemma DividesSum(g: int, x: int, y: int)
    requires Divides(g, x) && Divides(g, y)
    ensures Divides(g, x + y) && Divides(g, x - y)
  {
    var m :| x == g * m;
    var n :| y == g * n;
    Distribute(g, m, n);
    assert x + y == g * (m + n) && x - y == g * (m - n);
  }

  lemma DividesProduct(g: int, x: int, k: int)
    requires Divides(g, x)
    ensures Divides(g, x * k)
  {
    var m :| x == g * m;
    assert x * k == g * (m * k);
  }

  lemma {:induction false} GcdDivides(a: nat, b: nat)
    ensures Divides(Gcd(a, b), a) && Divides(Gcd(a, b), b)
    decreases b
  {
    var g := Gcd(a, b);
    if b == 0 {
      assert a == g * 1 && b == g * 0;
    } else {
      GcdDivides(b, a % b);
      DivMod(a, b);
      hide Gcd;
      DividesProduct(g, b, a / b);
      DividesSum(g, b * (a / b), a % b);
    }
  }

  /** The greatest common divisor is a combination of the two. */
  lemma {:induction false} Bezout(a: nat, b: nat) returns (x: int, y: int)
    ensures a * x + b * y == Gcd(a, b)
    decreases b
  {
    if b == 0 {
      x, y := 1, 0;
    } else {
      var u, v := Bezout(b, a % b);
      var q := a / b;
      x, y := v, u - q * v;
      DivMod(a, b);
      BezoutStep(a, b, q, a % b, u, v);
    }
  }

  lemma BezoutStep(a: int, b: int, q: int, r: int, u: int, v: int)
    requires a == b * q + r
    ensures a * v + b * (u - q * v) == b * u + r * v
  {
    Distribute(b, u, q * v);
    assert a * v == b * q * v + r * v;
    assert b * (q * v) == b * q * v;
  }

  /** A multiple below a larger multiple is a whole divisor below it. */
  lemma MultipleBelow(g: int, x: int, y: int)
    requires g > 0 && Divides(g, x) && Divides(g, y) && x < y
    ensures x <= y - g
  {
    var m :| x == g * m;
    var n :| y == g * n;
    if m >= n {
      MulGrows(n, m, g);
      assert false;
    }
    MulGrows(m + 1, n, g);
    Distribute(g, m, 1);
  }

  /** Some multiple of `a` leaves the largest remainder modulo `d` that any multiple can. */
  lemma LargestRemainder(a: nat, d: nat) returns (n: nat)
    requires d > 0
    ensures 0 < Gcd(a, d) <= d && n * a % d == d - Gcd(a, d)
  {
    GcdPositive(a, d);
    GcdDivides(a, d);
    var g := Gcd(a, d);
    assert g <= d by {
      DivisorBound(g, d);
    }
    if g == d {
      n := 0;
      DivisionUnique(0, d, 0, 0);
    } else {
      var x, y := Bezout(a, d);
      n := (-x) % d;
      DivMod(-x, d);
      Remainder(a, d, g, x, y, n, (-x) / d);
    }
  }

  lemma DivisorBound(g: int, d: int)
    requires g > 0 && d > 0 && Divides(g, d)
    ensures g <= d
  {
    var m :| d == g * m;
    if m <= 0 {
      MulGrows(m, 0, g);
      assert false;
    }
    MulGrows(1, m, g);
  }

  lemma Remainder(a: int, d: int, g: int, x: int, y: int, n: int, q: int)
    requires d > 0 && 0 < g < d && a * x + d * y == g && -x == d * q + n
    ensures n * a % d == d - g
  {
    assert n == -x - d * q;
    assert n * a == -(a * x) - d * (q * a) by {
      assert n * a == (-x - d * q) * a;
      assert (-x - d * q) * a == -(x * a) - d * q * a;
    }
    Distribute(d, y, q * a);
    Distribute(d, y - q * a, 1);
    assert n * a == d * (y - q * a - 1) + (d - g);
    DivisionUnique(n * a, d, y - q * a - 1, d - g);
  }

  // ----- Counting up -----

  /** Zero up to `n`, once each. */
  function Upto(n: nat): multiset<nat> {
    if n == 0 then multiset{} else Upto(n - 1) + multiset{n - 1}
  }

  lemma {:induction false} UptoOnce(n: nat, x: nat)
    ensures Upto(n)[x] == if x < n then 1 else 0
  {
    if n == 0 {
    } else {
      UptoOnce(n - 1, x);
    }
  }

  lemma {:induction false} UptoSize(n: nat)
    ensures |Upto(n)| == n
  {
    if n == 0 {
    } else {
      UptoSize(n - 1);
    }
  }
}
