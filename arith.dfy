/** Aspect-ratio arithmetic of the viewer: Euclid's greatest common divisor and
    the reduced width:height fraction shown for the current image. */
module Arith {
  import opened Wrappers

  /** The reduced aspect ratio of an image, numerator and denominator. */
  datatype Frac = Frac(n1: nat, n2: nat)

  /** d is a positive divisor of n. */
  predicate Divides(d: nat, n: nat) {
    d > 0 && n % d == 0
  }

  /** Euclid's algorithm, as the loop of `gcd` computes it: while n is not zero,
      (n, m) becomes (m mod n, n); the answer is the final m. */
  function Gcd(n: nat, m: nat): nat
    decreases n
  {
    if n == 0 then m else Gcd(m % n, n)
  }

  /** The loop of `gcd`, updating n and m in place until n is zero. */
  method GcdLoop(n0: nat, m0: nat) returns (g: nat)
    ensures g == Gcd(n0, m0)
  {
    var n, m := n0, m0;
    while n != 0
      invariant Gcd(n, m) == Gcd(n0, m0)
      decreases n
    {
      var rem := m % n;
      m := n;
      n := rem;
    }
    g := m;
  }

  /** `reduced_fraction`: width and height divided by their greatest common
      divisor. For 0x0 that divisor is 0 and the division has no result. For
      any other sides the two results, multiplied back by the divisor, give
      the inputs, and they have no common divisor other than 1. */
  function ReducedFraction(n1: nat, n2: nat): (r: Option<Frac>)
    ensures r.None? <==> n1 == 0 && n2 == 0
    ensures r.Some? ==> Divides(Gcd(n1, n2), n1) && Divides(Gcd(n1, n2), n2)
    ensures r.Some? ==> r.value.n1 * Gcd(n1, n2) == n1 && r.value.n2 * Gcd(n1, n2) == n2
    ensures r.Some? ==> Gcd(r.value.n1, r.value.n2) == 1
  {
    var g := Gcd(n1, n2);
    if g == 0 then
      assert n1 == 0 && n2 == 0 by { GcdZero(n1, n2); }
      None
    else
      Reduced(n1, n2);
      Some(Frac(n1 / g, n2 / g))
  }

  /** The gcd is 0 only for 0 and 0. */
  lemma GcdZero(n1: nat, n2: nat)
    ensures Gcd(n1, n2) == 0 ==> n1 == 0 && n2 == 0
  {
    if n1 > 0 || n2 > 0 {
      GcdDivides(n1, n2);
    }
  }

  /** Both sides divided by a positive gcd: multiplied back they give the
      sides, and the quotients are coprime. */
  lemma Reduced(n1: nat, n2: nat)
    requires Gcd(n1, n2) > 0
    ensures Divides(Gcd(n1, n2), n1) && Divides(Gcd(n1, n2), n2)
    ensures (n1 / Gcd(n1, n2)) * Gcd(n1, n2) == n1 && (n2 / Gcd(n1, n2)) * Gcd(n1, n2) == n2
    ensures Gcd(n1 / Gcd(n1, n2), n2 / Gcd(n1, n2)) == 1
  {
    var g := Gcd(n1, n2);
    GcdDivides(n1, n2);
    var a, b := n1 / g, n2 / g;
    assert n1 == g * a && n2 == g * b;
    GcdScale(g, a, b);
    assert g * Gcd(a, b) == g * 1;
  }

  // ---------------------------------------------------------------------------
  // Facts about Euclidean division used by the proofs below.

  lemma MulAtLeast(a: int, d: int)
    requires a >= 1 && d > 0
    ensures a * d >= d
  {
    assert a * d == (a - 1) * d + d;
  }

  /** Quotient and remainder are unique. */
  lemma DivModUnique(x: int, d: int, q: int, r: int)
    requires d > 0 && 0 <= r < d && x == q * d + r
    ensures x / d == q && x % d == r
  {
    var q0, r0 := x / d, x % d;
    assert (q - q0) * d == r0 - r;
    if q > q0 {
      MulAtLeast(q - q0, d);
    } else if q < q0 {
      MulAtLeast(q0 - q, d);
    }
  }

  /** Scaling both operands scales the remainder. */
  lemma ModScale(k: nat, a: nat, b: nat)
    requires k > 0 && a > 0
    ensures (k * b) % (k * a) == k * (b % a)
  {
    var q, r := b / a, b % a;
    assert b == q * a + r;
    assert k * b == q * (k * a) + k * r;
    assert k * r < k * a by {
      MulAtLeast(a - r, k);
      assert (a - r) * k == k * a - k * r;
    }
    DivModUnique(k * b, k * a, q, k * r);
  }

  /** The gcd of a common multiple: Gcd(k*a, k*b) == k * Gcd(a, b). */
  lemma {:induction false} GcdScale(k: nat, a: nat, b: nat)
    requires k > 0
    ensures Gcd(k * a, k * b) == k * Gcd(a, b)
    decreases a
  {
    if a == 0 {
      assert k * a == 0;
    } else {
      assert k * a != 0 by { MulAtLeast(a, k); }
      ModScale(k, a, b);
      GcdScale(k, b % a, a);
    }
  }

  /** The gcd of two numbers that are not both zero divides each of them. */
  lemma {:induction false} GcdDivides(n: nat, m: nat)
    requires n > 0 || m > 0
    ensures Divides(Gcd(n, m), n) && Divides(Gcd(n, m), m)
    decreases n
  {
    if n == 0 {
      assert m % m == 0 by { DivModUnique(m, m, 1, 0); }
      assert 0 % m == 0;
    } else {
      var g := Gcd(m % n, n);
      GcdDivides(m % n, n);
      var a, c := n / g, (m % n) / g;
      assert n == a * g;
      assert m % n == c * g;
      var q := m / n;
      assert m == q * n + m % n;
      assert m == (q * a + c) * g;
      DivModUnique(m, g, q * a + c, 0);
    }
  }

  /** Every common divisor of n and m divides their gcd. */
  lemma {:induction false} GcdGreatest(n: nat, m: nat, d: nat)
    requires Divides(d, n) && Divides(d, m)
    ensures Gcd(n, m) % d == 0
    decreases n
  {
    if n != 0 {
      var q := m / n;
      var a, b := n / d, m / d;
      assert n == a * d && m == b * d;
      assert m % n == m - q * n;
      assert m % n == (b - q * a) * d;
      DivModUnique(m % n, d, b - q * a, 0);
      GcdGreatest(m % n, n, d);
    }
  }

  /** 1920x1080 reduces to 16:9 and a square n x n image to 1:1. */
  lemma ReducedFractionExamples(n: nat)
    requires n > 0
    ensures ReducedFraction(1920, 1080) == Some(Frac(16, 9))
    ensures ReducedFraction(n, n) == Some(Frac(1, 1))
  {
    assert Gcd(1920, 1080) == 120 by {
      assert Gcd(1920, 1080) == Gcd(1080, 1920);
      assert Gcd(1080, 1920) == Gcd(840, 1080);
      assert Gcd(840, 1080) == Gcd(240, 840);
      assert Gcd(240, 840) == Gcd(120, 240);
      assert Gcd(120, 240) == Gcd(0, 120);
    }
    assert n % n == 0 by { DivModUnique(n, n, 1, 0); }
    assert Gcd(n, n) == n;
    DivModUnique(n, n, 1, 0);
  }
}
