/** Python's arbitrary-precision integer operators and the integer functions of its math module,
    written out on Dafny's unbounded int. */
module PyInt {

  /** b ** e for a non-negative exponent. */
  function Pow(b: int, e: nat): int
  {
    if e == 0 then 1 else b * Pow(b, e - 1)
  }

  lemma {:induction false} PowNonNegative(b: int, e: nat)
    requires b >= 0
    ensures Pow(b, e) >= 0
  {
    if e > 0 {
      PowNonNegative(b, e - 1);
    }
  }

  /** a // b: the quotient rounded towards negative infinity (Dafny's / rounds so that the
      remainder is non-negative, which differs when b < 0). */
  function FloorDiv(a: int, b: int): int
    requires b != 0
  {
    if b > 0 then a / b else (-a) / (-b)
  }

  /** a % b: the remainder that goes with FloorDiv, so it takes the sign of the divisor. */
  function Mod(a: int, b: int): int
    requires b != 0
  {
    a - b * FloorDiv(a, b)
  }

  /** Floor division and modulo fit together, and the remainder lies between zero and the divisor. */
  lemma FloorDivMod(a: int, b: int)
    requires b != 0
    ensures a == b * FloorDiv(a, b) + Mod(a, b)
    ensures b > 0 ==> 0 <= Mod(a, b) < b
    ensures b < 0 ==> b < Mod(a, b) <= 0
  {
    if b < 0 {
      var q := (-a) / (-b);
      var r := (-a) % (-b);
      assert -a == (-b) * q + r && 0 <= r < -b;
      assert Mod(a, b) == a - b * q == -r;
    }
  }

  /** They are the only such pair: any quotient and remainder with the divisor's sign are
      FloorDiv and Mod, which is how Python defines // and %. */
  lemma FloorDivModUnique(a: int, b: int, q: int, r: int)
    requires b != 0
    requires a == b * q + r
    requires b > 0 ==> 0 <= r < b
    requires b < 0 ==> b < r <= 0
    ensures FloorDiv(a, b) == q && Mod(a, b) == r
  {
    FloorDivMod(a, b);
    var q', r' := FloorDiv(a, b), Mod(a, b);
    assert b * (q - q') == r' - r;
    if q < q' {
      MulAtLeast(b, q' - q);
    } else if q > q' {
      MulAtLeast(b, q - q');
    }
  }

  lemma MulAtLeast(b: int, k: int)
    requires k >= 1
    ensures b > 0 ==> b * k >= b
    ensures b < 0 ==> b * k <= b
  {
  }

  /** math.factorial(n) for n >= 0. */
  function Factorial(n: nat): (r: nat)
    ensures r >= 1
  {
    if n == 0 then 1 else n * Factorial(n - 1)
  }

  /** math.perm(n, k): the number of ordered selections of k items out of n, zero when k > n. */
  function Perm(n: nat, k: nat): nat
  {
    if k == 0 then 1 else if n == 0 then 0 else n * Perm(n - 1, k - 1)
  }

  /** math.comb(n, k): the number of k-element subsets of n items, zero when k > n. */
  function Comb(n: nat, k: nat): nat
  {
    if k == 0 then 1 else if n == 0 then 0 else Comb(n - 1, k - 1) + Comb(n - 1, k)
  }

  lemma {:induction false} PermAndCombBeyondN(n: nat, k: nat)
    requires k > n
    ensures Perm(n, k) == 0 && Comb(n, k) == 0
  {
    if n > 0 {
      PermAndCombBeyondN(n - 1, k - 1);
      PermAndCombBeyondN(n - 1, k);
    }
  }

  lemma {:induction false} PermAllIsFactorial(n: nat)
    ensures Perm(n, n) == Factorial(n)
  {
    if n > 0 {
      PermAllIsFactorial(n - 1);
    }
  }

  lemma {:induction false} CombAll(n: nat)
    ensures Comb(n, n) == 1
  {
    if n > 0 {
      CombAll(n - 1);
      PermAndCombBeyondN(n - 1, n);
    }
  }

  function Mul(d: int, k: int): int { d * k }

  /** d divides n. */
  ghost predicate Divides(d: nat, n: nat) {
    exists k: nat :: n == Mul(d, k)
  }

  /** The greatest common divisor by Euclid's algorithm; Gcd(0, 0) == 0 as in math.gcd. */
  function Gcd(a: nat, b: nat): (g: nat)
    ensures a > 0 || b > 0 ==> g > 0
    decreases b
  {
    if b == 0 then a else Gcd(b, a % b)
  }

  lemma {:induction false} GcdDividesBoth(a: nat, b: nat)
    ensures Divides(Gcd(a, b), a) && Divides(Gcd(a, b), b)
    decreases b
  {
    var g := Gcd(a, b);
    if b == 0 {
      assert a == Mul(a, 1) && 0 == Mul(a, 0);
    } else {
      GcdDividesBoth(b, a % b);
      assert g == Gcd(b, a % b);
      EuclidStep(g, a, b);
    }
  }

  /** A divisor of b and of a % b divides a. */
  lemma EuclidStep(g: nat, a: nat, b: nat)
    requires b > 0 && Divides(g, b) && Divides(g, a % b)
    ensures Divides(g, a)
  {
    var k1: nat :| b == Mul(g, k1);
    var k2: nat :| a % b == Mul(g, k2);
    var q: nat := a / b;
    MulSum(g, k1, q, k2);
    assert a == b * q + a % b;
    assert a == Mul(g, k1 * q + k2);
  }

  /** g*k1*q + g*k2 == g*(k1*q + k2), the step of Euclid's algorithm. */
  lemma MulSum(g: int, k1: nat, q: nat, k2: nat)
    ensures Mul(g, k1) * q + Mul(g, k2) == Mul(g, k1 * q + k2)
  {
    assert g * k1 * q == g * (k1 * q);
  }

  lemma MulDifference(d: int, ka: int, kb: int, q: int)
    ensures Mul(d, ka) - Mul(d, kb) * q == Mul(d, ka - kb * q)
  {
    assert d * kb * q == d * (kb * q);
  }

  lemma NonNegativeFactor(d: int, x: int)
    requires d > 0 && d * x >= 0
    ensures x >= 0
  {
    if x < 0 {
      MulAtLeast(d, -x);
    }
  }

  lemma {:induction false} CommonDivisorDividesGcd(a: nat, b: nat, d: nat)
    requires Divides(d, a) && Divides(d, b)
    ensures Divides(d, Gcd(a, b))
    decreases b
  {
    if b != 0 {
      var ka: nat :| a == Mul(d, ka);
      var kb: nat :| b == Mul(d, kb);
      var q := a / b;
      var r := a % b;
      assert r == a - b * q;
      MulDifference(d, ka, kb, q);
      assert r == Mul(d, ka - kb * q);
      assert d > 0;
      NonNegativeFactor(d, ka - kb * q);
      var k: nat := ka - kb * q;
      assert r == Mul(d, k);
      CommonDivisorDividesGcd(b, r, d);
    }
  }

  /** The least common multiple as math.lcm computes it: zero if either argument is zero. */
  function Lcm(a: nat, b: nat): nat
  {
    if a == 0 || b == 0 then 0 else a / Gcd(a, b) * b
  }

  /** math.lcm(a, b) is a common multiple of a and b. */
  lemma LcmIsCommonMultiple(a: nat, b: nat)
    ensures Divides(a, Lcm(a, b)) && Divides(b, Lcm(a, b))
  {
    if a == 0 || b == 0 {
      assert 0 == Mul(a, 0) && 0 == Mul(b, 0);
    } else {
      var g := Gcd(a, b);
      GcdDividesBoth(a, b);
      var p: nat :| a == Mul(g, p);
      var q: nat :| b == Mul(g, q);
      LcmOfFactors(g, p, q);
    }
  }

  /** With a == g * p and b == g * q, a / g * b is both a * q and b * p. */
  lemma LcmOfFactors(g: nat, p: nat, q: nat)
    requires g > 0
    ensures (g * p) / g * (g * q) == Mul(g * p, q)
    ensures (g * p) / g * (g * q) == Mul(g * q, p)
  {
    FloorDivModUnique(g * p, g, p, 0);
    assert (g * p) / g == p;
    Regroup(g, p, q);
  }

  lemma Regroup(g: int, p: int, q: int)
    ensures p * (g * q) == Mul(g * p, q) && p * (g * q) == Mul(g * q, p)
  {
  }

  /** math.lcm(a, b) is the least common multiple: it divides every common multiple of a and b. */
  lemma LcmIsLeast(a: nat, b: nat, c: nat)
    requires Divides(a, c) && Divides(b, c)
    ensures Divides(Lcm(a, b), c)
  {
    if a == 0 {
      var x: nat :| c == Mul(a, x);
      assert c == Mul(0, 0);
    } else if b == 0 {
      var y: nat :| c == Mul(b, y);
      assert c == Mul(0, 0);
    } else {
      var g := Gcd(a, b);
      GcdDividesBoth(a, b);
      var p: nat :| a == Mul(g, p);
      var q: nat :| b == Mul(g, q);
      var x: nat :| c == Mul(a, x);
      var y: nat :| c == Mul(b, y);
      ScaledMultiple(a, b, c, y);
      ScaledMultiple(b, a, c, x);
      CommonDivisorDividesGcd(c * a, c * b, a * b);
      GcdScale(c, a, b);
      var k: nat :| c * g == Mul(a * b, k);
      LcmOfFactors(g, p, q);
      CancelCommonFactor(c, g, p, q, k);
    }
  }

  /** With c == b * y, c * a == (a * b) * y. */
  lemma ScaledMultiple(a: nat, b: nat, c: nat, y: nat)
    requires c == Mul(b, y)
    ensures Divides(a * b, c * a)
  {
    assert c * a == (b * y) * a == (a * b) * y;
    assert c * a == Mul(a * b, y);
  }

  /** From c * g == (g * p) * (g * q) * k with g > 0 follows c == (g * p * q) * k. */
  lemma CancelCommonFactor(c: nat, g: nat, p: nat, q: nat, k: nat)
    requires g > 0 && c * g == Mul(Mul(g, p) * Mul(g, q), k)
    ensures Divides(Mul(g * p, q), c)
  {
    var l := g * p * q * k;
    assert c * g == l * g;
    Cancel(c, l, g);
    assert c == Mul(Mul(g * p, q), k);
  }

  lemma Cancel(x: int, y: int, g: int)
    requires g > 0 && x * g == y * g
    ensures x == y
  {
    if x < y {
      MulAtLeast(g, y - x);
    } else if x > y {
      MulAtLeast(g, x - y);
    }
  }

  /** gcd(m * a, m * b) == m * gcd(a, b). */
  lemma {:induction false} GcdScale(m: nat, a: nat, b: nat)
    ensures Gcd(m * a, m * b) == m * Gcd(a, b)
    decreases b
  {
    if m == 0 {
      assert m * a == 0 && m * b == 0;
    } else if b == 0 {
      assert m * b == 0;
    } else {
      ModScale(m, a, b);
      GcdScale(m, b, a % b);
    }
  }

  /** (m * a) % (m * b) == m * (a % b). */
  lemma ModScale(m: nat, a: nat, b: nat)
    requires m > 0 && b > 0
    ensures m * b > 0 && (m * a) % (m * b) == m * (a % b)
  {
    var q, r := a / b, a % b;
    assert m * a == (m * b) * q + m * r by {
      assert a == b * q + r;
    }
    MulAtLeast(m, b - r);
    assert m * (b - r) == m * b - m * r;
    FloorDivModUnique(m * a, m * b, q, m * r);
  }

  function Abs(x: int): nat { if x < 0 then -x else x }

  /** math.gcd(*xs): folds Gcd over the absolute values, starting from gcd() == 0. */
  function GcdAll(xs: seq<int>): nat
  {
    if xs == [] then 0 else Gcd(GcdAll(xs[..|xs| - 1]), Abs(xs[|xs| - 1]))
  }

  /** math.lcm(*xs): folds Lcm over the absolute values, starting from lcm() == 1. */
  function LcmAll(xs: seq<int>): nat
  {
    if xs == [] then 1 else Lcm(LcmAll(xs[..|xs| - 1]), Abs(xs[|xs| - 1]))
  }

  /** math.gcd(*xs) divides every argument. */
  lemma {:induction false} GcdAllDividesEach(xs: seq<int>, i: nat)
    requires i < |xs|
    ensures Divides(GcdAll(xs), Abs(xs[i]))
  {
    var init := xs[..|xs| - 1];
    var g := GcdAll(init);
    GcdDividesBoth(g, Abs(xs[|xs| - 1]));
    if i < |xs| - 1 {
      GcdAllDividesEach(init, i);
      assert init[i] == xs[i];
      DividesTransitive(GcdAll(xs), g, Abs(xs[i]));
    }
  }

  /** math.gcd(*xs) is the greatest such divisor: every common divisor of the arguments divides it. */
  lemma {:induction false} GcdAllIsGreatest(xs: seq<int>, d: nat)
    requires forall i :: 0 <= i < |xs| ==> Divides(d, Abs(xs[i]))
    ensures Divides(d, GcdAll(xs))
  {
    if xs == [] {
      assert 0 == Mul(d, 0);
    } else {
      var init := xs[..|xs| - 1];
      assert forall i :: 0 <= i < |init| ==> init[i] == xs[i];
      GcdAllIsGreatest(init, d);
      CommonDivisorDividesGcd(GcdAll(init), Abs(xs[|xs| - 1]), d);
    }
  }

  /** math.lcm(*xs) is a multiple of every argument. */
  lemma {:induction false} LcmAllDividedByEach(xs: seq<int>, i: nat)
    requires i < |xs|
    ensures Divides(Abs(xs[i]), LcmAll(xs))
  {
    var init := xs[..|xs| - 1];
    var l := LcmAll(init);
    LcmIsCommonMultiple(l, Abs(xs[|xs| - 1]));
    if i < |xs| - 1 {
      LcmAllDividedByEach(init, i);
      assert init[i] == xs[i];
      DividesTransitive(Abs(xs[i]), l, LcmAll(xs));
    }
  }

  /** math.lcm(*xs) divides every common multiple of the arguments. */
  lemma {:induction false} LcmAllIsLeast(xs: seq<int>, m: nat)
    requires forall i :: 0 <= i < |xs| ==> Divides(Abs(xs[i]), m)
    ensures Divides(LcmAll(xs), m)
  {
    if xs == [] {
      assert m == Mul(1, m);
    } else {
      var init := xs[..|xs| - 1];
      assert forall i :: 0 <= i < |init| ==> init[i] == xs[i];
      LcmAllIsLeast(init, m);
      LcmIsLeast(LcmAll(init), Abs(xs[|xs| - 1]), m);
    }
  }

  lemma DividesTransitive(a: nat, b: nat, c: nat)
    requires Divides(a, b) && Divides(b, c)
    ensures Divides(a, c)
  {
    var k1: nat :| b == Mul(a, k1);
    var k2: nat :| c == Mul(b, k2);
    assert c == a * k1 * k2 == a * (k1 * k2);
    assert c == Mul(a, k1 * k2);
  }

  /** The sum of a list of ints. */
  function Total(xs: seq<int>): int
  {
    if xs == [] then 0 else xs[0] + Total(xs[1..])
  }

  /** The smallest element of a non-empty list (min(*xs) on ints). */
  function Min(xs: seq<int>): (m: int)
    requires |xs| > 0
    ensures m in xs
    ensures forall i :: 0 <= i < |xs| ==> m <= xs[i]
  {
    if |xs| == 1 then xs[0]
    else var rest := Min(xs[1..]); if xs[0] <= rest then xs[0] else rest
  }

  /** The largest element of a non-empty list (max(*xs) on ints). */
  function Max(xs: seq<int>): (m: int)
    requires |xs| > 0
    ensures m in xs
    ensures forall i :: 0 <= i < |xs| ==> m >= xs[i]
  {
    if |xs| == 1 then xs[0]
    else var rest := Max(xs[1..]); if xs[0] >= rest then xs[0] else rest
  }
}
