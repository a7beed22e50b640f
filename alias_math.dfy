/**
 * The integer helpers of the Alias utility header: `gcdll`, `lcmll`,
 * `isPrime`, `factorial`, `nCr` and `modpow`.
 *
 * `long long` is modelled as unbounded `int`; where the C++ code would
 * overflow, the model keeps computing exactly.  C++ `%` and `/` truncate
 * toward zero, which `CRem` and `CDiv` write out.
 */
module AliasMath {

  function Abs(x: int): nat { if x < 0 then -x else x }

  // ---------------------------------------------------------------------
  // Division facts the rest of the module leans on
  // ---------------------------------------------------------------------

  lemma {:induction false} MulNonneg(a: int, b: int)
    requires a >= 0 && b >= 0
    ensures a * b >= 0
  {
  }

  /** Euclidean quotient and remainder are unique. */
  lemma {:induction false} DivModUnique(a: int, m: int, q: int, r: int)
    requires m > 0 && 0 <= r < m && a == q * m + r
    ensures a % m == r && a / m == q
  {
    var d := q - a / m;
    assert d * m == a % m - r;
    if d >= 1 {
      MulNonneg(d - 1, m);
      assert false;
    } else if d <= -1 {
      MulNonneg(-d - 1, m);
      assert false;
    }
  }

  lemma {:induction false} MultipleMod(k: int, m: int)
    requires m > 0
    ensures (k * m) % m == 0
  {
    DivModUnique(k * m, m, k, 0);
  }

  /** `d` divides `n`; zero divides only zero. */
  predicate Divides(d: int, n: int)
  {
    if d == 0 then n == 0 else n % Abs(d) == 0
  }

  lemma {:induction false} DividesByMultiple(d: int, n: int, k: int)
    requires n == d * k
    ensures Divides(d, n)
  {
    if d > 0 {
      MultipleMod(k, d);
    } else if d < 0 {
      assert n == (-k) * Abs(d);
      MultipleMod(-k, Abs(d));
    }
  }

  lemma {:induction false} DividesWitness(d: int, n: int) returns (k: int)
    requires Divides(d, n)
    ensures n == d * k
  {
    if d == 0 {
      k := 0;
    } else if d > 0 {
      k := n / d;
    } else {
      k := -(n / Abs(d));
    }
  }

  /** A common divisor of `x` and `y` divides every `x * k + y`. */
  lemma {:induction false} DividesLinear(d: int, x: int, y: int, k: int)
    requires Divides(d, x) && Divides(d, y)
    ensures Divides(d, x * k + y)
  {
    var p := DividesWitness(d, x);
    var q := DividesWitness(d, y);
    assert x * k + y == d * (p * k + q);
    DividesByMultiple(d, x * k + y, p * k + q);
  }

  /** C++ `a % b`: the remainder of truncating division, with the sign of `a`. */
  function CRem(a: int, b: int): (r: int)
    requires b != 0
    ensures Abs(r) < Abs(b)
    ensures a >= 0 ==> 0 <= r
    ensures a <= 0 ==> r <= 0
    ensures a == CDiv(a, b) * b + r
  {
    if a >= 0 then a % Abs(b) else -((-a) % Abs(b))
  }

  /** C++ `a / b`: division truncating toward zero. */
  function CDiv(a: int, b: int): int
    requires b != 0
  {
    var q := Abs(a) / Abs(b);
    if (a < 0) == (b < 0) then q else -q
  }

  // ---------------------------------------------------------------------
  // gcdll and lcmll
  // ---------------------------------------------------------------------

  /** `gcdll`: Euclid's algorithm with the C++ remainder. */
  function Gcd(a: int, b: int): int
    decreases Abs(b)
  {
    if b == 0 then a else Gcd(b, CRem(a, b))
  }

  /** `gcdll(a, 0) == a`, and the result is zero only for two zero arguments. */
  lemma {:induction false} GcdZero(a: int, b: int)
    ensures b == 0 ==> Gcd(a, b) == a
    ensures Gcd(a, b) == 0 <==> a == 0 && b == 0
    decreases Abs(b)
  {
    if b != 0 {
      GcdZero(b, CRem(a, b));
    }
  }

  /** For non-negative arguments the result is a non-negative common divisor. */
  lemma {:induction false} GcdDividesBoth(a: int, b: int)
    requires a >= 0 && b >= 0
    ensures Gcd(a, b) >= 0
    ensures Divides(Gcd(a, b), a) && Divides(Gcd(a, b), b)
    decreases b
  {
    if b == 0 {
      DividesByMultiple(a, a, 1);
      DividesByMultiple(a, 0, 0);
    } else {
      var r := CRem(a, b);
      var q := CDiv(a, b);
      assert a == b * q + r;
      GcdDividesBoth(b, r);
      var g := Gcd(b, r);
      assert Gcd(a, b) == g;
      DividesLinear(g, b, r, q);
    }
  }

  /** ... and it is the greatest one: every common divisor divides it. */
  lemma {:induction false} GcdGreatest(a: int, b: int, d: int)
    requires Divides(d, a) && Divides(d, b)
    ensures Divides(d, Gcd(a, b))
    decreases Abs(b)
  {
    if b != 0 {
      var r := CRem(a, b);
      // r == a - CDiv(a, b) * b
      DividesLinear(d, b, a, -CDiv(a, b));
      assert b * -CDiv(a, b) + a == r;
      GcdGreatest(b, r, d);
    }
  }

  /** `lcmll(a, b) = a / gcdll(a, b) * b`; the C++ code divides by zero when both are zero. */
  function Lcm(a: int, b: int): int
    requires a != 0 || b != 0
  {
    GcdZero(a, b);
    CDiv(a, Gcd(a, b)) * b
  }

  /** For positive arguments `lcmll` is a positive common multiple of both. */
  lemma {:induction false} LcmCommonMultiple(a: int, b: int)
    requires a > 0 && b > 0
    ensures Lcm(a, b) > 0
    ensures Divides(a, Lcm(a, b)) && Divides(b, Lcm(a, b))
  {
    GcdDividesBoth(a, b);
    GcdZero(a, b);
    var g := Gcd(a, b);
    var p := DividesWitness(g, a);
    var q := DividesWitness(g, b);
    DivModUnique(a, g, p, 0);
    assert CDiv(a, g) == p;
    assert p > 0 by {
      if p <= 0 { MulNonneg(g, -p); }
    }
    var l := p * b;
    assert Lcm(a, b) == l;
    MulNonneg(p - 1, b);
    DividesByMultiple(b, l, p);
    assert l == a * q by {
      assert l == p * (g * q);
      assert a * q == (g * p) * q;
    }
    DividesByMultiple(a, l, q);
  }

  // ---------------------------------------------------------------------
  // isPrime
  // ---------------------------------------------------------------------

  /** `n` is prime: at least 2 and without a divisor strictly between 1 and `n`. */
  predicate Prime(n: int)
  {
    n >= 2 && forall d :: 2 <= d < n ==> n % d != 0
  }

  /** No divisor below `i`, and `i * i > n`: then there is no divisor at all. */
  lemma {:induction false} NoSmallFactorMeansPrime(n: int, i: int)
    requires n >= 2 && i >= 2 && i * i > n
    requires forall d :: 2 <= d < i ==> n % d != 0
    ensures Prime(n)
  {
    forall d | 2 <= d < n
      ensures n % d != 0
    {
      if i <= d && n % d == 0 {
        var q := n / d;
        assert n == q * d;
        if q <= 1 {
          MulNonneg(1 - q, d);
          assert false;
        }
        if q >= i {
          MulNonneg(q - i, d);
          MulNonneg(d - i, i);
          assert false;
        }
        DivModUnique(n, q, d, 0);
        assert false;
      }
    }
  }

  /** `isPrime`: trial division by every `i` with `i * i <= n`. */
  method IsPrime(n: int) returns (r: bool)
    ensures r <==> Prime(n)
  {
    if n < 2 {
      return false;
    }
    var i := 2;
    while i * i <= n
      invariant 2 <= i
      invariant forall d :: 2 <= d < i ==> n % d != 0
    {
      if n % i == 0 {
        MulNonneg(i - 1, i);
        return false;
      }
      i := i + 1;
    }
    NoSmallFactorMeansPrime(n, i);
    return true;
  }

  // ---------------------------------------------------------------------
  // factorial and nCr
  // ---------------------------------------------------------------------

  /** `factorial`: 1 for `n <= 1`, otherwise `n * factorial(n - 1)`. */
  function Factorial(n: int): (r: int)
    ensures r >= 1
    ensures n >= 1 ==> r >= n
    decreases if n < 0 then 0 else n
  {
    if n <= 1 then 1 else n * Factorial(n - 1)
  }

  /** Every `k` in `1..n` divides `factorial(n)`. */
  lemma {:induction false} FactorialDivisible(n: int, k: int)
    requires 1 <= k <= n
    ensures Divides(k, Factorial(n))
    decreases n
  {
    if k == n {
      DividesByMultiple(k, Factorial(n), if n <= 1 then 1 else Factorial(n - 1));
    } else {
      FactorialDivisible(n - 1, k);
      var w := DividesWitness(k, Factorial(n - 1));
      assert Factorial(n) == k * (n * w);
      DividesByMultiple(k, Factorial(n), n * w);
    }
  }

  /** Pascal's triangle: the reference definition of the binomial coefficient. */
  function Choose(n: nat, k: nat): nat
  {
    if k == 0 then 1 else if n == 0 then 0 else Choose(n - 1, k - 1) + Choose(n - 1, k)
  }

  /** `nCr`'s meaning: zero outside `0 <= r <= n`, Pascal's triangle inside. */
  function Binomial(n: int, r: int): nat
  {
    if r < 0 || r > n then 0 else Choose(n, r)
  }

  lemma {:induction false} ChooseAboveIsZero(n: nat, k: nat)
    requires k > n
    ensures Choose(n, k) == 0
  {
    if n > 0 {
      ChooseAboveIsZero(n - 1, k - 1);
      ChooseAboveIsZero(n - 1, k);
    }
  }

  lemma {:induction false} ChooseAll(n: nat)
    ensures Choose(n, n) == 1
  {
    if n > 0 {
      ChooseAll(n - 1);
      ChooseAboveIsZero(n - 1, n);
    }
  }

  /** Row `n` of Pascal's triangle reads the same from both ends. */
  lemma {:induction false} ChooseSymmetric(n: nat, k: nat)
    requires k <= n
    ensures Choose(n, k) == Choose(n, n - k)
  {
    if k == 0 || k == n {
      ChooseAll(n);
    } else {
      ChooseSymmetric(n - 1, k - 1);
      ChooseSymmetric(n - 1, k);
      assert Choose(n, n - k) == Choose(n - 1, n - k - 1) + Choose(n - 1, n - k);
    }
  }

  /** `nCr(n, r) == nCr(n, n - r)` for all arguments. */
  lemma {:induction false} BinomialSymmetric(n: int, r: int)
    ensures Binomial(n, r) == Binomial(n, n - r)
  {
    if 0 <= r <= n {
      ChooseSymmetric(n, r);
    }
  }

  /** The falling factorial `n * (n-1) * ... * (n-k+1)`, built from the bottom as the loop does. */
  function Falling(n: int, k: nat): int
  {
    if k == 0 then 1 else Falling(n, k - 1) * (n - k + 1)
  }

  lemma {:induction false} FallingTop(n: int, k: nat)
    requires k >= 1
    ensures Falling(n, k) == n * Falling(n - 1, k - 1)
  {
    if k > 1 {
      FallingTop(n, k - 1);
      assert Falling(n - 1, k - 1) == Falling(n - 1, k - 2) * (n - k + 1);
    }
  }

  /** `n!/(n-k)! == C(n, k) * k!`: why the loop's `num / den` is exact. */
  lemma {:induction false} FallingIsChooseTimesFactorial(n: nat, k: nat)
    requires k <= n
    ensures Falling(n, k) == Choose(n, k) * Factorial(k)
  {
    if k > 0 {
      var f := Falling(n - 1, k - 1);
      var fk1 := Factorial(k - 1);
      var c1, c2 := Choose(n - 1, k - 1), Choose(n - 1, k);
      FallingIsChooseTimesFactorial(n - 1, k - 1);
      if k <= n - 1 {
        FallingIsChooseTimesFactorial(n - 1, k);
      } else {
        ChooseAboveIsZero(n - 1, k);
      }
      PascalStep(n, k, f, c1, c2, fk1);
      FallingTop(n, k);
    }
  }

  /** The arithmetic of the inductive step above, kept apart from the recursive definitions. */
  lemma {:induction false} PascalStep(n: int, k: int, f: int, c1: int, c2: int, fk1: int)
    requires f == c1 * fk1
    requires c2 * (k * fk1) == f * (n - k)
    ensures (c1 + c2) * (k * fk1) == n * f
  {
    assert c1 * (k * fk1) == k * f;
  }

  /** `nCr`: multiply `min(r, n - r)` factors into `num` and `den`, then divide. */
  method NCr(n: int, r: int) returns (c: int)
    ensures c == Binomial(n, r)
  {
    if r < 0 || r > n {
      return 0;
    }
    var s := if n - r < r then n - r else r;
    var num, den := 1, 1;
    var i := 0;
    while i < s
      invariant 0 <= i <= s
      invariant num == Falling(n, i) && den == Factorial(i)
    {
      num := num * (n - i);
      den := den * (i + 1);
      i := i + 1;
    }
    FallingIsChooseTimesFactorial(n, s);
    DivModUnique(num, den, Choose(n, s), 0);
    c := num / den;
    ChooseSymmetric(n, r);
  }

  // ---------------------------------------------------------------------
  // modpow
  // ---------------------------------------------------------------------

  function Pow(b: int, e: nat): int
  {
    if e == 0 then 1 else b * Pow(b, e - 1)
  }

  /** `x` and `y` leave the same remainder modulo `m`. */
  predicate Congruent(x: int, y: int, m: int)
    requires m > 0
  {
    (x - y) % m == 0
  }

  lemma {:induction false} CongruentWitness(x: int, y: int, m: int) returns (k: int)
    requires m > 0 && Congruent(x, y, m)
    ensures x - y == k * m
  {
    k := (x - y) / m;
  }

  lemma {:induction false} CongruentByWitness(x: int, y: int, m: int, k: int)
    requires m > 0 && x - y == k * m
    ensures Congruent(x, y, m)
  {
    MultipleMod(k, m);
  }

  lemma {:induction false} CongruentTrans(x: int, y: int, z: int, m: int)
    requires m > 0 && Congruent(x, y, m) && Congruent(y, z, m)
    ensures Congruent(x, z, m)
  {
    var k1 := CongruentWitness(x, y, m);
    var k2 := CongruentWitness(y, z, m);
    CongruentByWitness(x, z, m, k1 + k2);
  }

  lemma {:induction false} CongruentMul(x: int, x': int, y: int, y': int, m: int)
    requires m > 0 && Congruent(x, x', m) && Congruent(y, y', m)
    ensures Congruent(x * y, x' * y', m)
  {
    var k1 := CongruentWitness(x, x', m);
    var k2 := CongruentWitness(y, y', m);
    assert x * y - x' * y' == x * (y - y') + y' * (x - x');
    assert x * y - x' * y' == (x * k2 + y' * k1) * m;
    CongruentByWitness(x * y, x' * y', m, x * k2 + y' * k1);
  }

  lemma {:induction false} CRemCongruent(a: int, m: int)
    requires m > 0
    ensures Congruent(CRem(a, m), a, m)
  {
    CongruentByWitness(CRem(a, m), a, m, -CDiv(a, m));
  }

  lemma {:induction false} PowCongruent(a: int, a': int, e: nat, m: int)
    requires m > 0 && Congruent(a, a', m)
    ensures Congruent(Pow(a, e), Pow(a', e), m)
  {
    if e == 0 {
      CongruentByWitness(1, 1, m, 0);
    } else {
      PowCongruent(a, a', e - 1, m);
      CongruentMul(a, a', Pow(a, e - 1), Pow(a', e - 1), m);
    }
  }

  lemma {:induction false} PowAdd(b: int, x: nat, y: nat)
    ensures Pow(b, x + y) == Pow(b, x) * Pow(b, y)
  {
    if x > 0 {
      PowAdd(b, x - 1, y);
    }
  }

  lemma {:induction false} PowSquare(b: int, k: nat)
    ensures Pow(b * b, k) == Pow(b, 2 * k)
  {
    if k > 0 {
      PowSquare(b, k - 1);
      PowAdd(b, 2, 2 * k - 2);
    }
  }

  /** One step of square-and-multiply: `b^e == b^(e%2) * (b*b)^(e/2)`. */
  lemma {:induction false} PowHalve(b: int, e: nat)
    ensures Pow(b, e) == (if e % 2 == 1 then b else 1) * Pow(b * b, e / 2)
  {
    PowSquare(b, e / 2);
    PowAdd(b, e % 2, 2 * (e / 2));
  }

  /** One iteration of the `modpow` loop keeps `r * b^k` congruent to the target. */
  lemma {:induction false} ModPowStep(r: int, b: int, k: nat, t: int, m: int)
    requires m > 0 && k > 0 && Congruent(r * Pow(b, k), t, m)
    ensures Congruent((if k % 2 == 1 then CRem(r * b, m) else r) * Pow(CRem(b * b, m), k / 2), t, m)
  {
    var r' := if k % 2 == 1 then CRem(r * b, m) else r;
    var b' := CRem(b * b, m);
    var h := if k % 2 == 1 then b else 1;
    PowHalve(b, k);
    if k % 2 == 1 {
      CRemCongruent(r * b, m);
    } else {
      CongruentByWitness(r', r * h, m, 0);
    }
    CRemCongruent(b * b, m);
    PowCongruent(b', b * b, k / 2, m);
    CongruentMul(r', r * h, Pow(b', k / 2), Pow(b * b, k / 2), m);
    MulAssoc(r, h, Pow(b * b, k / 2));
    CongruentTrans(r' * Pow(b', k / 2), r * Pow(b, k), t, m);
  }

  lemma {:induction false} MulAssoc(x: int, y: int, z: int)
    ensures x * y * z == x * (y * z)
  {
  }

  /** The `modpow` step with the remainders taken by `m` itself, whatever its sign. */
  lemma {:induction false} ModPowStepSigned(r: int, b: int, k: nat, t: int, m: int)
    requires m != 0 && k > 0 && Congruent(r * Pow(b, k), t, Abs(m))
    ensures Congruent((if k % 2 == 1 then CRem(r * b, m) else r) * Pow(CRem(b * b, m), k / 2), t, Abs(m))
  {
    CRemSize(r * b, m);
    CRemSize(b * b, m);
    ModPowStep(r, b, k, t, Abs(m));
  }

  /** A value in `[0, m)` congruent to a non-negative `x` is `x % m`. */
  lemma {:induction false} CongruentRemainder(r: int, x: int, m: int)
    requires m > 0 && 0 <= r < m && x >= 0 && Congruent(r, x, m)
    ensures r == x % m
  {
    var q := CongruentWitness(r, x, m);
    DivModUnique(x, m, -q, r);
  }

  /** C's `%` depends only on the size of the divisor. */
  lemma {:induction false} CRemSize(x: int, m: int)
    requires m != 0
    ensures CRem(x, m) == CRem(x, Abs(m))
  {
  }

  /**
   * `modpow`: square-and-multiply with `% m` after each product.  C's `%`
   * depends only on the size of `m` and keeps the sign of the dividend, so
   * the result is `a^e % m` as C computes it, negative for a negative base
   * raised to an odd power, except for `e == 0, |m| == 1`, where the loop
   * never runs and the initial `1` is returned unreduced.
   */
  method ModPow(a: int, e: int, m: int) returns (r: int)
    requires e >= 0 && m != 0
    ensures Congruent(r, Pow(a, e), Abs(m))
    ensures e > 0 || Abs(m) > 1 ==> r == CRem(Pow(a, e), m)
    ensures e == 0 ==> r == 1
  {
    ghost var n := Abs(m);
    r := 1;
    var b, k := a, e;
    CongruentByWitness(Pow(a, e), Pow(a, e), n, 0);
    while k != 0
      invariant 0 <= k <= e
      invariant Congruent(r * Pow(b, k), Pow(a, e), n)
      invariant k == e ==> b == a && r == 1
      invariant a >= 0 || k < e ==> 0 <= b
      invariant if a < 0 && e % 2 == 1 && k < e then r <= 0 else 0 <= r
      invariant Abs(r) < n || (r == 1 && (e == 0 || k > 0))
      invariant e == 0 ==> k == 0 && r == 1
    {
      ModPowStepSigned(r, b, k, Pow(a, e), m);
      SquareRem(b, m);
      if a >= 0 || k < e {
        ModPowSigns(r, b, m);
      }
      if k % 2 == 1 {
        r := CRem(r * b, m);
      }
      b := CRem(b * b, m);
      k := k / 2;
    }
    ModPowEnd(a, e, m, r, b);
  }

  /** Squaring and reducing gives a non-negative value. */
  lemma {:induction false} SquareRem(b: int, m: int)
    requires m != 0
    ensures 0 <= CRem(b * b, m)
  {
    if b >= 0 {
      MulNonneg(b, b);
    } else {
      MulNonneg(-b, -b);
    }
  }

  /** Multiplying by a non-negative base and reducing keeps the sign of `r`. */
  lemma {:induction false} ModPowSigns(r: int, b: int, m: int)
    requires m != 0 && b >= 0
    ensures r >= 0 ==> CRem(r * b, m) >= 0
    ensures r <= 0 ==> CRem(r * b, m) <= 0
  {
    if r >= 0 {
      MulNonneg(r, b);
    } else {
      MulNonneg(-r, b);
      assert r * b == -((-r) * b);
    }
  }

  /** A negative number to an odd power is negative, to an even power positive. */
  lemma {:induction false} PowSign(a: int, e: nat)
    requires a < 0
    ensures e % 2 == 1 ==> Pow(a, e) < 0
    ensures e % 2 == 0 ==> Pow(a, e) > 0
  {
    if e > 0 {
      PowSign(a, e - 1);
      if e % 2 == 1 {
        MulNonneg(-a, Pow(a, e - 1) - 1);
      } else {
        MulNonneg(-a, -Pow(a, e - 1) - 1);
      }
    }
  }

  /** Congruence survives negating both sides. */
  lemma {:induction false} CongruentNeg(x: int, y: int, m: int)
    requires m > 0 && Congruent(x, y, m)
    ensures Congruent(-x, -y, m)
  {
    var k := CongruentWitness(x, y, m);
    CongruentByWitness(-x, -y, m, -k);
  }

  /**
   * When the `modpow` loop ends, the invariant gives the result: a value
   * below `|m|` in size, congruent to `a^e` and of its sign, is C's remainder.
   */
  lemma {:induction false} ModPowEnd(a: int, e: nat, m: int, r: int, b: int)
    requires m != 0 && Congruent(r * Pow(b, 0), Pow(a, e), Abs(m))
    requires Abs(r) < Abs(m) || (r == 1 && e == 0)
    requires if a < 0 && e % 2 == 1 then r <= 0 else 0 <= r
    requires e == 0 ==> r == 1
    ensures Congruent(r, Pow(a, e), Abs(m))
    ensures e > 0 || Abs(m) > 1 ==> r == CRem(Pow(a, e), m)
  {
    var n := Abs(m);
    assert r * Pow(b, 0) == r;
    if e > 0 || n > 1 {
      if a < 0 && e % 2 == 1 {
        PowSign(a, e);
        CongruentNeg(r, Pow(a, e), n);
        CongruentRemainder(-r, -Pow(a, e), n);
      } else {
        if a < 0 {
          PowSign(a, e);
        } else {
          PowNonneg(a, e);
        }
        CongruentRemainder(r, Pow(a, e), n);
      }
    }
  }

  lemma {:induction false} PowNonneg(b: int, e: nat)
    requires b >= 0
    ensures Pow(b, e) >= 0
  {
    if e > 0 {
      PowNonneg(b, e - 1);
      MulNonneg(b, Pow(b, e - 1));
    }
  }
}
