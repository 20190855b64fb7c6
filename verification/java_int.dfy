/**
 Java's integer arithmetic, as the app uses it.

 Dafny's `/` and `%` on `int` are Euclidean; Java's truncate toward zero.
 Every divisor in the app is a positive constant, a bar count, or a duration
 the caller has checked to be positive, so the helpers here take a positive
 divisor. The float helpers treat Java's float constants as exact rationals.
 */
module JavaInt {

  function Max(a: int, b: int): int { if a >= b then a else b }

  function Min(a: int, b: int): int { if a <= b then a else b }

  /** Java's `a / b` for a positive divisor: the quotient truncated toward zero. */
  function JDiv(a: int, b: int): (q: int)
    requires b > 0
    ensures a >= 0 ==> q == a / b
    ensures a >= 0 ==> q >= 0
    ensures a <= 0 ==> q <= 0
  {
    if a >= 0 then a / b else -((-a) / b)
  }

  /** Java's `a % b` for a positive divisor: the remainder takes the sign of the dividend. */
  function JMod(a: int, b: int): (r: int)
    requires b > 0
    ensures JDiv(a, b) * b + r == a
    ensures a >= 0 ==> 0 <= r < b
    ensures a < 0 ==> -b < r <= 0
  {
    if a >= 0 then a % b else -((-a) % b)
  }

  /** Truncating division is odd in the dividend: negating `a` negates the quotient. */
  lemma JDivOdd(a: int, b: int)
    requires b > 0
    ensures JDiv(-a, b) == -JDiv(a, b)
    ensures JMod(-a, b) == -JMod(a, b)
  {
  }

  /** Java's `(int) x` of a float: truncation toward zero. */
  function Trunc(x: real): (n: int)
    ensures x >= 0.0 ==> n as real <= x < n as real + 1.0
    ensures x <= 0.0 ==> n as real - 1.0 < x <= n as real
  {
    if x >= 0.0 then x.Floor else -((-x).Floor)
  }

  /** Java's `Math.round(x)` of a float: the floor of `x + 1/2`. */
  function Round(x: real): (n: int)
    ensures n as real - 0.5 <= x < n as real + 0.5
  {
    (x + 0.5).Floor
  }

  /** Java's `(int) Math.sqrt(k)`, which is exact for the small sums of squares it is applied to. */
  function FloorSqrt(k: nat): (r: nat)
    ensures r * r <= k < (r + 1) * (r + 1)
    decreases k
  {
    if k < 2 then k
    else
      var t := FloorSqrt(k / 4);
      FloorSqrtStep(k, t);
      if (2 * t + 1) * (2 * t + 1) <= k then 2 * t + 1 else 2 * t
  }

  /** Doubling a root of `k / 4` gives a root of `k` up to one. */
  lemma FloorSqrtStep(k: nat, t: nat)
    requires t * t <= k / 4 < (t + 1) * (t + 1)
    ensures (2 * t) * (2 * t) <= k < (2 * t + 2) * (2 * t + 2)
  {
    assert (2 * t) * (2 * t) == 4 * (t * t);
    assert (2 * t + 2) * (2 * t + 2) == 4 * ((t + 1) * (t + 1));
  }

  /** A floor square root is unique: any `r` with the bracketing property is the one computed. */
  lemma FloorSqrtUnique(k: nat, r: nat)
    requires r * r <= k < (r + 1) * (r + 1)
    ensures FloorSqrt(k) == r
  {
    var s := FloorSqrt(k);
    if s < r {
      MulMono(s + 1, r);
    } else if s > r {
      MulMono(r + 1, s);
    }
  }

  lemma MulLeft(n: nat, a: int, b: int)
    requires a <= b
    ensures n * a <= n * b
  {
  }

  lemma MulSucc(n: int, m: int)
    ensures (n + 1) * m == n * m + m
    ensures m * (n + 1) == m * n + m
  {
  }

  /** Euclidean division brackets its dividend: `q * d <= a < (q + 1) * d`. */
  lemma DivBracket(a: nat, d: nat)
    requires d > 0
    ensures (a / d) * d <= a < (a / d + 1) * d
  {
    MulSucc(a / d, d);
  }

  /** Truncating division brackets its dividend from the side of zero: within one divisor of `q * b`. */
  lemma JDivBracket(a: int, b: int)
    requires b > 0
    ensures a >= 0 ==> JDiv(a, b) * b <= a < JDiv(a, b) * b + b
    ensures a <= 0 ==> JDiv(a, b) * b >= a > JDiv(a, b) * b - b
  {
    if a >= 0 {
      DivBracket(a, b);
      MulSucc(a / b, b);
    } else {
      DivBracket(-a, b);
      MulSucc((-a) / b, b);
    }
  }

  /** A dividend of at most `d * m` has a quotient of at most `m`. */
  lemma DivAtMost(a: nat, d: nat, m: nat)
    requires d > 0 && a <= d * m
    ensures a / d <= m
  {
    if a / d > m {
      DivBracket(a, d);
      MulLeft(d, m + 1, a / d);
      MulSucc(m, d);
    }
  }

  /** A positive factor cancels from both sides of an inequality. */
  lemma MulCancel(a: int, b: int, s: int)
    requires s > 0 && a * s <= b * s
    ensures a <= b
  {
    if a > b {
      MulLeft(s, b + 1, a);
      MulSucc(b, s);
    }
  }

  /** Euclidean division by a positive divisor is monotone in the dividend. */
  lemma DivMonotone(x: nat, y: nat, d: nat)
    requires d > 0 && x <= y
    ensures x / d <= y / d
  {
    DivBracket(x, d);
    DivBracket(y, d);
  }

  lemma RealMulCancel(x: real, y: real, b: real)
    requires b > 0.0 && x * b <= y * b
    ensures x <= y
  {
  }

  lemma RealMulCancelStrict(x: real, y: real, b: real)
    requires b > 0.0 && x * b < y * b
    ensures x < y
  {
  }

  /** Dividing by a positive real keeps the order. */
  lemma RealDivMonotone(x: real, y: real, d: real)
    requires d > 0.0 && x <= y
    ensures x / d <= y / d
  {
    assert (x / d) * d == x && (y / d) * d == y;
    RealMulCancel(x / d, y / d, d);
  }

  /** The floor of an exact quotient of naturals is their Euclidean quotient. */
  lemma FloorOfQuotient(a: nat, b: nat)
    requires b > 0
    ensures (a as real / b as real).Floor == a / b
  {
    var q := a / b;
    var x := a as real / b as real;
    var br := b as real;
    assert x * br == a as real;
    assert (q * b) as real == q as real * br;
    RealMulCancel(q as real, x, br);
    DivBracket(a, b);
    var up := (q + 1) * b;
    assert a < up;
    assert a as real < up as real;
    assert up as real == (q as real + 1.0) * br;
    RealMulCancelStrict(x, q as real + 1.0, br);
  }

  lemma MulMono(a: nat, b: nat)
    requires a <= b
    ensures a * a <= b * b
  {
    assert a * a <= a * b <= b * b;
  }
}
