/** The arithmetic the engine borrows from the Java runtime: doubles that may
    be NaN, Math.pow, Math.round, and the population variance underlying the
    standard deviations reported by the fitness daemon. */
module Numerics {

  /** A Java double as the engine uses it: a real value or NaN.
      Infinities are not represented. */
  datatype Double = Finite(v: real) | NaN {

    predicate IsNaN() { NaN? }

    /** Java's `d == x` for a constant x: false whenever d is NaN. */
    predicate Equals(x: real) { Finite? && v == x }

    /** Java's `d >= lo && d <= hi`: false whenever d is NaN. */
    predicate Within(lo: real, hi: real) { Finite? && lo <= v <= hi }
  }

  /** |x|, as Math.abs. */
  function Abs(x: real): real { if x < 0.0 then -x else x }

  /** Math.min. */
  function Min(x: real, y: real): real { if x <= y then x else y }

  /** Math.pow(x, n) for a whole-number exponent n. */
  function Pow(x: real, n: nat): real
  {
    if n == 0 then 1.0 else x * Pow(x, n - 1)
  }

  /** Raising a value of [0,1] to any power stays within [0,1]. */
  lemma {:induction false} PowInUnitInterval(x: real, n: nat)
    requires 0.0 <= x <= 1.0
    ensures 0.0 <= Pow(x, n) <= 1.0
  {
    if n > 0 {
      PowInUnitInterval(x, n - 1);
      var p := Pow(x, n - 1);
      ProductBounds(x, p);
    }
  }

  /** A power of a non-negative value is non-negative. */
  lemma {:induction false} PowNonNegative(x: real, n: nat)
    requires x >= 0.0
    ensures Pow(x, n) >= 0.0
  {
    if n > 0 {
      PowNonNegative(x, n - 1);
      var p := Pow(x, n - 1);
      if x > 0.0 && p > 0.0 {
        ProductPositive(x, p, x * p);
      }
    }
  }

  /** The product of two values of [0,1] lies in [0,1] and is at most either. */
  lemma ProductBounds(x: real, y: real)
    requires 0.0 <= x <= 1.0 && 0.0 <= y <= 1.0
    ensures 0.0 <= x * y <= y
  {
    assert (1.0 - x) * y >= 0.0;
  }

  /** A part x of a positive whole u is a fraction in [0,1], which is 1
      exactly when x is all of u and 0 exactly when x is nothing. */
  lemma FractionOfWhole(x: real, u: real)
    requires 0.0 <= x <= u && u > 0.0
    ensures 0.0 <= x / u <= 1.0
    ensures x / u == 1.0 <==> x == u
    ensures x / u == 0.0 <==> x == 0.0
  {
    var q := x / u;
    assert q * u == x;
    if q > 1.0 {
      ProductPositive(q - 1.0, u, (q - 1.0) * u);
    }
    if q < 0.0 {
      ProductPositive(-q, u, (-q) * u);
    }
  }

  /** Division by a positive s distributes over a difference. */
  lemma DivideDifference(a: real, b: real, s: real)
    requires s > 0.0
    ensures (a - b) / s == a / s - b / s
  {
    var x := a / s;
    var y := b / s;
    assert x * s == a && y * s == b;
    assert (x - y) * s == a - b;
  }

  /** Scaling a non-negative a by s in [0,1] keeps it in [0, a]. */
  lemma ScaledDown(a: real, s: real)
    requires a >= 0.0 && 0.0 <= s <= 1.0
    ensures 0.0 <= a * s <= a
  {
    if a > 0.0 && s > 0.0 {
      ProductPositive(a, s, a * s);
    }
    if a > 0.0 && s < 1.0 {
      ProductPositive(a, 1.0 - s, a * (1.0 - s));
    }
  }

  /** A weighted sum of values of [0,1] with non-negative weights lies
      between 0 and the sum of the weights. */
  lemma WeightedSumBounds(wc: real, wn: real, wa: real, c: real, n: real, a: real)
    requires wc >= 0.0 && wn >= 0.0 && wa >= 0.0
    requires 0.0 <= c <= 1.0 && 0.0 <= n <= 1.0 && 0.0 <= a <= 1.0
    ensures 0.0 <= wc * c + wn * n + wa * a <= wc + wn + wa
  {
    var x := wc * c;
    var y := wn * n;
    var z := wa * a;
    ScaledDown(wc, c);
    assert 0.0 <= x <= wc;
    ScaledDown(wn, n);
    assert 0.0 <= y <= wn;
    ScaledDown(wa, a);
    assert 0.0 <= z <= wa;
  }

  /** Scaling a non-negative a by s >= 1 does not make it smaller. */
  lemma ScaledUp(a: real, s: real)
    requires a >= 0.0 && s >= 1.0
    ensures a * s >= a
  {
    if a > 0.0 && s > 1.0 {
      ProductPositive(a, s - 1.0, a * (s - 1.0));
    }
  }

  function Sq(x: real): real { x * x }

  /** The product p of two positive factors is positive. */
  lemma ProductPositive(a: real, b: real, p: real)
    requires p == a * b && a > 0.0 && b > 0.0
    ensures p > 0.0
  {
  }

  /** The square p of a non-zero value is positive. */
  lemma SquarePositive(d: real, p: real)
    requires p == d * d && d != 0.0
    ensures p > 0.0
  {
    if d > 0.0 {
      ProductPositive(d, d, p);
    } else {
      ProductPositive(-d, -d, p);
    }
  }

  lemma SquareNonNegative(d: real, p: real)
    requires p == d * d
    ensures p >= 0.0
  {
    if d != 0.0 {
      SquarePositive(d, p);
    }
  }

  /** For 0 < x < 1 every further power is strictly smaller and still positive. */
  lemma {:induction false} PowStrictlyDecreasing(x: real, n: nat)
    requires 0.0 < x < 1.0
    ensures 0.0 < Pow(x, n + 1) < Pow(x, n)
  {
    var p := Pow(x, n);
    if n > 0 {
      PowStrictlyDecreasing(x, n - 1);
    }
    assert p > 0.0;
    var q := (1.0 - x) * p;
    ProductPositive(1.0 - x, p, q);
    ProductPositive(x, p, x * p);
    assert Pow(x, n + 1) == x * p;
    assert p - x * p == q;
  }

  /** A draw below n stands for itself. */
  lemma ModSmall(i: nat, n: nat)
    requires i < n
    ensures i % n == i
  {
  }

  /** Math.round(x): the nearest whole number, halves rounded up. */
  function Round(x: real): int
  {
    (x + 0.5).Floor
  }

  lemma RoundIsNearest(x: real)
    ensures x - 0.5 < Round(x) as real <= x + 0.5
  {
  }

  function Sum(s: seq<real>): real
  {
    if |s| == 0 then 0.0 else s[0] + Sum(s[1..])
  }

  function Mean(s: seq<real>): real
    requires |s| > 0
  {
    Sum(s) / |s| as real
  }

  /** The sum of the squared distances of the elements of s from m. */
  function SquaredDeviations(s: seq<real>, m: real): real
  {
    if |s| == 0 then 0.0 else Sq(s[0] - m) + SquaredDeviations(s[1..], m)
  }

  /** Population variance: the square of the standard deviation of s. */
  function Variance(s: seq<real>): real
    requires |s| > 0
  {
    SquaredDeviations(s, Mean(s)) / |s| as real
  }

  /** The integer counts of s as reals, as Java widens an int[] element. */
  function AsReals(s: seq<int>): (r: seq<real>)
    ensures |r| == |s|
    ensures forall i :: 0 <= i < |s| ==> r[i] == s[i] as real
  {
    seq(|s|, i requires 0 <= i < |s| => s[i] as real)
  }

  lemma {:induction false} SquaredDeviationsNonNegative(s: seq<real>, m: real)
    ensures SquaredDeviations(s, m) >= 0.0
  {
    if |s| > 0 {
      SquaredDeviationsNonNegative(s[1..], m);
      SquareNonNegative(s[0] - m, Sq(s[0] - m));
    }
  }

  /** One element away from m makes the squared deviations positive. */
  lemma {:induction false} SquaredDeviationsPositive(s: seq<real>, m: real, k: nat)
    requires k < |s| && s[k] != m
    ensures SquaredDeviations(s, m) > 0.0
  {
    if k == 0 {
      SquarePositive(s[0] - m, Sq(s[0] - m));
      SquaredDeviationsNonNegative(s[1..], m);
    } else {
      SquareNonNegative(s[0] - m, Sq(s[0] - m));
      assert s[1..][k - 1] == s[k];
      SquaredDeviationsPositive(s[1..], m, k - 1);
    }
  }

  /** The squared deviations vanish exactly when every element equals m. */
  lemma {:induction false} SquaredDeviationsZero(s: seq<real>, m: real)
    ensures SquaredDeviations(s, m) == 0.0 <==> forall i :: 0 <= i < |s| ==> s[i] == m
  {
    if |s| > 0 {
      if forall i :: 0 <= i < |s| ==> s[i] == m {
        assert forall i :: 0 <= i < |s[1..]| ==> s[1..][i] == m;
        SquaredDeviationsZero(s[1..], m);
        assert s[0] - m == 0.0;
      } else {
        var k :| 0 <= k < |s| && s[k] != m;
        SquaredDeviationsPositive(s, m, k);
      }
    }
  }

  lemma {:induction false} SumOfConstant(s: seq<real>, c: real)
    requires forall i :: 0 <= i < |s| ==> s[i] == c
    ensures Sum(s) == |s| as real * c
  {
    if |s| > 0 {
      assert forall i :: 0 <= i < |s[1..]| ==> s[1..][i] == c;
      SumOfConstant(s[1..], c);
    }
  }

  /** The variance is never negative. */
  lemma VarianceNonNegative(s: seq<real>)
    requires |s| > 0
    ensures Variance(s) >= 0.0
  {
    SquaredDeviationsNonNegative(s, Mean(s));
  }

  /** The variance is zero exactly when all elements are equal. */
  lemma VarianceZeroIffConstant(s: seq<real>)
    requires |s| > 0
    ensures Variance(s) == 0.0 <==> forall i, j :: 0 <= i < |s| && 0 <= j < |s| ==> s[i] == s[j]
  {
    var m := Mean(s);
    SquaredDeviationsZero(s, m);
    if forall i, j :: 0 <= i < |s| && 0 <= j < |s| ==> s[i] == s[j] {
      SumOfConstant(s, s[0]);
      assert m == s[0];
    }
  }
}
