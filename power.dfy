/** Whole-number powers over the reals: the part of `Math.pow` the EMI
    formula needs, since the loan term is a whole number of months. */
module Power {

  /** `b` raised to the whole exponent `n`. */
  function Pow(b: real, n: nat): real
  {
    if n == 0 then 1.0 else b * Pow(b, n - 1)
  }

  /** The geometric sum 1 + g + g^2 + ... + g^(n-1). */
  function GeometricSum(g: real, n: nat): real
  {
    if n == 0 then 0.0 else GeometricSum(g, n - 1) + Pow(g, n - 1)
  }

  /** Exponents add when powers of the same base multiply. */
  lemma {:induction false} PowAdd(b: real, m: nat, n: nat)
    ensures Pow(b, m + n) == Pow(b, m) * Pow(b, n)
  {
    if m > 0 {
      PowAdd(b, m - 1, n);
      assert Pow(b, m + n) == b * Pow(b, m - 1 + n);
    }
  }

  /** Every power of one is one. */
  lemma {:induction false} PowOfOne(n: nat)
    ensures Pow(1.0, n) == 1.0
  {
    if n > 0 {
      PowOfOne(n - 1);
    }
  }

  /** A power of a positive base is positive. */
  lemma {:induction false} PowPositive(b: real, n: nat)
    requires b > 0.0
    ensures Pow(b, n) > 0.0
  {
    if n > 0 {
      PowPositive(b, n - 1);
    }
  }

  /** A power of a non-negative base is non-negative. */
  lemma {:induction false} PowNonNegative(b: real, n: nat)
    requires b >= 0.0
    ensures Pow(b, n) >= 0.0
  {
    if n > 0 {
      PowNonNegative(b, n - 1);
    }
  }

  /** For a positive exponent, raising to it is strictly increasing on the non-negative reals. */
  lemma {:induction false} PowStrictlyIncreasingInBase(a: real, b: real, n: nat)
    requires 0.0 <= a < b
    requires n >= 1
    ensures Pow(a, n) < Pow(b, n)
  {
    if n > 1 {
      PowStrictlyIncreasingInBase(a, b, n - 1);
      PowNonNegative(a, n - 1);
      assert a * Pow(a, n - 1) <= a * Pow(b, n - 1);
      assert a * Pow(b, n - 1) < b * Pow(b, n - 1);
    }
  }

  /** A base above one gives powers above one. */
  lemma PowAboveOne(b: real, n: nat)
    requires b > 1.0
    requires n >= 1
    ensures Pow(b, n) > 1.0
  {
    PowStrictlyIncreasingInBase(1.0, b, n);
    PowOfOne(n);
  }

  /** A base in [0, 1) gives powers below one. */
  lemma PowBelowOne(b: real, n: nat)
    requires 0.0 <= b < 1.0
    requires n >= 1
    ensures Pow(b, n) < 1.0
  {
    PowStrictlyIncreasingInBase(b, 1.0, n);
    PowOfOne(n);
  }

  /** Negating the base flips the sign of odd powers and keeps even ones. */
  lemma {:induction false} PowOfNegated(b: real, n: nat)
    ensures Pow(-b, n) == if n % 2 == 0 then Pow(b, n) else -Pow(b, n)
  {
    if n > 0 {
      PowOfNegated(b, n - 1);
    }
  }

  /** For a positive exponent, a power equals one exactly when the base is
      one, or the base is minus one and the exponent is even. */
  lemma PowIsOneIff(g: real, n: nat)
    requires n >= 1
    ensures Pow(g, n) == 1.0 <==> g == 1.0 || (g == -1.0 && n % 2 == 0)
  {
    var a := if g < 0.0 then -g else g;
    PowOfNegated(a, n);
    PowNonNegative(a, n);
    assert Pow(g, n) == Pow(a, n) || Pow(g, n) == -Pow(a, n);
    if a < 1.0 {
      PowBelowOne(a, n);
    } else if a > 1.0 {
      PowAboveOne(a, n);
    } else {
      PowOfOne(n);
    }
  }

  /** The closed form of the geometric sum: g^n - 1 == (g - 1)(1 + g + ... + g^(n-1)). */
  lemma {:induction false} GeometricSumClosedForm(g: real, n: nat)
    ensures Pow(g, n) - 1.0 == (g - 1.0) * GeometricSum(g, n)
  {
    if n > 0 {
      GeometricSumClosedForm(g, n - 1);
      assert Pow(g, n) - 1.0 == (g - 1.0) * Pow(g, n - 1) + (Pow(g, n - 1) - 1.0);
    }
  }

  /** A geometric sum of a positive ratio over n terms is positive when n >= 1. */
  lemma {:induction false} GeometricSumPositive(g: real, n: nat)
    requires g > 0.0
    requires n >= 1
    ensures GeometricSum(g, n) > 0.0
  {
    PowPositive(g, n - 1);
    if n > 1 {
      GeometricSumPositive(g, n - 1);
    }
  }

  /** Each geometric sum is one more than its ratio times the sum one term shorter:
      1 + g + ... + g^(n-1) == 1 + g(1 + g + ... + g^(n-2)). */
  lemma {:induction false} GeometricSumShift(g: real, n: nat)
    requires n >= 1
    ensures GeometricSum(g, n) == 1.0 + g * GeometricSum(g, n - 1)
  {
    if n > 1 {
      GeometricSumShift(g, n - 1);
      var shorter, last := GeometricSum(g, n - 2), Pow(g, n - 2);
      assert GeometricSum(g, n) == 1.0 + g * shorter + g * last;
      assert g * shorter + g * last == g * (shorter + last);
    }
  }

  /** The power sum v + v^2 + ... + v^n; with v the one-period discount
      factor 1/(1 + r), it is the present value of n unit payments. */
  function PowerSum(v: real, n: nat): real
  {
    if n == 0 then 0.0 else PowerSum(v, n - 1) + Pow(v, n)
  }

  /** Powers distribute over a product of bases. */
  lemma {:induction false} PowOfProduct(a: real, b: real, n: nat)
    ensures Pow(a, n) * Pow(b, n) == Pow(a * b, n)
  {
    if n > 0 {
      PowOfProduct(a, b, n - 1);
      var x, y := Pow(a, n - 1), Pow(b, n - 1);
      assert Pow(a, n) == a * x;
      assert Pow(b, n) == b * y;
      assert Pow(a * b, n) == (a * b) * (x * y);
      assert (a * x) * (b * y) == (a * b) * (x * y);
    }
  }

  /** Discounting n powers of 1/g back by g^n gives the geometric sum:
      g^n (1/g + ... + 1/g^n) == 1 + g + ... + g^(n-1). */
  lemma {:induction false} PowTimesPowerSumOfInverse(g: real, n: nat)
    requires g != 0.0
    ensures Pow(g, n) * PowerSum(1.0 / g, n) == GeometricSum(g, n)
  {
    if n > 0 {
      var v := 1.0 / g;
      PowTimesPowerSumOfInverse(g, n - 1);
      PowOfProduct(g, v, n);
      assert g * v == 1.0;
      PowOfOne(n);
      GeometricSumShift(g, n);
      var head, rest := Pow(g, n - 1), PowerSum(v, n - 1);
      assert Pow(g, n) * PowerSum(v, n) == (g * head) * (rest + Pow(v, n));
      assert (g * head) * (rest + Pow(v, n)) == g * (head * rest) + Pow(g, n) * Pow(v, n);
    }
  }

  /** A power sum over a positive ratio with at least one term is positive. */
  lemma {:induction false} PowerSumPositive(v: real, n: nat)
    requires v > 0.0
    requires n >= 1
    ensures PowerSum(v, n) > 0.0
  {
    PowPositive(v, n);
    if n > 1 {
      PowerSumPositive(v, n - 1);
    }
  }

  /** Power sums with at least one term are strictly increasing in the ratio. */
  lemma {:induction false} PowerSumStrictlyIncreasingInBase(u: real, w: real, n: nat)
    requires 0.0 <= u < w
    requires n >= 1
    ensures PowerSum(u, n) < PowerSum(w, n)
  {
    PowStrictlyIncreasingInBase(u, w, n);
    if n > 1 {
      PowerSumStrictlyIncreasingInBase(u, w, n - 1);
    }
  }

  /** With a ratio in [0, 1), each of the n terms is below one, so the sum is below n. */
  lemma {:induction false} PowerSumBelowCount(v: real, n: nat)
    requires 0.0 <= v < 1.0
    requires n >= 1
    ensures PowerSum(v, n) < n as real
  {
    PowBelowOne(v, n);
    if n > 1 {
      PowerSumBelowCount(v, n - 1);
    }
  }

  /** With a ratio above one, each of the n terms is above one, so the sum is above n. */
  lemma {:induction false} PowerSumAboveCount(v: real, n: nat)
    requires v > 1.0
    requires n >= 1
    ensures PowerSum(v, n) > n as real
  {
    PowAboveOne(v, n);
    if n > 1 {
      PowerSumAboveCount(v, n - 1);
    }
  }

  /** Multiplying by a positive factor keeps a strict order. */
  lemma MulStrictlyIncreasing(c: real, x: real, y: real)
    requires c > 0.0
    requires x < y
    ensures c * x < c * y
  {
  }
}
