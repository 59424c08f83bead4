/**
  Finite sums of reals, and the few facts about products of reals that the
  calibration proofs rest on.
 */
module Sums {

  function Abs(x: real): real {
    if x < 0.0 then -x else x
  }

  function Square(x: real): real {
    x * x
  }

  // ----- products -----

  lemma {:induction false} MulNonNegative(a: real, b: real)
    requires a >= 0.0 && b >= 0.0
    ensures a * b >= 0.0
  {
  }

  lemma {:induction false} MulPositive(a: real, b: real)
    requires a > 0.0 && b > 0.0
    ensures a * b > 0.0
  {
  }

  lemma {:induction false} SquareNonNegative(a: real)
    ensures Square(a) >= 0.0
  {
    if a < 0.0 {
      MulNonNegative(-a, -a);
      assert a * a == (-a) * (-a);
    }
  }

  lemma {:induction false} SquareMonotone(a: real, b: real)
    requires 0.0 <= a <= b
    ensures Square(a) <= Square(b)
  {
    MulNonNegative(b - a, b + a);
    assert (b - a) * (b + a) == b * b - a * a;
  }

  lemma {:induction false} SquareStrict(a: real, b: real)
    requires 0.0 <= a < b
    ensures Square(a) < Square(b)
  {
    MulPositive(b - a, b + a);
    assert (b - a) * (b + a) == b * b - a * a;
  }

  lemma {:induction false} SmallSquare(e: real)
    requires 0.0 <= e <= 1.0
    ensures 0.0 <= Square(e) <= e
  {
    MulNonNegative(e, e);
    MulNonNegative(e, 1.0 - e);
    assert e * (1.0 - e) == e - e * e;
  }

  lemma {:induction false} CancelPositive(n: real, x: real, y: real)
    requires n > 0.0 && n * x <= n * y
    ensures x <= y
  {
    assert n * (x - y) <= 0.0;
  }

  lemma {:induction false} MultiplyBack(c: real, x: real)
    requires c > 0.0
    ensures c * (x / c) == x
  {
  }

  // ----- multiples -----

  /** The n-fold of x, as repeated addition; it keeps most arguments free of products. */
  function Times(n: nat, x: real): real {
    if n == 0 then 0.0 else Times(n - 1, x) + x
  }

  lemma {:induction false} TimesIsProduct(n: nat, x: real)
    ensures Times(n, x) == n as real * x
  {
    if n > 0 {
      TimesIsProduct(n - 1, x);
    }
  }

  /** Dividing a total by a positive count gives the number whose n-fold is the total. */
  lemma {:induction false} TimesOfMean(n: nat, total: real)
    requires n > 0
    ensures Times(n, total / n as real) == total
  {
    TimesIsProduct(n, total / n as real);
    MultiplyBack(n as real, total);
  }

  lemma {:induction false} TimesMinus(n: nat, x: real, y: real)
    ensures Times(n, x - y) == Times(n, x) - Times(n, y)
  {
    if n > 0 {
      TimesMinus(n - 1, x, y);
    }
  }

  lemma {:induction false} TimesMonotone(n: nat, x: real, y: real)
    requires n > 0
    ensures x <= y <==> Times(n, x) <= Times(n, y)
  {
    if n > 1 {
      TimesMonotone(n - 1, x, y);
    } else {
      assert Times(0, x) == 0.0 == Times(0, y);
    }
  }

  lemma {:induction false} TimesAbs(n: nat, x: real)
    ensures Times(n, Abs(x)) == Abs(Times(n, x))
    ensures x >= 0.0 ==> Times(n, x) >= 0.0
    ensures x <= 0.0 ==> Times(n, x) <= 0.0
  {
    if n > 0 {
      TimesAbs(n - 1, x);
    }
  }

  // ----- sums -----

  function Sum<T>(f: T -> real, xs: seq<T>): real {
    if xs == [] then 0.0 else Sum(f, xs[..|xs| - 1]) + f(xs[|xs| - 1])
  }

  lemma {:induction false} SumSnoc<T>(f: T -> real, xs: seq<T>, x: T)
    ensures Sum(f, xs + [x]) == Sum(f, xs) + f(x)
  {
    assert (xs + [x])[..|xs|] == xs;
  }

  lemma {:induction false} SumMinus<T>(h: T -> real, f: T -> real, g: T -> real, xs: seq<T>)
    requires forall i | 0 <= i < |xs| :: h(xs[i]) == f(xs[i]) - g(xs[i])
    ensures Sum(h, xs) == Sum(f, xs) - Sum(g, xs)
  {
    if xs != [] {
      SumMinus(h, f, g, xs[..|xs| - 1]);
    }
  }

  lemma {:induction false} SumMonotone<T>(f: T -> real, g: T -> real, xs: seq<T>)
    requires forall i | 0 <= i < |xs| :: f(xs[i]) <= g(xs[i])
    ensures Sum(f, xs) <= Sum(g, xs)
  {
    if xs != [] {
      SumMonotone(f, g, xs[..|xs| - 1]);
    }
  }

  lemma {:induction false} SumConstant<T>(f: T -> real, c: real, xs: seq<T>)
    requires forall i | 0 <= i < |xs| :: f(xs[i]) == c
    ensures Sum(f, xs) == Times(|xs|, c)
  {
    if xs != [] {
      SumConstant(f, c, xs[..|xs| - 1]);
    }
  }

  /** The triangle inequality. */
  lemma {:induction false} SumTriangle<T>(f: T -> real, size: T -> real, xs: seq<T>)
    requires forall i | 0 <= i < |xs| :: size(xs[i]) == Abs(f(xs[i]))
    ensures Abs(Sum(f, xs)) <= Sum(size, xs)
  {
    if xs != [] {
      SumTriangle(f, size, xs[..|xs| - 1]);
    }
  }

  lemma {:induction false} SumNonNegative<T>(f: T -> real, xs: seq<T>)
    requires forall i | 0 <= i < |xs| :: f(xs[i]) >= 0.0
    ensures Sum(f, xs) >= 0.0
  {
    if xs != [] {
      SumNonNegative(f, xs[..|xs| - 1]);
    }
  }

  /** One step of the Cauchy-Schwarz induction: from a^2 <= n b follows (a + x)^2 <= (n + 1)(b + x^2). */
  lemma {:induction false} CauchyStep(n: real, a: real, b: real, x: real)
    requires n > 0.0 && a * a <= n * b
    ensures (a + x) * (a + x) <= (n + 1.0) * (b + x * x)
  {
    var d := a - n * x;
    SquareNonNegative(d);
    assert d * d == a * a - 2.0 * n * (a * x) + n * n * (x * x);
    assert 2.0 * n * (a * x) <= n * (b + n * (x * x));
    CancelPositive(n, 2.0 * (a * x), b + n * (x * x));
    assert (a + x) * (a + x) == a * a + 2.0 * (a * x) + x * x;
    assert (n + 1.0) * (b + x * x) == n * b + n * (x * x) + b + x * x;
  }

  /** Cauchy-Schwarz against the constant one: the square of a sum is at most the count times the sum of squares. */
  lemma {:induction false} CauchySchwarz<T>(f: T -> real, square: T -> real, xs: seq<T>)
    requires forall i | 0 <= i < |xs| :: square(xs[i]) == Square(f(xs[i]))
    ensures Square(Sum(f, xs)) <= Times(|xs|, Sum(square, xs))
  {
    if xs != [] {
      var init, x := xs[..|xs| - 1], f(xs[|xs| - 1]);
      CauchySchwarz(f, square, init);
      if |init| == 0 {
        assert Sum(f, init) == 0.0 == Sum(square, init);
      } else {
        TimesIsProduct(|init|, Sum(square, init));
        TimesIsProduct(|xs|, Sum(square, xs));
        CauchyStep(|init| as real, Sum(f, init), Sum(square, init), x);
      }
    }
  }
}
