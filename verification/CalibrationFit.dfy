/**
  Fitting a calibration to labelled samples by least squares, with its two refusals.

  The proofs work on five totals of a sample.  `SquaredResiduals` of any affine map is
  a fixed polynomial in them, so that comparing two maps becomes comparing two numbers.
 */
module CalibrationFit {
  import opened Sums
  import opened Calibration

  datatype Fit =
    | Fitted(calibration: Calibration)
    | TooFewSamples(have: nat, need: nat)
    | Degenerate(slope: real, observedAccuracy: real)

  const MIN_SAMPLES: nat := 30
  const MIN_SLOPE: real := 0.05
  /** The distance from one to the next 32-bit float, two to the power -23. */
  const EPSILON: real := 1.0 / 8388608.0

  /** Samples with a finite confidence, clamped to [0, 1]. */
  function Observations(samples: seq<Sample>): (u: seq<Point>)
    ensures InUnit(u)
  {
    if samples == [] then []
    else
      var s := samples[|samples| - 1];
      Observations(samples[..|samples| - 1]) +
      if s.confidence.Finite? then [Point(Clamp01(s.confidence.value), s.correct)] else []
  }

  function SquaredDeviation(mx: real): Point -> real {
    (p: Point) => Square(X(p) - mx)
  }

  function CoDeviation(mx: real, my: real): Point -> real {
    (p: Point) => (X(p) - mx) * (Y(p) - my)
  }

  function Mean(f: Point -> real, u: seq<Point>): real
    requires u != []
  {
    Sum(f, u) / |u| as real
  }

  function Variance(u: seq<Point>): real
    requires u != []
  {
    Mean(SquaredDeviation(Mean(X, u)), u)
  }

  function Covariance(u: seq<Point>): real
    requires u != []
  {
    Mean(CoDeviation(Mean(X, u), Mean(Y, u)), u)
  }

  function Slope(u: seq<Point>): real
    requires u != [] && Variance(u) > 0.0
  {
    Covariance(u) / Variance(u)
  }

  function Intercept(u: seq<Point>): real
    requires u != [] && Variance(u) > 0.0
  {
    Mean(Y, u) - Slope(u) * Mean(X, u)
  }

  function FitReport(c: Calibration, samples: seq<Sample>): Fit {
    var u := Observations(samples);
    if |u| < MIN_SAMPLES then TooFewSamples(|u|, MIN_SAMPLES)
    else if Variance(u) <= EPSILON then Degenerate(0.0, Mean(Y, u))
    else if Slope(u) < MIN_SLOPE then Degenerate(Slope(u), Mean(Y, u))
    else Fitted(Calibration(c.temperature, Clamp01(Slope(u)), Clamp01(Intercept(u))))
  }

  // ----- squared residuals as a polynomial in the totals -----

  function Affine(a: real, b: real): real -> real {
    (x: real) => x * a + b
  }

  /** How far a map from confidences to predictions misses an outcome, squared. */
  function SquaredResidual(m: real -> real): Point -> real {
    (p: Point) => Square(m(X(p)) - Y(p))
  }

  function SquaredResiduals(a: real, b: real, u: seq<Point>): real {
    Sum(SquaredResidual(Affine(a, b)), u)
  }

  /** Totals of y' = y - my and x' = x - mx: of y'y', x'y', x'x', 1, y' and x'. */
  datatype Totals = Totals(yy: real, xy: real, xx: real, one: real, y: real, x: real)

  function Plus(s: Totals, t: Totals): Totals {
    Totals(s.yy + t.yy, s.xy + t.xy, s.xx + t.xx, s.one + t.one, s.y + t.y, s.x + t.x)
  }

  function PointTotals(mx: real, my: real, p: Point): Totals {
    var x, y := X(p) - mx, Y(p) - my;
    Totals(Square(y), x * y, Square(x), 1.0, y, x)
  }

  function TotalsOf(mx: real, my: real, u: seq<Point>): Totals {
    if u == [] then Totals(0.0, 0.0, 0.0, 0.0, 0.0, 0.0)
    else Plus(TotalsOf(mx, my, u[..|u| - 1]), PointTotals(mx, my, u[|u| - 1]))
  }

  /** The sum of (y' - a x' + c)^2. */
  function Poly(a: real, c: real, t: Totals): real {
    t.yy - 2.0 * (a * t.xy) + (a * a) * t.xx + (c * c) * t.one + 2.0 * (c * t.y) - 2.0 * ((a * c) * t.x)
  }

  lemma {:induction false} PolyPlus(a: real, c: real, s: Totals, t: Totals)
    ensures Poly(a, c, Plus(s, t)) == Poly(a, c, s) + Poly(a, c, t)
  {
    Distribute(a, s.xy, t.xy);
    Distribute(a * a, s.xx, t.xx);
    Distribute(c * c, s.one, t.one);
    Distribute(c, s.y, t.y);
    Distribute(a * c, s.x, t.x);
  }

  lemma {:induction false} Distribute(k: real, x: real, y: real)
    ensures k * (x + y) == k * x + k * y
  {
  }

  lemma {:induction false} PolyPoint(a: real, b: real, mx: real, my: real, c: real, p: Point)
    requires c == my - (a * mx + b)
    ensures SquaredResidual(Affine(a, b))(p) == Poly(a, c, PointTotals(mx, my, p))
  {
    var x, y := X(p) - mx, Y(p) - my;
    Recentre(X(p), Y(p), a, b, mx, my, c);
    ExpandSquare(y, a, x, c);
  }

  lemma {:induction false} Recentre(px: real, py: real, a: real, b: real, mx: real, my: real, c: real)
    requires c == my - (a * mx + b)
    ensures Square(px * a + b - py) == Square((py - my) - a * (px - mx) + c)
  {
    var r := (py - my) - a * (px - mx) + c;
    assert px * a + b - py == -r;
    assert (-r) * (-r) == r * r;
  }

  lemma {:induction false} ExpandSquare(y: real, a: real, x: real, c: real)
    ensures Square(y - a * x + c) == Poly(a, c, Totals(Square(y), x * y, Square(x), 1.0, y, x))
  {
    assert (y - a * x + c) * (y - a * x + c) ==
           y * y - 2.0 * (a * (x * y)) + (a * a) * (x * x) + c * c + 2.0 * (c * y) - 2.0 * ((a * c) * x);
  }

  lemma {:induction false} ResidualsArePoly(a: real, b: real, mx: real, my: real, c: real, u: seq<Point>)
    requires c == my - (a * mx + b)
    ensures SquaredResiduals(a, b, u) == Poly(a, c, TotalsOf(mx, my, u))
  {
    if u != [] {
      var init, p := u[..|u| - 1], u[|u| - 1];
      ResidualsArePoly(a, b, mx, my, c, init);
      PolyPoint(a, b, mx, my, c, p);
      PolyPlus(a, c, TotalsOf(mx, my, init), PointTotals(mx, my, p));
    }
  }

  lemma {:induction false} TotalsAreSums(mx: real, my: real, u: seq<Point>)
    ensures var t := TotalsOf(mx, my, u);
            && t.xx == Sum(SquaredDeviation(mx), u)
            && t.xy == Sum(CoDeviation(mx, my), u)
            && t.one == Times(|u|, 1.0)
            && t.x == Sum(X, u) - Times(|u|, mx)
            && t.y == Sum(Y, u) - Times(|u|, my)
  {
    if u != [] {
      TotalsAreSums(mx, my, u[..|u| - 1]);
    }
  }

  function Centred(u: seq<Point>): Totals
    requires u != []
  {
    TotalsOf(Mean(X, u), Mean(Y, u), u)
  }

  /** Deviations from the mean cancel, and variance and covariance are the second totals over the count. */
  lemma {:induction false} CentredTotals(u: seq<Point>)
    requires u != []
    ensures Centred(u).one == |u| as real && Centred(u).x == 0.0 && Centred(u).y == 0.0
    ensures Centred(u).xx == Times(|u|, Variance(u))
    ensures Centred(u).xy == Times(|u|, Covariance(u))
  {
    var mx, my := Mean(X, u), Mean(Y, u);
    TotalsAreSums(mx, my, u);
    TimesIsProduct(|u|, 1.0);
    TimesOfMean(|u|, Sum(X, u));
    TimesOfMean(|u|, Sum(Y, u));
    TimesOfMean(|u|, Sum(SquaredDeviation(mx), u));
    TimesOfMean(|u|, Sum(CoDeviation(mx, my), u));
  }

  lemma {:induction false} SlopeEquation(u: seq<Point>)
    requires u != [] && Variance(u) > 0.0
    ensures Centred(u).xx > 0.0
    ensures Slope(u) * Centred(u).xx == Centred(u).xy
  {
    CentredTotals(u);
    TimesIsProduct(|u|, Variance(u));
    TimesIsProduct(|u|, Covariance(u));
    MulPositive(|u| as real, Variance(u));
    ScaledQuotient(|u| as real, Covariance(u), Variance(u));
  }

  lemma {:induction false} ScaledQuotient(n: real, c: real, v: real)
    requires v > 0.0
    ensures (c / v) * (n * v) == n * c
  {
    MultiplyBack(v, c);
    assert (c / v) * (n * v) == n * (v * (c / v));
  }

  /** The least-squares line of a sample, with the totals that determine it. */
  datatype Line = Line(n: real, xx: real, least: real, slope: real, intercept: real, mx: real)

  /** How much more squared error the map a x + b has than the least-squares map. */
  function Excess(l: Line, a: real, b: real): real {
    l.xx * Square(a - l.slope) + l.n * Square(l.intercept + (l.slope - a) * l.mx - b)
  }

  /** Every affine map has the least squared error plus its excess. */
  ghost predicate IsLeastSquares(l: Line, u: seq<Point>) {
    && l.n > 0.0 && l.xx > 0.0
    && forall a, b :: SquaredResiduals(a, b, u) == l.least + Excess(l, a, b)
  }

  lemma {:induction false} PolyCentred(a: real, c: real, t: Totals, s: real)
    requires t.x == 0.0 && t.y == 0.0 && s * t.xx == t.xy
    ensures Poly(a, c, t) == t.yy - s * t.xy + (t.xx * Square(a - s) + t.one * Square(c))
  {
    assert t.xx * ((a - s) * (a - s)) == (a * a) * t.xx - 2.0 * (a * (s * t.xx)) + s * (s * t.xx);
  }

  lemma {:induction false} PolyIsExcess(l: Line, t: Totals, a: real, b: real, c: real)
    requires t.x == 0.0 && t.y == 0.0 && l.slope * t.xx == t.xy
    requires l.n == t.one && l.xx == t.xx && l.least == t.yy - l.slope * t.xy
    requires c == l.intercept + (l.slope - a) * l.mx - b
    ensures Poly(a, c, t) == l.least + Excess(l, a, b)
  {
    PolyCentred(a, c, t, l.slope);
  }

  lemma {:induction false} ConstantTerm(my: real, l: Line, a: real, b: real)
    requires l.intercept == my - l.slope * l.mx
    ensures l.intercept + (l.slope - a) * l.mx - b == my - (a * l.mx + b)
  {
  }

  /** The line is the one the centred totals of the sample determine. */
  ghost predicate Solves(l: Line, u: seq<Point>, my: real, t: Totals) {
    && t == TotalsOf(l.mx, my, u) && t.x == 0.0 && t.y == 0.0
    && l.slope * t.xx == t.xy && l.intercept == my - l.slope * l.mx
    && l.n == t.one > 0.0 && l.xx == t.xx > 0.0 && l.least == t.yy - l.slope * t.xy
  }

  lemma {:induction false} Decomposition(l: Line, u: seq<Point>, my: real, t: Totals, a: real, b: real)
    requires Solves(l, u, my, t)
    ensures SquaredResiduals(a, b, u) == l.least + Excess(l, a, b)
  {
    var c := my - (a * l.mx + b);
    ResidualsArePoly(a, b, l.mx, my, c, u);
    ConstantTerm(my, l, a, b);
    PolyIsExcess(l, t, a, b, c);
  }

  lemma {:induction false} SolutionIsLeastSquares(l: Line, u: seq<Point>, my: real, t: Totals)
    requires Solves(l, u, my, t)
    ensures IsLeastSquares(l, u)
  {
    forall a, b ensures SquaredResiduals(a, b, u) == l.least + Excess(l, a, b) {
      Decomposition(l, u, my, t, a, b);
    }
  }

  lemma {:induction false} LineFromTotals(u: seq<Point>, n: real, mx: real, my: real, s: real, i: real, least: real, t: Totals)
    returns (l: Line)
    requires t == TotalsOf(mx, my, u) && t.x == 0.0 && t.y == 0.0
    requires s * t.xx == t.xy && i == my - s * mx && least == t.yy - s * t.xy
    requires n == t.one > 0.0 && t.xx > 0.0
    ensures IsLeastSquares(l, u)
    ensures l.slope == s && l.intercept == i && l.mx == mx && l.n == n && l.xx == t.xx
  {
    l := Line(n, t.xx, least, s, i, mx);
    SolutionIsLeastSquares(l, u, my, t);
  }

  lemma {:induction false} CentredZero(u: seq<Point>)
    requires u != []
    ensures Centred(u).one == |u| as real && Centred(u).x == 0.0 && Centred(u).y == 0.0
  {
    CentredTotals(u);
  }

  lemma {:induction false} CentredSpread(u: seq<Point>)
    requires u != []
    ensures Centred(u).xx == |u| as real * Variance(u)
  {
    CentredTotals(u);
    TimesIsProduct(|u|, Variance(u));
  }

  /** The program's slope and intercept are the coefficients of least squared error. */
  lemma {:induction false} LineOf(u: seq<Point>) returns (l: Line)
    requires u != [] && Variance(u) > 0.0
    ensures IsLeastSquares(l, u)
    ensures l.slope == Slope(u) && l.intercept == Intercept(u) && l.mx == Mean(X, u)
    ensures l.n == |u| as real && l.xx == l.n * Variance(u)
  {
    CentredZero(u);
    CentredSpread(u);
    SlopeEquation(u);
    var t := Centred(u);
    l := LineFromTotals(u, |u| as real, Mean(X, u), Mean(Y, u), Slope(u), Intercept(u), t.yy - Slope(u) * t.xy, t);
  }
}
