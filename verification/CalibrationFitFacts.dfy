/**
  What a fitted calibration guarantees: it is never constant, it never scores worse
  than the default calibration on the samples it was fitted to, and where nothing was
  clamped it is the best of all admissible maps.  Module `CalibrationBest` says exactly
  when it is the best.
 */
module CalibrationFitFacts {
  import opened Sums
  import opened Calibration
  import opened CalibrationFit

  // ----- least squares -----

  lemma {:induction false} ExcessNonNegative(l: Line, a: real, b: real)
    requires l.n > 0.0 && l.xx > 0.0
    ensures Excess(l, a, b) >= 0.0
    ensures Excess(l, l.slope, l.intercept) == 0.0
    ensures (a, b) != (l.slope, l.intercept) ==> Excess(l, a, b) > 0.0
  {
    var d, e := a - l.slope, l.intercept + (l.slope - a) * l.mx - b;
    ScaledSquare(l.xx, d);
    ScaledSquare(l.n, e);
    ScaledSquare(l.xx, 0.0);
    assert l.intercept + (l.slope - l.slope) * l.mx - l.intercept == 0.0;
    ScaledSquare(l.n, 0.0);
    if d == 0.0 {
      assert (l.slope - a) * l.mx == 0.0;
    }
  }

  lemma {:induction false} ScaledSquare(k: real, d: real)
    requires k > 0.0
    ensures k * Square(d) >= 0.0
    ensures d != 0.0 ==> k * Square(d) > 0.0
    ensures d == 0.0 ==> k * Square(d) == 0.0
  {
    SquareNonNegative(d);
    MulNonNegative(k, Square(d));
    if d > 0.0 {
      MulPositive(k, d);
      MulPositive(k * d, d);
      assert k * (d * d) == (k * d) * d;
    } else if d < 0.0 {
      MulPositive(k, -d);
      MulPositive(k * -d, -d);
      assert k * (d * d) == (k * -d) * -d;
    }
  }

  /** The unclamped slope and intercept minimise the squared error over all affine maps, and no other map does. */
  lemma {:induction false} LeastSquares(u: seq<Point>, a: real, b: real)
    requires u != [] && Variance(u) > 0.0
    ensures SquaredResiduals(Slope(u), Intercept(u), u) <= SquaredResiduals(a, b, u)
    ensures (a, b) != (Slope(u), Intercept(u)) ==>
              SquaredResiduals(Slope(u), Intercept(u), u) < SquaredResiduals(a, b, u)
  {
    var l := LineOf(u);
    ExcessNonNegative(l, a, b);
  }

  // ----- residuals and the Brier score -----

  /** The total squared error of a calibration on the usable samples: the count-fold of its Brier score. */
  function BrierTotal(c: Calibration, samples: seq<Sample>): real {
    Sum(SquaredError, Usable(c, samples))
  }

  /** The affine map of the calibration stays within [0, 1] by itself. */
  predicate Admissible(c: Calibration) {
    0.0 <= c.floor <= 1.0 && 0.0 <= c.scale + c.floor <= 1.0
  }

  lemma {:induction false} ClampHelps(z: real, y: real)
    requires y == 0.0 || y == 1.0
    ensures Square(Clamp01(z) - y) <= Square(z - y)
    ensures 0.0 <= z <= 1.0 ==> Square(Clamp01(z) - y) == Square(z - y)
  {
    if z < 0.0 {
      SquareMonotone(y, y - z);
      assert Square(0.0 - y) == Square(y) && Square(z - y) == Square(y - z);
    } else if z > 1.0 {
      SquareMonotone(1.0 - y, z - y);
    }
  }

  lemma {:induction false} AdmissibleMap(c: Calibration, x: real)
    requires Admissible(c) && 0.0 <= x <= 1.0
    ensures 0.0 <= x * c.scale + c.floor <= 1.0
  {
    MulNonNegative(1.0 - x, c.floor);
    MulNonNegative(x, c.scale + c.floor);
    MulNonNegative(1.0 - x, 1.0 - c.floor);
    MulNonNegative(x, 1.0 - (c.scale + c.floor));
    assert (1.0 - x) * c.floor + x * (c.scale + c.floor) == x * c.scale + c.floor;
    assert (1.0 - x) * (1.0 - c.floor) + x * (1.0 - (c.scale + c.floor)) == 1.0 - (x * c.scale + c.floor);
  }

  /** The observation a calibration makes of a sample: its map applied to the confidence, then clamped. */
  function Mapped(m: real -> real, p: Point): Point {
    Point(Clamp01(m(p.x)), p.ok)
  }

  lemma {:induction false} UsableIsMapped(c: Calibration, samples: seq<Sample>)
    ensures |Usable(c, samples)| == |Observations(samples)|
    ensures forall i | 0 <= i < |Observations(samples)| ::
              Usable(c, samples)[i] == Mapped(Affine(c.scale, c.floor), Observations(samples)[i])
  {
    if samples != [] {
      UsableIsMapped(c, samples[..|samples| - 1]);
    }
  }

  lemma {:induction false} Score(m: real -> real, p: Point)
    ensures SquaredError(Mapped(m, p)) <= SquaredResidual(m)(p)
    ensures 0.0 <= m(p.x) <= 1.0 ==> SquaredError(Mapped(m, p)) == SquaredResidual(m)(p)
  {
    var q, y := Mapped(m, p), Y(p);
    ClampHelps(m(p.x), y);
    assert Error(q) == Clamp01(m(p.x)) - y;
    assert SquaredError(q) == Square(Clamp01(m(p.x)) - y);
    assert m(X(p)) == m(p.x);
    assert SquaredResidual(m)(p) == Square(m(X(p)) - y);
  }

  lemma {:induction false} Scores(m: real -> real, us: seq<Point>, u: seq<Point>)
    requires |us| == |u| && forall i | 0 <= i < |u| :: us[i] == Mapped(m, u[i])
    ensures Sum(SquaredError, us) <= Sum(SquaredResidual(m), u)
    ensures (forall i | 0 <= i < |u| :: 0.0 <= m(u[i].x) <= 1.0) ==>
              Sum(SquaredError, us) == Sum(SquaredResidual(m), u)
  {
    if u != [] {
      Scores(m, us[..|us| - 1], u[..|u| - 1]);
      Score(m, u[|u| - 1]);
    }
  }

  /** Clamping the output can only lower the squared error, and does nothing to an admissible map. */
  lemma {:induction false} BrierBelowResiduals(c: Calibration, samples: seq<Sample>)
    ensures |Usable(c, samples)| == |Observations(samples)|
    ensures BrierTotal(c, samples) <= SquaredResiduals(c.scale, c.floor, Observations(samples))
    ensures Admissible(c) ==> BrierTotal(c, samples) == SquaredResiduals(c.scale, c.floor, Observations(samples))
  {
    UsableIsMapped(c, samples);
    Scores(Affine(c.scale, c.floor), Usable(c, samples), Observations(samples));
    if Admissible(c) {
      AdmissibleOn(c, Observations(samples));
    }
  }

  lemma {:induction false} AdmissibleOn(c: Calibration, u: seq<Point>)
    requires Admissible(c) && InUnit(u)
    ensures forall i | 0 <= i < |u| :: 0.0 <= Affine(c.scale, c.floor)(u[i].x) <= 1.0
  {
    forall i | 0 <= i < |u| ensures 0.0 <= Affine(c.scale, c.floor)(u[i].x) <= 1.0 {
      AdmissibleMap(c, u[i].x);
    }
  }

  // ----- the shape of a fitted map -----

  lemma {:induction false} SumZero(u: seq<Point>)
    requires InUnit(u) && Sum(X, u) <= 0.0
    ensures forall i | 0 <= i < |u| :: u[i].x == 0.0
  {
    if u != [] {
      SumNonNegative(X, u[..|u| - 1]);
      SumZero(u[..|u| - 1]);
    }
  }

  lemma {:induction false} ZeroVariance(u: seq<Point>)
    requires u != [] && forall i | 0 <= i < |u| :: u[i].x == 0.0
    ensures Variance(u) == 0.0
  {
    SumConstant(X, 0.0, u);
    TimesIsProduct(|u|, 0.0);
    assert Mean(X, u) == 0.0;
    SumConstant(SquaredDeviation(0.0), 0.0, u);
  }

  /** Confidences that vary cannot all be zero. */
  lemma {:induction false} MeanPositive(u: seq<Point>)
    requires u != [] && InUnit(u) && Variance(u) > 0.0
    ensures Mean(X, u) > 0.0
  {
    if Sum(X, u) <= 0.0 {
      SumZero(u);
      ZeroVariance(u);
    } else {
      QuotientPositive(Sum(X, u), |u| as real);
    }
  }

  lemma {:induction false} QuotientPositive(x: real, n: real)
    requires x > 0.0 && n > 0.0
    ensures x / n > 0.0
  {
  }

  lemma {:induction false} MeanInUnit(f: Point -> real, u: seq<Point>)
    requires u != [] && forall i | 0 <= i < |u| :: 0.0 <= f(u[i]) <= 1.0
    ensures 0.0 <= Mean(f, u) <= 1.0
  {
    SumNonNegative(f, u);
    SumMonotone(f, One, u);
    SumConstant(One, 1.0, u);
    TimesOfMean(|u|, Sum(f, u));
    TimesMonotone(|u|, Mean(f, u), 1.0);
    TimesMonotone(|u|, 0.0, Mean(f, u));
    TimesIsProduct(|u|, 0.0);
  }

  lemma {:induction false} InterceptBelowOne(my: real, s: real, mx: real)
    requires my <= 1.0 && s > 0.0 && mx > 0.0
    ensures my - s * mx < 1.0
  {
    MulPositive(s, mx);
  }

  /** A fitted map is never constant: its scale is at least 0.05 and its floor below one. */
  lemma {:induction false} FittedIsNotConstant(c: Calibration, samples: seq<Sample>)
    requires FitReport(c, samples).Fitted?
    ensures var f := FitReport(c, samples).calibration;
            f.temperature == c.temperature && MIN_SLOPE <= f.scale <= 1.0 && 0.0 <= f.floor < 1.0
  {
    var u := Observations(samples);
    MeanPositive(u);
    MeanInUnit(Y, u);
    InterceptBelowOne(Mean(Y, u), Slope(u), Mean(X, u));
  }

  /** So the gate keeps discriminating: higher confidence never maps lower, and the ends stay apart. */
  lemma {:induction false} FittedIsMonotone(c: Calibration, samples: seq<Sample>, v: real, w: real)
    requires FitReport(c, samples).Fitted? && v <= w
    ensures var f := FitReport(c, samples).calibration;
            && 0.0 <= Apply(f, Finite(v)) <= Apply(f, Finite(w)) <= 1.0
            && Apply(f, Finite(0.0)) < Apply(f, Finite(1.0))
  {
    FittedIsNotConstant(c, samples);
    ApplyMonotone(FitReport(c, samples).calibration, v, w);
  }

  lemma {:induction false} ApplyMonotone(f: Calibration, v: real, w: real)
    requires f.scale > 0.0 && 0.0 <= f.floor < 1.0 && v <= w
    ensures Apply(f, Finite(v)) <= Apply(f, Finite(w))
    ensures Apply(f, Finite(0.0)) < Apply(f, Finite(1.0))
  {
    MulNonNegative(Clamp01(w) - Clamp01(v), f.scale);
    assert Clamp01(w) * f.scale - Clamp01(v) * f.scale == (Clamp01(w) - Clamp01(v)) * f.scale;
    assert 0.0 * f.scale == 0.0;
    assert 1.0 * f.scale == f.scale;
  }

  // ----- never worse than the default -----

  /** Where the map a x + b meets the mean outcome, relative to the line. */
  function Miss(l: Line, a: real, b: real): real {
    l.intercept + (l.slope - a) * l.mx - b
  }

  lemma {:induction false} ExcessCompare(l: Line, a: real, b: real, a': real, b': real)
    requires l.n > 0.0 && l.xx > 0.0
    requires Square(a - l.slope) <= Square(a' - l.slope) && Square(Miss(l, a, b)) <= Square(Miss(l, a', b'))
    ensures Excess(l, a, b) <= Excess(l, a', b')
  {
    ScaleCompare(l.xx, Square(a - l.slope), Square(a' - l.slope));
    ScaleCompare(l.n, Square(Miss(l, a, b)), Square(Miss(l, a', b')));
  }

  lemma {:induction false} ScaleCompare(k: real, x: real, y: real)
    requires k > 0.0 && x <= y
    ensures k * x <= k * y
  {
    MulNonNegative(k, y - x);
    assert k * (y - x) == k * y - k * x;
  }

  lemma {:induction false} SquareOfNegation(x: real)
    ensures Square(-x) == Square(x)
  {
    assert (-x) * (-x) == x * x;
  }

  /** Clamped to the unit square, the line has no more excess than the identity map. */
  lemma {:induction false} ClampedBeatsIdentity(l: Line)
    requires l.n > 0.0 && l.xx > 0.0 && l.mx > 0.0 && l.slope > 0.0 && l.intercept < 1.0
    ensures Excess(l, Clamp01(l.slope), Clamp01(l.intercept)) <= Excess(l, 1.0, 0.0)
  {
    var i, g := l.intercept, (l.slope - 1.0) * l.mx;
    assert Miss(l, 1.0, 0.0) == i + g;
    if l.slope <= 1.0 && i >= 0.0 {
      ExcessNonNegative(l, 1.0, 0.0);
    } else if l.slope <= 1.0 {
      MulNonNegative(1.0 - l.slope, l.mx);
      assert g == -((1.0 - l.slope) * l.mx);
      assert Miss(l, l.slope, 0.0) == i;
      SquareMonotone(-i, -(i + g));
      SquareOfNegation(i);
      SquareOfNegation(i + g);
      SquareNonNegative(1.0 - l.slope);
      ExcessCompare(l, l.slope, 0.0, 1.0, 0.0);
    } else if i >= 0.0 {
      MulNonNegative(l.slope - 1.0, l.mx);
      assert Miss(l, 1.0, i) == g;
      SquareMonotone(g, i + g);
      ExcessCompare(l, 1.0, i, 1.0, 0.0);
    }
  }

  /** On the samples it was fitted to, a fitted calibration never has a larger squared error than the default one. */
  lemma {:induction false} FitBeatsIdentity(c: Calibration, samples: seq<Sample>)
    requires FitReport(c, samples).Fitted?
    ensures BrierTotal(FitReport(c, samples).calibration, samples) <= BrierTotal(Identity, samples)
  {
    var f, u := FitReport(c, samples).calibration, Observations(samples);
    var l := LineOf(u);
    FittedIsNotConstant(c, samples);
    MeanPositive(u);
    MeanInUnit(Y, u);
    InterceptBelowOne(Mean(Y, u), Slope(u), Mean(X, u));
    ClampedBeatsIdentity(l);
    BrierBelowResiduals(f, samples);
    BrierBelowResiduals(Identity, samples);
  }

  /** The same for the Brier scores of the two reports the program publishes. */
  lemma {:induction false} FittedReportNotWorse(c: Calibration, samples: seq<Sample>, fitted: Report, default: Report)
    requires FitReport(c, samples).Fitted?
    requires Describes(fitted, Usable(FitReport(c, samples).calibration, samples))
    requires Describes(default, Usable(Identity, samples))
    ensures fitted.brierScore <= default.brierScore
  {
    FitBeatsIdentity(c, samples);
    UsableIsMapped(FitReport(c, samples).calibration, samples);
    UsableIsMapped(Identity, samples);
    TimesMonotone(|Observations(samples)|, fitted.brierScore, default.brierScore);
  }

  // ----- when the fit is the best admissible map -----

  /** With the intercept not clamped and a slope of at most one, no admissible calibration has a smaller squared error. */
  lemma {:induction false} FitIsBest(c: Calibration, samples: seq<Sample>, other: Calibration)
    requires FitReport(c, samples).Fitted? && Admissible(other)
    requires var u := Observations(samples); Slope(u) <= 1.0 && Intercept(u) >= 0.0
    ensures BrierTotal(FitReport(c, samples).calibration, samples) <= BrierTotal(other, samples)
  {
    var f, u := FitReport(c, samples).calibration, Observations(samples);
    FittedIsNotConstant(c, samples);
    LeastSquares(u, other.scale, other.floor);
    BrierBelowResiduals(f, samples);
    BrierBelowResiduals(other, samples);
  }

  lemma {:induction false} BetterStep(xx: real, n: real, i: real, mx: real, e: real)
    requires e > 0.0 && -(n * (i * mx)) > 0.0 && (xx + n * (mx * mx)) * e <= -(n * (i * mx))
    ensures xx * Square(e) + n * Square(i + e * mx) < n * Square(i)
  {
    var p, d := -(n * (i * mx)), xx + n * (mx * mx);
    ScaleCompare(e, d * e, p);
    MulPositive(e, p);
    assert xx * (e * e) + n * ((i + e * mx) * (i + e * mx)) == n * (i * i) + e * (d * e) - 2.0 * (e * p);
  }

  /** A line with a negative intercept, cut off at zero, is beaten by a flatter line through the origin. */
  lemma {:induction false} BetterMap(l: Line) returns (a: real)
    requires l.n > 0.0 && l.xx > 0.0 && l.mx > 0.0 && 0.0 < l.slope <= 1.0 && l.intercept < 0.0
    ensures 0.0 <= a <= 1.0
    ensures Excess(l, a, 0.0) < Excess(l, l.slope, 0.0)
  {
    var p, d := -(l.n * (l.intercept * l.mx)), l.xx + l.n * (l.mx * l.mx);
    MulPositive(-l.intercept, l.mx);
    MulPositive(l.n, -l.intercept * l.mx);
    assert p == l.n * (-l.intercept * l.mx);
    MulPositive(l.mx, l.mx);
    MulPositive(l.n, l.mx * l.mx);
    var e := if l.slope < p / d then l.slope else p / d;
    QuotientPositive(p, d);
    MultiplyBack(d, p);
    ScaleCompare(d, e, p / d);
    BetterStep(l.xx, l.n, l.intercept, l.mx, e);
    a := l.slope - e;
    assert a - l.slope == -e;
    SquareOfNegation(e);
    assert Miss(l, a, 0.0) == l.intercept + e * l.mx;
    assert Miss(l, l.slope, 0.0) == l.intercept;
    ScaledSquare(l.xx, 0.0);
  }

  /** With a slope of at most one and a negative intercept, some admissible calibration is strictly better than the fit. */
  lemma {:induction false} FitIsBeaten(c: Calibration, samples: seq<Sample>) returns (other: Calibration)
    requires FitReport(c, samples).Fitted?
    requires var u := Observations(samples); Slope(u) <= 1.0 && Intercept(u) < 0.0
    ensures Admissible(other)
    ensures BrierTotal(other, samples) < BrierTotal(FitReport(c, samples).calibration, samples)
  {
    var f, u := FitReport(c, samples).calibration, Observations(samples);
    var l := LineOf(u);
    MeanPositive(u);
    var a := BetterMap(l);
    other := Calibration(c.temperature, a, 0.0);
    BrierBelowResiduals(f, samples);
    BrierBelowResiduals(other, samples);
  }
}
