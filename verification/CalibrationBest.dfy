/**
  Exactly when a fitted calibration is the best of all admissible ones on its samples.

  An admissible map a x + b is written by its slack p = 1 - a - b and its floor b, both
  non-negative.  For a least-squares slope above one the question is whether a step away from
  p = b = 0 in either direction lowers the squared error.
 */
module CalibrationBest {
  import opened Sums
  import opened Calibration
  import opened CalibrationFit
  import opened CalibrationFitFacts

  // ----- the cost around the map x -----

  /** The excess per observation, for variance `v`, mean confidence `mx`, slope 1 + t and mean gap `g`. */
  function Cost(v: real, mx: real, t: real, g: real, p: real, b: real): real {
    v * Square(t + p + b) + Square(g + p * mx - b * (1.0 - mx))
  }

  /** Half the rate at which the cost grows with the slack. */
  function SlackRate(v: real, mx: real, t: real, g: real): real {
    v * t + mx * g
  }

  /** Half the rate at which the cost grows with the floor. */
  function FloorRate(v: real, mx: real, t: real, g: real): real {
    v * t - (1.0 - mx) * g
  }

  lemma {:induction false} CostExpands(v: real, mx: real, t: real, g: real, p: real, b: real)
    ensures Cost(v, mx, t, g, p, b) ==
            Cost(v, mx, t, g, 0.0, 0.0) + 2.0 * (p * SlackRate(v, mx, t, g)) + 2.0 * (b * FloorRate(v, mx, t, g)) +
            v * Square(p + b) + Square(p * mx - b * (1.0 - mx))
  {
  }

  lemma {:induction false} VertexIsBest(v: real, mx: real, t: real, g: real, p: real, b: real)
    requires v > 0.0 && p >= 0.0 && b >= 0.0
    requires SlackRate(v, mx, t, g) >= 0.0 && FloorRate(v, mx, t, g) >= 0.0
    ensures Cost(v, mx, t, g, 0.0, 0.0) <= Cost(v, mx, t, g, p, b)
  {
    CostExpands(v, mx, t, g, p, b);
    MulNonNegative(p, SlackRate(v, mx, t, g));
    MulNonNegative(b, FloorRate(v, mx, t, g));
    ScaledSquare(v, p + b);
    SquareNonNegative(p * mx - b * (1.0 - mx));
  }

  /** A small enough step against a rate that is negative pays. */
  lemma {:induction false} Descent(rate: real, q: real) returns (e: real)
    requires rate < 0.0 && q > 0.0
    ensures 0.0 < e <= 1.0 && 2.0 * (e * rate) + q * Square(e) < 0.0
  {
    QuotientPositive(-rate, q);
    e := if -rate / q < 1.0 then -rate / q else 1.0;
    MultiplyBack(q, -rate);
    ScaleCompare(q, e, -rate / q);
    ScaleCompare(e, q * e, -rate);
    MulPositive(e, -rate);
    assert q * (e * e) == e * (q * e);
    assert e * -rate == -(e * rate);
  }

  lemma {:induction false} SlackCost(v: real, mx: real, t: real, g: real, e: real)
    ensures Cost(v, mx, t, g, e, 0.0) ==
            Cost(v, mx, t, g, 0.0, 0.0) + 2.0 * (e * SlackRate(v, mx, t, g)) + (v + Square(mx)) * Square(e)
  {
  }

  lemma {:induction false} StepAlongSlack(v: real, mx: real, t: real, g: real) returns (e: real)
    requires v > 0.0 && SlackRate(v, mx, t, g) < 0.0
    ensures 0.0 < e <= 1.0 && Cost(v, mx, t, g, e, 0.0) < Cost(v, mx, t, g, 0.0, 0.0)
  {
    SquareNonNegative(mx);
    e := Descent(SlackRate(v, mx, t, g), v + Square(mx));
    SlackCost(v, mx, t, g, e);
  }

  lemma {:induction false} StepAlongFloor(v: real, mx: real, t: real, g: real) returns (e: real)
    requires v > 0.0 && FloorRate(v, mx, t, g) < 0.0
    ensures 0.0 < e <= 1.0 && Cost(v, mx, t, g, 0.0, e) < Cost(v, mx, t, g, 0.0, 0.0)
  {
    SquareNonNegative(1.0 - mx);
    e := Descent(FloorRate(v, mx, t, g), v + Square(1.0 - mx));
    EdgeCost(v, mx, t, g, e);
  }

  /** The cost along the edge on which the map sends one to one. */
  lemma {:induction false} EdgeCost(v: real, mx: real, t: real, g: real, e: real)
    ensures Cost(v, mx, t, g, 0.0, e) ==
            Cost(v, mx, t, g, 0.0, 0.0) + 2.0 * (e * FloorRate(v, mx, t, g)) + (v + Square(1.0 - mx)) * Square(e)
  {
  }

  /** The floor of the best map on that edge. */
  function EdgeFloor(v: real, mx: real, t: real, g: real): real
    requires v > 0.0
  {
    SquareNonNegative(1.0 - mx);
    if FloorRate(v, mx, t, g) >= 0.0 then 0.0 else -FloorRate(v, mx, t, g) / (v + Square(1.0 - mx))
  }

  lemma {:induction false} Completed(rate: real, q: real, e: real, b: real)
    requires q > 0.0 && q * e == -rate
    ensures 2.0 * (e * rate) + q * Square(e) <= 2.0 * (b * rate) + q * Square(b)
  {
    ScaledSquare(q, b - e);
    assert q * ((b - e) * (b - e)) == q * (b * b) - 2.0 * (b * (q * e)) + e * (q * e);
    assert b * (q * e) == -(b * rate) && e * (q * e) == -(e * rate);
    assert q * (e * e) == e * (q * e);
  }

  lemma {:induction false} EdgeIsBestOnEdge(v: real, mx: real, t: real, g: real, b: real)
    requires v > 0.0 && b >= 0.0
    ensures Cost(v, mx, t, g, 0.0, EdgeFloor(v, mx, t, g)) <= Cost(v, mx, t, g, 0.0, b)
  {
    var rate, q, e := FloorRate(v, mx, t, g), v + Square(1.0 - mx), EdgeFloor(v, mx, t, g);
    SquareNonNegative(1.0 - mx);
    EdgeCost(v, mx, t, g, e);
    EdgeCost(v, mx, t, g, b);
    if rate >= 0.0 {
      MulNonNegative(b, rate);
      ScaledSquare(q, b);
      ScaledSquare(q, 0.0);
      assert 0.0 * rate == 0.0;
    } else {
      MultiplyBack(q, -rate);
      Completed(rate, q, e, b);
    }
  }

  // ----- from costs to maps -----

  ghost predicate Spread(l: Line, v: real) {
    l.n > 0.0 && v > 0.0 && l.xx == l.n * v
  }

  /** The gap between mean outcome and mean confidence. */
  function Gap(l: Line): real {
    l.intercept + (l.slope - 1.0) * l.mx
  }

  lemma {:induction false} ExcessIsCost(l: Line, v: real, a: real, b: real, p: real)
    requires Spread(l, v) && p == 1.0 - a - b
    ensures Excess(l, a, b) == l.n * Cost(v, l.mx, l.slope - 1.0, Gap(l), p, b)
  {
    var t, g := l.slope - 1.0, Gap(l);
    assert a - l.slope == -(t + p + b);
    SquareOfNegation(t + p + b);
    MissInSlack(l, a, b, p);
    Distribute3(l.n, v, Square(t + p + b), Square(g + p * l.mx - b * (1.0 - l.mx)));
  }

  lemma {:induction false} MissInSlack(l: Line, a: real, b: real, p: real)
    requires p == 1.0 - a - b
    ensures Miss(l, a, b) == Gap(l) + p * l.mx - b * (1.0 - l.mx)
  {
    assert l.slope - a == (l.slope - 1.0) + p + b;
    assert ((l.slope - 1.0) + p + b) * l.mx == (l.slope - 1.0) * l.mx + p * l.mx + b * l.mx;
    assert b * (1.0 - l.mx) == b - b * l.mx;
  }

  lemma {:induction false} Distribute3(n: real, v: real, x: real, y: real)
    ensures (n * v) * x + n * y == n * (v * x + y)
  {
  }

  lemma {:induction false} ExcessOrder(l: Line, v: real, a: real, b: real, p: real, a': real, b': real, p': real)
    requires Spread(l, v) && p == 1.0 - a - b && p' == 1.0 - a' - b'
    requires Cost(v, l.mx, l.slope - 1.0, Gap(l), p, b) <= Cost(v, l.mx, l.slope - 1.0, Gap(l), p', b')
    ensures Excess(l, a, b) <= Excess(l, a', b')
  {
    ExcessIsCost(l, v, a, b, p);
    ExcessIsCost(l, v, a', b', p');
    ScaleCompare(l.n, Cost(v, l.mx, l.slope - 1.0, Gap(l), p, b), Cost(v, l.mx, l.slope - 1.0, Gap(l), p', b'));
  }

  lemma {:induction false} ExcessStrict(l: Line, v: real, a: real, b: real, p: real, a': real, b': real, p': real)
    requires Spread(l, v) && p == 1.0 - a - b && p' == 1.0 - a' - b'
    requires Cost(v, l.mx, l.slope - 1.0, Gap(l), p, b) < Cost(v, l.mx, l.slope - 1.0, Gap(l), p', b')
    ensures Excess(l, a, b) < Excess(l, a', b')
  {
    ExcessIsCost(l, v, a, b, p);
    ExcessIsCost(l, v, a', b', p');
    StrictScale(l.n, Cost(v, l.mx, l.slope - 1.0, Gap(l), p, b), Cost(v, l.mx, l.slope - 1.0, Gap(l), p', b'));
  }

  lemma {:induction false} StrictScale(n: real, x: real, y: real)
    requires n > 0.0 && x < y
    ensures n * x < n * y
  {
    MulPositive(n, y - x);
    assert n * (y - x) == n * y - n * x;
  }

  ghost predicate RatesHold(l: Line, v: real) {
    SlackRate(v, l.mx, l.slope - 1.0, Gap(l)) >= 0.0 && FloorRate(v, l.mx, l.slope - 1.0, Gap(l)) >= 0.0
  }

  lemma {:induction false} IdentityIsBest(l: Line, v: real, a: real, b: real)
    requires Spread(l, v) && RatesHold(l, v) && b >= 0.0 && a + b <= 1.0
    ensures Excess(l, 1.0, 0.0) <= Excess(l, a, b)
  {
    VertexIsBest(v, l.mx, l.slope - 1.0, Gap(l), 1.0 - a - b, b);
    ExcessOrder(l, v, 1.0, 0.0, 0.0, a, b, 1.0 - a - b);
  }

  lemma {:induction false} IdentityIsBeaten(l: Line, v: real) returns (a: real, b: real)
    requires Spread(l, v) && !RatesHold(l, v)
    ensures 0.0 <= b <= 1.0 && 0.0 <= a + b <= 1.0
    ensures Excess(l, a, b) < Excess(l, 1.0, 0.0)
  {
    if SlackRate(v, l.mx, l.slope - 1.0, Gap(l)) < 0.0 {
      var e := StepAlongSlack(v, l.mx, l.slope - 1.0, Gap(l));
      a, b := 1.0 - e, 0.0;
      ExcessStrict(l, v, a, b, e, 1.0, 0.0, 0.0);
    } else {
      var e := StepAlongFloor(v, l.mx, l.slope - 1.0, Gap(l));
      a, b := 1.0 - e, e;
      ExcessStrict(l, v, a, b, 0.0, 1.0, 0.0, 0.0);
    }
  }

  /** Shrinking the distance to the least-squares map by a factor shrinks the excess by its square. */
  lemma {:induction false} ExcessShrinks(l: Line, a: real, b: real, m: real)
    requires l.n > 0.0 && l.xx > 0.0 && 0.0 <= m <= 1.0
    ensures Excess(l, l.slope + m * (a - l.slope), l.intercept + m * (b - l.intercept)) <= Excess(l, a, b)
  {
    var a', b' := l.slope + m * (a - l.slope), l.intercept + m * (b - l.intercept);
    assert a' - l.slope == m * (a - l.slope);
    MissShrinks(l, a, b, m);
    SquareShrinks(m, a - l.slope);
    SquareShrinks(m, Miss(l, a, b));
    ExcessCompare(l, a', b', a, b);
  }

  lemma {:induction false} MissShrinks(l: Line, a: real, b: real, m: real)
    ensures Miss(l, l.slope + m * (a - l.slope), l.intercept + m * (b - l.intercept)) == m * Miss(l, a, b)
  {
    var d, e := a - l.slope, b - l.intercept;
    assert Miss(l, l.slope + m * d, l.intercept + m * e) == -((m * d) * l.mx) - m * e;
    assert Miss(l, a, b) == -(d * l.mx) - e;
    assert m * (-(d * l.mx) - e) == -((m * d) * l.mx) - m * e;
  }

  lemma {:induction false} SquareShrinks(m: real, x: real)
    requires 0.0 <= m <= 1.0
    ensures Square(m * x) <= Square(x)
  {
    SmallSquare(m);
    SquareNonNegative(x);
    MulNonNegative(1.0 - Square(m), Square(x));
    assert (1.0 - m * m) * (x * x) == x * x - (m * x) * (m * x);
  }

  /** With slope above one and positive intercept, every admissible map is matched by one on the edge. */
  lemma {:induction false} ToTheEdge(l: Line, a: real, b: real) returns (b': real)
    requires l.n > 0.0 && l.xx > 0.0 && l.slope > 1.0 && l.intercept > 0.0
    requires b >= 0.0 && a + b <= 1.0
    ensures b' >= 0.0 && Excess(l, 1.0 - b', b') <= Excess(l, a, b)
  {
    var over, all := l.slope + l.intercept - 1.0, l.slope + l.intercept - a - b;
    var m := over / all;
    MultiplyBack(all, over);
    QuotientPositive(over, all);
    assert m <= 1.0 by {
      CancelPositive(all, m, 1.0);
    }
    b' := l.intercept + m * (b - l.intercept);
    MulNonNegative(1.0 - m, l.intercept);
    MulNonNegative(m, b);
    assert b' == (1.0 - m) * l.intercept + m * b;
    assert m * (a - l.slope) + m * (b - l.intercept) == -(m * all);
    assert l.slope + m * (a - l.slope) == 1.0 - b';
    ExcessShrinks(l, a, b, m);
  }

  lemma {:induction false} EdgeIsBest(l: Line, v: real, a: real, b: real)
    requires Spread(l, v) && l.xx > 0.0 && l.slope > 1.0 && l.intercept > 0.0
    requires b >= 0.0 && a + b <= 1.0
    ensures var e := EdgeFloor(v, l.mx, l.slope - 1.0, Gap(l)); Excess(l, 1.0 - e, e) <= Excess(l, a, b)
  {
    var e := EdgeFloor(v, l.mx, l.slope - 1.0, Gap(l));
    var b' := ToTheEdge(l, a, b);
    EdgeIsBestOnEdge(v, l.mx, l.slope - 1.0, Gap(l), b');
    ExcessOrder(l, v, 1.0 - e, e, 0.0, 1.0 - b', b', 0.0);
  }

  lemma {:induction false} RateAbove(v: real, t: real, k: real, g: real)
    requires v > 0.0 && t > 0.0 && k >= 0.0 && g <= k
    ensures -(v * t - k * g) <= v + Square(k)
  {
    MulPositive(v, t);
    MulNonNegative(k, k - g);
    assert k * (k - g) == k * k - k * g;
  }

  lemma {:induction false} ShareInUnit(x: real, q: real)
    requires 0.0 < x <= q
    ensures 0.0 <= x / q <= 1.0
  {
  }

  lemma {:induction false} EdgeFloorInUnit(v: real, mx: real, t: real, g: real)
    requires v > 0.0 && t > 0.0 && mx <= 1.0 && g <= 1.0 - mx
    ensures 0.0 <= EdgeFloor(v, mx, t, g) <= 1.0
  {
    RateAbove(v, t, 1.0 - mx, g);
    if FloorRate(v, mx, t, g) < 0.0 {
      ShareInUnit(-FloorRate(v, mx, t, g), v + Square(1.0 - mx));
    }
  }

  // ----- the exact condition -----

  /** No admissible calibration has a smaller squared error on the samples. */
  ghost predicate IsBest(f: Calibration, samples: seq<Sample>) {
    forall other | Admissible(other) :: BrierTotal(f, samples) <= BrierTotal(other, samples)
  }

  /** What is gained by flattening is lost in spread, in both directions. */
  predicate SteepEnough(u: seq<Point>)
    requires u != [] && Variance(u) > 0.0
  {
    var v, t, mx, gap := Variance(u), Slope(u) - 1.0, Mean(X, u), Mean(Y, u) - Mean(X, u);
    v * t + mx * gap >= 0.0 && v * t >= (1.0 - mx) * gap
  }

  /** The best calibration that sends confidence one to one. */
  function EdgeRival(c: Calibration, u: seq<Point>): Calibration
    requires u != [] && Variance(u) > 0.0
  {
    var e := EdgeFloor(Variance(u), Mean(X, u), Slope(u) - 1.0, Mean(Y, u) - Mean(X, u));
    Calibration(c.temperature, 1.0 - e, e)
  }

  lemma {:induction false} GapOfMeans(u: seq<Point>, l: Line)
    requires u != [] && Variance(u) > 0.0
    requires l.slope == Slope(u) && l.intercept == Intercept(u) && l.mx == Mean(X, u)
    ensures Gap(l) == Mean(Y, u) - Mean(X, u)
  {
    assert (l.slope - 1.0) * l.mx == l.slope * l.mx - l.mx;
  }

  lemma {:induction false} SteepLine(u: seq<Point>) returns (l: Line)
    requires u != [] && Variance(u) > 0.0
    ensures IsLeastSquares(l, u) && Spread(l, Variance(u))
    ensures l.slope == Slope(u) && l.intercept == Intercept(u) && l.mx == Mean(X, u)
    ensures Gap(l) == Mean(Y, u) - Mean(X, u)
    ensures SteepEnough(u) <==> RatesHold(l, Variance(u))
  {
    l := LineOf(u);
    GapOfMeans(u, l);
  }

  /** A slope above one and an intercept of at most zero: the fit is the map x. */
  lemma {:induction false} SteepFitIsBest(c: Calibration, samples: seq<Sample>, other: Calibration)
    requires FitReport(c, samples).Fitted? && Admissible(other)
    requires var u := Observations(samples); Slope(u) > 1.0 && Intercept(u) <= 0.0 && SteepEnough(u)
    ensures BrierTotal(FitReport(c, samples).calibration, samples) <= BrierTotal(other, samples)
  {
    var u := Observations(samples);
    var l := SteepLine(u);
    IdentityIsBest(l, Variance(u), other.scale, other.floor);
    BrierBelowResiduals(FitReport(c, samples).calibration, samples);
    BrierBelowResiduals(other, samples);
  }

  lemma {:induction false} SteepFitIsBeaten(c: Calibration, samples: seq<Sample>) returns (other: Calibration)
    requires FitReport(c, samples).Fitted?
    requires var u := Observations(samples); Slope(u) > 1.0 && Intercept(u) <= 0.0 && !SteepEnough(u)
    ensures Admissible(other)
    ensures BrierTotal(other, samples) < BrierTotal(FitReport(c, samples).calibration, samples)
  {
    var u := Observations(samples);
    var l := SteepLine(u);
    var a, b := IdentityIsBeaten(l, Variance(u));
    other := Calibration(c.temperature, a, b);
    BrierBelowResiduals(FitReport(c, samples).calibration, samples);
    BrierBelowResiduals(other, samples);
  }

  lemma {:induction false} RivalAdmissible(c: Calibration, samples: seq<Sample>)
    requires FitReport(c, samples).Fitted? && Slope(Observations(samples)) > 1.0
    ensures Admissible(EdgeRival(c, Observations(samples)))
  {
    var u := Observations(samples);
    MeanInUnit(X, u);
    MeanInUnit(Y, u);
    EdgeFloorInUnit(Variance(u), Mean(X, u), Slope(u) - 1.0, Mean(Y, u) - Mean(X, u));
  }

  /** A slope above one and a positive intercept: the rival is the best admissible calibration. */
  lemma {:induction false} RivalIsBest(c: Calibration, samples: seq<Sample>, other: Calibration)
    requires FitReport(c, samples).Fitted? && Admissible(other)
    requires var u := Observations(samples); Slope(u) > 1.0 && Intercept(u) > 0.0
    ensures BrierTotal(EdgeRival(c, Observations(samples)), samples) <= BrierTotal(other, samples)
  {
    var u := Observations(samples);
    var l := SteepLine(u);
    EdgeIsBest(l, Variance(u), other.scale, other.floor);
    RivalAdmissible(c, samples);
    BrierBelowResiduals(EdgeRival(c, u), samples);
    BrierBelowResiduals(other, samples);
  }

  /**
    When the fit is the best: for a slope of at most one, if the intercept was not cut off; for
    a steeper slope and no positive intercept, if it is steep enough for its variance; and for a
    steeper slope and a positive intercept, if it holds its own against one explicit rival.
   */
  predicate BestCondition(c: Calibration, samples: seq<Sample>)
    requires FitReport(c, samples).Fitted?
  {
    var u := Observations(samples);
    if Slope(u) <= 1.0 then Intercept(u) >= 0.0
    else if Intercept(u) <= 0.0 then SteepEnough(u)
    else BrierTotal(FitReport(c, samples).calibration, samples) <= BrierTotal(EdgeRival(c, u), samples)
  }

  /** The exact condition, for every fit. */
  lemma {:induction false} FitIsBestExactlyWhen(c: Calibration, samples: seq<Sample>)
    requires FitReport(c, samples).Fitted?
    ensures IsBest(FitReport(c, samples).calibration, samples) <==> BestCondition(c, samples)
  {
    if BestCondition(c, samples) {
      forall other | Admissible(other)
        ensures BrierTotal(FitReport(c, samples).calibration, samples) <= BrierTotal(other, samples)
      {
        BestIfCondition(c, samples, other);
      }
    } else {
      var other := BeatenUnlessCondition(c, samples);
    }
  }

  lemma {:induction false} BestIfCondition(c: Calibration, samples: seq<Sample>, other: Calibration)
    requires FitReport(c, samples).Fitted? && BestCondition(c, samples) && Admissible(other)
    ensures BrierTotal(FitReport(c, samples).calibration, samples) <= BrierTotal(other, samples)
  {
    var u := Observations(samples);
    if Slope(u) <= 1.0 {
      FitIsBest(c, samples, other);
    } else if Intercept(u) <= 0.0 {
      SteepFitIsBest(c, samples, other);
    } else {
      RivalIsBest(c, samples, other);
    }
  }

  lemma {:induction false} BeatenUnlessCondition(c: Calibration, samples: seq<Sample>) returns (other: Calibration)
    requires FitReport(c, samples).Fitted? && !BestCondition(c, samples)
    ensures Admissible(other)
    ensures BrierTotal(other, samples) < BrierTotal(FitReport(c, samples).calibration, samples)
  {
    var u := Observations(samples);
    if Slope(u) <= 1.0 {
      other := FitIsBeaten(c, samples);
    } else if Intercept(u) <= 0.0 {
      other := SteepFitIsBeaten(c, samples);
    } else {
      other := EdgeRival(c, u);
      RivalAdmissible(c, samples);
    }
  }
}
