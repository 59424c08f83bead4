/**
  What every calibration report guarantees, for any number of samples: the bins
  account for every observation, and the figures it publishes are ordered.
 */
module CalibrationReport {
  import opened Sums
  import opened Calibration

  function Weight(bin: Bin): real { Times(bin.count, 1.0) }
  function WeightedConfidence(bin: Bin): real { Times(bin.count, bin.meanConfidence) }
  function WeightedAccuracy(bin: Bin): real { Times(bin.count, bin.accuracy) }

  /** A sum over the bins of a report is the sum over the parts they describe. */
  lemma {:induction false} SumIsTotal(f: Bin -> real, bins: seq<Bin>, g: nat -> real)
    requires forall b: nat | b < |bins| :: f(bins[b]) == g(b)
    ensures Sum(f, bins) == Total(g, |bins|)
  {
    if bins != [] {
      SumIsTotal(f, bins[..|bins| - 1], g);
    }
  }

  function PerBin(f: Point -> real, u: seq<Point>): nat -> real
    requires InUnit(u)
  {
    (b: nat) => Sum(f, InBin(u, b))
  }

  lemma {:induction false} BinSums(r: Report, u: seq<Point>, f: Bin -> real, g: Point -> real)
    requires Describes(r, u) && u != []
    requires forall b: nat | b < BINS :: f(r.bins[b]) == Sum(g, InBin(u, b))
    ensures Sum(f, r.bins) == Sum(g, u)
  {
    SumIsTotal(f, r.bins, PerBin(g, u));
    BinsPartition(g, PerBin(g, u), u);
  }

  /** Bin counts sum to the sample count, and count-weighted bin means give back the overall means. */
  lemma {:induction false} BinsAccountForAll(r: Report, u: seq<Point>)
    requires Describes(r, u) && u != []
    ensures Sum(Weight, r.bins) == r.samples as real
    ensures Sum(WeightedConfidence, r.bins) == Times(r.samples, r.meanConfidence)
    ensures Sum(WeightedAccuracy, r.bins) == Times(r.samples, r.accuracy)
  {
    forall b: nat | b < BINS ensures Weight(r.bins[b]) == Sum(One, InBin(u, b)) {
      assert IsMeanBin(r.bins[b], InBin(u, b));
      SumConstant(One, 1.0, InBin(u, b));
    }
    BinSums(r, u, Weight, One);
    SumConstant(One, 1.0, u);
    TimesIsProduct(|u|, 1.0);
    forall b: nat | b < BINS
      ensures WeightedConfidence(r.bins[b]) == Sum(X, InBin(u, b))
      ensures WeightedAccuracy(r.bins[b]) == Sum(Y, InBin(u, b))
    {
      assert IsMeanBin(r.bins[b], InBin(u, b));
    }
    BinSums(r, u, WeightedConfidence, X);
    BinSums(r, u, WeightedAccuracy, Y);
    CountIsSum(u);
  }

  // ----- the order of the published figures -----

  function AbsBias(u: seq<Point>): nat -> real
    requires InUnit(u)
  {
    (b: nat) => Abs(Sum(Error, InBin(u, b)))
  }

  lemma {:induction false} MeanDifference(n: nat, m: real, a: real)
    ensures Times(n, Abs(m - a)) == Abs(Times(n, m) - Times(n, a))
  {
    TimesAbs(n, m - a);
    TimesMinus(n, m, a);
  }

  lemma {:induction false} GapIsAbsBias(bin: Bin, part: seq<Point>)
    requires IsMeanBin(bin, part)
    ensures WeightedGap(bin) == Abs(Sum(Error, part))
  {
    SumMinus(Error, X, Y, part);
    MeanDifference(|part|, bin.meanConfidence, bin.accuracy);
  }

  /** The calibration error, once per sample, is the sum of the absolute biases of the bins. */
  lemma {:induction false} CalibrationErrorScaled(r: Report, u: seq<Point>)
    requires Describes(r, u) && u != []
    ensures Times(|u|, r.expectedCalibrationError) == Total(AbsBias(u), BINS)
  {
    forall b: nat | b < BINS ensures WeightedGap(r.bins[b]) == AbsBias(u)(b) {
      GapIsAbsBias(r.bins[b], InBin(u, b));
    }
    SumIsTotal(WeightedGap, r.bins, AbsBias(u));
  }

  /** Between the overall bias and the total absolute error. */
  lemma {:induction false} CalibrationErrorBetween(u: seq<Point>)
    requires InUnit(u)
    ensures Abs(Sum(Error, u)) <= Total(AbsBias(u), BINS) <= Sum(AbsError, u)
  {
    BinsPartition(Error, PerBin(Error, u), u);
    TotalTriangle(PerBin(Error, u), AbsBias(u), BINS);
    BinsPartition(AbsError, PerBin(AbsError, u), u);
    forall b: nat ensures AbsBias(u)(b) <= PerBin(AbsError, u)(b) {
      SumTriangle(Error, AbsError, InBin(u, b));
    }
    TotalMonotone(AbsBias(u), PerBin(AbsError, u), BINS);
  }

  lemma {:induction false} PointError(p: Point)
    requires 0.0 <= p.x <= 1.0
    ensures 0.0 <= SquaredError(p) <= AbsError(p) <= One(p)
    ensures SquaredError(p) == Square(AbsError(p))
  {
    SmallSquare(AbsError(p));
    assert Error(p) * Error(p) == (-Error(p)) * (-Error(p));
  }

  lemma {:induction false} ErrorsAreSmall(u: seq<Point>)
    requires InUnit(u)
    ensures 0.0 <= Sum(SquaredError, u) <= Sum(AbsError, u) <= Times(|u|, 1.0)
    ensures Square(Sum(AbsError, u)) <= Times(|u|, Sum(SquaredError, u))
  {
    forall i | 0 <= i < |u|
      ensures 0.0 <= SquaredError(u[i]) <= AbsError(u[i]) <= One(u[i])
      ensures SquaredError(u[i]) == Square(AbsError(u[i]))
    {
      PointError(u[i]);
    }
    SumNonNegative(SquaredError, u);
    SumMonotone(SquaredError, AbsError, u);
    SumMonotone(AbsError, One, u);
    SumConstant(One, 1.0, u);
    CauchySchwarz(AbsError, SquaredError, u);
  }

  /** From a total error e and a total square s with e^2 <= n s follows that the mean error squared is at most the mean square. */
  lemma {:induction false} MeanSquares(n: nat, ece: real, brier: real, e: real, s: real)
    requires n > 0 && 0.0 <= Times(n, ece) <= e && Times(n, brier) == s && Square(e) <= Times(n, s)
    ensures Square(ece) <= brier
  {
    TimesIsProduct(n, ece);
    TimesIsProduct(n, brier);
    TimesIsProduct(n, s);
    RealMeanSquares(n as real, ece, brier, e, s);
  }

  lemma {:induction false} RealMeanSquares(n: real, ece: real, brier: real, e: real, s: real)
    requires n > 0.0 && 0.0 <= n * ece <= e && n * brier == s && Square(e) <= n * s
    ensures Square(ece) <= brier
  {
    SquareMonotone(n * ece, e);
    SquareScaleDown(n, ece, brier);
  }

  lemma {:induction false} SquareScaleDown(n: real, e: real, b: real)
    requires n > 0.0 && Square(n * e) <= n * (n * b)
    ensures Square(e) <= b
  {
    assert Square(n * e) == n * (n * Square(e));
    CancelPositive(n, n * Square(e), n * b);
    CancelPositive(n, Square(e), b);
  }

  /** The total absolute error and the total squared error, between the n-folds of the figures. */
  lemma {:induction false} TotalsAreOrdered(r: Report, u: seq<Point>) returns (e: real, s: real)
    requires Describes(r, u) && u != []
    ensures Times(|u|, Abs(r.meanConfidence - r.accuracy)) <= Times(|u|, r.expectedCalibrationError) <= e <= Times(|u|, 1.0)
    ensures Times(|u|, r.brierScore) == s <= e && Square(e) <= Times(|u|, s)
  {
    e, s := Sum(AbsError, u), Sum(SquaredError, u);
    CalibrationErrorScaled(r, u);
    CalibrationErrorBetween(u);
    ErrorsAreSmall(u);
    BiasScaled(r, u);
  }

  lemma {:induction false} OrderFromTotals(n: nat, bias: real, ece: real, brier: real, e: real, s: real)
    requires n > 0 && bias >= 0.0
    requires Times(n, bias) <= Times(n, ece) <= e <= Times(n, 1.0)
    requires Times(n, brier) == s <= e && Square(e) <= Times(n, s)
    ensures bias <= ece <= 1.0 && Square(ece) <= brier <= 1.0
  {
    TimesMonotone(n, bias, ece);
    TimesMonotone(n, ece, 1.0);
    TimesMonotone(n, brier, 1.0);
    TimesAbs(n, ece);
    MeanSquares(n, ece, brier, e, s);
  }

  /**
    For every report on at least one usable sample: the absolute difference of mean confidence
    and accuracy is at most the expected calibration error, whose square is at most the Brier
    score, and all of them are at most one.
   */
  lemma {:induction false} FiguresAreOrdered(r: Report, u: seq<Point>)
    requires Describes(r, u) && u != []
    ensures Abs(r.meanConfidence - r.accuracy) <= r.expectedCalibrationError <= 1.0
    ensures Square(r.expectedCalibrationError) <= r.brierScore <= 1.0
  {
    var e, s := TotalsAreOrdered(r, u);
    OrderFromTotals(|u|, Abs(r.meanConfidence - r.accuracy), r.expectedCalibrationError, r.brierScore, e, s);
  }

  lemma {:induction false} BiasScaled(r: Report, u: seq<Point>)
    requires Describes(r, u) && u != []
    ensures Times(|u|, Abs(r.meanConfidence - r.accuracy)) == Abs(Sum(Error, u))
  {
    CountIsSum(u);
    SumMinus(Error, X, Y, u);
    MeanDifference(|u|, r.meanConfidence, r.accuracy);
  }

  /** Whether confidence exceeds accuracy by more than a tolerance. */
  predicate IsOverconfident(r: Report, tolerance: real) {
    r.samples > 0 && r.meanConfidence - r.accuracy > tolerance
  }

  /** Overconfidence always shows: the calibration error exceeds the tolerance and the Brier score its square. */
  lemma {:induction false} OverconfidenceShows(r: Report, u: seq<Point>, tolerance: real)
    requires Describes(r, u) && tolerance >= 0.0 && IsOverconfident(r, tolerance)
    ensures r.expectedCalibrationError > tolerance
    ensures r.brierScore > Square(tolerance)
  {
    FiguresAreOrdered(r, u);
    SquareStrict(tolerance, r.expectedCalibrationError);
  }

  // ----- the report as a function -----

  function MeanBins(u: seq<Point>): (bins: seq<Bin>)
    requires InUnit(u)
    ensures |bins| == BINS && forall b | 0 <= b < BINS :: bins[b] == Closed(RawBin(InBin(u, b)))
  {
    seq(BINS, (b: nat) => Closed(RawBin(InBin(u, b))))
  }

  /** The report on the usable observations `u`. */
  function ReportOf(u: seq<Point>): Report
    requires InUnit(u)
  {
    if u == [] then EmptyReport
    else
      var n := |u| as real;
      Report(|u|, CountOk(u) as real / n, Sum(X, u) / n, Sum(WeightedGap, MeanBins(u)) / n, Sum(SquaredError, u) / n, MeanBins(u))
  }

  lemma {:induction false} ReportDescribes(u: seq<Point>)
    requires InUnit(u)
    ensures Describes(ReportOf(u), u)
  {
    if u != [] {
      TimesOfMean(|u|, Sum(X, u));
      TimesOfMean(|u|, CountOk(u) as real);
      TimesOfMean(|u|, Sum(SquaredError, u));
      TimesOfMean(|u|, Sum(WeightedGap, MeanBins(u)));
      forall b | 0 <= b < BINS ensures IsMeanBin(MeanBins(u)[b], InBin(u, b)) {
        ClosedIsMean(InBin(u, b));
      }
    }
  }

  lemma {:induction false} SameTimes(n: nat, x: real, y: real)
    requires n > 0 && Times(n, x) == Times(n, y)
    ensures x == y
  {
    TimesMonotone(n, x, y);
    TimesMonotone(n, y, x);
  }

  lemma {:induction false} MeanBinUnique(a: Bin, b: Bin, part: seq<Point>)
    requires IsMeanBin(a, part) && IsMeanBin(b, part)
    ensures a == b
  {
    if part != [] {
      SameTimes(|part|, a.meanConfidence, b.meanConfidence);
      SameTimes(|part|, a.accuracy, b.accuracy);
    }
  }

  /** The description determines the report, so there is no freedom in how it is computed. */
  lemma {:induction false} DescribesUnique(r: Report, s: Report, u: seq<Point>)
    requires Describes(r, u) && Describes(s, u)
    ensures r == s
  {
    if u != [] {
      forall b | 0 <= b < BINS ensures r.bins[b] == s.bins[b] {
        MeanBinUnique(r.bins[b], s.bins[b], InBin(u, b));
      }
      assert r.bins == s.bins;
      SameTimes(|u|, r.meanConfidence, s.meanConfidence);
      SameTimes(|u|, r.accuracy, s.accuracy);
      SameTimes(|u|, r.brierScore, s.brierScore);
      SameTimes(|u|, r.expectedCalibrationError, s.expectedCalibrationError);
    }
  }

  /** All of the above, for every calibration and every list of samples with a usable one among them. */
  lemma {:induction false} EveryReport(c: Calibration, samples: seq<Sample>, tolerance: real)
    requires Usable(c, samples) != [] && tolerance >= 0.0
    ensures var r := ReportOf(Usable(c, samples));
            && Sum(Weight, r.bins) == r.samples as real
            && Sum(WeightedConfidence, r.bins) == Times(r.samples, r.meanConfidence)
            && Sum(WeightedAccuracy, r.bins) == Times(r.samples, r.accuracy)
            && Abs(r.meanConfidence - r.accuracy) <= r.expectedCalibrationError <= 1.0
            && Square(r.expectedCalibrationError) <= r.brierScore <= 1.0
            && (IsOverconfident(r, tolerance) ==> r.expectedCalibrationError > tolerance)
  {
    var u := Usable(c, samples);
    ReportDescribes(u);
    BinsAccountForAll(ReportOf(u), u);
    FiguresAreOrdered(ReportOf(u), u);
  }
}
