/** What decides a calibration report and a fit: the width of the bins, and the refusals of the fit. */
module CalibrationExact {
  import opened Sums
  import opened Calibration
  import opened CalibrationReport
  import opened CalibrationFit
  import opened CalibrationFitFacts

  // ----- the map -----

  /** A confidence that is not finite counts as zero; an admissible map is applied as it stands. */
  lemma {:induction false} ApplyExactly(c: Calibration, v: real)
    ensures Apply(c, NonFinite) == Apply(c, Finite(0.0))
    ensures Admissible(c) && 0.0 <= v <= 1.0 ==> Apply(c, Finite(v)) == v * c.scale + c.floor
    ensures v <= 0.0 ==> Apply(c, Finite(v)) == Apply(c, Finite(0.0))
    ensures v >= 1.0 ==> Apply(c, Finite(v)) == Apply(c, Finite(1.0))
  {
    assert 0.0 * c.scale == 0.0;
    if Admissible(c) && 0.0 <= v <= 1.0 {
      AdmissibleMap(c, v);
    }
  }

  // ----- bins -----

  /** The ten bins have equal width; one belongs to the last. */
  lemma {:induction false} BinsHaveEqualWidth(x: real, b: nat)
    requires 0.0 <= x <= 1.0
    ensures b == BinIndex(x) <==> b <= 9 && b as real <= 10.0 * x && (10.0 * x < (b + 1) as real || b == 9)
  {
    var scaled := (x * 10.0).Floor;
    assert scaled as real <= x * 10.0 < (scaled + 1) as real;
  }

  lemma {:induction false} InBinExactly(u: seq<Point>, b: nat, p: Point)
    requires InUnit(u)
    ensures multiset(InBin(u, b))[p] == if 0.0 <= p.x <= 1.0 && BinIndex(p.x) == b then multiset(u)[p] else 0
  {
    if u != [] {
      var init, last := u[..|u| - 1], u[|u| - 1];
      InBinExactly(init, b, p);
      assert u == init + [last];
    }
  }

  lemma {:induction false} InBinRange(u: seq<Point>, b: nat)
    requires InUnit(u)
    ensures forall i | 0 <= i < |InBin(u, b)| :: b as real / 10.0 <= InBin(u, b)[i].x <= (b + 1) as real / 10.0
  {
    if u != [] {
      var init, last := u[..|u| - 1], u[|u| - 1];
      InBinRange(init, b);
      BinsHaveEqualWidth(last.x, b);
    }
  }

  lemma {:induction false} MeanBetween(part: seq<Point>, mean: real, low: real, high: real)
    requires part != [] && Times(|part|, mean) == Sum(X, part)
    requires forall i | 0 <= i < |part| :: low <= part[i].x <= high
    ensures low <= mean <= high
  {
    SumConstant((p: Point) => low, low, part);
    SumConstant((p: Point) => high, high, part);
    SumMonotone((p: Point) => low, X, part);
    SumMonotone(X, (p: Point) => high, part);
    TimesMonotone(|part|, low, mean);
    TimesMonotone(|part|, mean, high);
  }

  /** In every report a bin that is not empty has its mean confidence inside its tenth of [0, 1]. */
  lemma {:induction false} BinMeansInTheirTenth(u: seq<Point>, b: nat)
    requires InUnit(u) && u != [] && b < 10
    ensures var bin := ReportOf(u).bins[b];
            bin.count > 0 ==> b as real / 10.0 <= bin.meanConfidence <= (b + 1) as real / 10.0
  {
    ReportDescribes(u);
    var bin, part := ReportOf(u).bins[b], InBin(u, b);
    assert IsMeanBin(bin, part);
    if part != [] {
      InBinRange(u, b);
      MeanBetween(part, bin.meanConfidence, b as real / 10.0, (b + 1) as real / 10.0);
    }
  }

  /** Overconfidence, by totals: more confidence than right answers, by more than the tolerance per sample. */
  lemma {:induction false} OverconfidentExactly(u: seq<Point>, tolerance: real)
    requires InUnit(u)
    ensures IsOverconfident(ReportOf(u), tolerance) <==>
            u != [] && Sum(X, u) - CountOk(u) as real > Times(|u|, tolerance)
  {
    if u != [] {
      var r := ReportOf(u);
      ReportDescribes(u);
      TimesMinus(|u|, r.meanConfidence, r.accuracy);
      TimesMonotone(|u|, r.meanConfidence - r.accuracy, tolerance);
    }
  }

  // ----- the refusals of the fit -----

  /** The positions of the samples with a finite confidence. */
  function FiniteOnes(samples: seq<Sample>): set<nat> {
    set i: nat | i < |samples| && samples[i].confidence.Finite?
  }

  /** Those of them that were right. */
  function RightOnes(samples: seq<Sample>): set<nat> {
    set i: nat | i < |samples| && samples[i].confidence.Finite? && samples[i].correct
  }

  lemma {:induction false} ObservationsCounted(samples: seq<Sample>)
    ensures |Observations(samples)| == |FiniteOnes(samples)|
    ensures CountOk(Observations(samples)) == |RightOnes(samples)|
  {
    if samples != [] {
      ObservationsCounted(samples[..|samples| - 1]);
      OnesSnoc(samples);
      ObservationsSnoc(samples);
    }
  }

  lemma {:induction false} OnesSnoc(samples: seq<Sample>)
    requires samples != []
    ensures var init, s := samples[..|samples| - 1], samples[|samples| - 1];
            && |FiniteOnes(samples)| == |FiniteOnes(init)| + (if s.confidence.Finite? then 1 else 0)
            && |RightOnes(samples)| == |RightOnes(init)| + (if s.confidence.Finite? && s.correct then 1 else 0)
  {
    var init, n := samples[..|samples| - 1], |samples| - 1;
    var s := samples[n];
    assert FiniteOnes(samples) == FiniteOnes(init) + if s.confidence.Finite? then {n} else {};
    assert RightOnes(samples) == RightOnes(init) + if s.confidence.Finite? && s.correct then {n} else {};
  }

  lemma {:induction false} ObservationsSnoc(samples: seq<Sample>)
    requires samples != []
    ensures var init, s := Observations(samples[..|samples| - 1]), samples[|samples| - 1];
            if s.confidence.Finite?
            then |Observations(samples)| == |init| + 1 &&
                 CountOk(Observations(samples)) == CountOk(init) + if s.correct then 1 else 0
            else Observations(samples) == init
  {
    var init, s := Observations(samples[..|samples| - 1]), samples[|samples| - 1];
    if s.confidence.Finite? {
      var u := Observations(samples);
      assert u[..|u| - 1] == init;
    }
  }

  /** The line of least squares is unique. */
  lemma {:induction false} LineUnique(u: seq<Point>, l: Line)
    requires u != [] && Variance(u) > 0.0 && IsLeastSquares(l, u)
    ensures l.slope == Slope(u) && l.intercept == Intercept(u)
  {
    LeastSquares(u, l.slope, l.intercept);
    ExcessNonNegative(l, Slope(u), Intercept(u));
    assert SquaredResiduals(l.slope, l.intercept, u) == l.least + Excess(l, l.slope, l.intercept);
    assert SquaredResiduals(Slope(u), Intercept(u), u) == l.least + Excess(l, Slope(u), Intercept(u));
  }

  /** The share of right answers among the samples with a finite confidence. */
  lemma {:induction false} MeanOutcome(samples: seq<Sample>)
    requires Observations(samples) != []
    ensures FiniteOnes(samples) != {}
    ensures Mean(Y, Observations(samples)) == |RightOnes(samples)| as real / |FiniteOnes(samples)| as real
  {
    ObservationsCounted(samples);
    CountIsSum(Observations(samples));
  }

  /** Fewer than thirty usable samples, and only that, is too few; the refusal says how many there were. */
  lemma {:induction false} TooFewExactly(c: Calibration, samples: seq<Sample>)
    ensures FitReport(c, samples).TooFewSamples? <==> |FiniteOnes(samples)| < 30
    ensures |FiniteOnes(samples)| < 30 ==> FitReport(c, samples) == TooFewSamples(|FiniteOnes(samples)|, 30)
  {
    ObservationsCounted(samples);
  }

  /** Confidences that hardly vary are refused, with a slope of zero and the share of right answers. */
  lemma {:induction false} FlatIsDegenerate(c: Calibration, samples: seq<Sample>)
    requires |FiniteOnes(samples)| >= 30
    ensures Observations(samples) != []
    ensures Variance(Observations(samples)) <= 1.0 / 8388608.0 ==>
              FitReport(c, samples) == Degenerate(0.0, |RightOnes(samples)| as real / |FiniteOnes(samples)| as real)
  {
    ObservationsCounted(samples);
    MeanOutcome(samples);
  }

  /**
    Otherwise the fit is made exactly when the least-squares line has a slope of at least 0.05: then
    it is that line clamped, and else the refusal carries the slope and the share of right answers.
   */
  lemma {:induction false} FitExactly(c: Calibration, samples: seq<Sample>, l: Line)
    requires |FiniteOnes(samples)| >= 30 && Observations(samples) != []
    requires Variance(Observations(samples)) > 1.0 / 8388608.0 && IsLeastSquares(l, Observations(samples))
    ensures FitReport(c, samples).Fitted? <==> l.slope >= 0.05
    ensures l.slope >= 0.05 ==>
              FitReport(c, samples) == Fitted(Calibration(c.temperature, Clamp01(l.slope), Clamp01(l.intercept)))
    ensures l.slope < 0.05 ==>
              FitReport(c, samples) == Degenerate(l.slope, |RightOnes(samples)| as real / |FiniteOnes(samples)| as real)
  {
    ObservationsCounted(samples);
    MeanOutcome(samples);
    LineUnique(Observations(samples), l);
  }
}
