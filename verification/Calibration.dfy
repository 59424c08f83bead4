/**
  Confidence calibration: the affine map and the measurement of how far reported
  confidence is from observed correctness.

  Floating-point values are modelled as exact reals; the one place where the program
  looks at special values, a confidence that is not finite, is kept as `NonFinite`.
 */
module Calibration {
  import opened Sums

  datatype Confidence = Finite(value: real) | NonFinite

  datatype Sample = Sample(confidence: Confidence, correct: bool)

  datatype Calibration = Calibration(temperature: real, scale: real, floor: real)

  /** The default calibration leaves a confidence as it is. */
  const Identity := Calibration(1.0, 1.0, 0.0)

  /** A usable observation: a confidence in [0, 1] and whether the decision was right. */
  datatype Point = Point(x: real, ok: bool)

  datatype Bin = Bin(count: nat, meanConfidence: real, accuracy: real)

  datatype Report = Report(
    samples: nat, accuracy: real, meanConfidence: real,
    expectedCalibrationError: real, brierScore: real, bins: seq<Bin>)

  const BINS: nat := 10
  const EmptyBin := Bin(0, 0.0, 0.0)
  const EmptyReport := Report(0, 0.0, 0.0, 0.0, 0.0, [])

  function Clamp01(x: real): real {
    if x < 0.0 then 0.0 else if x > 1.0 then 1.0 else x
  }

  function Apply(c: Calibration, raw: Confidence): (r: real)
    ensures 0.0 <= r <= 1.0
  {
    match raw
    case NonFinite => Clamp01(c.floor)
    case Finite(v) => Clamp01(Clamp01(v) * c.scale + c.floor)
  }

  predicate InUnit(u: seq<Point>) {
    forall i | 0 <= i < |u| :: 0.0 <= u[i].x <= 1.0
  }

  /** Samples with a finite confidence, passed through the calibration. */
  function Usable(c: Calibration, samples: seq<Sample>): (u: seq<Point>)
    ensures InUnit(u)
  {
    if samples == [] then []
    else
      var s := samples[|samples| - 1];
      Usable(c, samples[..|samples| - 1]) +
      if s.confidence.Finite? then [Point(Apply(c, s.confidence), s.correct)] else []
  }

  // Quantities that are summed over observations.
  function X(p: Point): real { p.x }
  function Y(p: Point): real { if p.ok then 1.0 else 0.0 }
  function Error(p: Point): real { X(p) - Y(p) }
  function AbsError(p: Point): real { Abs(Error(p)) }
  function SquaredError(p: Point): real { Square(Error(p)) }
  function One(p: Point): real { 1.0 }

  function CountOk(u: seq<Point>): nat {
    if u == [] then 0 else CountOk(u[..|u| - 1]) + if u[|u| - 1].ok then 1 else 0
  }

  lemma {:induction false} CountIsSum(u: seq<Point>)
    ensures CountOk(u) as real == Sum(Y, u)
  {
    if u != [] {
      CountIsSum(u[..|u| - 1]);
    }
  }

  // ----- bins -----

  function BinIndex(x: real): (b: nat)
    requires 0.0 <= x <= 1.0
    ensures b < BINS
  {
    var scaled := (x * BINS as real).Floor;
    if scaled < BINS then scaled else BINS - 1
  }

  /** The observations that fall into bin `b`, in order. */
  function InBin(u: seq<Point>, b: nat): (r: seq<Point>)
    requires InUnit(u)
    ensures InUnit(r)
  {
    if u == [] then []
    else
      var p := u[|u| - 1];
      InBin(u[..|u| - 1], b) + if BinIndex(p.x) == b then [p] else []
  }

  /** The sum of f(0), ..., f(n - 1). */
  function Total(f: nat -> real, n: nat): real {
    if n == 0 then 0.0 else Total(f, n - 1) + f(n - 1)
  }

  lemma {:induction false} TotalBump(f: nat -> real, g: nat -> real, n: nat, b: nat, d: real)
    requires forall k: nat | k < n :: g(k) == f(k) + if k == b then d else 0.0
    ensures Total(g, n) == Total(f, n) + if b < n then d else 0.0
  {
    if n > 0 {
      TotalBump(f, g, n - 1, b, d);
    }
  }

  lemma {:induction false} TotalMonotone(f: nat -> real, g: nat -> real, n: nat)
    requires forall k: nat | k < n :: f(k) <= g(k)
    ensures Total(f, n) <= Total(g, n)
  {
    if n > 0 {
      TotalMonotone(f, g, n - 1);
    }
  }

  lemma {:induction false} TotalTriangle(f: nat -> real, size: nat -> real, n: nat)
    requires forall k: nat | k < n :: size(k) == Abs(f(k))
    ensures Abs(Total(f, n)) <= Total(size, n)
  {
    if n > 0 {
      TotalTriangle(f, size, n - 1);
    }
  }

  /** One more observation adds to its own bin only. */
  lemma {:induction false} InBinSnoc(f: Point -> real, u: seq<Point>, b: nat)
    requires InUnit(u) && u != []
    ensures var init, p := u[..|u| - 1], u[|u| - 1];
            if BinIndex(p.x) == b
            then |InBin(u, b)| == |InBin(init, b)| + 1 && Sum(f, InBin(u, b)) == Sum(f, InBin(init, b)) + f(p)
            else InBin(u, b) == InBin(init, b)
  {
    SumSnoc(f, InBin(u[..|u| - 1], b), u[|u| - 1]);
  }

  /** Every observation is in exactly one bin, so any sum splits over the bins. */
  lemma {:induction false} BinsPartition(f: Point -> real, perBin: nat -> real, u: seq<Point>)
    requires InUnit(u)
    requires forall b: nat :: perBin(b) == Sum(f, InBin(u, b))
    ensures Total(perBin, BINS) == Sum(f, u)
  {
    if u == [] {
      TotalZero(perBin, BINS);
    } else {
      var init, p := u[..|u| - 1], u[|u| - 1];
      var perInit := (b: nat) => Sum(f, InBin(init, b));
      BinsPartition(f, perInit, init);
      var own := BinIndex(p.x);
      forall b: nat ensures perBin(b) == perInit(b) + if b == own then f(p) else 0.0 {
        InBinSnoc(f, u, b);
      }
      TotalBump(perInit, perBin, BINS, own, f(p));
    }
  }

  lemma {:induction false} TotalZero(f: nat -> real, n: nat)
    requires forall k: nat | k < n :: f(k) == 0.0
    ensures Total(f, n) == 0.0
  {
    if n > 0 {
      TotalZero(f, n - 1);
    }
  }

  /** A bin holding the sums over some observations, not yet divided by their count. */
  function RawBin(part: seq<Point>): Bin {
    Bin(|part|, Sum(X, part), Sum(Y, part))
  }

  /** A bin holding the means over some observations: their count-fold is the sum. */
  ghost predicate IsMeanBin(bin: Bin, part: seq<Point>) {
    && bin.count == |part|
    && Times(|part|, bin.meanConfidence) == Sum(X, part)
    && Times(|part|, bin.accuracy) == Sum(Y, part)
    && (part == [] ==> bin == EmptyBin)
  }

  /** The gap between a bin's confidence and its accuracy, once for every sample in it. */
  function WeightedGap(bin: Bin): real {
    Times(bin.count, Abs(bin.meanConfidence - bin.accuracy))
  }

  /**
    What a report says about the observations it was made from.  A mean is the number
    whose n-fold is the total; the calibration error is the mean gap per sample.
   */
  ghost predicate Describes(r: Report, u: seq<Point>) {
    && InUnit(u)
    && r.samples == |u|
    && if u == [] then r == EmptyReport else
         && Times(|u|, r.meanConfidence) == Sum(X, u)
         && Times(|u|, r.accuracy) == CountOk(u) as real
         && Times(|u|, r.brierScore) == Sum(SquaredError, u)
         && |r.bins| == BINS
         && (forall b | 0 <= b < BINS :: IsMeanBin(r.bins[b], InBin(u, b)))
         && Times(|u|, r.expectedCalibrationError) == Sum(WeightedGap, r.bins)
  }

  /** The first loop over the observations: count and add up, bin by bin. */
  method FillBins(usable: seq<Point>) returns (bins: seq<Bin>)
    requires InUnit(usable)
    ensures |bins| == BINS && forall b | 0 <= b < BINS :: bins[b] == RawBin(InBin(usable, b))
  {
    bins := seq(BINS, _ => EmptyBin);
    for i := 0 to |usable|
      invariant |bins| == BINS && forall b | 0 <= b < BINS :: bins[b] == RawBin(InBin(usable[..i], b))
    {
      var p := usable[i];
      var index := BinIndex(p.x);
      var bin := bins[index];
      bins := bins[index := Bin(bin.count + 1, bin.meanConfidence + p.x, bin.accuracy + if p.ok then 1.0 else 0.0)];
      var seen := usable[..i + 1];
      assert seen[..i] == usable[..i];
      forall b | 0 <= b < BINS ensures bins[b] == RawBin(InBin(seen, b)) {
        InBinSnoc(X, seen, b);
        InBinSnoc(Y, seen, b);
      }
    }
    assert usable[..|usable|] == usable;
  }

  lemma {:induction false} ShareOfGap(n: real, count: real, error: real, gap: real)
    requires n > 0.0
    ensures n * (error + count / n * gap) == n * error + count * gap
  {
    MultiplyBack(n, count);
    assert n * (count / n * gap) == (n * (count / n)) * gap;
  }

  /** Adds a share count/n of a gap to an error, which adds the gap count times to its n-fold. */
  function AddShare(n: nat, count: nat, error: real, gap: real): (error': real)
    requires n > 0
    ensures Times(n, error') == Times(n, error) + Times(count, gap)
  {
    var error' := error + count as real / n as real * gap;
    TimesIsProduct(n, error');
    TimesIsProduct(n, error);
    TimesIsProduct(count, gap);
    ShareOfGap(n as real, count as real, error, gap);
    error'
  }

  /** Dividing a bin's sums by its count, as the second loop does. */
  function Closed(raw: Bin): (bin: Bin) {
    if raw.count == 0 then raw
    else Bin(raw.count, raw.meanConfidence / raw.count as real, raw.accuracy / raw.count as real)
  }

  lemma {:induction false} ClosedIsMean(part: seq<Point>)
    ensures IsMeanBin(Closed(RawBin(part)), part)
  {
    if part != [] {
      TimesOfMean(|part|, Sum(X, part));
      TimesOfMean(|part|, Sum(Y, part));
    }
  }

  /** The second loop, over the bins: divide in place and add up the shares of the gaps. */
  method CloseBins(n: nat, raw: seq<Bin>) returns (bins: seq<Bin>, error: real)
    requires n > 0
    ensures |bins| == |raw| && forall b | 0 <= b < |raw| :: bins[b] == Closed(raw[b])
    ensures Times(n, error) == Sum(WeightedGap, bins)
  {
    bins, error := raw, 0.0;
    TimesIsProduct(n, 0.0);
    for b := 0 to |raw|
      invariant |bins| == |raw|
      invariant forall k | 0 <= k < b :: bins[k] == Closed(raw[k])
      invariant forall k | b <= k < |raw| :: bins[k] == raw[k]
      invariant Times(n, error) == Sum(WeightedGap, bins[..b])
    {
      ghost var before := bins[..b];
      var bin := bins[b];
      if bin.count > 0 {
        bin := Closed(bin);
        bins := bins[b := bin];
        error := AddShare(n, bin.count, error, Abs(bin.meanConfidence - bin.accuracy));
      }
      assert bins[..b + 1] == before + [bin];
      SumSnoc(WeightedGap, before, bin);
    }
    assert bins[..|raw|] == bins;
  }

  method Evaluate(c: Calibration, samples: seq<Sample>) returns (r: Report)
    ensures Describes(r, Usable(c, samples))
  {
    var usable := Usable(c, samples);
    if usable == [] {
      return EmptyReport;
    }
    var n := |usable| as real;
    var meanConfidence := Sum(X, usable) / n;
    var accuracy := CountOk(usable) as real / n;
    var brier := Sum(SquaredError, usable) / n;
    TimesOfMean(|usable|, Sum(X, usable));
    TimesOfMean(|usable|, CountOk(usable) as real);
    TimesOfMean(|usable|, Sum(SquaredError, usable));
    var raw := FillBins(usable);
    var bins, error := CloseBins(|usable|, raw);
    forall b | 0 <= b < BINS ensures IsMeanBin(bins[b], InBin(usable, b)) {
      ClosedIsMean(InBin(usable, b));
    }
    r := Report(|usable|, accuracy, meanConfidence, error, brier, bins);
  }
}
