/**
  The deterministic bootstrap interval of the routing evaluation: a fixed-seed
  xorshift generator draws resamples, and two order statistics of the resampled
  accuracies are reported.

  Accuracies are exact rationals held as reals; the generator works on 64-bit words.
  The figures are defined for any stream of drawn numbers; the program uses `Stream`.
 */
module Bootstrap {

  type Word = bv64

  const SEED: Word := 0x2545_F491_4F6C_DD1D
  const MULTIPLIER: Word := 0x2545_F491_4F6C_DD1D

  // ----- the generator -----

  function Advance(s: Word): Word {
    var a := s ^ (s >> 12);
    var b := a ^ (a << 25);
    b ^ (b >> 27)
  }

  /** The word drawn from a state; multiplication wraps. */
  function Draw(s: Word): Word {
    s * MULTIPLIER
  }

  lemma {:induction false} ShiftRightKeepsNonzero(s: Word)
    ensures s != 0 ==> s ^ (s >> 12) != 0
    ensures s != 0 ==> s ^ (s >> 27) != 0
    ensures s != 0 ==> s ^ (s << 25) != 0
  {
  }

  /** The generator never falls into its absorbing zero state. */
  lemma {:induction false} AdvanceNonzero(s: Word)
    requires s != 0
    ensures Advance(s) != 0
  {
    var a := s ^ (s >> 12);
    ShiftRightKeepsNonzero(s);
    var b := a ^ (a << 25);
    ShiftRightKeepsNonzero(a);
    ShiftRightKeepsNonzero(b);
  }

  /** The state after `k` draws. */
  function StateAfter(s: Word, k: nat): Word {
    if k == 0 then s else Advance(StateAfter(s, k - 1))
  }

  lemma {:induction false} StatesNonzero(k: nat)
    ensures StateAfter(SEED, k) != 0
  {
    if k > 0 {
      StatesNonzero(k - 1);
      AdvanceNonzero(StateAfter(SEED, k - 1));
    }
  }

  /** The drawn word as a number. */
  function Number(s: Word): nat {
    Draw(s) as nat
  }

  /** The number drawn at each draw, counted from one. */
  function Stream(seed: Word): nat -> nat {
    (k: nat) => Number(StateAfter(seed, k))
  }

  // ----- resampling -----

  /** How many of the draws m + 1, ..., m + k hit a correct outcome; a drawn number is reduced to a position. */
  function Hits(correct: seq<bool>, w: nat -> nat, m: nat, k: nat): (h: nat)
    requires correct != []
    ensures h <= k
  {
    if k == 0 then 0
    else Hits(correct, w, m, k - 1) + if correct[w(m + k) % |correct|] then 1 else 0
  }

  /** The accuracy of resample `r`, which follows `r` resamples of as many draws as there are outcomes. */
  function Accuracy(correct: seq<bool>, w: nat -> nat, r: nat): (m: real)
    requires correct != []
  {
    Hits(correct, w, |correct| * r, |correct|) as real / |correct| as real
  }

  /** The accuracies of the first `r` resamples. */
  function Means(correct: seq<bool>, w: nat -> nat, r: nat): (ms: seq<real>)
    requires correct != []
    ensures |ms| == r
  {
    if r == 0 then [] else Means(correct, w, r - 1) + [Accuracy(correct, w, r - 1)]
  }

  // ----- sorting -----

  predicate Ordered(xs: seq<real>) {
    forall i, j | 0 <= i < j < |xs| :: xs[i] <= xs[j]
  }

  function Insert(x: real, xs: seq<real>): seq<real> {
    if xs == [] || x <= xs[0] then [x] + xs else [xs[0]] + Insert(x, xs[1..])
  }

  function Sort(xs: seq<real>): (ys: seq<real>) {
    if xs == [] then [] else Insert(xs[0], Sort(xs[1..]))
  }

  lemma {:induction false} InsertOrdered(x: real, xs: seq<real>)
    requires Ordered(xs)
    ensures Ordered(Insert(x, xs))
    ensures Insert(x, xs) != [] && (Insert(x, xs)[0] == x || (xs != [] && Insert(x, xs)[0] == xs[0]))
  {
    if xs != [] && x > xs[0] {
      InsertOrdered(x, xs[1..]);
      var rest := Insert(x, xs[1..]);
      forall j | 0 <= j < |rest| ensures xs[0] <= rest[j] {
        assert rest[0] <= rest[j];
      }
    }
  }

  lemma {:induction false} InsertAdds(x: real, xs: seq<real>)
    ensures multiset(Insert(x, xs)) == multiset(xs) + multiset{x}
    ensures |Insert(x, xs)| == |xs| + 1
  {
    if xs != [] && x > xs[0] {
      InsertAdds(x, xs[1..]);
      assert xs == [xs[0]] + xs[1..];
    }
  }

  /** Sorting gives an ordered permutation. */
  lemma {:induction false} SortIsSorted(xs: seq<real>)
    ensures Ordered(Sort(xs))
    ensures multiset(Sort(xs)) == multiset(xs)
    ensures |Sort(xs)| == |xs|
  {
    if xs != [] {
      SortIsSorted(xs[1..]);
      InsertOrdered(xs[0], Sort(xs[1..]));
      InsertAdds(xs[0], Sort(xs[1..]));
      assert xs == [xs[0]] + xs[1..];
    }
  }

  lemma {:induction false} SmallestFirst(xs: seq<real>, ys: seq<real>)
    requires Ordered(xs) && xs != [] && ys != [] && multiset(xs) == multiset(ys)
    ensures xs[0] <= ys[0]
  {
    assert ys[0] in multiset(ys);
    assert ys[0] in xs;
  }

  lemma {:induction false} TailMultiset(xs: seq<real>)
    requires xs != []
    ensures multiset(xs[1..]) == multiset(xs) - multiset{xs[0]}
  {
    assert xs == [xs[0]] + xs[1..];
  }

  /** There is only one ordered permutation, so it does not matter which algorithm finds it. */
  lemma {:induction false} OrderedUnique(xs: seq<real>, ys: seq<real>)
    requires Ordered(xs) && Ordered(ys) && multiset(xs) == multiset(ys)
    ensures xs == ys
  {
    assert |xs| == |multiset(xs)| == |ys|;
    if xs != [] {
      SmallestFirst(xs, ys);
      SmallestFirst(ys, xs);
      TailMultiset(xs);
      TailMultiset(ys);
      OrderedUnique(xs[1..], ys[1..]);
      assert xs == [xs[0]] + xs[1..] && ys == [ys[0]] + ys[1..];
    }
  }

  predicate Below(xs: seq<real>, ys: seq<real>) {
    |xs| == |ys| && forall i | 0 <= i < |xs| :: xs[i] <= ys[i]
  }

  lemma {:induction false} InsertMonotone(x: real, xs: seq<real>, y: real, ys: seq<real>)
    requires x <= y && Below(xs, ys) && Ordered(xs) && Ordered(ys)
    ensures Below(Insert(x, xs), Insert(y, ys))
    decreases |xs|, 0
  {
    if xs != [] {
      if x <= xs[0] && y > ys[0] {
        // x comes first on the left, ys[0] on the right; what follows on the right dominates xs.
        InsertDominates(xs, y, ys);
      } else if x > xs[0] && y <= ys[0] {
        InsertBelow(x, xs, y, ys);
      } else if x > xs[0] {
        InsertMonotone(x, xs[1..], y, ys[1..]);
      }
    }
  }

  /** Right side shifted: the list xs lies below ys[1..] with y inserted. */
  lemma {:induction false} InsertDominates(xs: seq<real>, y: real, ys: seq<real>)
    requires xs != [] && Below(xs, ys) && Ordered(xs) && Ordered(ys) && y > ys[0]
    ensures Below(xs, Insert(y, ys[1..]))
    decreases |xs| - 1, 1
  {
    InsertMonotone(xs[0], xs[1..], y, ys[1..]);
    InsertFront(xs);
  }

  lemma {:induction false} InsertFront(xs: seq<real>)
    requires xs != [] && Ordered(xs)
    ensures Insert(xs[0], xs[1..]) == xs
  {
  }

  /** Left side shifted: xs[1..] with x inserted lies below ys, when x is at most ys[0]. */
  lemma {:induction false} InsertBelow(x: real, xs: seq<real>, y: real, ys: seq<real>)
    requires xs != [] && Below(xs, ys) && Ordered(xs) && Ordered(ys) && xs[0] < x <= y <= ys[0]
    ensures Below(Insert(x, xs), [y] + ys)
    decreases |xs| - 1, 1
  {
    InsertMonotone(x, xs[1..], ys[0], ys[1..]);
    InsertFront(ys);
  }

  /** Raising entries of a list raises its order statistics. */
  lemma {:induction false} SortMonotone(xs: seq<real>, ys: seq<real>)
    requires Below(xs, ys)
    ensures Below(Sort(xs), Sort(ys))
  {
    if xs != [] {
      SortMonotone(xs[1..], ys[1..]);
      SortIsSorted(xs[1..]);
      SortIsSorted(ys[1..]);
      InsertMonotone(xs[0], Sort(xs[1..]), ys[0], Sort(ys[1..]));
    }
  }

  // ----- the interval -----

  function LowRank(resamples: nat): int {
    (resamples as real * 0.025).Floor
  }

  function HighRank(resamples: nat): int {
    var rank := (resamples as real * 0.975).Floor;
    if rank < resamples then rank else resamples - 1
  }

  lemma {:induction false} RanksInRange(resamples: nat)
    requires resamples >= 1
    ensures 0 <= LowRank(resamples) <= HighRank(resamples) < resamples
  {
    var r := resamples as real;
    assert r * 0.025 <= r * 0.975;
    assert r * 0.025 < r;
  }

  /** The two order statistics that make the interval. */
  function Interval(correct: seq<bool>, w: nat -> nat, resamples: nat): (real, real)
    requires correct != [] ==> resamples >= 1
  {
    if correct == [] then (0.0, 0.0)
    else
      var sorted := Sort(Means(correct, w, resamples));
      RanksInRange(resamples);
      SortIsSorted(Means(correct, w, resamples));
      (sorted[LowRank(resamples)], sorted[HighRank(resamples)])
  }

  lemma {:induction false} NextOffset(n: nat, r: nat)
    ensures n * (r + 1) == n * r + n && n * 0 == 0
  {
  }

  /** The states and the numbers drawn from them, one step at a time. */
  predicate Linked(states: nat -> Word, w: nat -> nat, k: nat) {
    states(k + 1) == Advance(states(k)) && w(k + 1) == Number(states(k + 1))
  }

  ghost predicate Follows(states: nat -> Word, w: nat -> nat) {
    forall k: nat :: Linked(states, w, k)
  }

  function States(seed: Word): nat -> Word {
    (k: nat) => StateAfter(seed, k)
  }

  lemma {:induction false} StreamFollows(seed: Word)
    ensures Follows(States(seed), Stream(seed)) && States(seed)(0) == seed
  {
    forall k: nat ensures Linked(States(seed), Stream(seed), k) {
      assert States(seed)(k + 1) == StateAfter(seed, k + 1);
      assert Stream(seed)(k + 1) == Number(StateAfter(seed, k + 1));
    }
  }

  /** One draw: the next state of the stream and the position it gives. */
  method Next(state: Word, n: nat, ghost states: nat -> Word, ghost w: nat -> nat, ghost k: nat) returns (next: Word, i: nat)
    requires n > 0 && Follows(states, w) && state == states(k)
    ensures next == states(k + 1) && i == w(k + 1) % n
  {
    assert Linked(states, w, k);
    next := Advance(state);
    i := Number(next) % n;
  }

  /** One resample: as many draws as there are outcomes, continuing the stream. */
  method Resample(correct: seq<bool>, start: Word, ghost states: nat -> Word, ghost w: nat -> nat, ghost offset: nat)
    returns (hits: nat, state: Word)
    requires correct != [] && Follows(states, w) && start == states(offset)
    ensures state == states(offset + |correct|)
    ensures hits == Hits(correct, w, offset, |correct|)
  {
    hits, state := 0, start;
    for k := 0 to |correct|
      invariant state == states(offset + k)
      invariant hits == Hits(correct, w, offset, k)
    {
      var i;
      state, i := Next(state, |correct|, states, w, offset + k);
      if correct[i] {
        hits := hits + 1;
      }
    }
  }

  method ResampleAll(correct: seq<bool>, seed: Word, resamples: nat, ghost states: nat -> Word, ghost w: nat -> nat)
    returns (means: seq<real>)
    requires correct != [] && Follows(states, w) && seed == states(0)
    ensures means == Means(correct, w, resamples)
  {
    var n := |correct|;
    var state := seed;
    means := [];
    ghost var offset := 0;
    for r := 0 to resamples
      invariant offset == n * r && state == states(offset)
      invariant means == Means(correct, w, r)
    {
      var hits;
      hits, state := Resample(correct, state, states, w, offset);
      means := means + [hits as real / n as real];
      NextOffset(n, r);
      offset := offset + n;
    }
  }

  /** With outcomes but no resamples the program would index an empty list, hence the precondition. */
  method BootstrapCi(correct: seq<bool>, resamples: nat) returns (lower: real, upper: real)
    requires correct != [] ==> resamples >= 1
    ensures (lower, upper) == Interval(correct, Stream(SEED), resamples)
  {
    if correct == [] {
      return 0.0, 0.0;
    }
    StreamFollows(SEED);
    var means := ResampleAll(correct, SEED, resamples, States(SEED), Stream(SEED));
    RanksInRange(resamples);
    SortIsSorted(means);
    means := Sort(means);
    lower := means[LowRank(resamples)];
    upper := means[HighRank(resamples)];
  }

  // ----- what the interval guarantees -----

  /** `better` has every correct outcome of `worse`, and perhaps more. */
  predicate Improves(worse: seq<bool>, better: seq<bool>) {
    |worse| == |better| && forall i | 0 <= i < |worse| :: worse[i] ==> better[i]
  }

  lemma {:induction false} HitsMonotone(worse: seq<bool>, better: seq<bool>, w: nat -> nat, m: nat, k: nat)
    requires worse != [] && Improves(worse, better)
    ensures Hits(worse, w, m, k) <= Hits(better, w, m, k)
  {
    if k > 0 {
      HitsMonotone(worse, better, w, m, k - 1);
    }
  }

  lemma {:induction false} QuotientMonotone(a: real, b: real, n: real)
    requires a <= b && n > 0.0
    ensures a / n <= b / n
  {
  }

  lemma {:induction false} AccuracyMonotone(worse: seq<bool>, better: seq<bool>, w: nat -> nat, r: nat)
    requires worse != [] && Improves(worse, better)
    ensures Accuracy(worse, w, r) <= Accuracy(better, w, r)
  {
    var n := |worse|;
    HitsMonotone(worse, better, w, n * r, n);
    QuotientMonotone(Hits(worse, w, n * r, n) as real, Hits(better, w, n * r, n) as real, n as real);
  }

  lemma {:induction false} MeansMonotone(worse: seq<bool>, better: seq<bool>, w: nat -> nat, r: nat)
    requires worse != [] && Improves(worse, better)
    ensures Below(Means(worse, w, r), Means(better, w, r))
  {
    if r > 0 {
      MeansMonotone(worse, better, w, r - 1);
      AccuracyMonotone(worse, better, w, r - 1);
    }
  }

  /** Turning outcomes from wrong to right never lowers either end of the interval, whatever is drawn. */
  lemma {:induction false} IntervalMonotone(worse: seq<bool>, better: seq<bool>, w: nat -> nat, resamples: nat)
    requires Improves(worse, better) && (worse != [] ==> resamples >= 1)
    ensures Interval(worse, w, resamples).0 <= Interval(better, w, resamples).0
    ensures Interval(worse, w, resamples).1 <= Interval(better, w, resamples).1
  {
    if worse != [] {
      MeansMonotone(worse, better, w, resamples);
      SortMonotone(Means(worse, w, resamples), Means(better, w, resamples));
      RanksInRange(resamples);
      SortIsSorted(Means(worse, w, resamples));
      SortIsSorted(Means(better, w, resamples));
    }
  }

  lemma {:induction false} AccuracyInUnit(correct: seq<bool>, w: nat -> nat, r: nat)
    requires correct != []
    ensures 0.0 <= Accuracy(correct, w, r) <= 1.0
  {
    QuotientInUnit(Hits(correct, w, |correct| * r, |correct|), |correct|);
  }

  lemma {:induction false} MeanAt(correct: seq<bool>, w: nat -> nat, r: nat, i: nat)
    requires correct != [] && i < r
    ensures Means(correct, w, r)[i] == Accuracy(correct, w, i)
  {
    if i < r - 1 {
      MeanAt(correct, w, r - 1, i);
    }
  }

  lemma {:induction false} MeansInUnit(correct: seq<bool>, w: nat -> nat, r: nat, i: nat)
    requires correct != [] && i < r
    ensures 0.0 <= Means(correct, w, r)[i] <= 1.0
  {
    MeanAt(correct, w, r, i);
    AccuracyInUnit(correct, w, i);
  }

  lemma {:induction false} QuotientInUnit(h: nat, n: nat)
    requires h <= n && n > 0
    ensures 0.0 <= h as real / n as real <= 1.0
  {
  }

  /** The interval is a real one, inside [0, 1]. */
  lemma {:induction false} IntervalBounds(correct: seq<bool>, w: nat -> nat, resamples: nat)
    requires correct != [] ==> resamples >= 1
    ensures var (lower, upper) := Interval(correct, w, resamples); 0.0 <= lower <= upper <= 1.0
  {
    if correct != [] {
      var means := Means(correct, w, resamples);
      var sorted := Sort(means);
      RanksInRange(resamples);
      SortIsSorted(means);
      forall i | 0 <= i < |sorted| ensures 0.0 <= sorted[i] <= 1.0 {
        assert sorted[i] in multiset(means);
        var k :| 0 <= k < |means| && means[k] == sorted[i];
        MeansInUnit(correct, w, resamples, k);
      }
    }
  }
}
