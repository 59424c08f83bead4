/** What the bootstrap interval is: which outcomes are drawn, and which of the resampled accuracies are reported. */
module BootstrapFacts {
  import opened Bootstrap
  import opened Division

  // ----- the stream of draws -----

  /** The stream is the sequence of words drawn, and these are its first two words. */
  lemma {:induction false} StreamOfWords(k: nat)
    ensures Stream(SEED)(k) == Draw(StateAfter(SEED, k)) as nat
    ensures Draw(StateAfter(SEED, 1)) == 0xAD5D_B60B_4C5D_45D4
    ensures Draw(StateAfter(SEED, 2)) == 0xBEDA_F65D_8707_906E
  {
    assert StateAfter(SEED, 1) == 0xB94B_508E_8F12_38E4;
    assert StateAfter(SEED, 2) == 0xCE4F_31B1_C01C_FCC6;
  }

  /** Draw number `k` falls on position `p` of `n`: `p` is the remainder of the number drawn. */
  ghost predicate FallsOn(w: nat -> nat, n: nat, k: nat, p: nat) {
    p < n && exists q: nat :: w(k) == q * n + p
  }

  ghost predicate DrawsCorrect(correct: seq<bool>, w: nat -> nat, k: nat) {
    exists p: nat | p < |correct| && correct[p] :: FallsOn(w, |correct|, k, p)
  }

  lemma {:induction false} PositionIsRemainder(w: nat -> nat, n: nat, k: nat, p: nat)
    requires n > 0
    ensures FallsOn(w, n, k, p) <==> p == w(k) % n
  {
    var x := w(k);
    assert x == (x / n) * n + x % n;
    if FallsOn(w, n, k, p) {
      var q: nat :| x == q * n + p;
      RemainderUnique(n, q, p, x / n, x % n);
    }
  }

  lemma {:induction false} CorrectIsDrawn(correct: seq<bool>, w: nat -> nat, k: nat)
    requires correct != []
    ensures DrawsCorrect(correct, w, k) <==> correct[w(k) % |correct|]
  {
    var p := w(k) % |correct|;
    PositionIsRemainder(w, |correct|, k, p);
    if DrawsCorrect(correct, w, k) {
      var p': nat :| p' < |correct| && correct[p'] && FallsOn(w, |correct|, k, p');
      PositionIsRemainder(w, |correct|, k, p');
    }
  }

  /** The draws number m + 1 to m + k that are correct. */
  ghost function CorrectDraws(correct: seq<bool>, w: nat -> nat, m: nat, k: nat): set<nat> {
    set j: nat | m < j <= m + k && DrawsCorrect(correct, w, j)
  }

  lemma {:induction false} HitsCount(correct: seq<bool>, w: nat -> nat, m: nat, k: nat)
    requires correct != []
    ensures Hits(correct, w, m, k) == |CorrectDraws(correct, w, m, k)|
  {
    if k == 0 {
      assert CorrectDraws(correct, w, m, k) == {};
    } else {
      HitsCount(correct, w, m, k - 1);
      CorrectIsDrawn(correct, w, m + k);
      var before := CorrectDraws(correct, w, m, k - 1);
      if DrawsCorrect(correct, w, m + k) {
        assert CorrectDraws(correct, w, m, k) == before + {m + k};
      } else {
        assert CorrectDraws(correct, w, m, k) == before;
      }
    }
  }

  lemma {:induction false} QuotientBack(h: nat, n: nat, x: real)
    requires n > 0 && x == h as real / n as real
    ensures x * n as real == h as real
  {
  }

  lemma {:induction false} AccuracyCounts(correct: seq<bool>, w: nat -> nat, i: nat, m: nat)
    requires correct != [] && m == |correct| * i
    ensures Accuracy(correct, w, i) == |CorrectDraws(correct, w, m, |correct|)| as real / |correct| as real
  {
    HitsCount(correct, w, m, |correct|);
  }

  /** Resample `i` takes the draws n i + 1 to n i + n, and its accuracy is the share of correct ones. */
  lemma {:induction false} MeanCountsDraws(correct: seq<bool>, w: nat -> nat, r: nat, i: nat, n: nat, m: nat, x: real)
    requires correct != [] && i < r && n == |correct| && m == n * i && x == Means(correct, w, r)[i]
    ensures x * n as real == |CorrectDraws(correct, w, m, n)| as real
  {
    MeanAt(correct, w, r, i);
    AccuracyCounts(correct, w, i, m);
    QuotientBack(|CorrectDraws(correct, w, m, n)|, n, x);
  }

  // ----- the ranks -----

  /** The ranks, by counting: the largest with 40 r <= resamples, and the largest below resamples with 40 r <= 39 resamples. */
  lemma {:induction false} RanksByCounting(resamples: nat, r: int)
    requires resamples >= 1
    ensures r <= LowRank(resamples) <==> 40 * r <= resamples
    ensures r <= HighRank(resamples) <==> r < resamples && 40 * r <= 39 * resamples
  {
    var x := resamples as real;
    assert r as real <= x * 0.025 <==> 40 * r <= resamples;
    assert r as real <= x * 0.975 <==> 40 * r <= 39 * resamples;
    FloorAtLeast(x * 0.025, r);
    FloorAtLeast(x * 0.975, r);
  }

  lemma {:induction false} FloorAtLeast(x: real, r: int)
    ensures r <= x.Floor <==> r as real <= x
  {
  }

  // ----- order statistics -----

  function CountBelow(xs: seq<real>, x: real): nat {
    if xs == [] then 0 else (if xs[0] < x then 1 else 0) + CountBelow(xs[1..], x)
  }

  function CountUpTo(xs: seq<real>, x: real): nat {
    if xs == [] then 0 else (if xs[0] <= x then 1 else 0) + CountUpTo(xs[1..], x)
  }

  /** At most `rank` entries lie below x and more than `rank` are at most x. */
  predicate HasRank(xs: seq<real>, rank: nat, x: real) {
    CountBelow(xs, x) <= rank < CountUpTo(xs, x)
  }

  lemma {:induction false} InsertCounts(y: real, xs: seq<real>, x: real)
    ensures CountBelow(Insert(y, xs), x) == CountBelow(xs, x) + if y < x then 1 else 0
    ensures CountUpTo(Insert(y, xs), x) == CountUpTo(xs, x) + if y <= x then 1 else 0
  {
    var r := Insert(y, xs);
    if xs == [] || y <= xs[0] {
      assert r[1..] == xs;
    } else {
      assert r[1..] == Insert(y, xs[1..]);
      InsertCounts(y, xs[1..], x);
    }
  }

  lemma {:induction false} SortCounts(xs: seq<real>, x: real)
    ensures CountBelow(Sort(xs), x) == CountBelow(xs, x)
    ensures CountUpTo(Sort(xs), x) == CountUpTo(xs, x)
  {
    if xs != [] {
      SortCounts(xs[1..], x);
      InsertCounts(xs[0], Sort(xs[1..]), x);
    }
  }

  lemma {:induction false} CountsInOrder(xs: seq<real>, rank: nat)
    requires Ordered(xs) && rank < |xs|
    ensures HasRank(xs, rank, xs[rank])
  {
    var x := xs[rank];
    if rank == 0 {
      NoneBelow(xs, x);
    } else {
      CountsInOrder(xs[1..], rank - 1);
    }
  }

  lemma {:induction false} NoneBelow(xs: seq<real>, x: real)
    requires forall i | 0 <= i < |xs| :: x <= xs[i]
    ensures CountBelow(xs, x) == 0
  {
    if xs != [] {
      NoneBelow(xs[1..], x);
    }
  }

  lemma {:induction false} CountsGrow(xs: seq<real>, x: real, y: real)
    requires x < y
    ensures CountUpTo(xs, x) <= CountBelow(xs, y)
  {
    if xs != [] {
      CountsGrow(xs[1..], x, y);
    }
  }

  /** An entry of the sorted list is the one number with that rank in the unsorted one. */
  lemma {:induction false} SortedAtRank(xs: seq<real>, rank: nat, x: real)
    requires rank < |xs|
    ensures |Sort(xs)| == |xs|
    ensures x == Sort(xs)[rank] <==> HasRank(xs, rank, x)
  {
    SortIsSorted(xs);
    var y := Sort(xs)[rank];
    CountsInOrder(Sort(xs), rank);
    SortCounts(xs, y);
    if x < y {
      CountsGrow(xs, x, y);
    } else if y < x {
      CountsGrow(xs, y, x);
    }
  }

  /** The interval consists of the two numbers of these ranks among the resampled accuracies, and of no others. */
  lemma {:induction false} IntervalExactly(correct: seq<bool>, w: nat -> nat, resamples: nat, lower: real, upper: real)
    requires correct != [] && resamples >= 1
    ensures 0 <= LowRank(resamples) <= HighRank(resamples)
    ensures (lower, upper) == Interval(correct, w, resamples) <==>
            var means := Means(correct, w, resamples);
            HasRank(means, LowRank(resamples), lower) && HasRank(means, HighRank(resamples), upper)
  {
    var means := Means(correct, w, resamples);
    RanksInRange(resamples);
    SortedAtRank(means, LowRank(resamples), lower);
    SortedAtRank(means, HighRank(resamples), upper);
  }
}
