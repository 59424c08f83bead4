/**
  Retrieval quality at rank k: precision, recall, F1 and normalised discounted
  cumulative gain (nDCG).

  The discount 1/log2(i + 2) of rank i is a parameter, of which only what the proofs
  need is asked: it is positive and strictly decreasing.
 */
module Ranking {
  import opened Lists

  ghost predicate IsDiscount(d: nat -> real) {
    && (forall i: nat :: d(i) > 0.0)
    && (forall i: nat, j: nat | i < j :: d(i) > d(j))
  }

  function TopK(retrieved: seq<string>, k: nat): seq<string> {
    retrieved[..Min(k, |retrieved|)]
  }

  /** How many entries of `ids` occur in `wanted`. */
  function Hits(ids: seq<string>, wanted: seq<string>): (h: nat)
    ensures h <= |ids|
  {
    if ids == [] then 0
    else Hits(ids[..|ids| - 1], wanted) + if ids[|ids| - 1] in wanted then 1 else 0
  }

  /** A share of n items, zero when there are none. */
  function Fraction(h: nat, n: nat): real {
    if n == 0 then 0.0 else h as real / n as real
  }

  function Precision(retrieved: seq<string>, relevant: seq<string>, k: nat): real {
    Fraction(Hits(TopK(retrieved, k), relevant), |TopK(retrieved, k)|)
  }

  function Recall(retrieved: seq<string>, relevant: seq<string>, k: nat): real {
    Fraction(Hits(relevant, TopK(retrieved, k)), |relevant|)
  }

  function F1(precision: real, recall: real): real {
    if precision + recall == 0.0 then 0.0
    else 2.0 * precision * recall / (precision + recall)
  }

  /** Discounted gain of a ranked list. */
  function Dcg(top: seq<string>, relevant: seq<string>, d: nat -> real): real {
    if top == [] then 0.0
    else Dcg(top[..|top| - 1], relevant, d) + if top[|top| - 1] in relevant then d(|top| - 1) else 0.0
  }

  /** Gain of a list whose first n entries are all relevant. */
  function Ideal(n: nat, d: nat -> real): real {
    if n == 0 then 0.0 else Ideal(n - 1, d) + d(n - 1)
  }

  function Ndcg(retrieved: seq<string>, relevant: seq<string>, k: nat, d: nat -> real): real {
    var ideal := Ideal(Min(k, |relevant|), d);
    if Min(k, |relevant|) == 0 || ideal == 0.0 then 0.0
    else Dcg(TopK(retrieved, k), relevant, d) / ideal
  }

  // ----- counting -----

  lemma {:induction false} SetSize(ids: seq<string>)
    ensures |set x | x in ids| <= |ids|
  {
    if ids != [] {
      var init := ids[..|ids| - 1];
      SetSize(init);
      assert (set x | x in ids) == (set x | x in init) + {ids[|ids| - 1]};
    }
  }

  /** For a list without duplicates, hits are the size of the intersection. */
  lemma {:induction false} HitsIsIntersection(ids: seq<string>, wanted: seq<string>)
    requires Distinct(ids)
    ensures Hits(ids, wanted) == |set x | x in ids && x in wanted|
  {
    if ids != [] {
      var init, last := ids[..|ids| - 1], ids[|ids| - 1];
      HitsIsIntersection(init, wanted);
      if last in wanted {
        assert (set x | x in ids && x in wanted) == (set x | x in init && x in wanted) + {last};
      } else {
        assert (set x | x in ids && x in wanted) == (set x | x in init && x in wanted);
      }
    }
  }

  lemma {:induction false} SubsetSize<T>(a: set<T>, b: set<T>)
    requires a <= b
    ensures |a| <= |b|
  {
    assert b == a + (b - a);
  }

  /** A list without duplicates cannot hit more entries than there are. */
  lemma {:induction false} HitsBounded(ids: seq<string>, wanted: seq<string>)
    requires Distinct(ids)
    ensures Hits(ids, wanted) <= Min(|ids|, |wanted|)
  {
    HitsIsIntersection(ids, wanted);
    SetSize(wanted);
    SubsetSize(set x | x in ids && x in wanted, set x | x in wanted);
  }

  /** Counting the intersection from either side gives the same number. */
  lemma {:induction false} HitsSymmetric(a: seq<string>, b: seq<string>)
    requires Distinct(a) && Distinct(b)
    ensures Hits(a, b) == Hits(b, a)
  {
    HitsIsIntersection(a, b);
    HitsIsIntersection(b, a);
    assert (set x | x in a && x in b) == (set x | x in b && x in a);
  }

  lemma {:induction false} TopDistinct(retrieved: seq<string>, k: nat)
    requires Distinct(retrieved)
    ensures Distinct(TopK(retrieved, k))
  {
  }

  // ----- precision, recall and F1 -----

  function Common(a: seq<string>, b: seq<string>): nat {
    |set x | x in a && x in b|
  }

  lemma {:induction false} SameHits(retrieved: seq<string>, relevant: seq<string>, k: nat)
    requires Distinct(retrieved) && Distinct(relevant)
    ensures var top := TopK(retrieved, k);
            Hits(top, relevant) == Hits(relevant, top) == Common(top, relevant)
  {
    TopDistinct(retrieved, k);
    HitsIsIntersection(TopK(retrieved, k), relevant);
    HitsSymmetric(TopK(retrieved, k), relevant);
  }

  /** Precision and recall are shares of one and the same set of hits. */
  lemma {:induction false} PrecisionRecall(retrieved: seq<string>, relevant: seq<string>, k: nat)
    requires Distinct(retrieved) && Distinct(relevant)
    ensures var top := TopK(retrieved, k);
            && Precision(retrieved, relevant, k) == Fraction(Common(top, relevant), |top|)
            && Recall(retrieved, relevant, k) == Fraction(Common(top, relevant), |relevant|)
  {
    SameHits(retrieved, relevant, k);
  }

  lemma {:induction false} ShareTimes(x: real, h: nat, n: nat)
    requires x == Fraction(h, n) && h <= n
    ensures x * n as real == h as real
  {
  }

  lemma {:induction false} SharesBalance(p: real, r: real, h: nat, n: nat, m: nat)
    requires p == Fraction(h, n) && r == Fraction(h, m) && h <= n && h <= m
    ensures p * n as real == h as real
    ensures r * m as real == h as real
  {
    ShareTimes(p, h, n);
    ShareTimes(r, h, m);
  }

  lemma {:induction false} CommonBounded(retrieved: seq<string>, relevant: seq<string>, k: nat)
    requires Distinct(retrieved) && Distinct(relevant)
    ensures Common(TopK(retrieved, k), relevant) <= Min(|TopK(retrieved, k)|, |relevant|)
  {
    SameHits(retrieved, relevant, k);
    TopDistinct(retrieved, k);
    HitsBounded(TopK(retrieved, k), relevant);
  }

  /** Precision times the list length and recall times the number of relevant items both count the hits. */
  lemma {:induction false} PrecisionRecallBalance(
      retrieved: seq<string>, relevant: seq<string>, k: nat, p: real, r: real, hits: nat, n: nat, m: nat)
    requires Distinct(retrieved) && Distinct(relevant)
    requires p == Precision(retrieved, relevant, k) && r == Recall(retrieved, relevant, k)
    requires hits == Common(TopK(retrieved, k), relevant) && n == |TopK(retrieved, k)| && m == |relevant|
    ensures p * n as real == hits as real && r * m as real == hits as real
  {
    PrecisionRecall(retrieved, relevant, k);
    CommonBounded(retrieved, relevant, k);
    SharesBalance(p, r, hits, n, m);
  }

  lemma {:induction false} HarmonicMean(h: real, n: real, m: real)
    requires h >= 0.0 && n > 0.0 && m > 0.0
    ensures F1(h / n, h / m) == 2.0 * h / (n + m)
  {
    if h == 0.0 {
      assert h / n == 0.0 && h / m == 0.0;
    } else {
      var p, r := h / n, h / m;
      assert p * n == h && r * m == h;
      assert p > 0.0 && r > 0.0;
      assert (p + r) * (n * m) == h * (n + m);
      assert (2.0 * p * r) * (n * m) == 2.0 * h * h;
      CrossDivide(2.0 * p * r, p + r, 2.0 * h, n + m, n * m, h);
    }
  }

  /** If x k = y h and d k = e h then x / d = y / e. */
  lemma {:induction false} CrossDivide(x: real, d: real, y: real, e: real, k: real, h: real)
    requires d > 0.0 && e > 0.0 && k > 0.0 && h > 0.0
    requires x * k == y * h && d * k == h * e
    ensures x / d == y / e
  {
    assert (x * e) * k == (y * d) * k by {
      assert (x * e) * k == (x * k) * e == (y * h) * e == y * (h * e) == y * (d * k);
    }
    assert x * e == y * d;
  }

  lemma {:induction false} F1OfCounts(h: nat, n: nat, m: nat)
    requires n > 0 && m > 0
    ensures F1(Fraction(h, n), Fraction(h, m)) == Fraction(2 * h, n + m)
  {
    HarmonicMean(h as real, n as real, m as real);
  }

  lemma {:induction false} F1OfShares(p: real, r: real, h: nat, n: nat, m: nat)
    requires p == Fraction(h, n) && r == Fraction(h, m) && h <= n && h <= m
    ensures F1(p, r) == Fraction(2 * h, n + m)
  {
    if n > 0 && m > 0 {
      F1OfCounts(h, n, m);
    }
  }

  /** F1 of the two is the Dice coefficient: twice the hits over the two sizes together. */
  lemma {:induction false} F1IsDice(retrieved: seq<string>, relevant: seq<string>, k: nat)
    requires Distinct(retrieved) && Distinct(relevant)
    ensures var top := TopK(retrieved, k);
            F1(Precision(retrieved, relevant, k), Recall(retrieved, relevant, k)) ==
            Fraction(2 * Common(top, relevant), |top| + |relevant|)
  {
    var top := TopK(retrieved, k);
    PrecisionRecall(retrieved, relevant, k);
    CommonBounded(retrieved, relevant, k);
    F1OfShares(Precision(retrieved, relevant, k), Recall(retrieved, relevant, k),
               Common(top, relevant), |top|, |relevant|);
  }

  // ----- nDCG -----

  lemma {:induction false} IdealGrows(n: nat, m: nat, d: nat -> real)
    requires IsDiscount(d) && n <= m
    ensures Ideal(n, d) <= Ideal(m, d)
    ensures n < m ==> Ideal(n, d) < Ideal(m, d)
  {
    if n < m {
      IdealGrows(n, m - 1, d);
    }
  }

  /** A list with h hits gains at most the ideal of h, and exactly that only when the hits come first. */
  lemma {:induction false} GainBelowIdeal(top: seq<string>, relevant: seq<string>, d: nat -> real)
    requires IsDiscount(d)
    ensures var h := Hits(top, relevant);
            && 0.0 <= Dcg(top, relevant, d) <= Ideal(h, d)
            && (Dcg(top, relevant, d) == Ideal(h, d) ==> forall i | 0 <= i < h :: top[i] in relevant)
  {
    if top != [] {
      var init, n := top[..|top| - 1], |top| - 1;
      GainBelowIdeal(init, relevant, d);
      var h := Hits(init, relevant);
      if top[n] in relevant && h < n {
        assert d(h) > d(n);
      }
    }
  }

  /** A list whose first n entries are relevant gains at least the ideal of n. */
  lemma {:induction false} HitsFirst(top: seq<string>, relevant: seq<string>, n: nat, d: nat -> real)
    requires IsDiscount(d) && n <= |top| && forall i | 0 <= i < n :: top[i] in relevant
    ensures Dcg(top, relevant, d) >= Ideal(n, d)
  {
    if n == |top| {
      if n > 0 {
        HitsFirst(top[..n - 1], relevant, n - 1, d);
      }
    } else {
      HitsFirst(top[..|top| - 1], relevant, n, d);
    }
  }

  lemma {:induction false} QuotientOrder(x: real, y: real)
    requires 0.0 <= x <= y && y > 0.0
    ensures 0.0 <= x / y <= 1.0
    ensures x / y == 1.0 <==> x == y
  {
  }

  lemma {:induction false} IdealPositive(n: nat, d: nat -> real)
    requires IsDiscount(d) && n > 0
    ensures Ideal(n, d) > 0.0
  {
    IdealGrows(0, n, d);
  }

  /** The gain of a list that hits no more often than there are relevant items is at most the ideal. */
  lemma {:induction false} GainBounded(retrieved: seq<string>, relevant: seq<string>, k: nat, d: nat -> real)
    requires IsDiscount(d) && HitsAreFew(retrieved, relevant, k)
    ensures 0.0 <= Dcg(TopK(retrieved, k), relevant, d) <= Ideal(Min(k, |relevant|), d)
  {
    GainBelowIdeal(TopK(retrieved, k), relevant, d);
    IdealGrows(Hits(TopK(retrieved, k), relevant), Min(k, |relevant|), d);
  }

  /** The top k hit no more often than there are relevant items; repeated hits count each time. */
  predicate HitsAreFew(retrieved: seq<string>, relevant: seq<string>, k: nat) {
    Hits(TopK(retrieved, k), relevant) <= |relevant|
  }

  lemma {:induction false} DistinctHitsAreFew(retrieved: seq<string>, relevant: seq<string>, k: nat)
    requires Distinct(retrieved)
    ensures HitsAreFew(retrieved, relevant, k)
  {
    TopDistinct(retrieved, k);
    HitsBounded(TopK(retrieved, k), relevant);
  }

  /** With no more hits than relevant items nDCG lies in [0, 1]. */
  lemma {:induction false} NdcgInUnit(retrieved: seq<string>, relevant: seq<string>, k: nat, d: nat -> real)
    requires IsDiscount(d) && HitsAreFew(retrieved, relevant, k)
    ensures 0.0 <= Ndcg(retrieved, relevant, k, d) <= 1.0
  {
    GainBounded(retrieved, relevant, k, d);
    if Min(k, |relevant|) > 0 {
      IdealPositive(Min(k, |relevant|), d);
      QuotientOrder(Dcg(TopK(retrieved, k), relevant, d), Ideal(Min(k, |relevant|), d));
    }
  }

  /** In particular for retrieved lists without duplicates. */
  lemma {:induction false} NdcgInUnitWhenDistinct(retrieved: seq<string>, relevant: seq<string>, k: nat, d: nat -> real)
    requires IsDiscount(d) && Distinct(retrieved)
    ensures 0.0 <= Ndcg(retrieved, relevant, k, d) <= 1.0
  {
    DistinctHitsAreFew(retrieved, relevant, k);
    NdcgInUnit(retrieved, relevant, k, d);
  }

  /** The first min(k, number of relevant items) results exist and are all relevant. */
  predicate PerfectTop(retrieved: seq<string>, relevant: seq<string>, k: nat) {
    var n := Min(k, |relevant|);
    0 < n <= |retrieved| && forall i | 0 <= i < n :: retrieved[i] in relevant
  }

  lemma {:induction false} GainIdealExactly(retrieved: seq<string>, relevant: seq<string>, k: nat, d: nat -> real)
    requires IsDiscount(d) && HitsAreFew(retrieved, relevant, k) && Min(k, |relevant|) > 0
    ensures Dcg(TopK(retrieved, k), relevant, d) == Ideal(Min(k, |relevant|), d) <==> PerfectTop(retrieved, relevant, k)
  {
    var top, n := TopK(retrieved, k), Min(k, |relevant|);
    GainBelowIdeal(top, relevant, d);
    IdealGrows(Hits(top, relevant), n, d);
    if PerfectTop(retrieved, relevant, k) {
      HitsFirst(top, relevant, n, d);
    }
    if Dcg(top, relevant, d) == Ideal(n, d) {
      assert Hits(top, relevant) == n;
      assert forall i | 0 <= i < n :: top[i] == retrieved[i];
    }
  }

  /** With no more hits than relevant items, nDCG is one exactly for a perfect top. */
  lemma {:induction false} NdcgOneExactly(retrieved: seq<string>, relevant: seq<string>, k: nat, d: nat -> real)
    requires IsDiscount(d) && HitsAreFew(retrieved, relevant, k)
    ensures Ndcg(retrieved, relevant, k, d) == 1.0 <==> PerfectTop(retrieved, relevant, k)
  {
    if Min(k, |relevant|) > 0 {
      GainBounded(retrieved, relevant, k, d);
      GainIdealExactly(retrieved, relevant, k, d);
      IdealPositive(Min(k, |relevant|), d);
      QuotientOrder(Dcg(TopK(retrieved, k), relevant, d), Ideal(Min(k, |relevant|), d));
    }
  }

  lemma {:induction false} NdcgOneWhenDistinct(retrieved: seq<string>, relevant: seq<string>, k: nat, d: nat -> real)
    requires IsDiscount(d) && Distinct(retrieved)
    ensures Ndcg(retrieved, relevant, k, d) == 1.0 <==> PerfectTop(retrieved, relevant, k)
  {
    DistinctHitsAreFew(retrieved, relevant, k);
    NdcgOneExactly(retrieved, relevant, k, d);
  }

  // ----- when nDCG is at most one -----

  /** A nearly flat discount: between one and 1 + 1/(n + 1), and strictly decreasing. */
  function Flat(n: nat): nat -> real {
    (i: nat) => 1.0 + 1.0 / ((n + 1) as real * (i + 1) as real)
  }

  lemma {:induction false} ReciprocalOrder(x: real, y: real)
    requires 0.0 < x < y
    ensures 1.0 / x > 1.0 / y > 0.0
  {
    assert 1.0 / x - 1.0 / y == (y - x) / (x * y);
  }

  lemma {:induction false} ScaledOrder(c: real, x: real, y: real)
    requires c > 0.0 && x < y
    ensures c * x < c * y
  {
  }

  lemma {:induction false} FlatIsDiscount(n: nat)
    ensures IsDiscount(Flat(n))
    ensures forall i: nat :: 1.0 < Flat(n)(i) <= 1.0 + 1.0 / (n + 1) as real
  {
    forall i: nat, j: nat | i < j ensures Flat(n)(i) > Flat(n)(j) > 1.0 {
      FlatDecreases(n, i, j);
    }
    forall i: nat ensures 1.0 < Flat(n)(i) <= 1.0 + 1.0 / (n + 1) as real {
      FlatDecreases(n, i, i + 1);
      if i > 0 {
        FlatDecreases(n, 0, i);
      }
      assert (n + 1) as real * (0 + 1) as real == (n + 1) as real;
    }
  }

  lemma {:induction false} FlatDecreases(n: nat, i: nat, j: nat)
    requires i < j
    ensures Flat(n)(i) > Flat(n)(j) > 1.0
  {
    var c, x, y := (n + 1) as real, (i + 1) as real, (j + 1) as real;
    ScaledOrder(c, 0.0, x);
    ScaledOrder(c, x, y);
    ReciprocalOrder(c * x, c * y);
  }

  lemma {:induction false} GainAboveHits(top: seq<string>, relevant: seq<string>, d: nat -> real)
    requires forall i: nat :: d(i) > 1.0
    ensures Dcg(top, relevant, d) >= Hits(top, relevant) as real
  {
    if top != [] {
      GainAboveHits(top[..|top| - 1], relevant, d);
    }
  }

  lemma {:induction false} IdealBelow(n: nat, d: nat -> real, c: real)
    requires forall i: nat :: d(i) <= c
    ensures Ideal(n, d) <= n as real * c
  {
    if n > 0 {
      IdealBelow(n - 1, d, c);
      assert n as real * c == (n - 1) as real * c + c;
    }
  }

  lemma {:induction false} GainAboveIdeal(retrieved: seq<string>, relevant: seq<string>, k: nat, d: nat -> real, c: real)
    requires !HitsAreFew(retrieved, relevant, k) && IsDiscount(d)
    requires (forall i: nat :: 1.0 < d(i) <= c) && |relevant| as real * c < (|relevant| + 1) as real
    ensures Ndcg(retrieved, relevant, k, d) > 1.0
  {
    var n, top := |relevant|, TopK(retrieved, k);
    GainAboveHits(top, relevant, d);
    IdealBelow(n, d, c);
    NoHits(top, relevant);
    IdealPositive(n, d);
    assert Min(k, n) == n;
    assert Dcg(top, relevant, d) >= Hits(top, relevant) as real >= (n + 1) as real > Ideal(n, d);
    QuotientAboveOne(Dcg(top, relevant, d), Ideal(n, d));
  }

  /** Too many hits: under a flat enough discount the gain exceeds the ideal. */
  lemma {:induction false} ManyHitsExceedOne(retrieved: seq<string>, relevant: seq<string>, k: nat)
    requires !HitsAreFew(retrieved, relevant, k)
    ensures IsDiscount(Flat(|relevant|)) && Ndcg(retrieved, relevant, k, Flat(|relevant|)) > 1.0
  {
    var c := 1.0 + 1.0 / (|relevant| + 1) as real;
    FlatIsDiscount(|relevant|);
    BelowNext(|relevant|);
    GainAboveIdeal(retrieved, relevant, k, Flat(|relevant|), c);
  }

  lemma {:induction false} BelowNext(n: nat)
    ensures n as real * (1.0 + 1.0 / (n + 1) as real) < (n + 1) as real
  {
    var m := (n + 1) as real;
    assert m * (1.0 / m) == 1.0;
    assert (m - 1.0) * (1.0 + 1.0 / m) == m - 1.0 / m;
    assert 1.0 / m > 0.0;
  }

  lemma {:induction false} NoHits(top: seq<string>, relevant: seq<string>)
    ensures relevant == [] ==> Hits(top, relevant) == 0
  {
    if top != [] {
      NoHits(top[..|top| - 1], relevant);
    }
  }

  /**
    The exact condition of the upper bound, whatever the discount: nDCG is at most one exactly
    when the top k hit no more often than there are relevant items.
   */
  lemma {:induction false} NdcgAtMostOneExactly(retrieved: seq<string>, relevant: seq<string>, k: nat)
    ensures (forall d: nat -> real | IsDiscount(d) :: Ndcg(retrieved, relevant, k, d) <= 1.0)
            <==> HitsAreFew(retrieved, relevant, k)
  {
    if HitsAreFew(retrieved, relevant, k) {
      forall d: nat -> real | IsDiscount(d) ensures Ndcg(retrieved, relevant, k, d) <= 1.0 {
        NdcgInUnit(retrieved, relevant, k, d);
      }
    } else {
      ManyHitsExceedOne(retrieved, relevant, k);
    }
  }

  /** A list that breaks the bound under every discount: one relevant result retrieved twice. */
  lemma {:induction false} RepeatedHitExceedsOne(d: nat -> real)
    requires IsDiscount(d)
    ensures !HitsAreFew(["a", "a"], ["a"], 2) && Ndcg(["a", "a"], ["a"], 2, d) > 1.0
  {
    var twice: seq<string> := ["a", "a"];
    assert twice[..1] == ["a"] && ["a"][..0] == [];
    assert Dcg(["a"], ["a"], d) == d(0) && Hits(["a"], ["a"]) == 1;
    assert TopK(twice, 2) == twice;
    assert Dcg(twice, ["a"], d) == d(0) + d(1);
    assert Ideal(1, d) == d(0);
    QuotientAboveOne(d(0) + d(1), d(0));
  }

  lemma {:induction false} QuotientAboveOne(x: real, y: real)
    requires x > y > 0.0
    ensures x / y > 1.0
  {
  }

  // ----- swapping results -----

  function Gain(ids: seq<string>, relevant: seq<string>, d: nat -> real, i: nat): real
    requires i < |ids|
  {
    if ids[i] in relevant then d(i) else 0.0
  }

  lemma {:induction false} DcgUpdate(ids: seq<string>, relevant: seq<string>, d: nat -> real, i: nat, x: string)
    requires i < |ids|
    ensures Dcg(ids[i := x], relevant, d) ==
            Dcg(ids, relevant, d) - Gain(ids, relevant, d, i) + (if x in relevant then d(i) else 0.0)
  {
    var n := |ids| - 1;
    if i == n {
      assert ids[i := x][..n] == ids[..n];
    } else {
      assert ids[i := x][..n] == ids[..n][i := x];
      DcgUpdate(ids[..n], relevant, d, i, x);
    }
  }

  lemma {:induction false} SwapGain(top: seq<string>, relevant: seq<string>, d: nat -> real, i: nat, j: nat)
    requires IsDiscount(d) && i < j < |top| && top[i] !in relevant && top[j] in relevant
    ensures Dcg(top[i := top[j]][j := top[i]], relevant, d) > Dcg(top, relevant, d)
  {
    DcgUpdate(top, relevant, d, i, top[j]);
    DcgUpdate(top[i := top[j]], relevant, d, j, top[i]);
    assert d(i) > d(j);
  }

  lemma {:induction false} QuotientAdd(x: real, y: real, z: real)
    requires z > 0.0
    ensures (x + y) / z == x / z + y / z
  {
  }

  lemma {:induction false} NothingGained(top: seq<string>, relevant: seq<string>, d: nat -> real)
    requires forall i | 0 <= i < |top| :: top[i] !in relevant
    ensures Dcg(top, relevant, d) == 0.0
  {
    if top != [] {
      NothingGained(top[..|top| - 1], relevant, d);
    }
  }

  /**
    nDCG adds up over the ranks: it is zero without a relevant result in the top k, and making the
    irrelevant result at rank i relevant adds the discount of i over the ideal.
   */
  lemma {:induction false} NdcgAddsUp(retrieved: seq<string>, relevant: seq<string>, k: nat, d: nat -> real, i: nat, x: string)
    requires IsDiscount(d) && i < |retrieved| && i < k && retrieved[i] !in relevant && x in relevant
    ensures Ideal(Min(k, |relevant|), d) > 0.0
    ensures Ndcg(retrieved[i := x], relevant, k, d) == Ndcg(retrieved, relevant, k, d) + d(i) / Ideal(Min(k, |relevant|), d)
    ensures (forall j | 0 <= j < |retrieved| && j < k :: retrieved[j] !in relevant) ==> Ndcg(retrieved, relevant, k, d) == 0.0
  {
    var top := TopK(retrieved, k);
    assert TopK(retrieved[i := x], k) == top[i := x];
    DcgUpdate(top, relevant, d, i, x);
    IdealPositive(Min(k, |relevant|), d);
    QuotientAdd(Dcg(top, relevant, d), d(i), Ideal(Min(k, |relevant|), d));
    if forall j | 0 <= j < |retrieved| && j < k :: retrieved[j] !in relevant {
      NothingGained(top, relevant, d);
    }
  }

  lemma {:induction false} QuotientStrict(x: real, y: real, z: real)
    requires x < y && z > 0.0
    ensures x / z < y / z
  {
  }

  /** Moving a relevant result above an irrelevant one inside the top k strictly raises nDCG. */
  lemma {:induction false} SwapRaisesNdcg(retrieved: seq<string>, relevant: seq<string>, k: nat, d: nat -> real, i: nat, j: nat)
    requires IsDiscount(d) && i < j < |retrieved| && j < k
    requires retrieved[i] !in relevant && retrieved[j] in relevant
    ensures Ndcg(retrieved[i := retrieved[j]][j := retrieved[i]], relevant, k, d) > Ndcg(retrieved, relevant, k, d)
  {
    var top := TopK(retrieved, k);
    var swapped := retrieved[i := retrieved[j]][j := retrieved[i]];
    assert TopK(swapped, k) == top[i := top[j]][j := top[i]];
    SwapGain(top, relevant, d, i, j);
    IdealPositive(Min(k, |relevant|), d);
    QuotientStrict(Dcg(top, relevant, d), Dcg(TopK(swapped, k), relevant, d), Ideal(Min(k, |relevant|), d));
  }
}
