/** The numbers of a merge query: what their digits say, and how the engine reads integers back. */
module MergeNumbers {
  import opened Division
  import opened Options
  import opened HirnqlText
  import opened MergeQuery
  import opened MergeParser
  import opened MergeRoundTrip
  import opened MergeTheorem

  function Digit(d: nat): char
    requires d < 10
  {
    ('0' as int + d) as char
  }

  /** The decimal digits of a number. */
  function Decimal(n: nat): string {
    if n < 10 then [Digit(n)] else Decimal(n / 10) + [Digit(n % 10)]
  }

  /** Reading the digits of a number gives the number. */
  lemma {:induction false} DecimalReadsBack(n: nat)
    ensures Decimal(n) != [] && Digits(Decimal(n)) && DigitsValue(Decimal(n)) == n
  {
    if n < 10 {
      assert [Digit(n)][..0] == [];
    } else {
      DecimalReadsBack(n / 10);
      var s := Decimal(n);
      assert s[..|s| - 1] == Decimal(n / 10);
    }
  }

  function IntegerNumeral(k: int): Numeral {
    Numeral(k < 0, Decimal(if k < 0 then -k else k), [], [])
  }

  /** An integer written in decimal is read back as itself. */
  lemma {:induction false} IntegerReadsBack(k: int, t: string)
    requires Stops(t)
    ensures NextSetValue(" " + Render(IntegerNumeral(k)) + t) == Some((Int(k), t))
  {
    DecimalReadsBack(if k < 0 then -k else k);
    ReadNumber(IntegerNumeral(k), t);
    assert [] + t == t;
  }

  lemma {:induction false} ExponentReads(n: Printed, k: nat)
    ensures n.exponent == "e+" + Decimal(k) ==> ExponentValue(n) == k
    ensures n.exponent == "e-" + Decimal(k) ==> ExponentValue(n) + k == 0
    ensures n.exponent == [] ==> ExponentValue(n) == 0
  {
    DecimalReadsBack(k);
    assert ("e+" + Decimal(k))[2..] == Decimal(k) && ("e-" + Decimal(k))[2..] == Decimal(k);
  }

  // ----- integers -----

  function Pow10(k: nat): nat {
    if k == 0 then 1 else 10 * Pow10(k - 1)
  }

  lemma {:induction false} PowPositive(k: nat)
    ensures Pow10(k) > 0
  {
    if k > 0 {
      PowPositive(k - 1);
    }
  }

  /** All digits, without the point. */
  function Mantissa(n: Printed): nat {
    DigitsValue(n.whole + n.fraction)
  }

  /** The number is its mantissa times ten to this power. */
  function Scale(n: Printed): int {
    ExponentValue(n) - |n.fraction|
  }

  lemma {:induction false} DivideByTen(x: nat, d: nat, p: nat)
    requires d < 10 && p > 0
    ensures (10 * x + d) % (10 * p) == 0 <==> d == 0 && x % p == 0
  {
    var y := 10 * x + d;
    if d == 0 && x % p == 0 {
      var q := x / p;
      assert x == p * q;
      MultipleOf(y, 10 * p, q);
    }
    if y % (10 * p) == 0 {
      var q := y / (10 * p);
      assert y == (10 * p) * q == 10 * (p * q);
      MultipleOf(x, p, q);
    }
  }

  lemma {:induction false} DivisibleExactly(s: string, k: nat)
    requires Digits(s)
    ensures Pow10(k) > 0
    ensures DigitsValue(s) % Pow10(k) == 0 <==> ZeroFrom(s, |s| - k)
  {
    PowPositive(k);
    if k > 0 && s != [] {
      var init, last := s[..|s| - 1], s[|s| - 1];
      DivisibleExactly(init, k - 1);
      DivideByTen(DigitsValue(init), last as int - '0' as int, Pow10(k - 1));
      ZeroSnoc(s, |s| - k);
    }
  }

  lemma {:induction false} ZeroSnoc(s: string, k: int)
    requires s != [] && k < |s|
    ensures ZeroFrom(s, k) <==> ZeroFrom(s[..|s| - 1], k) && s[|s| - 1] == '0'
  {
    var init := s[..|s| - 1];
    assert forall i | 0 <= i < |init| :: init[i] == s[i];
  }

  lemma {:induction false} ZeroConcat(a: string, b: string, k: int)
    ensures ZeroFrom(a + b, |a| + k) <==> ZeroFrom(a, |a| + k) && ZeroFrom(b, k)
  {
    var s := a + b;
    assert forall i | 0 <= i < |a| :: s[i] == a[i];
    assert forall i | 0 <= i < |b| :: s[|a| + i] == b[i];
    if ZeroFrom(a, |a| + k) && ZeroFrom(b, k) {
      forall i | 0 <= i < |s| && |a| + k <= i ensures s[i] == '0' {
        if i >= |a| {
          assert s[i] == b[i - |a|];
        }
      }
    }
  }

  /** The test for an integer is exact: the mantissa times its power of ten is a whole number. */
  lemma {:induction false} IntegerExactly(n: Printed)
    ensures Scale(n) < 0 ==> Pow10(-Scale(n)) > 0
    ensures IsInteger(n) <==> Scale(n) >= 0 || Mantissa(n) % Pow10(-Scale(n)) == 0
  {
    ZeroConcat(n.whole, n.fraction, ExponentValue(n));
    if Scale(n) < 0 {
      DivisibleExactly(n.whole + n.fraction, -Scale(n));
    }
  }

  lemma {:induction false} ZeroValue(s: string)
    requires Digits(s)
    ensures DigitsValue(s) == 0 <==> ZeroFrom(s, 0)
  {
    if s != [] {
      ZeroValue(s[..|s| - 1]);
      ZeroSnoc(s, 0);
    }
  }

  /** A number is negative when it has a sign and is not zero. */
  lemma {:induction false} NegativeExactly(n: Printed)
    ensures IsNegative(n) <==> n.negative && Mantissa(n) > 0
  {
    ZeroConcat(n.whole, n.fraction, -|n.whole|);
    ZeroValue(n.whole + n.fraction);
    assert ZeroFrom(n.fraction, -|n.whole|) <==> ZeroFrom(n.fraction, 0);
  }
}
