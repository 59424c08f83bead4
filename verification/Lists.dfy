/** Small notions that several components share. */
module Lists {
  function Min(a: nat, b: nat): nat {
    if a < b then a else b
  }

  ghost predicate Distinct(s: seq<string>) {
    forall i, j | 0 <= i < j < |s| :: s[i] != s[j]
  }
}
