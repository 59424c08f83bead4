/** What the list of current preferences says about the observations it came from. */
module PreferenceFacts {
  import opened Preferences

  function Flat(groups: seq<Group>): seq<Evidence> {
    if groups == [] then [] else groups[0].items + Flat(groups[1..])
  }

  function Block(p: CurrentPreference): seq<Evidence> {
    [p.current] + p.superseded
  }

  /** All observations of a result, block by block. */
  function Observations(r: seq<CurrentPreference>): seq<Evidence> {
    if r == [] then [] else Block(r[0]) + Observations(r[1..])
  }

  /** The observations of one preference at one time. */
  function At(key: Evidence -> Key, k: Key, t: int): Evidence -> bool {
    (x: Evidence) => key(x) == k && x.observedAt == t
  }

  ghost predicate OneKey(p: Evidence -> bool, key: Evidence -> Key, k: Key) {
    forall x: Evidence | p(x) :: key(x) == k
  }

  // ----- grouping and sorting keep every class in order -----

  lemma {:induction false} NothingAbove(groups: seq<Group>, key: Evidence -> Key, k: Key, p: Evidence -> bool)
    requires WfGroups(groups, key) && Above(k, groups) && OneKey(p, key, k)
    ensures Keep(Flat(groups), p) == []
  {
    if groups != [] {
      KeyOrder(k, groups[0].key);
      KeepNone(groups[0].items, p);
      KeepConcat(groups[0].items, Flat(groups[1..]), p);
      NothingAbove(groups[1..], key, k, p);
    }
  }

  lemma {:induction false} InsertKeeps(groups: seq<Group>, e: Evidence, key: Evidence -> Key, k: Key, p: Evidence -> bool)
    requires WfGroups(groups, key) && OneKey(p, key, k)
    ensures Keep(Flat(Insert(groups, key(e), e)), p) == Keep(Flat(groups), p) + Pick(e, p)
  {
    if groups == [] || KeyLess(key(e), groups[0].key) {
      InsertFront(groups, e, key, k, p);
    } else if groups[0].key == key(e) {
      InsertHere(groups, e, key, k, p);
    } else {
      var rest := groups[1..];
      InsertKeeps(rest, e, key, k, p);
      var r := Insert(groups, key(e), e);
      assert r[1..] == Insert(rest, key(e), e);
      KeepConcat(groups[0].items, Flat(r[1..]), p);
      KeepConcat(groups[0].items, Flat(rest), p);
      Regroup(Keep(groups[0].items, p), Keep(Flat(rest), p), Pick(e, p));
    }
  }

  lemma {:induction false} Regroup(a: seq<Evidence>, b: seq<Evidence>, c: seq<Evidence>)
    ensures a + (b + c) == (a + b) + c
  {
  }

  lemma {:induction false} InsertFront(groups: seq<Group>, e: Evidence, key: Evidence -> Key, k: Key, p: Evidence -> bool)
    requires WfGroups(groups, key) && OneKey(p, key, k)
    requires groups == [] || KeyLess(key(e), groups[0].key)
    ensures Keep(Flat(Insert(groups, key(e), e)), p) == Keep(Flat(groups), p) + Pick(e, p)
  {
    var r := Insert(groups, key(e), e);
    assert r[1..] == groups;
    KeepFront(e, Flat(groups), p);
    if p(e) {
      if groups != [] {
        AboveTransitive(k, groups[0].key, groups[1..]);
      }
      NothingAbove(groups, key, k, p);
    }
  }

  lemma {:induction false} InsertHere(groups: seq<Group>, e: Evidence, key: Evidence -> Key, k: Key, p: Evidence -> bool)
    requires WfGroups(groups, key) && OneKey(p, key, k) && groups != [] && groups[0].key == key(e)
    ensures Keep(Flat(Insert(groups, key(e), e)), p) == Keep(Flat(groups), p) + Pick(e, p)
  {
    var items, rest := groups[0].items, groups[1..];
    InsertAtKey(groups, e);
    if p(e) {
      NothingAbove(rest, key, k, p);
    }
    KeepThree(items, e, Flat(rest), p);
  }

  lemma {:induction false} InsertAtKey(groups: seq<Group>, e: Evidence)
    requires groups != []
    ensures Flat(Insert(groups, groups[0].key, e)) == groups[0].items + [e] + Flat(groups[1..])
  {
    KeyOrder(groups[0].key, groups[0].key);
    var r := Insert(groups, groups[0].key, e);
    assert r[0].items == groups[0].items + [e] && r[1..] == groups[1..];
  }

  lemma {:induction false} KeepThree(items: seq<Evidence>, e: Evidence, rest: seq<Evidence>, p: Evidence -> bool)
    requires p(e) ==> Keep(rest, p) == []
    ensures Keep(items + [e] + rest, p) == Keep(items + rest, p) + Pick(e, p)
  {
    KeepConcat(items + [e], rest, p);
    KeepSnoc(items, e, p);
    KeepConcat(items, rest, p);
  }

  lemma {:induction false} KeepSnoc(s: seq<Evidence>, e: Evidence, p: Evidence -> bool)
    ensures Keep(s + [e], p) == Keep(s, p) + Pick(e, p)
  {
    KeepConcat(s, [e], p);
    KeepFront(e, [], p);
    assert [e] + [] == [e];
  }

  lemma {:induction false} GroupedKeeps(evidence: seq<Evidence>, key: Evidence -> Key, k: Key, p: Evidence -> bool)
    requires OneKey(p, key, k)
    ensures Keep(Flat(Grouped(evidence, key)), p) == Keep(evidence, p)
  {
    if evidence != [] {
      var init, e := evidence[..|evidence| - 1], evidence[|evidence| - 1];
      GroupedKeeps(init, key, k, p);
      GroupedWf(init, key);
      InsertKeeps(Grouped(init, key), e, key, k, p);
      KeepSnoc(init, e, p);
      assert evidence == init + [e];
    }
  }

  lemma {:induction false} CollapseKeeps(groups: seq<Group>, key: Evidence -> Key, p: Evidence -> bool, t: int)
    requires WfGroups(groups, key) && OneTime(p, t)
    ensures Keep(Observations(CollapseAll(groups, key)), p) == Keep(Flat(groups), p)
  {
    if groups != [] {
      var (g, r) := (groups[0], CollapseAll(groups, key));
      assert r[1..] == CollapseAll(groups[1..], key);
      assert Block(Collapse(g)) == SortNewest(g.items);
      SortStable(g.items, p, t);
      CollapseKeeps(groups[1..], key, p, t);
      KeepConcat(Block(r[0]), Observations(r[1..]), p);
      KeepConcat(g.items, Flat(groups[1..]), p);
    }
  }

  /** The result holds the observations of each preference and time in their input order. */
  lemma {:induction false} CurrentKeeps(evidence: seq<Evidence>, key: Evidence -> Key, k: Key, t: int)
    ensures Keep(Observations(Current(evidence, key)), At(key, k, t)) == Keep(evidence, At(key, k, t))
  {
    GroupedWf(evidence, key);
    CollapseKeeps(Grouped(evidence, key), key, At(key, k, t), t);
    GroupedKeeps(evidence, key, k, At(key, k, t));
  }

  // ----- the shape of a result -----

  predicate IsBlock(p: CurrentPreference, key: Evidence -> Key) {
    && NewestFirst(Block(p))
    && forall i | 0 <= i < |p.superseded| :: key(p.superseded[i]) == key(p.current)
  }

  predicate AboveAll(k: Key, r: seq<CurrentPreference>, key: Evidence -> Key) {
    forall i | 0 <= i < |r| :: KeyLess(k, key(r[i].current))
  }

  /** Keys strictly increase, and every block holds one preference, newest first. */
  predicate Canonical(r: seq<CurrentPreference>, key: Evidence -> Key) {
    r != [] ==> IsBlock(r[0], key) && AboveAll(key(r[0].current), r[1..], key) && Canonical(r[1..], key)
  }

  lemma {:induction false} BlockOf(g: Group, key: Evidence -> Key)
    requires WfGroup(g, key)
    ensures IsBlock(Collapse(g), key) && key(Collapse(g).current) == g.key
    ensures Block(Collapse(g)) == SortNewest(g.items)
  {
    var s := SortNewest(g.items);
    SortOrdered(g.items);
    assert Block(Collapse(g)) == s;
    forall i | 0 <= i < |s| ensures key(s[i]) == g.key {
      assert s[i] in multiset(s);
      assert s[i] in g.items;
    }
  }

  lemma {:induction false} CollapseAbove(k: Key, groups: seq<Group>, key: Evidence -> Key)
    requires WfGroups(groups, key) && Above(k, groups)
    ensures AboveAll(k, CollapseAll(groups, key), key)
  {
    if groups != [] {
      BlockOf(groups[0], key);
      CollapseAbove(k, groups[1..], key);
    }
  }

  lemma {:induction false} CollapseCanonical(groups: seq<Group>, key: Evidence -> Key)
    requires WfGroups(groups, key)
    ensures Canonical(CollapseAll(groups, key), key)
  {
    if groups != [] {
      BlockOf(groups[0], key);
      CollapseCanonical(groups[1..], key);
      CollapseAbove(groups[0].key, groups[1..], key);
      assert CollapseAll(groups, key)[1..] == CollapseAll(groups[1..], key);
    }
  }

  lemma {:induction false} CurrentCanonical(evidence: seq<Evidence>, key: Evidence -> Key)
    ensures Canonical(Current(evidence, key), key)
  {
    GroupedWf(evidence, key);
    CollapseCanonical(Grouped(evidence, key), key);
  }

  // ----- the shape and the classes determine the result -----

  ghost predicate SameClasses(a: seq<Evidence>, b: seq<Evidence>, key: Evidence -> Key) {
    forall k: Key, t: int :: Keep(a, At(key, k, t)) == Keep(b, At(key, k, t))
  }

  lemma {:induction false} NothingInAbove(k: Key, t: int, r: seq<CurrentPreference>, key: Evidence -> Key)
    requires Canonical(r, key) && AboveAll(k, r, key)
    ensures Keep(Observations(r), At(key, k, t)) == []
  {
    if r != [] {
      KeyOrder(k, key(r[0].current));
      KeepNone(Block(r[0]), At(key, k, t));
      KeepConcat(Block(r[0]), Observations(r[1..]), At(key, k, t));
      NothingInAbove(k, t, r[1..], key);
    }
  }

  /** A class lies in the first block when it has its key, and behind it otherwise. */
  lemma {:induction false} ClassPlace(k: Key, t: int, r: seq<CurrentPreference>, key: Evidence -> Key)
    requires Canonical(r, key) && r != []
    ensures k == key(r[0].current) ==>
              && Keep(Observations(r), At(key, k, t)) == Keep(Block(r[0]), At(key, k, t))
              && Keep(Observations(r[1..]), At(key, k, t)) == []
    ensures k != key(r[0].current) ==>
              && Keep(Observations(r), At(key, k, t)) == Keep(Observations(r[1..]), At(key, k, t))
              && Keep(Block(r[0]), At(key, k, t)) == []
  {
    KeepConcat(Block(r[0]), Observations(r[1..]), At(key, k, t));
    if k == key(r[0].current) {
      NothingInAbove(k, t, r[1..], key);
    } else {
      KeepNone(Block(r[0]), At(key, k, t));
    }
  }

  lemma {:induction false} ClassOfFirst(x: Evidence, s: seq<Evidence>, key: Evidence -> Key)
    ensures var c := Keep([x] + s, At(key, key(x), x.observedAt)); c != [] && c[0] == x
  {
    KeepFront(x, s, At(key, key(x), x.observedAt));
  }

  lemma {:induction false} FirstTime(a: seq<Evidence>, b: seq<Evidence>, key: Evidence -> Key)
    requires a != [] && NewestFirst(b) && SameClasses(a, b, key)
    ensures b != [] && b[0].observedAt >= a[0].observedAt
  {
    ClassOfFirst(a[0], a[1..], key);
    assert a == [a[0]] + a[1..];
    var q := KeepFirst(b, At(key, key(a[0]), a[0].observedAt));
  }

  /** Two blocks of one key with the same classes are equal. */
  lemma {:induction false} BlockUnique(a: seq<Evidence>, b: seq<Evidence>, key: Evidence -> Key, k: Key)
    requires NewestFirst(a) && NewestFirst(b) && SameClasses(a, b, key)
    requires forall i | 0 <= i < |a| :: key(a[i]) == k
    requires forall i | 0 <= i < |b| :: key(b[i]) == k
    ensures a == b
  {
    if a == [] {
      if b != [] {
        FirstTime(b, a, key);
      }
    } else {
      FirstTime(a, b, key);
      FirstTime(b, a, key);
      assert a == [a[0]] + a[1..] && b == [b[0]] + b[1..];
      ClassOfFirst(a[0], a[1..], key);
      ClassOfFirst(b[0], b[1..], key);
      TailClasses(a, b, key);
      BlockUnique(a[1..], b[1..], key, k);
    }
  }

  lemma {:induction false} TailClasses(a: seq<Evidence>, b: seq<Evidence>, key: Evidence -> Key)
    requires a != [] && b != [] && a[0] == b[0] && SameClasses(a, b, key)
    ensures SameClasses(a[1..], b[1..], key)
  {
    forall k: Key, t: int ensures Keep(a[1..], At(key, k, t)) == Keep(b[1..], At(key, k, t)) {
      var p := At(key, k, t);
      var n := |Pick(a[0], p)|;
      assert Keep(a, p)[n..] == Keep(a[1..], p);
      assert Keep(b, p)[n..] == Keep(b[1..], p);
      assert Keep(a, p) == Keep(b, p);
    }
  }

  lemma {:induction false} FirstKey(a: seq<CurrentPreference>, b: seq<CurrentPreference>, key: Evidence -> Key)
    requires a != [] && Canonical(b, key) && SameClasses(Observations(a), Observations(b), key)
    ensures b != [] && (key(b[0].current) == key(a[0].current) || KeyLess(key(b[0].current), key(a[0].current)))
  {
    var x := a[0].current;
    assert Observations(a) == [x] + (a[0].superseded + Observations(a[1..]));
    ClassOfFirst(x, a[0].superseded + Observations(a[1..]), key);
    assert Keep(Observations(b), At(key, key(x), x.observedAt)) != [];
    if b != [] {
      KeyOrder(key(x), key(b[0].current));
      if KeyLess(key(x), key(b[0].current)) {
        forall i | 0 <= i < |b[1..]| ensures KeyLess(key(x), key(b[1..][i].current)) {
          KeyLessTransitive(key(x), key(b[0].current), key(b[1..][i].current));
        }
        NothingInAbove(key(x), x.observedAt, b, key);
      }
    }
  }

  lemma {:induction false} FirstBlock(a: seq<CurrentPreference>, b: seq<CurrentPreference>, key: Evidence -> Key)
    requires a != [] && b != [] && Canonical(a, key) && Canonical(b, key)
    requires SameClasses(Observations(a), Observations(b), key) && key(a[0].current) == key(b[0].current)
    ensures a[0] == b[0] && SameClasses(Observations(a[1..]), Observations(b[1..]), key)
  {
    forall k: Key, t: int
      ensures Keep(Block(a[0]), At(key, k, t)) == Keep(Block(b[0]), At(key, k, t))
      ensures Keep(Observations(a[1..]), At(key, k, t)) == Keep(Observations(b[1..]), At(key, k, t))
    {
      ClassPlace(k, t, a, key);
      ClassPlace(k, t, b, key);
      assert Keep(Observations(a), At(key, k, t)) == Keep(Observations(b), At(key, k, t));
    }
    BlockUnique(Block(a[0]), Block(b[0]), key, key(a[0].current));
    assert a[0].superseded == Block(a[0])[1..] && b[0].superseded == Block(b[0])[1..];
  }

  lemma {:induction false} CanonicalUnique(a: seq<CurrentPreference>, b: seq<CurrentPreference>, key: Evidence -> Key)
    requires Canonical(a, key) && Canonical(b, key) && SameClasses(Observations(a), Observations(b), key)
    ensures a == b
  {
    if a == [] {
      if b != [] {
        FirstKey(b, a, key);
      }
    } else {
      FirstKey(a, b, key);
      FirstKey(b, a, key);
      KeyOrder(key(a[0].current), key(b[0].current));
      FirstBlock(a, b, key);
      CanonicalUnique(a[1..], b[1..], key);
      assert a == [a[0]] + a[1..] && b == [b[0]] + b[1..];
    }
  }

  /** Two inputs give the same result exactly when they list each preference's simultaneous observations alike. */
  lemma {:induction false} SameResultExactly(a: seq<Evidence>, b: seq<Evidence>, key: Evidence -> Key)
    ensures Current(a, key) == Current(b, key) <==> SameClasses(a, b, key)
  {
    var (ra, rb) := (Current(a, key), Current(b, key));
    forall k: Key, t: int
      ensures Keep(Observations(ra), At(key, k, t)) == Keep(a, At(key, k, t))
      ensures Keep(Observations(rb), At(key, k, t)) == Keep(b, At(key, k, t))
    {
      CurrentKeeps(a, key, k, t);
      CurrentKeeps(b, key, k, t);
    }
    CurrentCanonical(a, key);
    CurrentCanonical(b, key);
    if SameClasses(a, b, key) {
      CanonicalUnique(ra, rb, key);
    }
  }

  // ----- input order -----

  /** No two different observations of one preference at one time. */
  predicate NoTies(s: seq<Evidence>, key: Evidence -> Key) {
    forall i, j | 0 <= i < j < |s| :: key(s[i]) == key(s[j]) && s[i].observedAt == s[j].observedAt ==> s[i] == s[j]
  }

  ghost predicate OrderIrrelevant(s: seq<Evidence>, key: Evidence -> Key) {
    forall f: seq<Evidence> | multiset(f) == multiset(s) :: Current(f, key) == Current(s, key)
  }

  lemma {:induction false} KeepCounts(s: seq<Evidence>, p: Evidence -> bool, x: Evidence)
    ensures multiset(Keep(s, p))[x] == if p(x) then multiset(s)[x] else 0
  {
    if s != [] {
      assert s == [s[0]] + s[1..];
      KeepCounts(s[1..], p, x);
    }
  }

  lemma {:induction false} AllEqualUnique(a: seq<Evidence>, b: seq<Evidence>)
    requires multiset(a) == multiset(b)
    requires forall i, j | 0 <= i < |a| && 0 <= j < |a| :: a[i] == a[j]
    ensures a == b
  {
    assert |a| == |multiset(a)| && |b| == |multiset(b)|;
    forall i | 0 <= i < |a| ensures a[i] == b[i] {
      assert b[i] in multiset(b);
      assert b[i] in a;
    }
  }

  lemma {:induction false} ClassAllEqual(s: seq<Evidence>, key: Evidence -> Key, k: Key, t: int)
    requires NoTies(s, key)
    ensures var c := Keep(s, At(key, k, t)); forall i, j | 0 <= i < |c| && 0 <= j < |c| :: c[i] == c[j]
  {
    var p := At(key, k, t);
    var c := Keep(s, p);
    forall i, j | 0 <= i < |c| && 0 <= j < |c| ensures c[i] == c[j] {
      KeepCounts(s, p, c[i]);
      KeepCounts(s, p, c[j]);
      assert c[i] in multiset(c) && c[j] in multiset(c);
      assert c[i] in s && c[j] in s;
    }
  }

  lemma {:induction false} PermutedClass(a: seq<Evidence>, b: seq<Evidence>, key: Evidence -> Key, k: Key, t: int)
    requires NoTies(a, key) && multiset(a) == multiset(b)
    ensures Keep(a, At(key, k, t)) == Keep(b, At(key, k, t))
  {
    var p := At(key, k, t);
    forall x: Evidence ensures multiset(Keep(a, p))[x] == multiset(Keep(b, p))[x] {
      KeepCounts(a, p, x);
      KeepCounts(b, p, x);
    }
    assert multiset(Keep(a, p)) == multiset(Keep(b, p));
    ClassAllEqual(a, key, k, t);
    AllEqualUnique(Keep(a, p), Keep(b, p));
  }

  lemma {:induction false} PermutedClasses(a: seq<Evidence>, b: seq<Evidence>, key: Evidence -> Key)
    requires NoTies(a, key) && multiset(a) == multiset(b)
    ensures SameClasses(a, b, key)
  {
    forall k: Key, t: int ensures Keep(a, At(key, k, t)) == Keep(b, At(key, k, t)) {
      PermutedClass(a, b, key, k, t);
    }
  }

  function ToFront(s: seq<Evidence>, i: nat): (f: seq<Evidence>)
    requires i < |s|
    ensures multiset(f) == multiset(s)
  {
    assert s == s[..i] + ([s[i]] + s[i + 1..]);
    [s[i]] + (s[..i] + s[i + 1..])
  }

  lemma {:induction false} TieMatters(s: seq<Evidence>, key: Evidence -> Key, i: nat, j: nat)
    requires i < |s| && j < |s| && OrderIrrelevant(s, key)
    requires key(s[i]) == key(s[j]) && s[i].observedAt == s[j].observedAt
    ensures s[i] == s[j]
  {
    var (a, b) := (ToFront(s, i), ToFront(s, j));
    assert Current(a, key) == Current(s, key) == Current(b, key);
    SameResultExactly(a, b, key);
    ClassOfFirst(s[i], s[..i] + s[i + 1..], key);
    ClassOfFirst(s[j], s[..j] + s[j + 1..], key);
  }

  /** The result is the same for every input order exactly when there are no ties between different observations. */
  lemma {:induction false} OrderIrrelevantExactly(s: seq<Evidence>, key: Evidence -> Key)
    ensures OrderIrrelevant(s, key) <==> NoTies(s, key)
  {
    if NoTies(s, key) {
      forall f: seq<Evidence> | multiset(f) == multiset(s) ensures Current(f, key) == Current(s, key) {
        PermutedClasses(s, f, key);
        SameResultExactly(s, f, key);
      }
    }
    if OrderIrrelevant(s, key) {
      forall i, j | 0 <= i < j < |s| && key(s[i]) == key(s[j]) && s[i].observedAt == s[j].observedAt
        ensures s[i] == s[j]
      {
        TieMatters(s, key, i, j);
      }
    }
  }
}
