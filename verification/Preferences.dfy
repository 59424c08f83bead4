/**
  The current preference of every owner and target.

  Observations are grouped in a map ordered by owner and then normalised target; each group is
  sorted newest first by a stable sort and its first entry wins.  The ordered map is a list of
  groups in key order; the library sort is an insertion sort of the same specification.
 */
module Preferences {
  import opened PreferenceTarget

  datatype Polarity = Positive | Negative

  datatype Evidence = Evidence(owner: string, polarity: Polarity, target: string, qualifiers: seq<string>, observedAt: int)

  datatype Key = Key(owner: string, target: string)

  datatype CurrentPreference = CurrentPreference(current: Evidence, superseded: seq<Evidence>)

  datatype Group = Group(key: Key, items: seq<Evidence>)

  /** The Unicode library's part in normalising a target. */
  datatype Unicode = Unicode(lower: string -> string, alnum: char -> bool)

  function KeyOf(u: Unicode): Evidence -> Key {
    (e: Evidence) => Key(e.owner, Normalized(e.target, u.lower, u.alnum))
  }

  // ----- the order of keys -----

  /** Lexicographic order of texts. */
  predicate TextLess(a: string, b: string) {
    if a == [] || b == [] then a == [] && b != []
    else a[0] < b[0] || (a[0] == b[0] && TextLess(a[1..], b[1..]))
  }

  /** Behind a common prefix of length `k`, either `a` ends and `b` goes on, or `a` has the smaller character. */
  predicate DecidedAt(a: string, b: string, k: nat) {
    && k <= |a| && k < |b| && a[..k] == b[..k]
    && (k == |a| || a[k] < b[k])
  }

  /** The order is the alphabetical one. */
  lemma {:induction false} TextLessExactly(a: string, b: string)
    ensures TextLess(a, b) <==> exists k: nat :: DecidedAt(a, b, k)
  {
    if a == [] || b == [] {
      assert b != [] ==> DecidedAt([], b, 0);
    } else {
      TextLessExactly(a[1..], b[1..]);
      if TextLess(a, b) {
        if a[0] < b[0] {
          assert DecidedAt(a, b, 0);
        } else {
          var k: nat :| DecidedAt(a[1..], b[1..], k);
          DecidedDeeper(a, b, k);
        }
      }
      if k: nat :| DecidedAt(a, b, k) {
        if k > 0 {
          assert a[0] == a[..k][0] == b[..k][0] == b[0];
          DecidedDeeper(a, b, k - 1);
        }
      }
    }
  }

  lemma {:induction false} DecidedDeeper(a: string, b: string, k: nat)
    requires a != [] && b != [] && a[0] == b[0]
    ensures DecidedAt(a[1..], b[1..], k) <==> DecidedAt(a, b, k + 1)
  {
    if k < |a| && k < |b| {
      assert a[..k + 1] == [a[0]] + a[1..][..k];
      assert b[..k + 1] == [b[0]] + b[1..][..k];
      assert a[..k + 1][1..] == a[1..][..k] && b[..k + 1][1..] == b[1..][..k];
    }
  }

  predicate KeyLess(a: Key, b: Key) {
    TextLess(a.owner, b.owner) || (a.owner == b.owner && TextLess(a.target, b.target))
  }

  lemma {:induction false} TextOrder(a: string, b: string)
    ensures !(TextLess(a, b) && TextLess(b, a)) && !TextLess(a, a)
    ensures TextLess(a, b) || a == b || TextLess(b, a)
  {
    if a != [] && b != [] {
      TextOrder(a[1..], b[1..]);
      assert a == [a[0]] + a[1..] && b == [b[0]] + b[1..];
    } else if a != [] {
      TextOrder(a[1..], []);
    }
  }

  lemma {:induction false} TextLessTransitive(a: string, b: string, c: string)
    requires TextLess(a, b) && TextLess(b, c)
    ensures TextLess(a, c)
  {
    if a != [] && a[0] == b[0] == c[0] {
      TextLessTransitive(a[1..], b[1..], c[1..]);
    }
  }

  lemma {:induction false} KeyOrder(a: Key, b: Key)
    ensures !(KeyLess(a, b) && KeyLess(b, a)) && !KeyLess(a, a)
    ensures KeyLess(a, b) || a == b || KeyLess(b, a)
  {
    TextOrder(a.owner, b.owner);
    TextOrder(a.target, b.target);
  }

  lemma {:induction false} KeyLessTransitive(a: Key, b: Key, c: Key)
    requires KeyLess(a, b) && KeyLess(b, c)
    ensures KeyLess(a, c)
  {
    if TextLess(a.owner, b.owner) {
      if TextLess(b.owner, c.owner) {
        TextLessTransitive(a.owner, b.owner, c.owner);
      }
    } else if !TextLess(b.owner, c.owner) {
      TextLessTransitive(a.target, b.target, c.target);
    }
  }

  // ----- selections -----

  /** The elements that satisfy `p`, in order. */
  function Keep(s: seq<Evidence>, p: Evidence -> bool): seq<Evidence> {
    if s == [] then [] else Pick(s[0], p) + Keep(s[1..], p)
  }

  function Pick(x: Evidence, p: Evidence -> bool): seq<Evidence> {
    if p(x) then [x] else []
  }

  lemma {:induction false} KeepFront(x: Evidence, s: seq<Evidence>, p: Evidence -> bool)
    ensures Keep([x] + s, p) == Pick(x, p) + Keep(s, p)
  {
    assert ([x] + s)[1..] == s;
  }

  lemma {:induction false} KeepConcat(a: seq<Evidence>, b: seq<Evidence>, p: Evidence -> bool)
    ensures Keep(a + b, p) == Keep(a, p) + Keep(b, p)
  {
    if a == [] {
      assert a + b == b;
    } else {
      assert (a + b)[1..] == a[1..] + b;
      KeepConcat(a[1..], b, p);
    }
  }

  lemma {:induction false} KeepNone(s: seq<Evidence>, p: Evidence -> bool)
    requires forall i | 0 <= i < |s| :: !p(s[i])
    ensures Keep(s, p) == []
  {
    if s != [] {
      KeepNone(s[1..], p);
    }
  }

  lemma {:induction false} KeepAll(s: seq<Evidence>, p: Evidence -> bool)
    requires forall i | 0 <= i < |s| :: p(s[i])
    ensures Keep(s, p) == s
  {
    if s != [] {
      KeepAll(s[1..], p);
    }
  }

  /** The first selected element is the first that satisfies `p`. */
  lemma {:induction false} KeepFirst(s: seq<Evidence>, p: Evidence -> bool) returns (q: nat)
    requires Keep(s, p) != []
    ensures q < |s| && p(s[q]) && s[q] == Keep(s, p)[0] && forall j | 0 <= j < q :: !p(s[j])
  {
    if p(s[0]) {
      q := 0;
    } else {
      var r := KeepFirst(s[1..], p);
      q := r + 1;
    }
  }

  // ----- the stable sort -----

  predicate NewestFirst(s: seq<Evidence>) {
    forall i, j | 0 <= i < j < |s| :: s[i].observedAt >= s[j].observedAt
  }

  function Place(x: Evidence, s: seq<Evidence>): (r: seq<Evidence>)
    ensures multiset(r) == multiset{x} + multiset(s)
  {
    if s == [] || s[0].observedAt <= x.observedAt then [x] + s
    else
      assert s == [s[0]] + s[1..];
      [s[0]] + Place(x, s[1..])
  }

  function SortNewest(s: seq<Evidence>): (r: seq<Evidence>)
    ensures multiset(r) == multiset(s) && |r| == |s|
  {
    if s == [] then []
    else
      assert s == [s[0]] + s[1..];
      var r := Place(s[0], SortNewest(s[1..]));
      assert |r| == |multiset(r)| && |s| == |multiset(s)|;
      r
  }

  lemma {:induction false} PlaceBelow(x: Evidence, s: seq<Evidence>, t: int)
    requires x.observedAt <= t && forall i | 0 <= i < |s| :: s[i].observedAt <= t
    ensures forall i | 0 <= i < |Place(x, s)| :: Place(x, s)[i].observedAt <= t
  {
    var r := Place(x, s);
    forall i | 0 <= i < |r| ensures r[i].observedAt <= t {
      assert r[i] in multiset(r);
      assert r[i] == x || r[i] in s;
    }
  }

  lemma {:induction false} PlaceOrdered(x: Evidence, s: seq<Evidence>)
    requires NewestFirst(s)
    ensures NewestFirst(Place(x, s))
  {
    if s != [] && s[0].observedAt > x.observedAt {
      PlaceOrdered(x, s[1..]);
      PlaceBelow(x, s[1..], s[0].observedAt);
    }
  }

  lemma {:induction false} SortOrdered(s: seq<Evidence>)
    ensures NewestFirst(SortNewest(s))
  {
    if s != [] {
      SortOrdered(s[1..]);
      PlaceOrdered(s[0], SortNewest(s[1..]));
    }
  }

  ghost predicate OneTime(p: Evidence -> bool, t: int) {
    forall x: Evidence | p(x) :: x.observedAt == t
  }

  lemma {:induction false} PlaceStable(x: Evidence, s: seq<Evidence>, p: Evidence -> bool, t: int)
    requires NewestFirst(s) && OneTime(p, t)
    ensures Keep(Place(x, s), p) == Pick(x, p) + Keep(s, p)
  {
    if s == [] || s[0].observedAt <= x.observedAt {
      KeepFront(x, s, p);
    } else {
      PlaceStable(x, s[1..], p, t);
      KeepFront(s[0], Place(x, s[1..]), p);
      assert Pick(x, p) == [] || Pick(s[0], p) == [];
      var rest := Keep(s[1..], p);
      assert Pick(s[0], p) + (Pick(x, p) + rest) == Pick(x, p) + (Pick(s[0], p) + rest);
    }
  }

  /** Observations of one time keep their input order. */
  lemma {:induction false} SortStable(s: seq<Evidence>, p: Evidence -> bool, t: int)
    requires OneTime(p, t)
    ensures Keep(SortNewest(s), p) == Keep(s, p)
  {
    if s != [] {
      SortStable(s[1..], p, t);
      SortOrdered(s[1..]);
      PlaceStable(s[0], SortNewest(s[1..]), p, t);
    }
  }

  // ----- grouping -----

  /** Adding an observation under its key: to its group, or as a new group in key order. */
  function Insert(groups: seq<Group>, k: Key, e: Evidence): (r: seq<Group>)
    ensures r != []
    ensures r[0].key == k || (groups != [] && r[0].key == groups[0].key)
  {
    if groups == [] || KeyLess(k, groups[0].key) then [Group(k, [e])] + groups
    else if groups[0].key == k then [Group(k, groups[0].items + [e])] + groups[1..]
    else [groups[0]] + Insert(groups[1..], k, e)
  }

  function Grouped(evidence: seq<Evidence>, key: Evidence -> Key): seq<Group> {
    if evidence == [] then []
    else
      var e := evidence[|evidence| - 1];
      Insert(Grouped(evidence[..|evidence| - 1], key), key(e), e)
  }

  predicate WfGroup(g: Group, key: Evidence -> Key) {
    g.items != [] && forall i | 0 <= i < |g.items| :: key(g.items[i]) == g.key
  }

  predicate Above(k: Key, groups: seq<Group>) {
    forall i | 0 <= i < |groups| :: KeyLess(k, groups[i].key)
  }

  predicate WfGroups(groups: seq<Group>, key: Evidence -> Key) {
    groups != [] ==> WfGroup(groups[0], key) && Above(groups[0].key, groups[1..]) && WfGroups(groups[1..], key)
  }

  lemma {:induction false} InsertAbove(below: Key, groups: seq<Group>, k: Key, e: Evidence)
    requires Above(below, groups) && KeyLess(below, k)
    ensures Above(below, Insert(groups, k, e))
  {
    if !(groups == [] || KeyLess(k, groups[0].key)) && groups[0].key != k {
      InsertAbove(below, groups[1..], k, e);
    }
  }

  lemma {:induction false} AboveTransitive(k: Key, l: Key, groups: seq<Group>)
    requires KeyLess(k, l) && Above(l, groups)
    ensures Above(k, groups)
  {
    forall i | 0 <= i < |groups| ensures KeyLess(k, groups[i].key) {
      KeyLessTransitive(k, l, groups[i].key);
    }
  }

  lemma {:induction false} InsertWf(groups: seq<Group>, e: Evidence, key: Evidence -> Key)
    requires WfGroups(groups, key)
    ensures WfGroups(Insert(groups, key(e), e), key)
  {
    var k := key(e);
    var r := Insert(groups, k, e);
    assert r[1..] == if groups == [] || KeyLess(k, groups[0].key) then groups
                     else if groups[0].key == k then groups[1..] else Insert(groups[1..], k, e);
    if groups != [] {
      KeyOrder(k, groups[0].key);
      if KeyLess(k, groups[0].key) {
        AboveTransitive(k, groups[0].key, groups[1..]);
      } else if groups[0].key != k {
        InsertWf(groups[1..], e, key);
        InsertAbove(groups[0].key, groups[1..], k, e);
      }
    }
  }

  lemma {:induction false} GroupedWf(evidence: seq<Evidence>, key: Evidence -> Key)
    ensures WfGroups(Grouped(evidence, key), key)
  {
    if evidence != [] {
      var init := evidence[..|evidence| - 1];
      GroupedWf(init, key);
      InsertWf(Grouped(init, key), evidence[|evidence| - 1], key);
    }
  }

  // ----- the operation -----

  function Collapse(g: Group): CurrentPreference
    requires g.items != []
  {
    var s := SortNewest(g.items);
    CurrentPreference(s[0], s[1..])
  }

  function CollapseAll(groups: seq<Group>, key: Evidence -> Key): seq<CurrentPreference>
    requires WfGroups(groups, key)
  {
    if groups == [] then [] else [Collapse(groups[0])] + CollapseAll(groups[1..], key)
  }

  function Current(evidence: seq<Evidence>, key: Evidence -> Key): seq<CurrentPreference> {
    GroupedWf(evidence, key);
    CollapseAll(Grouped(evidence, key), key)
  }

  lemma {:induction false} CollapseNext(done: seq<CurrentPreference>, groups: seq<Group>, key: Evidence -> Key)
    requires WfGroups(groups, key) && groups != []
    ensures done + CollapseAll(groups, key) == (done + [Collapse(groups[0])]) + CollapseAll(groups[1..], key)
  {
  }

  method CurrentPreferences(evidence: seq<Evidence>, key: Evidence -> Key) returns (r: seq<CurrentPreference>)
    ensures r == Current(evidence, key)
  {
    var grouped: seq<Group> := [];
    for i := 0 to |evidence|
      invariant grouped == Grouped(evidence[..i], key)
    {
      assert evidence[..i + 1][..i] == evidence[..i];
      grouped := Insert(grouped, key(evidence[i]), evidence[i]);
    }
    assert evidence[..|evidence|] == evidence;
    GroupedWf(evidence, key);
    r := [];
    for i := 0 to |grouped|
      invariant WfGroups(grouped[i..], key)
      invariant r + CollapseAll(grouped[i..], key) == CollapseAll(grouped, key)
    {
      assert grouped[i..][1..] == grouped[i + 1..];
      var observations := SortNewest(grouped[i].items);
      CollapseNext(r, grouped[i..], key);
      r := r + [CurrentPreference(observations[0], observations[1..])];
    }
  }
}
