/** Each entry of the result: its observations, its winner, its reversal, and the order of entries. */
module PreferenceBlocks {
  import opened Preferences
  import opened PreferenceFacts
  import opened PreferenceTarget

  /** The observations of one preference. */
  function SameKey(key: Evidence -> Key, k: Key): Evidence -> bool {
    (x: Evidence) => key(x) == k
  }

  lemma {:induction false} CollapseAt(groups: seq<Group>, key: Evidence -> Key, i: nat)
    requires WfGroups(groups, key) && i < |groups|
    ensures |CollapseAll(groups, key)| == |groups|
    ensures WfGroup(groups[i], key) && CollapseAll(groups, key)[i] == Collapse(groups[i])
  {
    if |groups| > 1 {
      CollapseAt(groups[1..], key, if i == 0 then 0 else i - 1);
    }
  }

  lemma {:induction false} CollapseLength(groups: seq<Group>, key: Evidence -> Key)
    requires WfGroups(groups, key)
    ensures |CollapseAll(groups, key)| == |groups|
  {
    if groups != [] {
      CollapseAt(groups, key, 0);
    }
  }

  lemma {:induction false} GroupAt(groups: seq<Group>, key: Evidence -> Key, i: nat)
    requires WfGroups(groups, key) && i < |groups|
    ensures Keep(Flat(groups), SameKey(key, groups[i].key)) == groups[i].items
  {
    var p, g, rest := SameKey(key, groups[i].key), groups[0], groups[1..];
    KeepConcat(g.items, Flat(rest), p);
    if i == 0 {
      KeepAll(g.items, p);
      NothingAbove(rest, key, g.key, p);
    } else {
      assert groups[i] == rest[i - 1];
      KeyOrder(g.key, groups[i].key);
      KeepNone(g.items, p);
      GroupAt(rest, key, i - 1);
    }
  }

  /** An entry is exactly the observations of its preference, newest first, ties in input order. */
  lemma {:induction false} BlockExactly(evidence: seq<Evidence>, key: Evidence -> Key, i: nat)
    requires i < |Current(evidence, key)|
    ensures var p := Current(evidence, key)[i];
            Block(p) == SortNewest(Keep(evidence, SameKey(key, key(p.current))))
  {
    var groups := Grouped(evidence, key);
    GroupedWf(evidence, key);
    CollapseLength(groups, key);
    CollapseAt(groups, key, i);
    BlockOf(groups[i], key);
    GroupAt(groups, key, i);
    GroupedKeeps(evidence, key, groups[i].key, SameKey(key, groups[i].key));
  }

  lemma {:induction false} InBlock(evidence: seq<Evidence>, key: Evidence -> Key, i: nat, x: Evidence)
    requires i < |Current(evidence, key)|
    ensures var p := Current(evidence, key)[i];
            x in Block(p) <==> x in evidence && key(x) == key(p.current)
  {
    var p := Current(evidence, key)[i];
    var kept := Keep(evidence, SameKey(key, key(p.current)));
    BlockExactly(evidence, key, i);
    KeepCounts(evidence, SameKey(key, key(p.current)), x);
    assert x in Block(p) <==> x in multiset(Block(p));
    assert x in kept <==> x in multiset(kept);
    assert x in evidence <==> x in multiset(evidence);
  }

  // ----- conservation -----

  lemma {:induction false} InsertCounts(groups: seq<Group>, k: Key, e: Evidence)
    ensures multiset(Flat(Insert(groups, k, e))) == multiset(Flat(groups)) + multiset{e}
  {
    var r := Insert(groups, k, e);
    if groups == [] || KeyLess(k, groups[0].key) {
      assert r[1..] == groups;
    } else if groups[0].key == k {
      assert r[1..] == groups[1..];
    } else {
      assert r[1..] == Insert(groups[1..], k, e);
      InsertCounts(groups[1..], k, e);
    }
  }

  lemma {:induction false} GroupedCounts(evidence: seq<Evidence>, key: Evidence -> Key)
    ensures multiset(Flat(Grouped(evidence, key))) == multiset(evidence)
  {
    if evidence != [] {
      var init, e := evidence[..|evidence| - 1], evidence[|evidence| - 1];
      GroupedCounts(init, key);
      InsertCounts(Grouped(init, key), key(e), e);
      assert multiset(evidence) == multiset(init) + multiset{e} by {
        assert evidence == init + [e];
      }
    }
  }

  lemma {:induction false} CollapseCounts(groups: seq<Group>, key: Evidence -> Key)
    requires WfGroups(groups, key)
    ensures multiset(Observations(CollapseAll(groups, key))) == multiset(Flat(groups))
  {
    if groups != [] {
      var r := CollapseAll(groups, key);
      assert r[1..] == CollapseAll(groups[1..], key);
      BlockOf(groups[0], key);
      CollapseCounts(groups[1..], key);
    }
  }

  /** No observation is lost, invented or duplicated. */
  lemma {:induction false} ObservationsConserved(evidence: seq<Evidence>, key: Evidence -> Key)
    ensures multiset(Observations(Current(evidence, key))) == multiset(evidence)
  {
    GroupedWf(evidence, key);
    GroupedCounts(evidence, key);
    CollapseCounts(Grouped(evidence, key), key);
  }

  lemma {:induction false} SomeBlock(r: seq<CurrentPreference>, x: Evidence) returns (i: nat)
    requires x in Observations(r)
    ensures i < |r| && x in Block(r[i])
  {
    if x in Block(r[0]) {
      i := 0;
    } else {
      var j := SomeBlock(r[1..], x);
      i := j + 1;
    }
  }

  /** Every observation belongs to the entry of its preference. */
  lemma {:induction false} EntryOf(evidence: seq<Evidence>, key: Evidence -> Key, x: Evidence) returns (i: nat)
    requires x in evidence
    ensures i < |Current(evidence, key)| && key(Current(evidence, key)[i].current) == key(x)
  {
    var r := Current(evidence, key);
    ObservationsConserved(evidence, key);
    assert x in multiset(Observations(r));
    i := SomeBlock(r, x);
    InBlock(evidence, key, i, x);
  }

  // ----- the winner -----

  /** The current entry is the newest observation of its preference, and the first seen among the newest. */
  lemma {:induction false} WinnerIsFirstOfNewest(evidence: seq<Evidence>, key: Evidence -> Key, i: nat) returns (q: nat)
    requires i < |Current(evidence, key)|
    ensures var w := Current(evidence, key)[i].current;
            && q < |evidence| && evidence[q] == w
            && (forall j | 0 <= j < |evidence| && key(evidence[j]) == key(w) :: evidence[j].observedAt <= w.observedAt)
            && (forall j | 0 <= j < q && key(evidence[j]) == key(w) :: evidence[j].observedAt < w.observedAt)
  {
    var w := Current(evidence, key)[i].current;
    forall j | 0 <= j < |evidence| && key(evidence[j]) == key(w) ensures evidence[j].observedAt <= w.observedAt {
      WinnerIsNewest(evidence, key, i, evidence[j]);
    }
    FirstOfClass(evidence, key, i);
    q := KeepFirst(evidence, At(key, key(w), w.observedAt));
  }

  lemma {:induction false} WinnerIsNewest(evidence: seq<Evidence>, key: Evidence -> Key, i: nat, x: Evidence)
    requires i < |Current(evidence, key)| && x in evidence && key(x) == key(Current(evidence, key)[i].current)
    ensures x.observedAt <= Current(evidence, key)[i].current.observedAt
  {
    InBlock(evidence, key, i, x);
    BlockOrdered(evidence, key, i);
    FirstIsNewest(Current(evidence, key)[i], x);
  }

  lemma {:induction false} BlockOrdered(evidence: seq<Evidence>, key: Evidence -> Key, i: nat)
    requires i < |Current(evidence, key)|
    ensures NewestFirst(Block(Current(evidence, key)[i]))
  {
    BlockExactly(evidence, key, i);
    SortOrdered(Keep(evidence, SameKey(key, key(Current(evidence, key)[i].current))));
  }

  lemma {:induction false} FirstIsNewest(p: CurrentPreference, x: Evidence)
    requires NewestFirst(Block(p)) && x in Block(p)
    ensures x.observedAt <= p.current.observedAt
  {
    var j :| 0 <= j < |Block(p)| && Block(p)[j] == x;
    assert Block(p)[0] == p.current;
  }

  lemma {:induction false} FirstOfClass(evidence: seq<Evidence>, key: Evidence -> Key, i: nat)
    requires i < |Current(evidence, key)|
    ensures var w := Current(evidence, key)[i].current;
            var c := Keep(evidence, At(key, key(w), w.observedAt));
            c != [] && c[0] == w
  {
    var p := Current(evidence, key)[i];
    var w := p.current;
    var tied, group := At(key, key(w), w.observedAt), Keep(evidence, SameKey(key, key(w)));
    BlockExactly(evidence, key, i);
    ClassOfFirst(w, p.superseded, key);
    SortStable(group, tied, w.observedAt);
    KeepTwice(evidence, key, key(w), w.observedAt);
  }

  lemma {:induction false} KeepTwice(s: seq<Evidence>, key: Evidence -> Key, k: Key, t: int)
    ensures Keep(Keep(s, SameKey(key, k)), At(key, k, t)) == Keep(s, At(key, k, t))
  {
    if s != [] {
      KeepTwice(s[1..], key, k, t);
      KeepConcat(Pick(s[0], SameKey(key, k)), Keep(s[1..], SameKey(key, k)), At(key, k, t));
      if key(s[0]) == k {
        KeepFront(s[0], [], At(key, k, t));
        assert [s[0]] + [] == [s[0]];
      }
    }
  }

  predicate PolarityReversed(p: CurrentPreference) {
    exists i | 0 <= i < |p.superseded| :: p.superseded[i].polarity != p.current.polarity
  }

  /** A reversal is reported exactly when both polarities were observed for the preference. */
  lemma {:induction false} ReversedExactly(evidence: seq<Evidence>, key: Evidence -> Key, i: nat)
    requires i < |Current(evidence, key)|
    ensures var p := Current(evidence, key)[i];
            PolarityReversed(p) <==>
            exists a, b | a in evidence && b in evidence ::
              key(a) == key(p.current) && key(b) == key(p.current) && a.polarity != b.polarity
  {
    var p := Current(evidence, key)[i];
    InBlock(evidence, key, i, p.current);
    if PolarityReversed(p) {
      var j :| 0 <= j < |p.superseded| && p.superseded[j].polarity != p.current.polarity;
      assert Block(p)[j + 1] == p.superseded[j];
      InBlock(evidence, key, i, p.superseded[j]);
    }
    if a, b :| a in evidence && b in evidence && key(a) == key(p.current) && key(b) == key(p.current) && a.polarity != b.polarity {
      var x := if a.polarity != p.current.polarity then a else b;
      InBlock(evidence, key, i, x);
      assert x in p.superseded;
    }
  }

  // ----- the order of entries -----

  lemma {:induction false} CanonicalIncreases(r: seq<CurrentPreference>, key: Evidence -> Key, i: nat, j: nat)
    requires Canonical(r, key) && i < j < |r|
    ensures KeyLess(key(r[i].current), key(r[j].current))
  {
    if i > 0 {
      CanonicalIncreases(r[1..], key, i - 1, j - 1);
    } else {
      assert r[j] == r[1..][j - 1];
    }
  }

  /** Entries come in strictly increasing order of owner and then target, so there is one per preference. */
  lemma {:induction false} KeysIncrease(evidence: seq<Evidence>, key: Evidence -> Key, i: nat, j: nat)
    requires i < j < |Current(evidence, key)|
    ensures KeyLess(key(Current(evidence, key)[i].current), key(Current(evidence, key)[j].current))
  {
    CurrentCanonical(evidence, key);
    CanonicalIncreases(Current(evidence, key), key, i, j);
  }

  predicate OrderedByTarget(r: seq<CurrentPreference>, key: Evidence -> Key) {
    forall i, j | 0 <= i < j < |r| :: !TextLess(key(r[j].current).target, key(r[i].current).target)
  }

  /** Owners and targets never disagree: a smaller owner has no larger target. */
  predicate OwnersFollowTargets(evidence: seq<Evidence>, key: Evidence -> Key) {
    forall a, b | a in evidence && b in evidence ::
      TextLess(key(a).owner, key(b).owner) ==> !TextLess(key(b).target, key(a).target)
  }

  /** The entries are ordered by target alone exactly when owners and targets never disagree. */
  lemma {:induction false} OrderedByTargetExactly(evidence: seq<Evidence>, key: Evidence -> Key)
    ensures OrderedByTarget(Current(evidence, key), key) <==> OwnersFollowTargets(evidence, key)
  {
    var r := Current(evidence, key);
    if OwnersFollowTargets(evidence, key) {
      forall i, j | 0 <= i < j < |r| ensures !TextLess(key(r[j].current).target, key(r[i].current).target) {
        KeysIncrease(evidence, key, i, j);
        InBlock(evidence, key, i, r[i].current);
        InBlock(evidence, key, j, r[j].current);
        TextOrder(key(r[i].current).target, key(r[j].current).target);
      }
    }
    if OrderedByTarget(r, key) {
      forall a, b | a in evidence && b in evidence && TextLess(key(a).owner, key(b).owner)
        ensures !TextLess(key(b).target, key(a).target)
      {
        OwnersInOrder(evidence, key, a, b);
      }
    }
  }

  lemma {:induction false} OwnersInOrder(evidence: seq<Evidence>, key: Evidence -> Key, a: Evidence, b: Evidence)
    requires a in evidence && b in evidence && TextLess(key(a).owner, key(b).owner)
    requires OrderedByTarget(Current(evidence, key), key)
    ensures !TextLess(key(b).target, key(a).target)
  {
    var i := EntryOf(evidence, key, a);
    var j := EntryOf(evidence, key, b);
    KeyOrder(key(a), key(b));
    if j < i {
      KeysIncrease(evidence, key, j, i);
    }
  }

  // ----- keys -----

  /** Two observations concern one preference exactly for one owner and the same words up to an article. */
  lemma {:induction false} SamePreferenceExactly(u: Unicode, a: Evidence, b: Evidence)
    requires !u.alnum(' ')
    ensures KeyOf(u)(a) == KeyOf(u)(b) <==>
            a.owner == b.owner &&
            Stripped(Words(u.lower(a.target), u.alnum)) == Stripped(Words(u.lower(b.target), u.alnum))
  {
    SameKeyExactly(u.lower(a.target), u.lower(b.target), u.alnum);
  }

  /** Two contradictory observations of one time: the winner depends on which comes first. */
  lemma {:induction false} TiedReversal(e: Evidence, key: Evidence -> Key)
    requires e.polarity.Positive? && key(e) == key(e.(polarity := Negative))
    ensures !OrderIrrelevant([e, e.(polarity := Negative)], key)
  {
    var s := [e, e.(polarity := Negative)];
    OrderIrrelevantExactly(s, key);
    assert s[0] != s[1];
  }
}
