/**
  Cutting an external benchmark dataset down to the safety limits of a run.

  Sessions are cut off at `maxSessions`, turns at `maxRecords` in session order, emptied sessions
  are dropped, queries that name only absent sessions are dropped, and queries are cut off at
  `maxQueries`.  A turn is opaque; of a query only the sessions it names matter.
 */
module SafetyLimits {
  import opened Lists

  type Turn = string

  datatype Session = Session(id: string, turns: seq<Turn>)

  datatype Query = Query(id: string, relevantSessionIds: seq<string>)

  datatype Limits = Limits(maxSessions: nat, maxRecords: nat, maxQueries: nat)

  datatype Data = Data(sessions: seq<Session>, queries: seq<Query>)

  // ----- specification -----

  function Take<T>(s: seq<T>, n: nat): seq<T> {
    s[..Min(n, |s|)]
  }

  /** All turns, in session order. */
  function Turns(sessions: seq<Session>): seq<Turn> {
    if sessions == [] then [] else sessions[0].turns + Turns(sessions[1..])
  }

  /** The sessions with no more than `budget` turns in all. */
  function Clip(sessions: seq<Session>, budget: nat): seq<Session> {
    if sessions == [] then []
    else
      var turns := Take(sessions[0].turns, budget);
      [sessions[0].(turns := turns)] + Clip(sessions[1..], budget - |turns|)
  }

  function NonEmpty(sessions: seq<Session>): seq<Session> {
    if sessions == [] then []
    else (if sessions[0].turns == [] then [] else [sessions[0]]) + NonEmpty(sessions[1..])
  }

  function Ids(sessions: seq<Session>): set<string> {
    set s | s in sessions :: s.id
  }

  predicate Eligible(q: Query, ids: set<string>) {
    q.relevantSessionIds == [] || exists i | 0 <= i < |q.relevantSessionIds| :: q.relevantSessionIds[i] in ids
  }

  function KeepEligible(queries: seq<Query>, ids: set<string>): seq<Query> {
    if queries == [] then []
    else (if Eligible(queries[0], ids) then [queries[0]] else []) + KeepEligible(queries[1..], ids)
  }

  function LimitedSessions(sessions: seq<Session>, limits: Limits): seq<Session> {
    NonEmpty(Clip(Take(sessions, limits.maxSessions), limits.maxRecords))
  }

  function Limited(d: Data, limits: Limits): Data {
    var sessions := LimitedSessions(d.sessions, limits);
    Data(sessions, Take(KeepEligible(d.queries, Ids(sessions)), limits.maxQueries))
  }

  // ----- what is kept -----

  /** Session `i` cut to what the turns before it leave of the budget. */
  function ClippedAt(sessions: seq<Session>, i: nat, budget: nat): Session
    requires i < |sessions|
  {
    var before := |Turns(sessions[..i])|;
    sessions[i].(turns := Take(sessions[i].turns, if before < budget then budget - before else 0))
  }

  /** A session keeps the part of its turns that lies within the first `budget` turns overall. */
  lemma {:induction false} ClipAt(sessions: seq<Session>, budget: nat, i: nat)
    requires i < |sessions|
    ensures |Clip(sessions, budget)| == |sessions|
    ensures Clip(sessions, budget)[i] == ClippedAt(sessions, i, budget)
  {
    var n := |Take(sessions[0].turns, budget)|;
    if i > 0 {
      assert sessions[..i][1..] == sessions[1..][..i - 1];
      ClipAt(sessions[1..], budget - n, i - 1);
      assert Turns(sessions[..i]) == sessions[0].turns + Turns(sessions[..i][1..]);
    } else {
      ClipLength(sessions, budget);
    }
  }

  lemma {:induction false} ClipLength(sessions: seq<Session>, budget: nat)
    ensures |Clip(sessions, budget)| == |sessions|
  {
    if sessions != [] {
      ClipLength(sessions[1..], budget - |Take(sessions[0].turns, budget)|);
    }
  }

  lemma {:induction false} ClipTurns(sessions: seq<Session>, budget: nat)
    ensures Turns(Clip(sessions, budget)) == Take(Turns(sessions), budget)
  {
    if sessions != [] {
      var turns, rest := sessions[0].turns, Turns(sessions[1..]);
      var kept := Take(turns, budget);
      ClipTurns(sessions[1..], budget - |kept|);
      assert Clip(sessions, budget)[1..] == Clip(sessions[1..], budget - |kept|);
      TakeSplit(turns, rest, budget);
    }
  }

  lemma {:induction false} TakeSplit<T>(a: seq<T>, b: seq<T>, n: nat)
    ensures Take(a + b, n) == Take(a, n) + Take(b, n - |Take(a, n)|)
  {
  }

  lemma {:induction false} NonEmptyTurns(sessions: seq<Session>)
    ensures Turns(NonEmpty(sessions)) == Turns(sessions)
  {
    if sessions != [] {
      NonEmptyTurns(sessions[1..]);
      if sessions[0].turns != [] {
        assert NonEmpty(sessions)[1..] == NonEmpty(sessions[1..]);
      } else {
        assert NonEmpty(sessions) == NonEmpty(sessions[1..]);
      }
    }
  }

  /** The kept turns are the first `maxRecords` turns of the first `maxSessions` sessions. */
  lemma {:induction false} KeptTurns(sessions: seq<Session>, limits: Limits)
    ensures Turns(LimitedSessions(sessions, limits)) == Take(Turns(Take(sessions, limits.maxSessions)), limits.maxRecords)
  {
    var first := Take(sessions, limits.maxSessions);
    ClipTurns(first, limits.maxRecords);
    NonEmptyTurns(Clip(first, limits.maxRecords));
  }

  lemma {:induction false} NonEmptyFacts(sessions: seq<Session>)
    ensures |NonEmpty(sessions)| <= |sessions|
    ensures forall i | 0 <= i < |NonEmpty(sessions)| :: NonEmpty(sessions)[i].turns != []
  {
    if sessions != [] {
      NonEmptyFacts(sessions[1..]);
    }
  }

  lemma {:induction false} EligibleFacts(queries: seq<Query>, ids: set<string>)
    ensures |KeepEligible(queries, ids)| <= |queries|
    ensures forall i | 0 <= i < |KeepEligible(queries, ids)| :: Eligible(KeepEligible(queries, ids)[i], ids)
  {
    if queries != [] {
      EligibleFacts(queries[1..], ids);
    }
  }

  // ----- which queries are kept -----

  /** The positions of the eligible queries, in order. */
  ghost function Positions(queries: seq<Query>, ids: set<string>): seq<nat> {
    if queries == [] then []
    else
      var n := |queries| - 1;
      Positions(queries[..n], ids) + if Eligible(queries[n], ids) then [n] else []
  }

  /** The eligible queries before position `i`. */
  ghost function Before(queries: seq<Query>, ids: set<string>, i: nat): set<nat> {
    set j: nat | j < i && j < |queries| && Eligible(queries[j], ids)
  }

  function Sieve(q: Query, ids: set<string>): seq<Query> {
    if Eligible(q, ids) then [q] else []
  }

  lemma {:induction false} KeepEligibleSnoc(queries: seq<Query>, q: Query, ids: set<string>)
    ensures KeepEligible(queries + [q], ids) == KeepEligible(queries, ids) + Sieve(q, ids)
  {
    if queries == [] {
      assert queries + [q] == [q] && [q][1..] == [];
      assert KeepEligible([], ids) == [];
      assert KeepEligible([q], ids) == Sieve(q, ids) + [];
    } else {
      var all := queries + [q];
      assert all[0] == queries[0] && all[1..] == queries[1..] + [q];
      KeepEligibleSnoc(queries[1..], q, ids);
      var head, rest := Sieve(queries[0], ids), KeepEligible(queries[1..], ids);
      assert KeepEligible(all, ids) == head + (rest + Sieve(q, ids));
      assert KeepEligible(queries, ids) == head + rest;
    }
  }

  lemma {:induction false} BeforeSnoc(queries: seq<Query>, ids: set<string>, i: nat)
    requires i < |queries|
    ensures |Before(queries, ids, i + 1)| == |Before(queries, ids, i)| + if Eligible(queries[i], ids) then 1 else 0
  {
    assert Before(queries, ids, i + 1) == Before(queries, ids, i) + if Eligible(queries[i], ids) then {i} else {};
  }

  lemma {:induction false} BeforePrefix(init: seq<Query>, q: Query, ids: set<string>, i: nat)
    requires i <= |init|
    ensures Before(init + [q], ids, i) == Before(init, ids, i)
  {
  }

  /** The positions list the kept queries, and each is preceded by as many eligible queries as its place says. */
  ghost predicate Locates(queries: seq<Query>, ids: set<string>, pos: seq<nat>, kept: seq<Query>) {
    && |pos| == |kept| == |Before(queries, ids, |queries|)|
    && (forall k | 0 <= k < |pos| :: pos[k] < |queries| && kept[k] == queries[pos[k]] && Eligible(kept[k], ids))
    && (forall k | 0 <= k < |pos| :: |Before(queries, ids, pos[k])| == k)
  }

  lemma {:induction false} LocatesSnoc(init: seq<Query>, q: Query, ids: set<string>, pos: seq<nat>, kept: seq<Query>)
    requires Locates(init, ids, pos, kept)
    ensures Locates(init + [q], ids, pos + if Eligible(q, ids) then [|init|] else [], kept + Sieve(q, ids))
  {
    var queries := init + [q];
    BeforeSnoc(queries, ids, |init|);
    BeforePrefix(init, q, ids, |init|);
    forall k | 0 <= k < |pos| ensures Before(queries, ids, pos[k]) == Before(init, ids, pos[k]) {
      BeforePrefix(init, q, ids, pos[k]);
    }
  }

  lemma {:induction false} PositionsFacts(queries: seq<Query>, ids: set<string>)
    ensures Locates(queries, ids, Positions(queries, ids), KeepEligible(queries, ids))
  {
    if queries == [] {
      assert Before(queries, ids, 0) == {};
    } else {
      var n := |queries| - 1;
      var init := queries[..n];
      PositionsFacts(init, ids);
      assert queries == init + [queries[n]];
      KeepEligibleSnoc(init, queries[n], ids);
      LocatesSnoc(init, queries[n], ids, Positions(init, ids), KeepEligible(init, ids));
    }
  }

  lemma {:induction false} PositionOf(queries: seq<Query>, ids: set<string>, i: nat)
    requires i < |queries| && Eligible(queries[i], ids)
    ensures var pos := Positions(queries, ids);
            |Before(queries, ids, i)| < |pos| && pos[|Before(queries, ids, i)|] == i
  {
    var n := |queries| - 1;
    var init := queries[..n];
    assert forall j: nat | j < n :: queries[j] == init[j];
    assert Before(queries, ids, i) == Before(init, ids, i);
    PositionsFacts(init, ids);
    if i < n {
      PositionOf(init, ids, i);
    }
  }

  /** A query can be answered from the sessions: it names none, or one of theirs. */
  ghost predicate Answerable(q: Query, sessions: seq<Session>) {
    q.relevantSessionIds == [] || exists s | s in sessions :: s.id in q.relevantSessionIds
  }

  lemma {:induction false} EligibleIsAnswerable(q: Query, sessions: seq<Session>)
    ensures Eligible(q, Ids(sessions)) <==> Answerable(q, sessions)
  {
    if q.relevantSessionIds != [] && Eligible(q, Ids(sessions)) {
      var i :| 0 <= i < |q.relevantSessionIds| && q.relevantSessionIds[i] in Ids(sessions);
      var s :| s in sessions && s.id == q.relevantSessionIds[i];
    }
  }

  /**
    Which queries are kept: those that can be answered from the kept sessions and are preceded
    by fewer than `maxQueries` such queries, in their order.  `pos` lists their positions.
   */
  lemma {:induction false} KeptQueries(d: Data, limits: Limits) returns (pos: seq<nat>)
    ensures var l := Limited(d, limits);
            && |pos| == |l.queries|
            && (forall k | 0 <= k < |pos| :: pos[k] < |d.queries| && l.queries[k] == d.queries[pos[k]])
            && (forall j, k | 0 <= j < k < |pos| :: pos[j] < pos[k])
            && (forall i: nat | i < |d.queries| ::
                  i in pos <==> Answerable(d.queries[i], l.sessions) &&
                                |set j: nat | j < i && Answerable(d.queries[j], l.sessions)| < limits.maxQueries)
  {
    var sessions := LimitedSessions(d.sessions, limits);
    var ids := Ids(sessions);
    PositionsFacts(d.queries, ids);
    pos := Take(Positions(d.queries, ids), limits.maxQueries);
    forall j, k | 0 <= j < k < |pos| ensures pos[j] < pos[k] {
      BeforeGrows(d.queries, ids, pos[j], pos[k]);
    }
    forall i: nat | i < |d.queries|
      ensures i in pos <==> Answerable(d.queries[i], sessions) &&
                            |set j: nat | j < i && Answerable(d.queries[j], sessions)| < limits.maxQueries
    {
      KeptAt(d.queries, sessions, limits.maxQueries, i);
    }
  }

  lemma {:induction false} BeforeMonotone(queries: seq<Query>, ids: set<string>, i: nat, j: nat)
    requires i <= j
    ensures |Before(queries, ids, i)| <= |Before(queries, ids, j)|
  {
    assert Before(queries, ids, j) == Before(queries, ids, i) + (Before(queries, ids, j) - Before(queries, ids, i));
  }

  lemma {:induction false} BeforeGrows(queries: seq<Query>, ids: set<string>, i: nat, j: nat)
    requires |Before(queries, ids, i)| < |Before(queries, ids, j)|
    ensures i < j
  {
    if j <= i {
      BeforeMonotone(queries, ids, j, i);
    }
  }

  lemma {:induction false} KeptAt(queries: seq<Query>, sessions: seq<Session>, max: nat, i: nat)
    requires i < |queries|
    ensures i in Take(Positions(queries, Ids(sessions)), max) <==>
            Answerable(queries[i], sessions) && |set j: nat | j < i && Answerable(queries[j], sessions)| < max
  {
    var ids := Ids(sessions);
    var pos := Positions(queries, ids);
    PositionsFacts(queries, ids);
    forall j: nat | j < |queries| ensures Eligible(queries[j], ids) <==> Answerable(queries[j], sessions) {
      EligibleIsAnswerable(queries[j], sessions);
    }
    assert (set j: nat | j < i && Answerable(queries[j], sessions)) == Before(queries, ids, i);
    if Eligible(queries[i], ids) {
      PositionOf(queries, ids, i);
      var k := |Before(queries, ids, i)|;
      if k < max {
        assert Take(pos, max)[k] == i;
      }
    }
  }

  // ----- within the limits -----

  /** Within the limits, no empty session, and every query answerable from the sessions present. */
  predicate Within(d: Data, limits: Limits) {
    && |d.sessions| <= limits.maxSessions && |Turns(d.sessions)| <= limits.maxRecords && |d.queries| <= limits.maxQueries
    && (forall i | 0 <= i < |d.sessions| :: d.sessions[i].turns != [])
    && (forall i | 0 <= i < |d.queries| :: Eligible(d.queries[i], Ids(d.sessions)))
  }

  lemma {:induction false} LimitedIsWithin(d: Data, limits: Limits)
    ensures Within(Limited(d, limits), limits)
  {
    var first := Take(d.sessions, limits.maxSessions);
    var sessions := LimitedSessions(d.sessions, limits);
    ClipLength(first, limits.maxRecords);
    NonEmptyFacts(Clip(first, limits.maxRecords));
    KeptTurns(d.sessions, limits);
    EligibleFacts(d.queries, Ids(sessions));
  }

  lemma {:induction false} ClipNothing(sessions: seq<Session>, budget: nat)
    requires |Turns(sessions)| <= budget
    ensures Clip(sessions, budget) == sessions
  {
    if sessions != [] {
      assert Take(sessions[0].turns, budget) == sessions[0].turns;
      ClipNothing(sessions[1..], budget - |sessions[0].turns|);
    }
  }

  lemma {:induction false} NoneEmpty(sessions: seq<Session>)
    requires forall i | 0 <= i < |sessions| :: sessions[i].turns != []
    ensures NonEmpty(sessions) == sessions
  {
    if sessions != [] {
      NoneEmpty(sessions[1..]);
    }
  }

  lemma {:induction false} AllEligible(queries: seq<Query>, ids: set<string>)
    requires forall i | 0 <= i < |queries| :: Eligible(queries[i], ids)
    ensures KeepEligible(queries, ids) == queries
  {
    if queries != [] {
      AllEligible(queries[1..], ids);
    }
  }

  /** The dataset is left as it is exactly when it is within the limits. */
  lemma {:induction false} UnchangedExactly(d: Data, limits: Limits)
    ensures Limited(d, limits) == d <==> Within(d, limits)
  {
    LimitedIsWithin(d, limits);
    if Within(d, limits) {
      assert Take(d.sessions, limits.maxSessions) == d.sessions;
      ClipNothing(d.sessions, limits.maxRecords);
      NoneEmpty(d.sessions);
      AllEligible(d.queries, Ids(d.sessions));
      assert Take(d.queries, limits.maxQueries) == d.queries;
    }
  }

  /** Limiting twice is limiting once. */
  lemma {:induction false} LimitedTwice(d: Data, limits: Limits)
    ensures Limited(Limited(d, limits), limits) == Limited(d, limits)
  {
    LimitedIsWithin(d, limits);
    UnchangedExactly(Limited(d, limits), limits);
  }

  lemma {:induction false} TurnsOfPrefix(sessions: seq<Session>, n: nat)
    requires n <= |sessions|
    ensures |Turns(sessions[..n])| <= |Turns(sessions)|
  {
    if n > 0 {
      assert sessions[..n][1..] == sessions[1..][..n - 1];
      TurnsOfPrefix(sessions[1..], n - 1);
    }
  }

  /** No count grows, so the dropped counts of a run are non-negative differences. */
  lemma {:induction false} DroppedCounts(d: Data, limits: Limits)
    ensures var l := Limited(d, limits);
            |l.sessions| <= |d.sessions| && |Turns(l.sessions)| <= |Turns(d.sessions)| && |l.queries| <= |d.queries|
  {
    var first := Take(d.sessions, limits.maxSessions);
    ClipLength(first, limits.maxRecords);
    NonEmptyFacts(Clip(first, limits.maxRecords));
    KeptTurns(d.sessions, limits);
    TurnsOfPrefix(d.sessions, |first|);
    EligibleFacts(d.queries, Ids(LimitedSessions(d.sessions, limits)));
  }

  // ----- the operation -----

  lemma {:induction false} TurnsSnoc(a: seq<Session>, s: Session)
    ensures Turns(a + [s]) == Turns(a) + s.turns
  {
    if a == [] {
      assert a + [s] == [s] && Turns([s]) == s.turns + Turns([]);
    } else {
      assert (a + [s])[1..] == a[1..] + [s];
      TurnsSnoc(a[1..], s);
    }
  }

  lemma {:induction false} ClipPointwise(all: seq<Session>, budget: nat, clipped: seq<Session>)
    requires |clipped| == |all| && forall j | 0 <= j < |all| :: clipped[j] == ClippedAt(all, j, budget)
    ensures clipped == Clip(all, budget)
  {
    ClipLength(all, budget);
    forall j | 0 <= j < |all| ensures clipped[j] == Clip(all, budget)[j] {
      ClipAt(all, budget, j);
    }
  }

  lemma {:induction false} NonEmptyNext(kept: seq<Session>, sessions: seq<Session>, i: nat)
    requires i < |sessions|
    ensures kept + NonEmpty(sessions[i..]) ==
            (if sessions[i].turns == [] then kept else kept + [sessions[i]]) + NonEmpty(sessions[i + 1..])
  {
    assert sessions[i..][1..] == sessions[i + 1..];
  }

  lemma {:induction false} EligibleNext(kept: seq<Query>, queries: seq<Query>, i: nat, ids: set<string>)
    requires i < |queries|
    ensures kept + KeepEligible(queries[i..], ids) ==
            (if Eligible(queries[i], ids) then kept + [queries[i]] else kept) + KeepEligible(queries[i + 1..], ids)
  {
    assert queries[i..][1..] == queries[i + 1..];
  }

  class CognitiveDataset {
    var sessions: seq<Session>
    var queries: seq<Query>

    ghost function Contents(): Data
      reads this
    {
      Data(sessions, queries)
    }

    method ApplyExternalSafetyLimits(limits: Limits)
      modifies this
      ensures Contents() == Limited(old(Contents()), limits)
    {
      if |sessions| > limits.maxSessions {
        sessions := sessions[..limits.maxSessions];
      }
      ghost var first := sessions;
      assert first == Take(old(sessions), limits.maxSessions);
      ClipSessions(limits.maxRecords);
      RetainSessions();
      RetainQueries();
      if |queries| > limits.maxQueries {
        queries := queries[..limits.maxQueries];
      }
    }

    method ClipSessions(maxRecords: nat)
      modifies this`sessions
      ensures sessions == Clip(old(sessions), maxRecords)
    {
      ghost var all := sessions;
      var keptRecords := 0;
      for i := 0 to |sessions|
        invariant |sessions| == |all|
        invariant forall j | i <= j < |all| :: sessions[j] == all[j]
        invariant forall j | 0 <= j < i :: sessions[j] == ClippedAt(all, j, maxRecords)
        invariant keptRecords == Min(|Turns(all[..i])|, maxRecords)
      {
        assert all[..i + 1] == all[..i] + [all[i]];
        TurnsSnoc(all[..i], all[i]);
        if keptRecords >= maxRecords {
          sessions := sessions[i := sessions[i].(turns := [])];
        } else {
          var remaining := maxRecords - keptRecords;
          if |sessions[i].turns| > remaining {
            sessions := sessions[i := sessions[i].(turns := sessions[i].turns[..remaining])];
          }
          keptRecords := keptRecords + |sessions[i].turns|;
        }
      }
      assert all[..|all|] == all;
      ClipPointwise(all, maxRecords, sessions);
    }

    method RetainSessions()
      modifies this`sessions
      ensures sessions == NonEmpty(old(sessions))
    {
      var all, kept: seq<Session> := sessions, [];
      for i := 0 to |all|
        invariant kept + NonEmpty(all[i..]) == NonEmpty(all)
      {
        NonEmptyNext(kept, all, i);
        if all[i].turns != [] {
          kept := kept + [all[i]];
        }
      }
      sessions := kept;
    }

    method RetainQueries()
      modifies this`queries
      ensures queries == KeepEligible(old(queries), Ids(sessions))
    {
      var ids := Ids(sessions);
      var all, kept: seq<Query> := queries, [];
      for i := 0 to |all|
        invariant kept + KeepEligible(all[i..], ids) == KeepEligible(all, ids)
      {
        EligibleNext(kept, all, i, ids);
        if Eligible(all[i], ids) {
          kept := kept + [all[i]];
        }
      }
      queries := kept;
    }
  }
}
