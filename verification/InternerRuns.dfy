/**
  What holds over every run of the interner protocol: any number of concurrent
  `try_intern` and `try_resolve` calls, started at any time, in any interleaving.
 */
module InternerRuns {
  import opened Lists
  import opened Options
  import opened Interner
  import opened InternerProtocol

  ghost predicate StepsTo(cap: nat, st: State, st': State) {
    exists step :: Enabled(st, step) && st' == Apply(cap, st, step)
  }

  ghost predicate MovesAt(cap: nat, run: seq<State>, k: int) {
    0 <= k < |run| - 1 && StepsTo(cap, run[k], run[k + 1])
  }

  /** The states a fresh interner created with `requested` entries passes through. */
  ghost predicate IsRun(requested: nat, run: seq<State>) {
    && 0 < |run| && run[0] == Initial
    && forall k | 0 <= k < |run| - 1 :: MovesAt(EffectiveCap(requested), run, k)
  }

  /** Nothing published, decided or returned is ever taken back. */
  ghost predicate Grows(st: State, st': State) {
    && st.reverse <= st'.reverse
    && (forall s | s in st.forward :: s in st'.forward && st'.forward[s] == st.forward[s])
    && |st.interns| <= |st'.interns|
    && (forall i | 0 <= i < |st.interns| ::
          && st'.interns[i].s == st.interns[i].s
          && (st.interns[i].pc.Returned? ==> st'.interns[i] == st.interns[i]))
    && |st.resolves| <= |st'.resolves|
    && (forall j | 0 <= j < |st.resolves| ::
          && st'.resolves[j].id == st.resolves[j].id
          && (st.resolves[j].pc.Resolved? ==> st'.resolves[j] == st.resolves[j]))
  }

  /** The step a run takes at its position `k`. */
  lemma {:induction false} StepOf(requested: nat, run: seq<State>, k: nat) returns (step: Step)
    requires IsRun(requested, run) && k + 1 < |run|
    ensures Enabled(run[k], step) && run[k + 1] == Apply(EffectiveCap(requested), run[k], step)
  {
    assert MovesAt(EffectiveCap(requested), run, k);
    step :| Enabled(run[k], step) && run[k + 1] == Apply(EffectiveCap(requested), run[k], step);
  }

  lemma {:induction false} RunInv(requested: nat, run: seq<State>, k: nat)
    requires IsRun(requested, run) && k < |run|
    ensures Inv(EffectiveCap(requested), run[k])
  {
    if k > 0 {
      RunInv(requested, run, k - 1);
      var step := StepOf(requested, run, k - 1);
      StepKeepsInv(EffectiveCap(requested), run[k - 1], step);
    }
  }

  lemma {:induction false} StepGrows(cap: nat, st: State, step: Step)
    requires Inv(cap, st) && Enabled(st, step)
    ensures Grows(st, Apply(cap, st, step))
  {
    if step.InternMoves? {
      StepOnTable(cap, st, step.i);
    }
  }

  lemma {:induction false} GrowsTransitive(a: State, b: State, c: State)
    requires Grows(a, b) && Grows(b, c)
    ensures Grows(a, c)
  {
  }

  lemma {:induction false} NextGrows(requested: nat, run: seq<State>, k: nat)
    requires IsRun(requested, run) && k + 1 < |run|
    ensures Grows(run[k], run[k + 1])
  {
    RunInv(requested, run, k);
    var step := StepOf(requested, run, k);
    StepGrows(EffectiveCap(requested), run[k], step);
  }

  lemma {:induction false} RunGrows(requested: nat, run: seq<State>, k: nat, k': nat)
    requires IsRun(requested, run) && k <= k' < |run|
    ensures Grows(run[k], run[k'])
    decreases k' - k
  {
    if k < k' {
      RunGrows(requested, run, k, k' - 1);
      NextGrows(requested, run, k' - 1);
      GrowsTransitive(run[k], run[k' - 1], run[k']);
    }
  }

  /** Call `i` has returned handle `a` for string `s`. */
  predicate Got(st: State, i: nat, s: string, a: nat) {
    i < |st.interns| && st.interns[i] == InternCall(s, Returned(Handle(a)))
  }

  predicate Refused(st: State, i: nat, s: string) {
    i < |st.interns| && st.interns[i] == InternCall(s, Returned(CapacityExhausted))
  }

  ghost predicate AbstractlyStepsTo(cap: nat, a: Abstract, a': Abstract) {
    exists step :: AbstractStep(cap, a, a', step)
  }

  /** Every run of the protocol is, call by call, a run of indivisible operations. */
  lemma {:induction false} RunRefines(requested: nat, run: seq<State>, k: nat)
    requires IsRun(requested, run) && k + 1 < |run|
    ensures AbstractlyStepsTo(EffectiveCap(requested), Abstraction(run[k]), Abstraction(run[k + 1]))
  {
    RunInv(requested, run, k);
    var step := StepOf(requested, run, k);
    StepRefines(EffectiveCap(requested), run[k], step);
  }

  /** Two handles, returned at any two moments by any two calls, are equal exactly when their strings are. */
  lemma {:induction false} HandlesIdentifyStrings(requested: nat, run: seq<State>,
                               k: nat, i: nat, s: string, a: nat, k': nat, i': nat, s': string, a': nat)
    requires IsRun(requested, run) && k < |run| && k' < |run|
    requires Got(run[k], i, s, a) && Got(run[k'], i', s', a')
    ensures a == a' <==> s == s'
  {
    var cap := EffectiveCap(requested);
    var m := if k < k' then k' else k;
    RunGrows(requested, run, k, m);
    RunGrows(requested, run, k', m);
    RunInv(requested, run, m);
    assert CallInv(cap, run[m], run[m].interns[i]) && CallInv(cap, run[m], run[m].interns[i']);
  }

  /** A returned handle denotes its string in the table of every later state. */
  lemma {:induction false} HandleDenotes(requested: nat, run: seq<State>, k: nat, i: nat, s: string, a: nat, k': nat)
    requires IsRun(requested, run) && k <= k' < |run|
    requires Got(run[k], i, s, a)
    ensures AtomicResolve(run[k'].reverse, a) == AtomicResolve(Table(run[k']), a) == Some(s)
  {
    RunGrows(requested, run, k, k');
    RunInv(requested, run, k');
    assert CallInv(EffectiveCap(requested), run[k'], run[k'].interns[i]);
  }

  predicate AnswersOnly(c: ResolveCall, s: string) {
    Answer(c).1 in {None, Some(Some(s))}
  }

  lemma {:induction false} StepAnswers(cap: nat, st: State, step: Step, j: nat, a: nat, s: string)
    requires Enabled(st, step)
    requires AtomicResolve(st.reverse, a) == Some(s)
    requires j < |st.resolves| ==> AnswersOnly(st.resolves[j], s)
    requires var st' := Apply(cap, st, step); j < |st'.resolves| && st'.resolves[j].id == a
    ensures AnswersOnly(Apply(cap, st, step).resolves[j], s)
  {
  }

  /** Every `try_resolve` of a returned handle that starts afterwards answers with its string. */
  lemma {:induction false} HandleResolves(requested: nat, run: seq<State>,
                                          k: nat, i: nat, s: string, a: nat, k': nat, j: nat)
    requires IsRun(requested, run) && k <= k' < |run|
    requires Got(run[k], i, s, a)
    requires |run[k].resolves| <= j < |run[k'].resolves| && run[k'].resolves[j].id == a
    ensures AnswersOnly(run[k'].resolves[j], s)
    decreases k'
  {
    HandleDenotes(requested, run, k, i, s, a, k' - 1);
    var step := StepOf(requested, run, k' - 1);
    if j < |run[k' - 1].resolves| {
      NextGrows(requested, run, k' - 1);
      HandleResolves(requested, run, k, i, s, a, k' - 1, j);
    }
    StepAnswers(EffectiveCap(requested), run[k' - 1], step, j, a, s);
  }

  /** The table never outgrows the cap, so a position is its own `u32` handle. */
  lemma {:induction false} HandlesFit(requested: nat, run: seq<State>, k: nat, i: nat)
    requires IsRun(requested, run) && k < |run| && i < |run[k].interns|
    ensures |run[k].reverse| <= EffectiveCap(requested)
    ensures match run[k].interns[i].pc
            case Push(current) => current % U32_SPAN == current
            case Returned(Handle(a)) => a < EffectiveCap(requested) <= U32_MAX
            case _ => true
  {
    RunInv(requested, run, k);
    assert CallInv(EffectiveCap(requested), run[k], run[k].interns[i]);
  }

  /** One refusal for capacity settles that string for the whole run: no call on it ever succeeds. */
  lemma {:induction false} RefusalIsFinal(requested: nat, run: seq<State>, k: nat, i: nat, s: string, k': nat, i': nat)
    requires IsRun(requested, run) && k < |run| && k' < |run|
    requires Refused(run[k], i, s)
    requires i' < |run[k'].interns| && run[k'].interns[i'].s == s && run[k'].interns[i'].pc.Returned?
    ensures Refused(run[k'], i', s)
    ensures |run[k].reverse| == EffectiveCap(requested) && s !in run[k'].reverse
  {
    var cap := EffectiveCap(requested);
    var m := if k < k' then k' else k;
    RunGrows(requested, run, k, m);
    RunGrows(requested, run, k', m);
    RunInv(requested, run, k);
    RunInv(requested, run, m);
    assert CallInv(cap, run[k], run[k].interns[i]);
    assert CallInv(cap, run[m], run[m].interns[i]) && CallInv(cap, run[m], run[m].interns[i']);
    assert forall x | x in run[k'].reverse :: x in run[m].reverse;
  }

  predicate FastOnly(st: State, i: nat, s: string, a: nat) {
    i < |st.interns| && (st.interns[i] == InternCall(s, FastRead) || Got(st, i, s, a))
  }

  lemma {:induction false} StepFast(cap: nat, st: State, step: Step, i: nat, s: string)
    requires Enabled(st, step) && s in st.forward
    requires i < |st.interns| ==> FastOnly(st, i, s, st.forward[s])
    requires var st' := Apply(cap, st, step); i < |st'.interns| && st'.interns[i].s == s
    ensures FastOnly(Apply(cap, st, step), i, s, st.forward[s])
  {
  }

  /** A published string is found by every call that starts afterwards, full table or not, without the lock. */
  lemma {:induction false} PublishedSucceeds(requested: nat, run: seq<State>, k: nat, s: string, k': nat, i: nat)
    requires IsRun(requested, run) && k <= k' < |run|
    requires s in run[k].forward
    requires |run[k].interns| <= i < |run[k'].interns| && run[k'].interns[i].s == s
    ensures FastOnly(run[k'], i, s, run[k].forward[s])
    decreases k'
  {
    RunGrows(requested, run, k, k' - 1);
    var step := StepOf(requested, run, k' - 1);
    if i < |run[k' - 1].interns| {
      NextGrows(requested, run, k' - 1);
      PublishedSucceeds(requested, run, k, s, k' - 1, i);
    }
    StepFast(EffectiveCap(requested), run[k' - 1], step, i, s);
  }

  predicate Asked(st: State, x: string) {
    exists i | 0 <= i < |st.interns| :: st.interns[i].s == x
  }

  lemma {:induction false} EntriesWereAsked(requested: nat, run: seq<State>, k: nat, x: string)
    requires IsRun(requested, run) && k < |run| && x in run[k].reverse
    ensures Asked(run[k], x)
  {
    if k > 0 {
      var step := StepOf(requested, run, k - 1);
      NextGrows(requested, run, k - 1);
      if x in run[k - 1].reverse {
        EntriesWereAsked(requested, run, k - 1, x);
        var i :| 0 <= i < |run[k - 1].interns| && run[k - 1].interns[i].s == x;
        assert run[k].interns[i].s == x;
      } else {
        assert step.InternMoves? && run[k].interns[step.i].s == x;
      }
    }
  }

  lemma {:induction false} DistinctCount(table: seq<string>)
    requires Distinct(table)
    ensures |set s | s in table| == |table|
  {
    if table != [] {
      var rest := table[..|table| - 1];
      DistinctCount(rest);
      assert (set s | s in table) == (set s | s in rest) + {table[|table| - 1]};
    }
  }

  /** When all calls have succeeded, the table holds each string asked for once, and nothing else. */
  lemma {:induction false} QuietTable(requested: nat, run: seq<State>, k: nat)
    requires IsRun(requested, run) && k < |run|
    requires forall i | 0 <= i < |run[k].interns| :: run[k].interns[i].pc.Returned? && run[k].interns[i].pc.outcome.Handle?
    ensures (set s | s in run[k].reverse) == (set c | c in run[k].interns :: c.s)
    ensures |run[k].reverse| == |set c | c in run[k].interns :: c.s|
  {
    var st := run[k];
    RunInv(requested, run, k);
    DistinctCount(st.reverse);
    forall x | x in st.reverse ensures x in set c | c in st.interns :: c.s {
      EntriesWereAsked(requested, run, k, x);
      var i :| 0 <= i < |st.interns| && st.interns[i].s == x;
      assert st.interns[i] in st.interns;
    }
    forall c | c in st.interns ensures c.s in st.reverse {
      assert CallInv(EffectiveCap(requested), st, c);
    }
  }

  // ----- progress -----

  predicate Done(st: State) {
    && (forall i | 0 <= i < |st.interns| :: st.interns[i].pc.Returned?)
    && (forall j | 0 <= j < |st.resolves| :: st.resolves[j].pc.Resolved?)
  }

  /** No deadlock: while some call is unfinished, some call can move. */
  lemma {:induction false} SomeoneCanMove(requested: nat, run: seq<State>, k: nat)
    requires IsRun(requested, run) && k < |run| && !Done(run[k])
    ensures exists step: Step :: Enabled(run[k], step) && (step.InternMoves? || step.ResolveMoves?)
  {
    var st := run[k];
    RunInv(requested, run, k);
    if st.writer.Some? {
      assert HoldsLock(st.interns[st.writer.value].pc);
      assert Enabled(st, InternMoves(st.writer.value));
    } else if st.readers != {} {
      var j :| j in st.readers;
      assert HoldsShared(st.resolves[j].pc);
      assert Enabled(st, ResolveMoves(j));
    } else if i :| 0 <= i < |st.interns| && !st.interns[i].pc.Returned? {
      assert Enabled(st, InternMoves(i));
    } else {
      var j :| 0 <= j < |st.resolves| && !st.resolves[j].pc.Resolved?;
      assert Enabled(st, ResolveMoves(j));
    }
  }

  /** Steps a call may still take. */
  function InternWork(pc: InternPc): nat {
    match pc
    case FastRead => 7
    case Acquire => 6
    case Recheck => 5
    case CheckCap => 4
    case Push(_) => 3
    case Insert(_) => 2
    case Release(_) => 1
    case Returned(_) => 0
  }

  function ResolveWork(pc: ResolvePc): nat {
    match pc
    case AcquireShared => 3
    case Reading => 2
    case ReleaseShared(_) => 1
    case Resolved(_) => 0
  }

  function InternsWork(calls: seq<InternCall>): nat {
    if calls == [] then 0 else InternWork(calls[0].pc) + InternsWork(calls[1..])
  }

  function ResolvesWork(calls: seq<ResolveCall>): nat {
    if calls == [] then 0 else ResolveWork(calls[0].pc) + ResolvesWork(calls[1..])
  }

  lemma {:induction false} InternsWorkUpdate(calls: seq<InternCall>, i: nat, c: InternCall)
    requires i < |calls|
    ensures InternsWork(calls[i := c]) + InternWork(calls[i].pc) == InternsWork(calls) + InternWork(c.pc)
  {
    if i == 0 {
      assert calls[i := c][1..] == calls[1..];
    } else {
      assert calls[i := c][1..] == calls[1..][i - 1 := c];
      InternsWorkUpdate(calls[1..], i - 1, c);
    }
  }

  lemma {:induction false} ResolvesWorkUpdate(calls: seq<ResolveCall>, j: nat, c: ResolveCall)
    requires j < |calls|
    ensures ResolvesWork(calls[j := c]) + ResolveWork(calls[j].pc) == ResolvesWork(calls) + ResolveWork(c.pc)
  {
    if j == 0 {
      assert calls[j := c][1..] == calls[1..];
    } else {
      assert calls[j := c][1..] == calls[1..][j - 1 := c];
      ResolvesWorkUpdate(calls[1..], j - 1, c);
    }
  }

  /** Every move consumes work, so a finite number of calls finishes after finitely many moves. */
  lemma {:induction false} MovesTerminate(cap: nat, st: State, step: Step)
    requires Enabled(st, step) && (step.InternMoves? || step.ResolveMoves?)
    ensures var st' := Apply(cap, st, step);
            InternsWork(st'.interns) + ResolvesWork(st'.resolves) < InternsWork(st.interns) + ResolvesWork(st.resolves)
  {
    var st' := Apply(cap, st, step);
    if step.InternMoves? {
      InternsWorkUpdate(st.interns, step.i, st'.interns[step.i]);
    } else {
      ResolvesWorkUpdate(st.resolves, step.j, st'.resolves[step.j]);
    }
  }
}
