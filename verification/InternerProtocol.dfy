/**
  Concurrent interning, step by step.

  Every call of `try_intern` and of `try_resolve` is a process with a program
  counter, so a state holds any number of concurrent and finished calls and a run
  is any interleaving of their steps.  Reads and writes of the forward map take no
  lock and are single steps; the reverse table is guarded by a readers-writer lock.
  The window of interest is between the push onto the reverse table and the insertion
  into the forward map, while callers on the fast path read without the lock.
 */
module InternerProtocol {
  import opened Lists
  import opened Options
  import opened Interner

  /** Where a `try_intern` call stands. */
  datatype InternPc =
    | FastRead                     // about to look the string up without the lock
    | Acquire                      // missed; about to take the write lock
    | Recheck                      // holds the lock; about to look up again
    | CheckCap                     // missed again; about to compare the length with the cap
    | Push(current: nat)           // about to append to the reverse table
    | Insert(id: nat)              // appended; about to publish in the forward map
    | Release(held: Outcome)       // about to drop the lock and return
    | Returned(outcome: Outcome)

  /** Where a `try_resolve` call stands. */
  datatype ResolvePc =
    | AcquireShared
    | Reading
    | ReleaseShared(held: Option<string>)
    | Resolved(answer: Option<string>)

  datatype InternCall = InternCall(s: string, pc: InternPc)
  datatype ResolveCall = ResolveCall(id: nat, pc: ResolvePc)

  datatype State = State(
    forward: map<string, nat>,
    reverse: seq<string>,
    writer: Option<nat>,
    readers: set<nat>,
    interns: seq<InternCall>,
    resolves: seq<ResolveCall>)

  datatype Step = CallIntern(s: string) | CallResolve(id: nat) | InternMoves(i: nat) | ResolveMoves(j: nat)

  const Initial := State(map[], [], None, {}, [], [])

  /** A call can take its next step; only the two lock acquisitions ever wait. */
  predicate Enabled(st: State, step: Step) {
    match step
    case CallIntern(_) => true
    case CallResolve(_) => true
    case InternMoves(i) =>
      i < |st.interns| &&
      match st.interns[i].pc {
        case Acquire => st.writer.None? && st.readers == {}
        case Returned(_) => false
        case _ => true
      }
    case ResolveMoves(j) =>
      j < |st.resolves| &&
      match st.resolves[j].pc {
        case AcquireShared => st.writer.None?
        case Resolved(_) => false
        case _ => true
      }
  }

  function At(st: State, i: nat, pc: InternPc): State
    requires i < |st.interns|
  {
    st.(interns := st.interns[i := st.interns[i].(pc := pc)])
  }

  function ResolveAt(st: State, j: nat, pc: ResolvePc): State
    requires j < |st.resolves|
  {
    st.(resolves := st.resolves[j := st.resolves[j].(pc := pc)])
  }

  /** One step of call `i` of `try_intern`, in program order. */
  function InternStep(cap: nat, st: State, i: nat): State
    requires Enabled(st, InternMoves(i))
  {
    var s := st.interns[i].s;
    match st.interns[i].pc
    case FastRead =>
      At(st, i, if s in st.forward then Returned(Handle(st.forward[s])) else Acquire)
    case Acquire =>
      At(st.(writer := Some(i)), i, Recheck)
    case Recheck =>
      At(st, i, if s in st.forward then Release(Handle(st.forward[s])) else CheckCap)
    case CheckCap =>
      At(st, i, if |st.reverse| >= cap then Release(CapacityExhausted) else Push(|st.reverse|))
    case Push(current) =>
      At(st.(reverse := st.reverse + [s]), i, Insert(current % U32_SPAN))
    case Insert(id) =>
      At(st.(forward := st.forward[s := id]), i, Release(Handle(id)))
    case Release(held) =>
      At(st.(writer := None), i, Returned(held))
  }

  function ResolveStep(st: State, j: nat): State
    requires Enabled(st, ResolveMoves(j))
  {
    match st.resolves[j].pc
    case AcquireShared => ResolveAt(st.(readers := st.readers + {j}), j, Reading)
    case Reading => ResolveAt(st, j, ReleaseShared(AtomicResolve(st.reverse, st.resolves[j].id)))
    case ReleaseShared(held) => ResolveAt(st.(readers := st.readers - {j}), j, Resolved(held))
  }

  function Apply(cap: nat, st: State, step: Step): State
    requires Enabled(st, step)
  {
    match step
    case CallIntern(s) => st.(interns := st.interns + [InternCall(s, FastRead)])
    case CallResolve(id) => st.(resolves := st.resolves + [ResolveCall(id, AcquireShared)])
    case InternMoves(i) => InternStep(cap, st, i)
    case ResolveMoves(j) => ResolveStep(st, j)
  }

  // ----- the invariant -----

  predicate HoldsLock(pc: InternPc) {
    pc.Recheck? || pc.CheckCap? || pc.Push? || pc.Insert? || pc.Release?
  }

  predicate HoldsShared(pc: ResolvePc) {
    pc.Reading? || pc.ReleaseShared?
  }

  /** Exactly the writer is inside the critical section, and never beside a reader. */
  ghost predicate LockInv(st: State) {
    && (st.writer.Some? ==> st.readers == {} && st.writer.value < |st.interns|)
    && (forall i | 0 <= i < |st.interns| :: HoldsLock(st.interns[i].pc) <==> st.writer == Some(i))
    && (forall j | 0 <= j < |st.resolves| :: HoldsShared(st.resolves[j].pc) <==> j in st.readers)
    && (forall j | j in st.readers :: j < |st.resolves|)
  }

  /** The writer has appended its string but not yet published it. */
  predicate InWindow(st: State) {
    st.writer.Some? && st.writer.value < |st.interns| && st.interns[st.writer.value].pc.Insert?
  }

  /** The published entries: the reverse table, less the entry in the window. */
  function Table(st: State): seq<string> {
    if InWindow(st) && |st.reverse| > 0 then st.reverse[..|st.reverse| - 1] else st.reverse
  }

  /** The forward map gives each string of the table its position, and nothing else. */
  ghost predicate Indexes(forward: map<string, nat>, table: seq<string>) {
    && (forall s :: s in forward <==> s in table)
    && (forall s | s in forward :: forward[s] < |table| && table[forward[s]] == s)
  }

  ghost predicate TableInv(cap: nat, st: State) {
    && |st.reverse| <= cap <= U32_MAX
    && Distinct(st.reverse)
    && (InWindow(st) ==> |st.reverse| > 0)
    && Indexes(st.forward, Table(st))
  }

  /** A recorded outcome, still under the lock or already returned. */
  ghost predicate OutcomeInv(cap: nat, st: State, s: string, o: Outcome) {
    match o
    case Handle(id) => s in st.forward && st.forward[s] == id
    case CapacityExhausted => s !in st.reverse && |st.reverse| >= cap
  }

  ghost predicate CallInv(cap: nat, st: State, c: InternCall) {
    match c.pc
    case CheckCap => c.s !in st.forward
    case Push(current) => c.s !in st.forward && current == |st.reverse| < cap
    case Insert(id) => 0 < |st.reverse| == id + 1 && st.reverse[id] == c.s
    case Release(o) => OutcomeInv(cap, st, c.s, o)
    case Returned(o) => OutcomeInv(cap, st, c.s, o)
    case _ => true
  }

  ghost predicate Inv(cap: nat, st: State) {
    && LockInv(st)
    && TableInv(cap, st)
    && (forall i | 0 <= i < |st.interns| :: CallInv(cap, st, st.interns[i]))
  }

  lemma {:induction false} InternStepKeepsLock(cap: nat, st: State, i: nat)
    requires Inv(cap, st) && Enabled(st, InternMoves(i))
    ensures LockInv(InternStep(cap, st, i))
  {
  }

  lemma {:induction false} IndexesExtend(forward: map<string, nat>, table: seq<string>, s: string)
    requires Indexes(forward, table) && s !in table
    ensures Indexes(forward[s := |table|], table + [s])
  {
  }

  /** Only the push and the insert touch the maps, and between them they add one entry. */
  lemma {:induction false} StepOnTable(cap: nat, st: State, i: nat)
    requires Inv(cap, st) && Enabled(st, InternMoves(i))
    ensures var st', c := InternStep(cap, st, i), st.interns[i];
            if c.pc.Insert? then
              && c.s !in Table(st)
              && Table(st') == st'.reverse == st.reverse == Table(st) + [c.s]
              && st'.forward == st.forward[c.s := |Table(st)|]
            else
              && Table(st') == Table(st) && st'.forward == st.forward
              && st'.reverse == if c.pc.Push? then st.reverse + [c.s] else st.reverse
  {
    var st', c := InternStep(cap, st, i), st.interns[i];
    InternStepKeepsLock(cap, st, i);
    assert CallInv(cap, st, c);
    if c.pc.Insert? {
      assert st.reverse == Table(st) + [c.s];
    } else if c.pc.Push? {
      assert Table(st') == st.reverse == Table(st);
    } else {
      assert InWindow(st') <==> InWindow(st);
    }
  }

  lemma {:induction false} InternStepKeepsTable(cap: nat, st: State, i: nat)
    requires Inv(cap, st) && Enabled(st, InternMoves(i))
    ensures TableInv(cap, InternStep(cap, st, i))
  {
    var c := st.interns[i];
    StepOnTable(cap, st, i);
    assert CallInv(cap, st, c);
    if c.pc.Insert? {
      IndexesExtend(st.forward, Table(st), c.s);
    } else if c.pc.Push? {
      assert Table(st) == st.reverse && c.s !in st.reverse;
    }
  }

  /** A recorded outcome stays true: handles are never reassigned and a full table never changes. */
  lemma {:induction false} OutcomeStable(cap: nat, st: State, i: nat, s: string, o: Outcome)
    requires Inv(cap, st) && Enabled(st, InternMoves(i))
    requires OutcomeInv(cap, st, s, o)
    ensures OutcomeInv(cap, InternStep(cap, st, i), s, o)
  {
    StepOnTable(cap, st, i);
    assert CallInv(cap, st, st.interns[i]);
  }

  lemma {:induction false} MoverKeepsCall(cap: nat, st: State, i: nat)
    requires Inv(cap, st) && Enabled(st, InternMoves(i))
    ensures var st' := InternStep(cap, st, i); CallInv(cap, st', st'.interns[i])
  {
    StepOnTable(cap, st, i);
    assert CallInv(cap, st, st.interns[i]);
  }

  lemma {:induction false} OthersKeepCall(cap: nat, st: State, i: nat, k: nat)
    requires Inv(cap, st) && Enabled(st, InternMoves(i)) && k < |st.interns| && k != i
    ensures var st' := InternStep(cap, st, i); CallInv(cap, st', st'.interns[k])
  {
    StepOnTable(cap, st, i);
    var c := st.interns[k];
    assert CallInv(cap, st, c);
    match c.pc
    case Release(o) => OutcomeStable(cap, st, i, c.s, o);
    case Returned(o) => OutcomeStable(cap, st, i, c.s, o);
    case _ => assert HoldsLock(c.pc) ==> st.writer == Some(k) && !HoldsLock(st.interns[i].pc);
  }

  lemma {:induction false} InternStepKeepsInv(cap: nat, st: State, i: nat)
    requires Inv(cap, st) && Enabled(st, InternMoves(i))
    ensures Inv(cap, InternStep(cap, st, i))
  {
    var st' := InternStep(cap, st, i);
    InternStepKeepsLock(cap, st, i);
    InternStepKeepsTable(cap, st, i);
    forall k | 0 <= k < |st'.interns| ensures CallInv(cap, st', st'.interns[k]) {
      if k == i {
        MoverKeepsCall(cap, st, i);
      } else {
        OthersKeepCall(cap, st, i, k);
      }
    }
  }

  lemma {:induction false} ResolveStepKeepsInv(cap: nat, st: State, j: nat)
    requires Inv(cap, st) && Enabled(st, ResolveMoves(j))
    ensures Inv(cap, ResolveStep(st, j))
  {
    var st' := ResolveStep(st, j);
    assert Table(st') == Table(st);
    forall i | 0 <= i < |st'.interns| ensures CallInv(cap, st', st'.interns[i]) {
      assert CallInv(cap, st, st.interns[i]);
    }
  }

  lemma {:induction false} StartKeepsInv(cap: nat, st: State, step: Step)
    requires Inv(cap, st) && (step.CallIntern? || step.CallResolve?)
    ensures Inv(cap, Apply(cap, st, step))
  {
    var st' := Apply(cap, st, step);
    assert Table(st') == Table(st);
    forall i | 0 <= i < |st'.interns| ensures CallInv(cap, st', st'.interns[i]) {
      assert i < |st.interns| ==> CallInv(cap, st, st.interns[i]);
    }
  }

  lemma {:induction false} StepKeepsInv(cap: nat, st: State, step: Step)
    requires Inv(cap, st) && Enabled(st, step)
    ensures Inv(cap, Apply(cap, st, step))
  {
    match step
    case CallIntern(_) => StartKeepsInv(cap, st, step);
    case CallResolve(_) => StartKeepsInv(cap, st, step);
    case ResolveMoves(j) => ResolveStepKeepsInv(cap, st, j);
    case InternMoves(i) => InternStepKeepsInv(cap, st, i);
  }

  // ----- refinement: every interleaving is one of indivisible operations -----

  /** What a caller can observe: a published table, and the calls with their decisions. */
  datatype Abstract = Abstract(
    table: seq<string>,
    interns: seq<(string, Option<Outcome>)>,
    resolves: seq<(nat, Option<Option<string>>)>)

  function Decision(c: InternCall): (string, Option<Outcome>) {
    (c.s, match c.pc
          case Release(o) => Some(o)
          case Returned(o) => Some(o)
          case _ => None)
  }

  function Answer(c: ResolveCall): (nat, Option<Option<string>>) {
    (c.id, match c.pc
           case ReleaseShared(r) => Some(r)
           case Resolved(r) => Some(r)
           case _ => None)
  }

  function Abstraction(st: State): Abstract {
    Abstract(Table(st),
             seq(|st.interns|, i requires 0 <= i < |st.interns| => Decision(st.interns[i])),
             seq(|st.resolves|, j requires 0 <= j < |st.resolves| => Answer(st.resolves[j])))
  }

  /** Call `i` is decided by one indivisible `AtomicIntern` on the table of that moment. */
  predicate InternHappens(cap: nat, a: Abstract, a': Abstract, i: nat) {
    && i < |a.interns| && a.interns[i].1.None?
    && var (table, o) := AtomicIntern(a.table, cap, a.interns[i].0);
       a' == a.(table := table, interns := a.interns[i := (a.interns[i].0, Some(o))])
  }

  predicate ResolveHappens(a: Abstract, a': Abstract, j: nat) {
    && j < |a.resolves| && a.resolves[j].1.None?
    && a' == a.(resolves := a.resolves[j := (a.resolves[j].0, Some(AtomicResolve(a.table, a.resolves[j].0)))])
  }

  predicate AbstractStep(cap: nat, a: Abstract, a': Abstract, step: Step) {
    match step
    case CallIntern(s) => a' == a.(interns := a.interns + [(s, None)])
    case CallResolve(id) => a' == a.(resolves := a.resolves + [(id, None)])
    case InternMoves(i) => a' == a || InternHappens(cap, a, a', i)
    case ResolveMoves(j) => a' == a || ResolveHappens(a, a', j)
  }

  /**
    Every step of the protocol is invisible or is the whole of one caller's operation,
    so concurrent interning is linearizable: a call takes effect at one moment between
    its start and its return.
   */
  lemma {:induction false} StepRefines(cap: nat, st: State, step: Step)
    requires Inv(cap, st) && Enabled(st, step)
    ensures AbstractStep(cap, Abstraction(st), Abstraction(Apply(cap, st, step)), step)
  {
    match step
    case CallIntern(s) =>
      assert Table(Apply(cap, st, step)) == Table(st);
    case CallResolve(id) =>
      assert Table(Apply(cap, st, step)) == Table(st);
    case InternMoves(i) => InternRefines(cap, st, i);
    case ResolveMoves(j) => ResolveRefines(cap, st, j);
  }

  lemma {:induction false} ResolveRefines(cap: nat, st: State, j: nat)
    requires Inv(cap, st) && Enabled(st, ResolveMoves(j))
    ensures AbstractStep(cap, Abstraction(st), Abstraction(ResolveStep(st, j)), ResolveMoves(j))
  {
    var st' := ResolveStep(st, j);
    var a, a' := Abstraction(st), Abstraction(st');
    assert a'.interns == a.interns;
    assert a'.table == a.table;
    if st.resolves[j].pc.Reading? {
      // A reader excludes the writer, so nothing is in the window.
      assert Table(st) == st.reverse;
      assert a'.resolves == a.resolves[j := (st.resolves[j].id, Some(AtomicResolve(st.reverse, st.resolves[j].id)))];
      assert ResolveHappens(a, a', j);
    } else {
      assert a'.resolves == a.resolves;
    }
  }

  lemma {:induction false} InternRefines(cap: nat, st: State, i: nat)
    requires Inv(cap, st) && Enabled(st, InternMoves(i))
    ensures AbstractStep(cap, Abstraction(st), Abstraction(InternStep(cap, st, i)), InternMoves(i))
  {
    var st' := InternStep(cap, st, i);
    var a, a' := Abstraction(st), Abstraction(st');
    var c, c' := st.interns[i], st'.interns[i];
    assert a'.resolves == a.resolves;
    assert a'.interns == a.interns[i := Decision(c')];
    StepOnTable(cap, st, i);
    DecisionIsAtomic(cap, st, i);
    if Decision(c).1 == Decision(c').1 {
      assert a' == a;
    } else {
      assert InternHappens(cap, a, a', i);
    }
  }

  /** The step that decides a call decides it as `AtomicIntern` would on the published table. */
  lemma {:induction false} DecisionIsAtomic(cap: nat, st: State, i: nat)
    requires Inv(cap, st) && Enabled(st, InternMoves(i))
    ensures var st', c := InternStep(cap, st, i), st.interns[i];
            var d, d' := Decision(c).1, Decision(st'.interns[i]).1;
            if d == d' then Table(st') == Table(st)
            else d.None? && d'.Some? && (Table(st'), d'.value) == AtomicIntern(Table(st), cap, c.s)
  {
    var c := st.interns[i];
    StepOnTable(cap, st, i);
    assert CallInv(cap, st, c);
    if (c.pc.FastRead? || c.pc.Recheck?) && c.s in st.forward {
      IndexOfUnique(Table(st), st.forward[c.s]);
    }
  }
}
