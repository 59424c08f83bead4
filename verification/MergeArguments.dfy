/** The merge query from the caller's side: which arguments are accepted, which error comes first, what is read back. */
module MergeArguments {
  import opened Options
  import opened HirnqlText
  import opened MergeQuery
  import opened MergeParser
  import opened MergeRoundTrip
  import opened MergeTheorem

  // ----- accepted arguments -----

  predicate NonBlank(s: string) {
    exists i | 0 <= i < |s| :: !IsJsSpace(s[i])
  }

  /** An optional string as the caller gave it. */
  function Given(s: Option<string>): Option<Arg> {
    if s.None? then None else Some(Text(s.value))
  }

  predicate GoodText(s: Option<string>) {
    s.Some? ==> NonBlank(s.value)
  }

  /** A merge holds each argument in its own field. */
  predicate Carries(m: Merge, sourceIds: seq<Arg>, targetId: Arg, options: MergeOptions) {
    && |m.sources| == |sourceIds| && (forall i | 0 <= i < |sourceIds| :: sourceIds[i] == Text(m.sources[i]))
    && targetId == Text(m.target)
    && options.description == Given(m.description)
    && (options.confidence.None? <==> m.confidence.None?)
    && (m.confidence.Some? ==> IsNumeral(m.confidence.value) && options.confidence == Some(Finite(m.confidence.value)))
    && (options.evidenceCount.None? <==> m.evidenceCount.None?)
    && (m.evidenceCount.Some? ==>
          IsNumeral(m.evidenceCount.value) && options.evidenceCount == Some(Finite(m.evidenceCount.value)))
    && options.reason == Given(m.reason)
    && options.observedAt == Given(m.observedAt)
    && options.causedBy == Given(m.causedBy)
  }

  /** What the binding asks of the fields. */
  predicate Acceptable(m: Merge) {
    && m.sources != [] && (forall i | 0 <= i < |m.sources| :: NonBlank(m.sources[i])) && NonBlank(m.target)
    && GoodText(m.description) && GoodText(m.reason) && GoodText(m.observedAt) && GoodText(m.causedBy)
    && (m.evidenceCount.Some? ==>
          var n := m.evidenceCount.value; IsNumeral(n) && IsInteger(n) && !IsNegative(n))
  }

  lemma {:induction false} BlankOrNot(s: string)
    ensures Blank(s) <==> !NonBlank(s)
  {
  }

  lemma {:induction false} TextChecked(value: Arg, name: string, s: string)
    ensures RequireNonEmptyString(value, name) == Ok(s) <==> value == Text(s) && NonBlank(s)
  {
    if value.Text? {
      BlankOrNot(value.s);
    }
  }

  lemma {:induction false} OptionalChecked(value: Option<Arg>, name: string, s: Option<string>)
    ensures CheckOptional(value, name) == Ok(s) <==> value == Given(s) && GoodText(s)
  {
    if value.Some? && s.Some? {
      TextChecked(value.value, name, s.value);
    }
  }

  lemma {:induction false} SourcesChecked(sourceIds: seq<Arg>, sources: seq<string>)
    ensures CheckSources(sourceIds) == Ok(sources) <==>
            && |sources| == |sourceIds|
            && (forall i | 0 <= i < |sourceIds| :: sourceIds[i] == Text(sources[i]) && NonBlank(sources[i]))
  {
    if sourceIds != [] && sources != [] {
      TextChecked(sourceIds[0], "sourceIds[]", sources[0]);
      SourcesChecked(sourceIds[1..], sources[1..]);
      SourcesSplit(sourceIds, sources);
    } else if sourceIds != [] {
      assert CheckSources(sourceIds) != Ok([]);
    }
  }

  lemma {:induction false} SourcesSplit(sourceIds: seq<Arg>, sources: seq<string>)
    requires sourceIds != [] && sources != []
    ensures CheckSources(sourceIds) == Ok(sources) <==>
            RequireNonEmptyString(sourceIds[0], "sourceIds[]") == Ok(sources[0]) && CheckSources(sourceIds[1..]) == Ok(sources[1..])
  {
    assert sources == [sources[0]] + sources[1..];
    var first, rest := RequireNonEmptyString(sourceIds[0], "sourceIds[]"), CheckSources(sourceIds[1..]);
    if first.Ok? && rest.Ok? {
      var all := [first.value] + rest.value;
      assert all[0] == first.value && all[1..] == rest.value;
    }
  }

  lemma {:induction false} NumbersChecked(options: MergeOptions, c: Option<Numeral>, e: Option<Numeral>)
    ensures CheckConfidence(options.confidence) == Ok(c) <==>
            && (options.confidence.None? <==> c.None?)
            && (c.Some? ==> IsNumeral(c.value) && options.confidence == Some(Finite(c.value)))
    ensures CheckEvidenceCount(options.evidenceCount) == Ok(e) <==>
            && (options.evidenceCount.None? <==> e.None?)
            && (e.Some? ==> IsNumeral(e.value) && options.evidenceCount == Some(Finite(e.value)) &&
                            IsInteger(e.value) && !IsNegative(e.value))
  {
  }

  /** All fields of a checked merge, one by one. */
  lemma {:induction false} FieldByField(sourceIds: seq<Arg>, targetId: Arg, options: MergeOptions, m: Merge)
    ensures CheckMerge(sourceIds, targetId, options) == Ok(m) <==>
            && sourceIds != []
            && CheckSources(sourceIds) == Ok(m.sources)
            && RequireNonEmptyString(targetId, "targetId") == Ok(m.target)
            && CheckOptional(options.description, "description") == Ok(m.description)
            && CheckConfidence(options.confidence) == Ok(m.confidence)
            && CheckEvidenceCount(options.evidenceCount) == Ok(m.evidenceCount)
            && CheckOptional(options.reason, "reason") == Ok(m.reason)
            && CheckOptional(options.observedAt, "observedAt") == Ok(m.observedAt)
            && CheckOptional(options.causedBy, "causedBy") == Ok(m.causedBy)
  {
  }

  /** The checks pass exactly when every argument is good, and then each sits in its own field. */
  lemma {:induction false} AcceptedExactly(sourceIds: seq<Arg>, targetId: Arg, options: MergeOptions, m: Merge)
    ensures CheckMerge(sourceIds, targetId, options) == Ok(m) <==>
            Carries(m, sourceIds, targetId, options) && Acceptable(m)
  {
    FieldByField(sourceIds, targetId, options, m);
    SourcesChecked(sourceIds, m.sources);
    TextChecked(targetId, "targetId", m.target);
    OptionalChecked(options.description, "description", m.description);
    NumbersChecked(options, m.confidence, m.evidenceCount);
    OptionalChecked(options.reason, "reason", m.reason);
    OptionalChecked(options.observedAt, "observedAt", m.observedAt);
    OptionalChecked(options.causedBy, "causedBy", m.causedBy);
  }

  // ----- the first error -----

  /** What is wrong with a string argument, if anything. */
  function TextFault(value: Arg, name: string): Option<Error> {
    if value.NotAString? then Some(NotAStringError(name))
    else if NonBlank(value.s) then None
    else Some(BlankError(name))
  }

  function OptionalFault(value: Option<Arg>, name: string): Option<Error> {
    if value.None? then None else TextFault(value.value, name)
  }

  function ConfidenceFault(value: Option<NumberArg>): Option<Error> {
    if value.None? || value.value.Finite? then None else Some(ConfidenceError)
  }

  function CountFault(value: Option<NumberArg>): Option<Error> {
    if value.None? || (value.value.Finite? && IsInteger(value.value.numeral) && !IsNegative(value.value.numeral)) then None
    else Some(EvidenceCountError)
  }

  function SourceFaults(sourceIds: seq<Arg>): seq<Option<Error>> {
    seq(|sourceIds|, i requires 0 <= i < |sourceIds| => TextFault(sourceIds[i], "sourceIds[]"))
  }

  /** The faults of the arguments after the sources. */
  function RestFaults(targetId: Arg, options: MergeOptions): seq<Option<Error>> {
    [TextFault(targetId, "targetId"), OptionalFault(options.description, "description"),
     ConfidenceFault(options.confidence), CountFault(options.evidenceCount), OptionalFault(options.reason, "reason"),
     OptionalFault(options.observedAt, "observedAt"), OptionalFault(options.causedBy, "causedBy")]
  }

  /** The faults of all arguments in the order in which the program looks at them. */
  function Faults(sourceIds: seq<Arg>, targetId: Arg, options: MergeOptions): seq<Option<Error>> {
    (if sourceIds == [] then [Some(NoSources)] else SourceFaults(sourceIds)) + RestFaults(targetId, options)
  }

  function FirstOf(faults: seq<Option<Error>>): Option<Error> {
    if faults == [] then None else if faults[0].Some? then faults[0] else FirstOf(faults[1..])
  }

  lemma {:induction false} FirstOfConcat(a: seq<Option<Error>>, b: seq<Option<Error>>)
    ensures FirstOf(a + b) == if FirstOf(a).Some? then FirstOf(a) else FirstOf(b)
  {
    if a == [] {
      assert a + b == b;
    } else {
      assert (a + b)[1..] == a[1..] + b;
      FirstOfConcat(a[1..], b);
    }
  }

  /** The fault at `k` is `e`, and nothing before it is wrong. */
  predicate IsFirst(faults: seq<Option<Error>>, k: nat, e: Error) {
    k < |faults| && faults[k] == Some(e) && forall j | 0 <= j < k :: faults[j] == None
  }

  lemma {:induction false} FirstOfMeaning(faults: seq<Option<Error>>, e: Error)
    ensures FirstOf(faults) == Some(e) <==> exists k: nat :: IsFirst(faults, k, e)
    ensures FirstOf(faults) == None <==> forall k | 0 <= k < |faults| :: faults[k] == None
  {
    if faults != [] {
      FirstOfMeaning(faults[1..], e);
      if faults[0].Some? {
        assert faults[0] == Some(e) ==> IsFirst(faults, 0, e);
      } else {
        if k: nat :| IsFirst(faults[1..], k, e) {
          assert IsFirst(faults, k + 1, e);
        }
        if k: nat :| IsFirst(faults, k, e) {
          assert IsFirst(faults[1..], k - 1, e);
        }
      }
    }
  }

  function FaultOf<T>(r: Result<T>): Option<Error> {
    if r.Ok? then None else Some(r.error)
  }

  lemma {:induction false} TextFaults(value: Arg, name: string)
    ensures FaultOf(RequireNonEmptyString(value, name)) == TextFault(value, name)
    ensures FaultOf(CheckOptional(Some(value), name)) == TextFault(value, name)
  {
    if value.Text? {
      BlankOrNot(value.s);
    }
  }

  lemma {:induction false} OptionalFaults(value: Option<Arg>, name: string)
    ensures FaultOf(CheckOptional(value, name)) == OptionalFault(value, name)
  {
    if value.Some? {
      TextFaults(value.value, name);
    }
  }

  lemma {:induction false} SourcesFirst(sourceIds: seq<Arg>)
    ensures FaultOf(CheckSources(sourceIds)) == FirstOf(SourceFaults(sourceIds))
  {
    if sourceIds != [] {
      TextFaults(sourceIds[0], "sourceIds[]");
      SourcesFirst(sourceIds[1..]);
      assert SourceFaults(sourceIds)[1..] == SourceFaults(sourceIds[1..]);
    }
  }

  lemma {:induction false} FirstOfFront(x: Option<Error>, rest: seq<Option<Error>>)
    ensures FirstOf([x] + rest) == if x.Some? then x else FirstOf(rest)
  {
    assert ([x] + rest)[1..] == rest;
  }

  lemma {:induction false} FirstOfThree(a: Option<Error>, b: Option<Error>, c: Option<Error>)
    ensures FirstOf([a, b, c]) == if a.Some? then a else if b.Some? then b else c
  {
    FirstOfFront(a, [b, c]);
    FirstOfFront(b, [c]);
    FirstOfFront(c, []);
    assert [a, b, c] == [a] + [b, c] && [b, c] == [b] + [c] && [c] == [c] + [];
  }

  lemma {:induction false} ClauseFaults(options: MergeOptions)
    ensures FaultOf(CheckClauses(options)) ==
            FirstOf([OptionalFault(options.reason, "reason"), OptionalFault(options.observedAt, "observedAt"),
                     OptionalFault(options.causedBy, "causedBy")])
  {
    OptionalFaults(options.reason, "reason");
    OptionalFaults(options.observedAt, "observedAt");
    OptionalFaults(options.causedBy, "causedBy");
    FirstOfThree(OptionalFault(options.reason, "reason"), OptionalFault(options.observedAt, "observedAt"),
                 OptionalFault(options.causedBy, "causedBy"));
  }

  lemma {:induction false} FirstOfFive(a: Option<Error>, b: Option<Error>, c: Option<Error>, d: Option<Error>, more: seq<Option<Error>>)
    ensures FirstOf([a, b, c, d] + more) ==
            if a.Some? then a else if b.Some? then b else if c.Some? then c else if d.Some? then d else FirstOf(more)
  {
    FirstOfConcat([a, b, c, d], more);
    FirstOfFront(a, [b, c, d]);
    FirstOfThree(b, c, d);
    assert [a, b, c, d] == [a] + [b, c, d];
  }

  lemma {:induction false} RestFirst(targetId: Arg, options: MergeOptions)
    ensures var t, d := RequireNonEmptyString(targetId, "targetId"), CheckOptional(options.description, "description");
            var c, e := CheckConfidence(options.confidence), CheckEvidenceCount(options.evidenceCount);
            FirstOf(RestFaults(targetId, options)) ==
            if t.Err? then Some(t.error) else if d.Err? then Some(d.error) else if c.Err? then Some(c.error)
            else if e.Err? then Some(e.error) else FaultOf(CheckClauses(options))
  {
    var clauses := [OptionalFault(options.reason, "reason"), OptionalFault(options.observedAt, "observedAt"),
                    OptionalFault(options.causedBy, "causedBy")];
    var t, d := TextFault(targetId, "targetId"), OptionalFault(options.description, "description");
    var c, e := ConfidenceFault(options.confidence), CountFault(options.evidenceCount);
    assert RestFaults(targetId, options) == [t, d, c, e] + clauses;
    FirstOfFive(t, d, c, e, clauses);
    TextFaults(targetId, "targetId");
    OptionalFaults(options.description, "description");
    ClauseFaults(options);
  }

  lemma {:induction false} CheckIsFirst(sourceIds: seq<Arg>, targetId: Arg, options: MergeOptions)
    ensures FaultOf(CheckMerge(sourceIds, targetId, options)) == FirstOf(Faults(sourceIds, targetId, options))
  {
    var front := if sourceIds == [] then [Some(NoSources)] else SourceFaults(sourceIds);
    FirstOfConcat(front, RestFaults(targetId, options));
    SourcesFirst(sourceIds);
    RestFirst(targetId, options);
  }

  /** The error is that of the first bad argument in program order; without a bad argument there is none. */
  lemma {:induction false} ErrorExactly(sourceIds: seq<Arg>, targetId: Arg, options: MergeOptions, e: Error)
    ensures var faults := Faults(sourceIds, targetId, options);
            && (CheckMerge(sourceIds, targetId, options) == Err(e) <==> exists k: nat :: IsFirst(faults, k, e))
            && (CheckMerge(sourceIds, targetId, options).Ok? <==> forall k | 0 <= k < |faults| :: faults[k] == None)
  {
    CheckIsFirst(sourceIds, targetId, options);
    FirstOfMeaning(Faults(sourceIds, targetId, options), e);
  }

  // ----- reading back -----

  /** The updates the caller asked for, in order. */
  function GivenUpdates(options: MergeOptions): seq<Assignment> {
    (if options.description.Some? && options.description.value.Text?
     then [Assignment("description", Str(options.description.value.s))] else []) +
    (if options.confidence.Some? && options.confidence.value.Finite?
     then [Assignment("confidence", ValueOf(options.confidence.value.numeral))] else []) +
    (if options.evidenceCount.Some? && options.evidenceCount.value.Finite?
     then [Assignment("evidence_count", ValueOf(options.evidenceCount.value.numeral))] else [])
  }

  lemma {:induction false} ParsedFront(i: Item, rest: seq<Item>)
    requires WfItem(i) && WfItems(rest)
    ensures WfItems([i] + rest) && ParsedItems([i] + rest) == [ParsedItem(i)] + ParsedItems(rest)
  {
    assert ([i] + rest)[1..] == rest;
  }

  lemma {:induction false} ParsedConcat(a: seq<Item>, b: seq<Item>)
    requires WfItems(a) && WfItems(b)
    ensures WfItems(a + b) && ParsedItems(a + b) == ParsedItems(a) + ParsedItems(b)
  {
    if a == [] {
      assert a + b == b;
    } else {
      var i, rest := a[0], a[1..];
      ParsedConcat(rest, b);
      ParsedFront(i, rest);
      ParsedFront(i, rest + b);
      assert a == [i] + rest && a + b == [i] + (rest + b);
    }
  }

  lemma {:induction false} ParsedOne(i: Item)
    requires WfItem(i)
    ensures ParsedItems([i]) == [ParsedItem(i)]
  {
    assert [i][1..] == [];
  }

  lemma {:induction false} UpdatesGiven(m: Merge, sourceIds: seq<Arg>, targetId: Arg, options: MergeOptions)
    requires Carries(m, sourceIds, targetId, options)
    ensures WfItems(Items(m)) && ParsedItems(Items(m)) == GivenUpdates(options)
  {
    FieldNames();
    var d := if m.description.Some? then [StringItem("description", m.description.value)] else [];
    var c := if m.confidence.Some? then [NumberItem("confidence", m.confidence.value)] else [];
    var e := if m.evidenceCount.Some? then [NumberItem("evidence_count", m.evidenceCount.value)] else [];
    assert Items(m) == d + c + e;
    ParsedConcat(d + c, e);
    ParsedConcat(d, c);
    if m.description.Some? {
      ParsedOne(d[0]);
    }
    if m.confidence.Some? {
      ParsedOne(c[0]);
    }
    if m.evidenceCount.Some? {
      ParsedOne(e[0]);
    }
  }

  lemma {:induction false} MemoriesAt(ids: seq<string>, i: nat)
    requires i < |ids|
    ensures |Memories(ids)| == |ids| && Memories(ids)[i] == Memory(ids[i])
  {
    if |ids| > 1 {
      MemoriesAt(ids[1..], if i == 0 then 0 else i - 1);
    }
  }

  /** A statement says what the caller asked for, argument by argument. */
  ghost predicate Says(st: MergeStmt, sourceIds: seq<Arg>, targetId: Arg, options: MergeOptions) {
    && |st.sources| == |sourceIds|
    && (forall i | 0 <= i < |sourceIds| :: sourceIds[i].Text? && st.sources[i] == Memory(sourceIds[i].s))
    && targetId.Text? && st.target == Memory(targetId.s)
    && st.updates == GivenUpdates(options)
    && Given(st.reason) == options.reason
    && Given(st.observedAt) == options.observedAt
    && Given(st.causedBy) == options.causedBy
    && st.ns == None
  }

  /** The engine reads the query of accepted arguments, if its numbers are readable, as exactly those arguments. */
  lemma {:induction false} ArgumentsReadBack(sourceIds: seq<Arg>, targetId: Arg, options: MergeOptions, m: Merge)
    requires CheckMerge(sourceIds, targetId, options) == Ok(m)
    ensures WfMerge(m)
    ensures NumbersRead(m) ==> Parse(MergeText(m)).Some? && Says(Parse(MergeText(m)).value, sourceIds, targetId, options)
    ensures !NumbersRead(m) ==> Parse(MergeText(m)) == None
  {
    AcceptedExactly(sourceIds, targetId, options, m);
    MergeReadsBack(m);
    UpdatesGiven(m, sourceIds, targetId, options);
    forall i | 0 <= i < |m.sources| ensures |Memories(m.sources)| == |m.sources| && Memories(m.sources)[i] == Memory(m.sources[i]) {
      MemoriesAt(m.sources, i);
    }
  }
}
