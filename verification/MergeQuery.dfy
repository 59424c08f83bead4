/**
  Building a MERGE MEMORY query in the Node binding.

  Arguments are JavaScript values: a string, something that is not a string, or absent
  (null or undefined).  A number arrives with the text JavaScript prints for it, because
  the query contains that text.  The first invalid argument, in program order, raises its error.
 */
module MergeQuery {
  import opened Options
  import opened HirnqlText

  datatype Arg = NotAString | Text(s: string)

  /** A finite number as printed: sign, digits, digits after the point, and an exponent part if any. */
  datatype Numeral = Numeral(negative: bool, whole: string, fraction: string, exponent: string)

  /** A value given for a number; a finite one comes with the text it prints as. */
  datatype NumberArg = NotANumber | NonFinite | Finite(numeral: Printed)

  datatype MergeOptions = MergeOptions(
    description: Option<Arg>, confidence: Option<NumberArg>, evidenceCount: Option<NumberArg>,
    reason: Option<Arg>, observedAt: Option<Arg>, causedBy: Option<Arg>)

  datatype Error =
    | NotAStringError(name: string)
    | BlankError(name: string)
    | NoSources
    | ConfidenceError
    | EvidenceCountError

  datatype Result<+T> = Ok(value: T) | Err(error: Error)

  // ----- arguments -----

  /** White space and line terminators as `String.prototype.trim` removes them. */
  predicate IsJsSpace(c: char) {
    || '\t' <= c <= '\r' || c == ' ' || c == '\U{00A0}' || c == '\U{1680}' || '\U{2000}' <= c <= '\U{200A}'
    || c == '\U{2028}' || c == '\U{2029}' || c == '\U{202F}' || c == '\U{205F}' || c == '\U{3000}' || c == '\U{FEFF}'
  }

  predicate Blank(s: string) {
    forall i | 0 <= i < |s| :: IsJsSpace(s[i])
  }

  function RequireNonEmptyString(value: Arg, name: string): Result<string> {
    match value
    case NotAString => Err(NotAStringError(name))
    case Text(s) => if Blank(s) then Err(BlankError(name)) else Ok(s)
  }

  predicate IsDigit(c: char) {
    '0' <= c <= '9'
  }

  predicate Digits(s: string) {
    forall i | 0 <= i < |s| :: IsDigit(s[i])
  }

  /** The forms `Number.prototype.toString` produces for a finite number. */
  predicate IsNumeral(n: Numeral) {
    && n.whole != [] && Digits(n.whole) && Digits(n.fraction)
    && (n.exponent != [] ==> |n.exponent| >= 3 && n.exponent[0] == 'e' && n.exponent[1] in "+-" && Digits(n.exponent[2..]))
  }

  type Printed = n: Numeral | IsNumeral(n) witness Numeral(false, "0", "", "")

  function DigitsValue(s: string): nat
    requires Digits(s)
  {
    if s == [] then 0 else DigitsValue(s[..|s| - 1]) * 10 + (s[|s| - 1] as int - '0' as int)
  }

  function ExponentValue(n: Printed): int {
    if n.exponent == [] then 0 else (if n.exponent[1] == '-' then -1 else 1) * DigitsValue(n.exponent[2..])
  }

  predicate ZeroFrom(digits: string, k: int) {
    forall i | 0 <= i < |digits| && k <= i :: digits[i] == '0'
  }

  /** The number is an integer: once the point is moved by the exponent, only zeros stand behind it. */
  predicate IsInteger(n: Printed) {
    ZeroFrom(n.fraction, ExponentValue(n)) && ZeroFrom(n.whole, |n.whole| + ExponentValue(n))
  }

  predicate IsNegative(n: Printed) {
    n.negative && !(ZeroFrom(n.whole, 0) && ZeroFrom(n.fraction, 0))
  }

  function Render(n: Numeral): string {
    (if n.negative then "-" else "") + n.whole + (if n.fraction == [] then [] else "." + n.fraction) + n.exponent
  }

  // ----- lists of text -----

  function Join(parts: seq<string>, separator: string): string {
    if parts == [] then []
    else if |parts| == 1 then parts[0]
    else parts[0] + separator + Join(parts[1..], separator)
  }

  /** An optional string argument, checked. */
  function CheckOptional(value: Option<Arg>, name: string): Result<Option<string>> {
    match value
    case None => Ok(None)
    case Some(v) =>
      match RequireNonEmptyString(v, name)
      case Ok(s) => Ok(Some(s))
      case Err(e) => Err(e)
  }

  function ClauseParts(clause: string, value: Option<string>): seq<string> {
    match value
    case None => []
    case Some(s) => [clause, Quote(s)]
  }

  /** The list `parts` that the program appends to. */
  class PartList {
    var parts: seq<string>

    constructor (parts: seq<string>)
      ensures this.parts == parts
    {
      this.parts := parts;
    }

    method AppendOptionalStringClause(clause: string, value: Option<Arg>, name: string) returns (r: Result<()>)
      modifies this
      ensures match CheckOptional(value, name)
              case Ok(v) => r == Ok(()) && parts == old(parts) + ClauseParts(clause, v)
              case Err(e) => r == Err(e) && parts == old(parts)
    {
      if value.None? {
        return Ok(());
      }
      var checked := RequireNonEmptyString(value.value, name);
      if checked.Err? {
        return Err(checked.error);
      }
      parts := parts + [clause, Quote(checked.value)];
      return Ok(());
    }
  }

  // ----- the checked arguments and the text they make -----

  /** The arguments of a merge once they have passed every check. */
  datatype Merge = Merge(
    sources: seq<string>, target: string,
    description: Option<string>, confidence: Option<Numeral>, evidenceCount: Option<Numeral>,
    reason: Option<string>, observedAt: Option<string>, causedBy: Option<string>)

  function CheckSources(sourceIds: seq<Arg>): Result<seq<string>> {
    if sourceIds == [] then Ok([])
    else
      match RequireNonEmptyString(sourceIds[0], "sourceIds[]")
      case Err(e) => Err(e)
      case Ok(first) =>
        match CheckSources(sourceIds[1..])
        case Err(e) => Err(e)
        case Ok(rest) => Ok([first] + rest)
  }

  function CheckConfidence(value: Option<NumberArg>): Result<Option<Numeral>> {
    match value
    case None => Ok(None)
    case Some(Finite(n)) => Ok(Some(n))
    case Some(_) => Err(ConfidenceError)
  }

  function CheckEvidenceCount(value: Option<NumberArg>): Result<Option<Numeral>> {
    match value
    case None => Ok(None)
    case Some(Finite(n)) => if IsInteger(n) && !IsNegative(n) then Ok(Some(n)) else Err(EvidenceCountError)
    case Some(_) => Err(EvidenceCountError)
  }

  /** All checks in program order. */
  function CheckMerge(sourceIds: seq<Arg>, targetId: Arg, options: MergeOptions): Result<Merge> {
    if sourceIds == [] then Err(NoSources) else
    match CheckSources(sourceIds) case Err(e) => Err(e) case Ok(sources) =>
    match RequireNonEmptyString(targetId, "targetId") case Err(e) => Err(e) case Ok(target) =>
    match CheckOptional(options.description, "description") case Err(e) => Err(e) case Ok(description) =>
    match CheckConfidence(options.confidence) case Err(e) => Err(e) case Ok(confidence) =>
    match CheckEvidenceCount(options.evidenceCount) case Err(e) => Err(e) case Ok(evidenceCount) =>
    match CheckClauses(options) case Err(e) => Err(e) case Ok((reason, observedAt, causedBy)) =>
    Ok(Merge(sources, target, description, confidence, evidenceCount, reason, observedAt, causedBy))
  }

  function QuoteEach(ids: seq<string>): seq<string> {
    if ids == [] then [] else [Quote(ids[0])] + QuoteEach(ids[1..])
  }

  function DescriptionPart(description: Option<string>): seq<string> {
    if description.Some? then ["description = " + Quote(description.value)] else []
  }

  function NumberPart(field: string, number: Option<Numeral>): seq<string> {
    if number.Some? then [field + " = " + Render(number.value)] else []
  }

  function Assignments(description: Option<string>, confidence: Option<Numeral>, evidenceCount: Option<Numeral>): seq<string> {
    DescriptionPart(description) + NumberPart("confidence", confidence) + NumberPart("evidence_count", evidenceCount)
  }

  function SetParts(assignments: seq<string>): seq<string> {
    if assignments == [] then [] else ["SET", Join(assignments, ", ")]
  }

  /** The parts after the target. */
  function TailParts(m: Merge): seq<string> {
    SetParts(Assignments(m.description, m.confidence, m.evidenceCount)) +
    ClauseParts("REASON", m.reason) +
    ClauseParts("OBSERVED AT", m.observedAt) +
    ClauseParts("CAUSED BY", m.causedBy)
  }

  function MergeParts(m: Merge): seq<string> {
    ["MERGE", "MEMORY", Join(QuoteEach(m.sources), ", "), "INTO", Quote(m.target)] + TailParts(m)
  }

  /** The query text of a merge. */
  function MergeText(m: Merge): string {
    Join(MergeParts(m), " ")
  }

  method CheckAndQuote(sourceIds: seq<Arg>) returns (r: Result<seq<string>>)
    ensures match CheckSources(sourceIds)
            case Ok(ids) => r == Ok(QuoteEach(ids))
            case Err(e) => r == Err(e)
  {
    if sourceIds == [] {
      return Ok([]);
    }
    var first := RequireNonEmptyString(sourceIds[0], "sourceIds[]");
    if first.Err? {
      return Err(first.error);
    }
    var rest := CheckAndQuote(sourceIds[1..]);
    if rest.Err? {
      return Err(rest.error);
    }
    return Ok([Quote(first.value)] + rest.value);
  }

  method FormatSemanticAssignments(options: MergeOptions) returns (r: Result<seq<string>>)
    ensures var d := CheckOptional(options.description, "description");
            var c := CheckConfidence(options.confidence);
            var e := CheckEvidenceCount(options.evidenceCount);
            if d.Err? then r == Err(d.error)
            else if c.Err? then r == Err(c.error)
            else if e.Err? then r == Err(e.error)
            else r == Ok(Assignments(d.value, c.value, e.value))
  {
    var assignments: seq<string> := [];
    if options.description.Some? {
      var d := RequireNonEmptyString(options.description.value, "description");
      if d.Err? {
        return Err(d.error);
      }
      assignments := ["description = " + Quote(d.value)];
    }
    ghost var description := CheckOptional(options.description, "description").value;
    assert assignments == DescriptionPart(description);
    if options.confidence.Some? {
      if !options.confidence.value.Finite? {
        return Err(ConfidenceError);
      }
      assignments := assignments + ["confidence" + " = " + Render(options.confidence.value.numeral)];
    }
    ghost var confidence := CheckConfidence(options.confidence).value;
    assert assignments == DescriptionPart(description) + NumberPart("confidence", confidence);
    if options.evidenceCount.Some? {
      var count := options.evidenceCount.value;
      if !count.Finite? || !IsInteger(count.numeral) || IsNegative(count.numeral) {
        return Err(EvidenceCountError);
      }
      assignments := assignments + ["evidence_count" + " = " + Render(count.numeral)];
    }
    ghost var evidenceCount := CheckEvidenceCount(options.evidenceCount).value;
    assert assignments == Assignments(description, confidence, evidenceCount);
    return Ok(assignments);
  }

  /** The three optional clauses, checked in order. */
  function CheckClauses(options: MergeOptions): Result<(Option<string>, Option<string>, Option<string>)> {
    match CheckOptional(options.reason, "reason") case Err(e) => Err(e) case Ok(reason) =>
    match CheckOptional(options.observedAt, "observedAt") case Err(e) => Err(e) case Ok(observedAt) =>
    match CheckOptional(options.causedBy, "causedBy") case Err(e) => Err(e) case Ok(causedBy) =>
    Ok((reason, observedAt, causedBy))
  }

  method AppendClauses(list: PartList, options: MergeOptions) returns (r: Result<()>)
    modifies list
    ensures match CheckClauses(options)
            case Ok(c) => r == Ok(()) && list.parts == old(list.parts) +
              ClauseParts("REASON", c.0) + ClauseParts("OBSERVED AT", c.1) + ClauseParts("CAUSED BY", c.2)
            case Err(e) => r == Err(e)
  {
    r := list.AppendOptionalStringClause("REASON", options.reason, "reason");
    if r.Err? {
      return;
    }
    r := list.AppendOptionalStringClause("OBSERVED AT", options.observedAt, "observedAt");
    if r.Err? {
      return;
    }
    r := list.AppendOptionalStringClause("CAUSED BY", options.causedBy, "causedBy");
  }

  lemma {:induction false} Regroup(h: seq<string>, s: seq<string>, a: seq<string>, b: seq<string>, c: seq<string>)
    ensures h + s + a + b + c == h + (s + a + b + c)
  {
  }

  method BuildSemanticMergeQuery(sourceIds: seq<Arg>, targetId: Arg, options: MergeOptions) returns (r: Result<string>)
    ensures match CheckMerge(sourceIds, targetId, options)
            case Ok(m) => r == Ok(MergeText(m))
            case Err(e) => r == Err(e)
  {
    if sourceIds == [] {
      return Err(NoSources);
    }
    var quoted := CheckAndQuote(sourceIds);
    if quoted.Err? {
      return Err(quoted.error);
    }
    var target := RequireNonEmptyString(targetId, "targetId");
    if target.Err? {
      return Err(target.error);
    }
    var list := new PartList(["MERGE", "MEMORY", Join(quoted.value, ", "), "INTO", Quote(target.value)]);
    var assignments := FormatSemanticAssignments(options);
    if assignments.Err? {
      return Err(assignments.error);
    }
    if |assignments.value| > 0 {
      list.parts := list.parts + ["SET", Join(assignments.value, ", ")];
    }
    ghost var head := ["MERGE", "MEMORY", Join(quoted.value, ", "), "INTO", Quote(target.value)];
    assert list.parts == head + SetParts(assignments.value);
    var done := AppendClauses(list, options);
    if done.Err? {
      return Err(done.error);
    }
    ghost var m := CheckMerge(sourceIds, targetId, options).value;
    Regroup(head, SetParts(assignments.value), ClauseParts("REASON", m.reason),
            ClauseParts("OBSERVED AT", m.observedAt), ClauseParts("CAUSED BY", m.causedBy));
    return Ok(Join(list.parts, " "));
  }
}
