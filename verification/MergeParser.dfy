/**
  The part of the engine's HirnQL grammar that reads MERGE MEMORY statements.

  Each function takes the text that is left and returns a value with the text after
  it, or `None` where the rule fails; choices are ordered and repetition is greedy, as
  in the grammar.  White space and comments may stand between any two tokens.
 */
module MergeParser {
  import opened Options
  import opened HirnqlText
  import opened MergeQuery

  datatype TargetRef = Memory(id: string) | Logical(id: string) | Revision(id: string)

  /** A float keeps its text; its conversion to binary is the library's. */
  datatype SetValue =
    | Float(text: string)
    | Int(value: int)
    | Str(s: string)
    | Max(field: string, bound: string)
    | Min(field: string, bound: string)

  datatype Assignment = Assignment(field: string, value: SetValue)

  datatype MergeStmt = MergeStmt(
    sources: seq<TargetRef>, target: TargetRef, updates: seq<Assignment>,
    reason: Option<string>, observedAt: Option<string>, causedBy: Option<string>, ns: Option<string>)

  // ----- tokens -----

  predicate IsSpace(c: char) {
    c == ' ' || c == '\t' || c == '\r' || c == '\n'
  }

  function AfterLine(s: string): (r: string)
    ensures |r| <= |s|
  {
    if s == [] || s[0] == '\n' then s else AfterLine(s[1..])
  }

  /** Drops white space and comments. */
  function Skip(s: string): (r: string)
    ensures |r| <= |s|
    decreases |s|
  {
    if s == [] then s
    else if IsSpace(s[0]) then Skip(s[1..])
    else if |s| >= 2 && s[0] == '-' && s[1] == '-' then Skip(AfterLine(s[2..]))
    else s
  }

  function LowerAscii(c: char): char {
    if 'A' <= c <= 'Z' then (c as int + 32) as char else c
  }

  /** A keyword, in any case; `word` is given in lower case. */
  function Keyword(s: string, word: string): Option<string> {
    if |word| <= |s| && forall i | 0 <= i < |word| :: LowerAscii(s[i]) == word[i]
    then Some(s[|word|..])
    else None
  }

  /** White space, then a keyword. */
  function NextKeyword(s: string, word: string): Option<string> {
    Keyword(Skip(s), word)
  }

  function NextString(s: string): Option<(string, string)> {
    StringLiteral(Skip(s))
  }

  function NextChar(s: string, c: char): Option<string> {
    var t := Skip(s);
    if t != [] && t[0] == c then Some(t[1..]) else None
  }

  predicate IsAlpha(c: char) {
    'a' <= c <= 'z' || 'A' <= c <= 'Z'
  }

  predicate IsIdentifierChar(c: char) {
    IsAlpha(c) || IsDigit(c) || c == '_' || c == '.'
  }

  /** Length of the longest run of characters that satisfy `p`. */
  function RunLength(s: string, p: char -> bool): (n: nat)
    ensures n <= |s|
    ensures forall i | 0 <= i < n :: p(s[i])
    ensures n < |s| ==> !p(s[n])
  {
    if s == [] || !p(s[0]) then 0 else 1 + RunLength(s[1..], p)
  }

  function NextIdentifier(s: string): Option<(string, string)> {
    var t := Skip(s);
    var n := RunLength(t, IsIdentifierChar);
    if n == 0 then None else Some((t[..n], t[n..]))
  }

  /** A parameter `$1` or `$name`; it stands in a clause under its own spelling. */
  function NextParameter(s: string): Option<(string, string)> {
    var t := Skip(s);
    if |t| < 2 || t[0] != '$' then None
    else if IsDigit(t[1]) then
      var n := 1 + RunLength(t[1..], IsDigit);
      Some((t[..n], t[n..]))
    else if IsAlpha(t[1]) then
      var n := 1 + RunLength(t[1..], c => IsAlpha(c) || IsDigit(c) || c == '_');
      Some((t[..n], t[n..]))
    else None
  }

  function SignLength(s: string): (n: nat)
    ensures n <= |s|
  {
    if s != [] && s[0] == '-' then 1 else 0
  }

  /** Where the sign and the digits at the start of `t` end. */
  function WholeEnd(t: string): (n: nat)
    ensures SignLength(t) <= n <= |t|
  {
    SignLength(t) + RunLength(t[SignLength(t)..], IsDigit)
  }

  function NextFloat(s: string): Option<(string, string)> {
    var t := Skip(s);
    var b := WholeEnd(t);
    if b == SignLength(t) || b == |t| || t[b] != '.' then None
    else
      var c := b + 1 + RunLength(t[b + 1..], IsDigit);
      if c == b + 1 then None else Some((t[..c], t[c..]))
  }

  function NextInteger(s: string): Option<(int, string)> {
    var t := Skip(s);
    var a, b := SignLength(t), WholeEnd(t);
    if b == a then None
    else
      assert forall i | 0 <= i < b - a :: t[a..b][i] == t[a..][i];
      Some(((if a == 1 then -1 else 1) * DigitsValue(t[a..b]), t[b..]))
  }

  // ----- rules -----

  function NextTargetRef(s: string): Option<(TargetRef, string)> {
    var logical := NextKeyword(s, "logical");
    var revision := NextKeyword(s, "revision");
    if logical.Some? && NextString(logical.value).Some? then
      var (id, rest) := NextString(logical.value).value;
      Some((Logical(id), rest))
    else if revision.Some? && NextString(revision.value).Some? then
      var (id, rest) := NextString(revision.value).value;
      Some((Revision(id), rest))
    else if NextString(s).Some? then
      var (id, rest) := NextString(s).value;
      Some((Memory(id), rest))
    else None
  }

  lemma {:induction false} Shorter(s: string)
    ensures NextTargetRef(s).Some? ==> |NextTargetRef(s).value.1| < |s|
  {
  }

  /** Further targets, each after a comma. */
  function MoreTargets(s: string): (seq<TargetRef>, string)
    decreases |s|
  {
    var comma := NextChar(s, ',');
    if comma.None? then ([], s)
    else
      var next := NextTargetRef(comma.value);
      if next.None? then ([], s)
      else
        Shorter(comma.value);
        var (more, rest) := MoreTargets(next.value.1);
        ([next.value.0] + more, rest)
  }

  function NextTargets(s: string): Option<(seq<TargetRef>, string)> {
    match NextTargetRef(s)
    case None => None
    case Some((first, s1)) =>
      var (more, rest) := MoreTargets(s1);
      Some(([first] + more, rest))
  }

  /** The text of a number in a MAX or MIN bound. */
  function NextNumberText(s: string): Option<(string, string)> {
    var t := Skip(s);
    if NextFloat(t).Some? then NextFloat(t)
    else
      match NextInteger(t)
      case None => None
      case Some((_, rest)) => Some((t[..|t| - |rest|], rest))
  }

  /** `MAX(field, number)` or `MIN(field, number)`. */
  function NextSetFunction(s: string): Option<(SetValue, string)> {
    var isMax := NextKeyword(s, "max");
    var name := if isMax.Some? then isMax else NextKeyword(s, "min");
    match name case None => None case Some(s1) =>
    match NextChar(s1, '(') case None => None case Some(s2) =>
    match NextIdentifier(s2) case None => None case Some((field, s3)) =>
    match NextChar(s3, ',') case None => None case Some(s4) =>
    match NextNumberText(s4) case None => None case Some((bound, s5)) =>
    match NextChar(s5, ')') case None => None case Some(s6) =>
    Some((if isMax.Some? then Max(field, bound) else Min(field, bound), s6))
  }

  function NextSetValue(s: string): Option<(SetValue, string)> {
    if NextSetFunction(s).Some? then NextSetFunction(s)
    else if NextFloat(s).Some? then
      var (text, rest) := NextFloat(s).value;
      Some((Float(text), rest))
    else if NextInteger(s).Some? then
      var (n, rest) := NextInteger(s).value;
      Some((Int(n), rest))
    else if NextString(s).Some? then
      var (text, rest) := NextString(s).value;
      Some((Str(text), rest))
    else None
  }

  function NextAssignment(s: string): Option<(Assignment, string)> {
    match NextIdentifier(s) case None => None case Some((field, s1)) =>
    match NextChar(s1, '=') case None => None case Some(s2) =>
    match NextSetValue(s2) case None => None case Some((value, s3)) =>
    Some((Assignment(field, value), s3))
  }

  lemma {:induction false} SetValueShorter(s: string)
    ensures NextSetValue(s).Some? ==> |NextSetValue(s).value.1| <= |s|
  {
  }

  lemma {:induction false} AssignmentShorter(s: string)
    ensures NextAssignment(s).Some? ==> |NextAssignment(s).value.1| <= |s|
  {
    if NextAssignment(s).Some? {
      var (_, s1) := NextIdentifier(s).value;
      SetValueShorter(NextChar(s1, '=').value);
    }
  }

  /** Further assignments, each after a comma. */
  function MoreAssignments(s: string): (seq<Assignment>, string)
    decreases |s|
  {
    var comma := NextChar(s, ',');
    if comma.None? then ([], s)
    else
      var next := NextAssignment(comma.value);
      if next.None? then ([], s)
      else
        AssignmentShorter(comma.value);
        var (more, rest) := MoreAssignments(next.value.1);
        ([next.value.0] + more, rest)
  }

  /** The optional SET clause. */
  function OptionalSet(s: string): (seq<Assignment>, string) {
    match NextKeyword(s, "set") case None => ([], s) case Some(s1) =>
    match NextAssignment(s1) case None => ([], s) case Some((first, s2)) =>
    var (more, rest) := MoreAssignments(s2);
    ([first] + more, rest)
  }

  function NextStringOrParameter(s: string): Option<(string, string)> {
    if NextParameter(s).Some? then NextParameter(s) else NextString(s)
  }

  /** An optional clause introduced by one word. */
  function OptionalClause(s: string, word: string): (Option<string>, string) {
    match NextKeyword(s, word) case None => (None, s) case Some(s1) =>
    match NextStringOrParameter(s1) case None => (None, s) case Some((value, rest)) =>
    (Some(value), rest)
  }

  /** An optional clause introduced by two words. */
  function OptionalClause2(s: string, word: string, word2: string): (Option<string>, string) {
    match NextKeyword(s, word) case None => (None, s) case Some(s1) =>
    match NextKeyword(s1, word2) case None => (None, s) case Some(s2) =>
    match NextStringOrParameter(s2) case None => (None, s) case Some((value, rest)) =>
    (Some(value), rest)
  }

  function OptionalNamespace(s: string): (Option<string>, string) {
    match NextKeyword(s, "namespace") case None => (None, s) case Some(s1) =>
    if NextString(s1).Some? then (Some(NextString(s1).value.0), NextString(s1).value.1)
    else
      var t := Skip(s1);
      var n := RunLength(t, c => IsIdentifierChar(c) || c == ':' || c == '-');
      if n == 0 then (None, s) else (Some(t[..n]), t[n..])
  }

  /** The clauses after the target, up to the end of the text. */
  function MergeTail(s: string, sources: seq<TargetRef>, target: TargetRef): Option<MergeStmt> {
    var (updates, s1) := OptionalSet(s);
    var (reason, s2) := OptionalClause(s1, "reason");
    var (observedAt, s3) := OptionalClause2(s2, "observed", "at");
    var (causedBy, s4) := OptionalClause2(s3, "caused", "by");
    var (ns, s5) := OptionalNamespace(s4);
    if Skip(s5) == [] then Some(MergeStmt(sources, target, updates, reason, observedAt, causedBy, ns)) else None
  }

  /** The sources, the target and the text after them. */
  function MergeFront(s: string): Option<(seq<TargetRef>, TargetRef, string)> {
    match NextKeyword(s, "merge") case None => None case Some(s1) =>
    match NextKeyword(s1, "memory") case None => None case Some(s2) =>
    match NextTargets(s2) case None => None case Some((sources, s3)) =>
    match NextKeyword(s3, "into") case None => None case Some(s4) =>
    match NextTargetRef(s4) case None => None case Some((target, s5)) =>
    Some((sources, target, s5))
  }

  function MergeStatement(s: string): Option<MergeStmt> {
    match MergeFront(s) case None => None case Some((sources, target, tail)) => MergeTail(tail, sources, target)
  }

  /** Integers are read as signed 64-bit values; one that does not fit fails the statement. */
  predicate IntsFit(updates: seq<Assignment>) {
    forall i | 0 <= i < |updates| ::
      updates[i].value.Int? ==> -0x8000_0000_0000_0000 <= updates[i].value.value < 0x8000_0000_0000_0000
  }

  /** The statement the engine builds from a text that starts with MERGE, or `None` for a parse error. */
  function Parse(s: string): Option<MergeStmt> {
    match MergeStatement(s)
    case None => None
    case Some(stmt) => if IntsFit(stmt.updates) then Some(stmt) else None
  }
}
