/** The forms of a MERGE MEMORY statement that the Node binding does not write: each is read as what it says. */
module MergeGrammar {
  import opened Options
  import opened HirnqlText
  import opened MergeQuery
  import opened MergeParser
  import opened MergeRoundTrip
  import opened MergeTheorem

  // ----- white space and comments -----

  predicate AllSpace(s: string) {
    forall i | 0 <= i < |s| :: IsSpace(s[i])
  }

  lemma {:induction false} SpaceSkipped(s: string, t: string)
    requires AllSpace(s)
    ensures Skip(s + t) == Skip(t)
  {
    if s == [] {
      assert s + t == t;
    } else {
      assert (s + t)[1..] == s[1..] + t;
      SpaceSkipped(s[1..], t);
    }
  }

  lemma {:induction false} LineSkipped(line: string, t: string)
    requires '\n' !in line
    ensures AfterLine(line + ("\n" + t)) == "\n" + t
  {
    var s := line + ("\n" + t);
    if line == [] {
      assert s == "\n" + t;
    } else {
      assert s[1..] == line[1..] + ("\n" + t);
      LineSkipped(line[1..], t);
    }
  }

  /** A comment runs to the end of its line and counts for nothing, like white space. */
  lemma {:induction false} CommentSkipped(line: string, t: string)
    requires '\n' !in line
    ensures Skip("--" + line + "\n" + t) == Skip(t)
  {
    var s := "--" + line + "\n" + t;
    assert s[2..] == line + ("\n" + t);
    LineSkipped(line, t);
    assert ("\n" + t)[1..] == t;
  }

  // ----- targets -----

  function RefText(ref: TargetRef): string {
    match ref
    case Memory(id) => Quote(id)
    case Logical(id) => "LOGICAL" + " " + Quote(id)
    case Revision(id) => "REVISION" + " " + Quote(id)
  }

  lemma {:induction false} ReadLogical(id: string, t: string)
    ensures NextTargetRef(" " + ("LOGICAL" + (" " + Quote(id) + t))) == Some((Logical(id), t))
  {
    ReadWord("LOGICAL", "logical", " " + Quote(id) + t);
    ReadString(id, t);
  }

  lemma {:induction false} ReadRevision(id: string, t: string)
    ensures NextTargetRef(" " + ("REVISION" + (" " + Quote(id) + t))) == Some((Revision(id), t))
  {
    var s := "REVISION" + (" " + Quote(id) + t);
    SkipSolid(s);
    KeywordFails(s, "logical");
    ReadWord("REVISION", "revision", " " + Quote(id) + t);
    ReadString(id, t);
  }

  lemma {:induction false} WordFirst(word: string, q: string, t: string)
    ensures " " + (word + " " + q) + t == " " + (word + (" " + q + t))
  {
  }

  /** Every kind of target is read as itself. */
  lemma {:induction false} ReadRef(ref: TargetRef, t: string)
    ensures NextTargetRef(" " + RefText(ref) + t) == Some((ref, t))
  {
    match ref
    case Memory(id) => ReadTarget(id, t);
    case Logical(id) =>
      ReadLogical(id, t);
      WordFirst("LOGICAL", Quote(id), t);
    case Revision(id) =>
      ReadRevision(id, t);
      WordFirst("REVISION", Quote(id), t);
  }

  // ----- MAX and MIN -----

  lemma {:induction false} ReadBound(n: Numeral, r: string)
    requires IsNumeral(n) && AfterNumber(r)
    ensures NextNumberText(" " + (Readable(n) + r)) == Some((Readable(n), r))
  {
    var t := Readable(n) + r;
    NumberSkips(n, r);
    SkipSolid(t);
    if n.fraction == [] {
      ReadInteger(n, r);
      assert t[..|t| - |r|] == Readable(n);
    } else {
      ReadFloat(n, r);
    }
  }

  lemma {:induction false} ReadPlainField(field: string, t: string)
    requires IsName(field) && t != [] && !IsIdentifierChar(t[0])
    ensures NextIdentifier(field + t) == Some((field, t))
  {
    SkipSolid(field + t);
    RunLengthIs(field, t, IsIdentifierChar);
    Cut(field, t);
  }

  /** What follows the name of the function. */
  function Operands(field: string, n: Numeral, t: string): string {
    ['('] + (field + ([','] + (" " + (Readable(n) + ([')'] + t)))))
  }

  ghost predicate ReadsOperands(s: string, field: string, n: Numeral, t: string) {
    exists s2, s3, s4, s5 ::
      && NextChar(s, '(') == Some(s2) && NextIdentifier(s2) == Some((field, s3))
      && NextChar(s3, ',') == Some(s4) && NextNumberText(s4) == Some((Readable(n), s5)) && NextChar(s5, ')') == Some(t)
  }

  lemma {:induction false} ReadOperands(field: string, n: Numeral, t: string)
    requires IsName(field) && IsNumeral(n)
    ensures ReadsOperands(Operands(field, n, t), field, n, t)
  {
    var s5 := [')'] + t;
    var s4 := " " + (Readable(n) + s5);
    var s3 := [','] + s4;
    ReadChar('(', field + s3);
    ReadPlainField(field, s3);
    ReadChar(',', s4);
    ReadBound(n, s5);
    ReadChar(')', t);
  }

  lemma {:induction false} ReadMax(field: string, n: Numeral, t: string)
    requires IsName(field) && IsNumeral(n)
    ensures NextSetFunction(" " + ("MAX" + Operands(field, n, t))) == Some((Max(field, Readable(n)), t))
  {
    ReadWord("MAX", "max", Operands(field, n, t));
    ReadOperands(field, n, t);
  }

  lemma {:induction false} NotMax(t: string)
    ensures NextKeyword(" " + ("MIN" + t), "max") == None
  {
    SkipSolid("MIN" + t);
    assert LowerAscii(("MIN" + t)[1]) == 'i' && "max"[1] == 'a';
  }

  lemma {:induction false} ReadMin(field: string, n: Numeral, t: string)
    requires IsName(field) && IsNumeral(n)
    ensures NextSetFunction(" " + ("MIN" + Operands(field, n, t))) == Some((Min(field, Readable(n)), t))
  {
    NotMax(Operands(field, n, t));
    ReadWord("MIN", "min", Operands(field, n, t));
    ReadOperands(field, n, t);
  }

  // ----- namespace and parameters -----

  /** A quoted namespace. */
  lemma {:induction false} ReadNamespace(name: string)
    ensures OptionalNamespace(" " + ("NAMESPACE" + (" " + Quote(name)))) == (Some(name), [])
  {
    ReadWord("NAMESPACE", "namespace", " " + Quote(name));
    ReadString(name, []);
    assert " " + Quote(name) + [] == " " + Quote(name);
  }

  /** A bare namespace. */
  lemma {:induction false} ReadBareNamespace(name: string)
    requires IsName(name)
    ensures OptionalNamespace(" " + ("NAMESPACE" + (" " + name))) == (Some(name), [])
  {
    ReadWord("NAMESPACE", "namespace", " " + name);
    SkipSolid(name);
    assert NextString(" " + name) == None;
    RunLengthIs(name, [], c => IsIdentifierChar(c) || c == ':' || c == '-');
    assert name + [] == name;
  }

  /** A parameter `$name` stands in a clause under its own spelling. */
  lemma {:induction false} ReadParameter(name: string, t: string)
    requires name != [] && (forall i | 0 <= i < |name| :: IsAlpha(name[i])) && Stops(t)
    ensures NextStringOrParameter(" " + ("$" + (name + t))) == Some(("$" + name, t))
  {
    var s := "$" + (name + t);
    SkipSolid(s);
    assert s[1..] == name + t && s[1] == name[0];
    RunLengthIs(name, t, c => IsAlpha(c) || IsDigit(c) || c == '_');
    assert s[..1 + |name|] == "$" + name && s[1 + |name|..] == t;
  }
}
