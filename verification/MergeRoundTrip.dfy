/**
  The engine reads back every merge query the Node binding builds: sources, target,
  description and clauses arrive unchanged, whatever characters they contain.  The one
  exception is proved exactly: a number printed with an exponent, or an integer beyond
  64 bits, makes the query unreadable.
 */
module MergeRoundTrip {
  import opened Options
  import opened HirnqlText
  import opened MergeQuery
  import opened MergeParser

  // ----- the query text, piece by piece -----

  /** Each part after a separator. */
  function Prefixed(parts: seq<string>, separator: string): string {
    if parts == [] then [] else separator + parts[0] + Prefixed(parts[1..], separator)
  }

  lemma {:induction false} JoinIsPrefixed(parts: seq<string>, separator: string)
    requires parts != []
    ensures Join(parts, separator) == parts[0] + Prefixed(parts[1..], separator)
  {
    if |parts| > 1 {
      JoinIsPrefixed(parts[1..], separator);
    }
  }

  lemma {:induction false} PrefixedConcat(a: seq<string>, b: seq<string>, separator: string)
    ensures Prefixed(a + b, separator) == Prefixed(a, separator) + Prefixed(b, separator)
  {
    if a == [] {
      assert a + b == b;
    } else {
      assert (a + b)[1..] == a[1..] + b;
      PrefixedConcat(a[1..], b, separator);
    }
  }

  /** One assignment of the SET clause. */
  datatype Item = StringItem(field: string, s: string) | NumberItem(field: string, n: Numeral)

  function ItemText(i: Item): string {
    i.field + " = " + if i.StringItem? then Quote(i.s) else Render(i.n)
  }

  function Items(m: Merge): seq<Item> {
    (if m.description.Some? then [StringItem("description", m.description.value)] else []) +
    (if m.confidence.Some? then [NumberItem("confidence", m.confidence.value)] else []) +
    (if m.evidenceCount.Some? then [NumberItem("evidence_count", m.evidenceCount.value)] else [])
  }

  function ItemTexts(items: seq<Item>): seq<string> {
    if items == [] then [] else [ItemText(items[0])] + ItemTexts(items[1..])
  }

  lemma {:induction false} ItemTextsConcat(a: seq<Item>, b: seq<Item>)
    ensures ItemTexts(a + b) == ItemTexts(a) + ItemTexts(b)
  {
    if a == [] {
      assert a + b == b;
    } else {
      assert (a + b)[1..] == a[1..] + b;
      ItemTextsConcat(a[1..], b);
    }
  }

  lemma {:induction false} ItemsAreAssignments(m: Merge)
    ensures ItemTexts(Items(m)) == Assignments(m.description, m.confidence, m.evidenceCount)
  {
    var d := if m.description.Some? then [StringItem("description", m.description.value)] else [];
    var c := if m.confidence.Some? then [NumberItem("confidence", m.confidence.value)] else [];
    var e := if m.evidenceCount.Some? then [NumberItem("evidence_count", m.evidenceCount.value)] else [];
    ItemTextsConcat(d + c, e);
    ItemTextsConcat(d, c);
    assert "description" + " = " == "description = ";
    assert m.description.Some? ==> d[1..] == [] && ItemTexts(d) == [ItemText(d[0])];
    assert m.confidence.Some? ==> c[1..] == [] && ItemTexts(c) == [ItemText(c[0])];
    assert m.evidenceCount.Some? ==> e[1..] == [] && ItemTexts(e) == [ItemText(e[0])];
  }

  function CommaItems(items: seq<Item>): string {
    if items == [] then [] else ", " + ItemText(items[0]) + CommaItems(items[1..])
  }

  function SetText(items: seq<Item>): string {
    if items == [] then [] else " SET " + ItemText(items[0]) + CommaItems(items[1..])
  }

  function ClauseText(clause: string, value: Option<string>): string {
    if value.None? then [] else " " + clause + " " + Quote(value.value)
  }

  function ClausesText(m: Merge): string {
    ClauseText("REASON", m.reason) + (ClauseText("OBSERVED AT", m.observedAt) + ClauseText("CAUSED BY", m.causedBy))
  }

  function CommaIds(ids: seq<string>): string {
    if ids == [] then [] else ", " + Quote(ids[0]) + CommaIds(ids[1..])
  }

  function IdsText(ids: seq<string>): string
    requires ids != []
  {
    Quote(ids[0]) + CommaIds(ids[1..])
  }

  lemma {:induction false} CommaItemsIsPrefixed(items: seq<Item>)
    ensures CommaItems(items) == Prefixed(ItemTexts(items), ", ")
  {
    if items != [] {
      CommaItemsIsPrefixed(items[1..]);
      assert ItemTexts(items)[1..] == ItemTexts(items[1..]);
    }
  }

  lemma {:induction false} CommaIdsIsPrefixed(ids: seq<string>)
    ensures CommaIds(ids) == Prefixed(QuoteEach(ids), ", ")
  {
    if ids != [] {
      CommaIdsIsPrefixed(ids[1..]);
      assert QuoteEach(ids)[1..] == QuoteEach(ids[1..]);
    }
  }

  lemma {:induction false} SetPartsText(items: seq<Item>)
    ensures Prefixed(SetParts(ItemTexts(items)), " ") == SetText(items)
  {
    if items != [] {
      var texts := ItemTexts(items);
      JoinIsPrefixed(texts, ", ");
      CommaItemsIsPrefixed(items[1..]);
      assert texts[1..] == ItemTexts(items[1..]);
      TwoParts("SET", Join(texts, ", "));
      assert " SET " == " " + "SET" + " ";
    }
  }

  lemma {:induction false} TwoParts(a: string, b: string)
    ensures Prefixed([a, b], " ") == " " + a + " " + b
  {
    assert [a, b][1..] == [b] && [b][1..] == [];
    assert Prefixed([], " ") == [];
    assert Prefixed([b], " ") == " " + b;
  }

  lemma {:induction false} ClausePartsText(clause: string, value: Option<string>)
    ensures Prefixed(ClauseParts(clause, value), " ") == ClauseText(clause, value)
  {
    if value.Some? {
      TwoParts(clause, Quote(value.value));
    }
  }

  /** What follows the target. */
  function TailText(m: Merge): string {
    SetText(Items(m)) + ClausesText(m)
  }

  function HeadText(m: Merge): string
    requires m.sources != []
  {
    "MERGE MEMORY " + IdsText(m.sources) + " INTO " + Quote(m.target)
  }

  lemma {:induction false} FourLists(s: seq<string>, a: seq<string>, b: seq<string>, c: seq<string>)
    ensures Prefixed(s + a + b + c, " ") ==
            Prefixed(s, " ") + (Prefixed(a, " ") + (Prefixed(b, " ") + Prefixed(c, " ")))
  {
    PrefixedConcat(s, a + b + c, " ");
    assert s + a + b + c == s + (a + b + c);
    PrefixedConcat(a, b + c, " ");
    assert a + b + c == a + (b + c);
    PrefixedConcat(b, c, " ");
  }

  lemma {:induction false} TailPartsText(m: Merge)
    ensures Prefixed(TailParts(m), " ") == TailText(m)
  {
    ItemsAreAssignments(m);
    SetPartsText(Items(m));
    ClausePartsText("REASON", m.reason);
    ClausePartsText("OBSERVED AT", m.observedAt);
    ClausePartsText("CAUSED BY", m.causedBy);
    FourLists(SetParts(Assignments(m.description, m.confidence, m.evidenceCount)), ClauseParts("REASON", m.reason),
              ClauseParts("OBSERVED AT", m.observedAt), ClauseParts("CAUSED BY", m.causedBy));
  }

  lemma {:induction false} FiveParts(a: string, b: string, c: string, d: string, e: string, tail: seq<string>)
    ensures Join([a, b, c, d, e] + tail, " ") == a + (" " + b + " " + c) + (" " + d + " " + e) + Prefixed(tail, " ")
  {
    JoinIsPrefixed([a, b, c, d, e] + tail, " ");
    assert ([a, b, c, d, e] + tail)[1..] == [b, c] + [d, e] + tail;
    PrefixedConcat([b, c] + [d, e], tail, " ");
    PrefixedConcat([b, c], [d, e], " ");
    TwoParts(b, c);
    TwoParts(d, e);
  }

  lemma {:induction false} IdsJoined(ids: seq<string>)
    requires ids != []
    ensures Join(QuoteEach(ids), ", ") == IdsText(ids)
  {
    JoinIsPrefixed(QuoteEach(ids), ", ");
    CommaIdsIsPrefixed(ids[1..]);
    assert QuoteEach(ids)[1..] == QuoteEach(ids[1..]);
  }

  lemma {:induction false} HeadPartsText(m: Merge, tail: seq<string>)
    requires m.sources != []
    ensures Join(["MERGE", "MEMORY", Join(QuoteEach(m.sources), ", "), "INTO", Quote(m.target)] + tail, " ") ==
            HeadText(m) + Prefixed(tail, " ")
  {
    var ids, q := IdsText(m.sources), Quote(m.target);
    IdsJoined(m.sources);
    FiveParts("MERGE", "MEMORY", ids, "INTO", q, tail);
    assert "MERGE" + (" " + "MEMORY" + " " + ids) == "MERGE MEMORY " + ids;
    assert "MERGE MEMORY " + ids + (" " + "INTO" + " " + q) == "MERGE MEMORY " + ids + " INTO " + q;
  }

  lemma {:induction false} TextOf(m: Merge)
    requires m.sources != []
    ensures MergeText(m) == HeadText(m) + TailText(m)
  {
    HeadPartsText(m, TailParts(m));
    TailPartsText(m);
  }

  // ----- reading tokens -----

  /** A text that starts with neither white space nor a comment. */
  predicate Solid(t: string) {
    t == [] || (!IsSpace(t[0]) && !(|t| >= 2 && t[0] == '-' && t[1] == '-'))
  }

  lemma {:induction false} SkipSolid(t: string)
    requires Solid(t)
    ensures Skip(t) == t
    ensures Skip(" " + t) == t
  {
    assert (" " + t)[1..] == t;
  }

  lemma {:induction false} Cut(a: string, b: string)
    ensures (a + b)[..|a|] == a && (a + b)[|a|..] == b
  {
  }

  lemma {:induction false} ReadChar(c: char, t: string)
    requires !IsSpace(c) && c != '-'
    ensures NextChar([c] + t, c) == Some(t) && NextChar(" " + ([c] + t), c) == Some(t)
  {
    SkipSolid([c] + t);
    Cut([c], t);
  }

  lemma {:induction false} KeywordReads(upper: string, word: string, t: string)
    requires |upper| == |word| && forall i | 0 <= i < |word| :: LowerAscii(upper[i]) == word[i]
    ensures Keyword(upper + t, word) == Some(t)
  {
    assert (upper + t)[|word|..] == t;
  }

  lemma {:induction false} KeywordFails(t: string, word: string)
    requires word != [] && (t == [] || LowerAscii(t[0]) != word[0])
    ensures Keyword(t, word) == None
  {
  }

  lemma {:induction false} QuoteStarts(value: string, t: string)
    ensures Quote(value) + t != [] && (Quote(value) + t)[0] == '\"'
    ensures Solid(Quote(value) + t)
  {
  }

  lemma {:induction false} ReadString(value: string, t: string)
    ensures NextString(" " + Quote(value) + t) == Some((value, t))
  {
    QuoteStarts(value, t);
    assert " " + Quote(value) + t == " " + (Quote(value) + t);
    SkipSolid(Quote(value) + t);
    QuoteReadsBack(value, t);
  }

  lemma {:induction false} ReadTarget(id: string, t: string)
    ensures NextTargetRef(" " + Quote(id) + t) == Some((Memory(id), t))
  {
    QuoteStarts(id, t);
    assert " " + Quote(id) + t == " " + (Quote(id) + t);
    SkipSolid(Quote(id) + t);
    KeywordFails(Quote(id) + t, "logical");
    KeywordFails(Quote(id) + t, "revision");
    ReadString(id, t);
  }

  function Memories(ids: seq<string>): seq<TargetRef> {
    if ids == [] then [] else [Memory(ids[0])] + Memories(ids[1..])
  }

  lemma {:induction false} ReadCommaTarget(id: string, rest: string)
    ensures MoreTargets(", " + Quote(id) + rest) == ([Memory(id)] + MoreTargets(rest).0, MoreTargets(rest).1)
  {
    var s := " " + Quote(id) + rest;
    assert ", " + Quote(id) + rest == [','] + s;
    ReadChar(',', s);
    ReadTarget(id, rest);
  }

  lemma {:induction false} ReadMoreTargets(ids: seq<string>, t: string)
    requires NextChar(t, ',') == None
    ensures MoreTargets(CommaIds(ids) + t) == (Memories(ids), t)
  {
    if ids == [] {
      assert CommaIds(ids) + t == t;
    } else {
      var rest := CommaIds(ids[1..]) + t;
      assert CommaIds(ids) + t == ", " + Quote(ids[0]) + rest;
      ReadCommaTarget(ids[0], rest);
      ReadMoreTargets(ids[1..], t);
    }
  }

  lemma {:induction false} ReadTargets(ids: seq<string>, t: string)
    requires ids != [] && NextChar(t, ',') == None
    ensures NextTargets(" " + IdsText(ids) + t) == Some((Memories(ids), t))
  {
    assert " " + IdsText(ids) + t == " " + Quote(ids[0]) + (CommaIds(ids[1..]) + t);
    ReadTarget(ids[0], CommaIds(ids[1..]) + t);
    ReadMoreTargets(ids[1..], t);
  }

  // ----- reading clauses -----

  /** Empty, or a space and then one of the given letters. */
  predicate Fresh(t: string, letters: string) {
    t == [] || (|t| >= 2 && t[0] == ' ' && t[1] in letters && 'A' <= t[1] <= 'Z')
  }

  lemma {:induction false} FreshSkip(t: string, letters: string)
    requires Fresh(t, letters)
    ensures Skip(t) == if t == [] then [] else t[1..]
  {
    if t != [] {
      assert t == " " + t[1..];
      SkipSolid(t[1..]);
    }
  }

  lemma {:induction false} FreshNoKeyword(t: string, letters: string, word: string)
    requires Fresh(t, letters) && word != [] && forall i | 0 <= i < |letters| :: LowerAscii(letters[i]) != word[0]
    ensures NextKeyword(t, word) == None
  {
    FreshSkip(t, letters);
    KeywordFails(Skip(t), word);
  }

  lemma {:induction false} NoParameter(value: string, t: string)
    ensures NextStringOrParameter(" " + Quote(value) + t) == Some((value, t))
  {
    QuoteStarts(value, t);
    assert " " + Quote(value) + t == " " + (Quote(value) + t);
    SkipSolid(Quote(value) + t);
    ReadString(value, t);
  }

  lemma {:induction false} ReadReason(value: Option<string>, t: string)
    requires Fresh(t, "OC")
    ensures OptionalClause(ClauseText("REASON", value) + t, "reason") == (value, t)
  {
    var s := ClauseText("REASON", value) + t;
    if value.None? {
      assert s == t;
      FreshNoKeyword(t, "OC", "reason");
    } else {
      var rest := " " + Quote(value.value) + t;
      assert s == " " + ("REASON" + rest);
      SkipSolid("REASON" + rest);
      KeywordReads("REASON", "reason", rest);
      NoParameter(value.value, t);
    }
  }

  lemma {:induction false} ReadObservedAt(value: Option<string>, t: string)
    requires Fresh(t, "C")
    ensures OptionalClause2(ClauseText("OBSERVED AT", value) + t, "observed", "at") == (value, t)
  {
    var s := ClauseText("OBSERVED AT", value) + t;
    if value.None? {
      assert s == t;
      FreshNoKeyword(t, "C", "observed");
    } else {
      var rest := " " + Quote(value.value) + t;
      TwoWords("OBSERVED", "AT", "observed", "at", s, rest);
      NoParameter(value.value, t);
    }
  }

  lemma {:induction false} ReadCausedBy(value: Option<string>)
    ensures OptionalClause2(ClauseText("CAUSED BY", value), "caused", "by") == (value, [])
  {
    var s := ClauseText("CAUSED BY", value);
    if value.None? {
      FreshNoKeyword(s, "", "caused");
    } else {
      var rest := " " + Quote(value.value) + [];
      TwoWords("CAUSED", "BY", "caused", "by", s, rest);
      NoParameter(value.value, []);
    }
  }

  lemma {:induction false} TwoWords(u: string, u2: string, word: string, word2: string, s: string, rest: string)
    requires |u| == |word| > 0 && forall i | 0 <= i < |word| :: 'A' <= u[i] <= 'Z' && LowerAscii(u[i]) == word[i]
    requires |u2| == |word2| > 0 && forall i | 0 <= i < |word2| :: 'A' <= u2[i] <= 'Z' && LowerAscii(u2[i]) == word2[i]
    requires s == " " + u + " " + u2 + rest
    ensures NextKeyword(s, word) == Some(" " + u2 + rest) && NextKeyword(" " + u2 + rest, word2) == Some(rest)
  {
    var s1 := " " + u2 + rest;
    assert s == " " + (u + s1) && s1 == " " + (u2 + rest);
    SkipSolid(u + s1);
    KeywordReads(u, word, s1);
    SkipSolid(u2 + rest);
    KeywordReads(u2, word2, rest);
  }
}
