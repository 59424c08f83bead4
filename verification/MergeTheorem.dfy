/** Reading the SET clause, and the round trip of whole merge queries. */
module MergeTheorem {
  import opened Options
  import opened HirnqlText
  import opened MergeQuery
  import opened MergeParser
  import opened MergeRoundTrip

  // ----- numbers -----

  lemma {:induction false} RunLengthIs(a: string, t: string, p: char -> bool)
    requires (forall i | 0 <= i < |a| :: p(a[i])) && (t == [] || !p(t[0]))
    ensures RunLength(a + t, p) == |a|
  {
    if a == [] {
      assert a + t == t;
    } else {
      assert (a + t)[1..] == a[1..] + t;
      RunLengthIs(a[1..], t, p);
    }
  }

  function Sign(n: Numeral): string {
    if n.negative then "-" else ""
  }

  /** The part of a number's text that the grammar can read. */
  function Readable(n: Numeral): string {
    Sign(n) + n.whole + if n.fraction == [] then [] else "." + n.fraction
  }

  function ValueOf(n: Numeral): SetValue
    requires IsNumeral(n)
  {
    if n.fraction == [] then Int((if n.negative then -1 else 1) * DigitsValue(n.whole)) else Float(Readable(n))
  }

  /** What may follow a value: nothing, a comma or a space. */
  predicate Stops(t: string) {
    t == [] || t[0] == ',' || t[0] == ' '
  }

  /** What follows the readable part of a number: its exponent, then the rest. */
  predicate AfterNumber(r: string) {
    r == [] || (!IsDigit(r[0]) && r[0] != '.')
  }

  lemma {:induction false} SignIs(n: Numeral, w: string)
    requires w != [] && IsDigit(w[0])
    ensures SignLength(Sign(n) + w) == |Sign(n)| && Solid(Sign(n) + w)
    ensures (Sign(n) + w)[|Sign(n)|..] == w
  {
    Cut(Sign(n), w);
  }

  lemma {:induction false} WholeEndIs(n: Numeral, r: string)
    requires IsNumeral(n) && (r == [] || !IsDigit(r[0]))
    ensures var t := Sign(n) + n.whole + r;
            && SignLength(t) == |Sign(n)|
            && WholeEnd(t) == |Sign(n)| + |n.whole|
            && Skip(t) == t
  {
    SignIs(n, n.whole + r);
    assert Sign(n) + n.whole + r == Sign(n) + (n.whole + r);
    RunLengthIs(n.whole, r, IsDigit);
    SkipSolid(Sign(n) + n.whole + r);
  }

  lemma {:induction false} ReadInteger(n: Numeral, r: string)
    requires IsNumeral(n) && n.fraction == [] && AfterNumber(r)
    ensures NextFloat(Readable(n) + r) == None
    ensures NextInteger(Readable(n) + r) == Some((ValueOf(n).value, r))
  {
    var a, b := |Sign(n)|, |Sign(n)| + |n.whole|;
    var t := Sign(n) + n.whole + r;
    assert Readable(n) + r == t;
    WholeEndIs(n, r);
    assert t[a..b] == n.whole && t[b..] == r;
    assert b < |t| ==> t[b] == r[0];
  }

  lemma {:induction false} FloatAt(t: string, whole: string, fraction: string, r: string)
    requires t == whole + "." + fraction + r && Skip(t) == t
    requires WholeEnd(t) == |whole| != SignLength(t)
    requires fraction != [] && Digits(fraction) && AfterNumber(r)
    ensures NextFloat(t) == Some((whole + "." + fraction, r))
  {
    RunLengthIs(fraction, r, IsDigit);
    assert t == (whole + ".") + (fraction + r);
    Cut(whole + ".", fraction + r);
    Cut(whole + "." + fraction, r);
  }

  lemma {:induction false} ReadFloat(n: Numeral, r: string)
    requires IsNumeral(n) && n.fraction != [] && AfterNumber(r)
    ensures NextFloat(Readable(n) + r) == Some((Readable(n), r))
  {
    var t := Readable(n) + r;
    var whole := Sign(n) + n.whole;
    assert t == whole + ("." + n.fraction + r);
    WholeEndIs(n, "." + n.fraction + r);
    assert Readable(n) == whole + "." + n.fraction;
    FloatAt(t, whole, n.fraction, r);
  }

  lemma {:induction false} NumberSkips(n: Numeral, r: string)
    requires IsNumeral(n)
    ensures Solid(Readable(n) + r) && Readable(n) + r != []
    ensures IsDigit((Readable(n) + r)[0]) || (Readable(n) + r)[0] == '-'
  {
    var t := Readable(n) + r;
    assert t == Sign(n) + (n.whole + ((if n.fraction == [] then [] else "." + n.fraction) + r));
    assert t[|Sign(n)|] == n.whole[0];
  }

  /** A value that does not start with an m is no MAX or MIN. */
  lemma {:induction false} NoFunction(x: string)
    requires Solid(x) && x != [] && LowerAscii(x[0]) != 'm'
    ensures NextSetFunction(" " + x) == None
  {
    SkipSolid(x);
    KeywordFails(x, "max");
    KeywordFails(x, "min");
    assert NextKeyword(" " + x, "max") == None && NextKeyword(" " + x, "min") == None;
  }

  lemma {:induction false} SpaceBefore(x: string)
    requires Solid(x)
    ensures NextFloat(" " + x) == NextFloat(x) && NextInteger(" " + x) == NextInteger(x)
  {
    SkipSolid(x);
  }

  lemma {:induction false} ReadNumberAt(n: Numeral, r: string)
    requires IsNumeral(n) && AfterNumber(r)
    ensures NextSetValue(" " + (Readable(n) + r)) == Some((ValueOf(n), r))
  {
    NumberSkips(n, r);
    NoFunction(Readable(n) + r);
    SpaceBefore(Readable(n) + r);
    if n.fraction == [] {
      ReadInteger(n, r);
    } else {
      ReadFloat(n, r);
    }
  }

  lemma {:induction false} ReadNumber(n: Numeral, t: string)
    requires IsNumeral(n) && Stops(t)
    ensures NextSetValue(" " + Render(n) + t) == Some((ValueOf(n), n.exponent + t))
  {
    var r := n.exponent + t;
    assert Render(n) == Readable(n) + n.exponent;
    assert " " + Render(n) + t == " " + (Readable(n) + r);
    ReadNumberAt(n, r);
  }

  lemma {:induction false} ReadText(s: string, t: string)
    ensures NextSetValue(" " + Quote(s) + t) == Some((Str(s), t))
  {
    var x := Quote(s) + t;
    assert " " + Quote(s) + t == " " + x;
    QuoteStarts(s, t);
    NoFunction(x);
    SpaceBefore(x);
    SkipSolid(x);
    assert SignLength(x) == 0 && x[0..] == x && RunLength(x, IsDigit) == 0;
    ReadString(s, t);
  }

  // ----- assignments -----

  predicate IsName(field: string) {
    field != [] && forall k | 0 <= k < |field| :: IsIdentifierChar(field[k])
  }

  predicate WfItem(i: Item) {
    && IsName(i.field)
    && (i.NumberItem? ==> IsNumeral(i.n))
  }

  predicate WfItems(items: seq<Item>) {
    forall k | 0 <= k < |items| :: WfItem(items[k])
  }

  function ParsedItem(i: Item): Assignment
    requires WfItem(i)
  {
    Assignment(i.field, if i.StringItem? then Str(i.s) else ValueOf(i.n))
  }

  function ParsedItems(items: seq<Item>): seq<Assignment>
    requires WfItems(items)
  {
    if items == [] then [] else [ParsedItem(items[0])] + ParsedItems(items[1..])
  }

  /** What the grammar leaves unread of an assignment: the exponent of its number. */
  function Leftover(i: Item): string {
    if i.StringItem? then [] else i.n.exponent
  }

  lemma {:induction false} ReadField(field: string, t: string)
    requires IsName(field)
    requires t != [] && !IsIdentifierChar(t[0])
    ensures NextIdentifier(" " + (field + t)) == Some((field, t))
  {
    SkipSolid(field + t);
    RunLengthIs(field, t, IsIdentifierChar);
    Cut(field, t);
  }

  lemma {:induction false} ReadName(field: string, v: string)
    requires IsName(field)
    ensures NextIdentifier(" " + (field + " = " + v)) == Some((field, " = " + v))
    ensures NextChar(" = " + v, '=') == Some(" " + v)
  {
    ReadField(field, " = " + v);
    assert field + " = " + v == field + (" = " + v);
    ReadChar('=', " " + v);
    assert " = " + v == " " + (['='] + (" " + v));
  }

  lemma {:induction false} ReadValue(i: Item, t: string)
    requires WfItem(i) && Stops(t)
    ensures NextSetValue(" " + (ValueText(i) + t)) == Some((ParsedItem(i).value, Leftover(i) + t))
  {
    Regrouped(" ", ValueText(i), t);
    if i.StringItem? {
      ReadText(i.s, t);
      Regrouped([], [], t);
    } else {
      ReadNumber(i.n, t);
    }
  }

  lemma {:induction false} Regrouped(a: string, b: string, c: string)
    ensures a + (b + c) == a + b + c && [] + c == c
  {
  }

  function ValueText(i: Item): string {
    if i.StringItem? then Quote(i.s) else Render(i.n)
  }

  lemma {:induction false} ReadItem(i: Item, t: string)
    requires WfItem(i) && Stops(t)
    ensures NextAssignment(" " + ItemText(i) + t) == Some((ParsedItem(i), Leftover(i) + t))
  {
    assert ItemText(i) == i.field + " = " + ValueText(i);
    assert " " + ItemText(i) + t == " " + (i.field + " = " + (ValueText(i) + t));
    ReadName(i.field, ValueText(i) + t);
    ReadValue(i, t);
  }

  /** What may follow the SET clause: nothing or another clause. */
  predicate AfterSet(t: string) {
    Fresh(t, "ROC")
  }

  lemma {:induction false} NoComma(t: string)
    requires AfterSet(t)
    ensures NextChar(t, ',') == None && Stops(t)
  {
    FreshSkip(t, "ROC");
  }

  lemma {:induction false} CommaStops(items: seq<Item>, t: string)
    requires AfterSet(t)
    ensures Stops(CommaItems(items) + t)
  {
    NoComma(t);
    if items == [] {
      assert CommaItems(items) + t == t;
    }
  }

  predicate Clean(items: seq<Item>) {
    forall k | 0 <= k < |items| :: Leftover(items[k]) == []
  }

  /** Text no rule of the statement can consume. */
  predicate Stuck(r: string) {
    r != [] && r[0] == 'e'
  }

  lemma {:induction false} OneMore(s: string, s1: string, a: Assignment, left: string)
    requires NextChar(s, ',') == Some(s1) && NextAssignment(s1) == Some((a, left))
    ensures MoreAssignments(s) == ([a] + MoreAssignments(left).0, MoreAssignments(left).1)
  {
  }

  lemma {:induction false} ReadAfterComma(y: string, a: Assignment, left: string)
    requires NextAssignment(y) == Some((a, left))
    ensures MoreAssignments([','] + y) == ([a] + MoreAssignments(left).0, MoreAssignments(left).1)
  {
    ReadChar(',', y);
    OneMore([','] + y, y, a, left);
  }

  lemma {:induction false} CommaFirst(x: string, rest: string)
    ensures ", " + x + rest == [','] + (" " + x + rest)
  {
  }

  lemma {:induction false} ReadCommaItem(i: Item, rest: string)
    requires WfItem(i) && Stops(rest)
    ensures var more := MoreAssignments(Leftover(i) + rest);
            MoreAssignments(", " + ItemText(i) + rest) == ([ParsedItem(i)] + more.0, more.1)
  {
    ReadItem(i, rest);
    ReadAfterComma(" " + ItemText(i) + rest, ParsedItem(i), Leftover(i) + rest);
    CommaFirst(ItemText(i), rest);
  }

  lemma {:induction false} LeftoverStuck(i: Item, rest: string)
    requires WfItem(i) && Leftover(i) != []
    ensures Stuck(Leftover(i) + rest)
    ensures MoreAssignments(Leftover(i) + rest) == ([], Leftover(i) + rest)
  {
    SkipSolid(Leftover(i) + rest);
  }

  lemma {:induction false} ReadMoreItems(items: seq<Item>, t: string)
    requires WfItems(items) && AfterSet(t)
    ensures var more := MoreAssignments(CommaItems(items) + t);
            && (Clean(items) ==> more == (ParsedItems(items), t))
            && (!Clean(items) ==> Stuck(more.1))
    decreases |items|, 0
  {
    if items == [] {
      assert CommaItems(items) + t == t;
      NoComma(t);
    } else {
      var rest := CommaItems(items[1..]) + t;
      assert CommaItems(items) + t == ", " + ItemText(items[0]) + rest;
      CommaStops(items[1..], t);
      ReadCommaItem(items[0], rest);
      ReadAfterFirst(items, t);
    }
  }

  lemma {:induction false} ReadAfterFirst(items: seq<Item>, t: string)
    requires items != [] && WfItems(items) && AfterSet(t)
    ensures var more := MoreAssignments(Leftover(items[0]) + (CommaItems(items[1..]) + t));
            && (Clean(items) ==> more == (ParsedItems(items[1..]), t))
            && (!Clean(items) ==> Stuck(more.1))
    decreases |items[1..]|, 1
  {
    var rest := CommaItems(items[1..]) + t;
    if Leftover(items[0]) != [] {
      LeftoverStuck(items[0], rest);
    } else {
      assert Leftover(items[0]) + rest == rest;
      ReadMoreItems(items[1..], t);
    }
  }

  lemma {:induction false} ReadSetWord(x: string)
    ensures NextKeyword(" SET " + x, "set") == Some(" " + x)
  {
    assert " SET " + x == " " + ("SET" + (" " + x));
    SkipSolid("SET" + (" " + x));
    KeywordReads("SET", "set", " " + x);
  }

  lemma {:induction false} ReadFirst(i: Item, rest: string)
    requires WfItem(i) && Stops(rest)
    ensures var more := MoreAssignments(Leftover(i) + rest);
            OptionalSet(" SET " + ItemText(i) + rest) == ([ParsedItem(i)] + more.0, more.1)
  {
    ReadItem(i, rest);
    ReadSetWord(ItemText(i) + rest);
    Regrouped(" SET ", ItemText(i), rest);
    Regrouped(" ", ItemText(i), rest);
  }

  /** The SET clause is read completely when all its numbers are plain, and gets stuck otherwise. */
  lemma {:induction false} ReadSet(items: seq<Item>, t: string)
    requires WfItems(items) && AfterSet(t)
    ensures Clean(items) ==> OptionalSet(SetText(items) + t) == (ParsedItems(items), t)
    ensures !Clean(items) ==> Stuck(OptionalSet(SetText(items) + t).1)
  {
    if items == [] {
      assert SetText(items) + t == t;
      FreshNoKeyword(t, "ROC", "set");
    } else {
      var rest := CommaItems(items[1..]) + t;
      assert SetText(items) + t == " SET " + ItemText(items[0]) + rest;
      CommaStops(items[1..], t);
      ReadFirst(items[0], rest);
      ReadAfterFirst(items, t);
    }
  }

  // ----- the whole statement -----

  lemma {:induction false} ClauseFresh(keyword: string, s: Option<string>, t: string, letters: string)
    requires keyword != [] && keyword[0] in letters && 'A' <= keyword[0] <= 'Z' && Fresh(t, letters)
    ensures Fresh(ClauseText(keyword, s) + t, letters)
  {
    if s.Some? {
      assert ClauseText(keyword, s) == " " + (keyword + " " + Quote(s.value));
      assert (ClauseText(keyword, s) + t)[1] == keyword[0];
    } else {
      assert ClauseText(keyword, s) + t == t;
    }
  }

  lemma {:induction false} FreshWider(t: string, letters: string, more: string)
    requires Fresh(t, letters) && forall c | c in letters :: c in more
    ensures Fresh(t, more)
  {
  }

  lemma {:induction false} ClausesFresh(m: Merge)
    ensures AfterSet(ClausesText(m))
    ensures Fresh(ClauseText("OBSERVED AT", m.observedAt) + ClauseText("CAUSED BY", m.causedBy), "OC")
    ensures Fresh(ClauseText("CAUSED BY", m.causedBy), "C")
  {
    var c := ClauseText("CAUSED BY", m.causedBy);
    var oc := ClauseText("OBSERVED AT", m.observedAt) + c;
    ClauseFresh("CAUSED BY", m.causedBy, [], "C");
    assert c + [] == c;
    FreshWider(c, "C", "OC");
    ClauseFresh("OBSERVED AT", m.observedAt, c, "OC");
    FreshWider(oc, "OC", "ROC");
    ClauseFresh("REASON", m.reason, oc, "ROC");
    assert ClausesText(m) == ClauseText("REASON", m.reason) + oc;
  }

  predicate WfMerge(m: Merge) {
    && m.sources != []
    && (m.confidence.Some? ==> IsNumeral(m.confidence.value))
    && (m.evidenceCount.Some? ==> IsNumeral(m.evidenceCount.value))
  }

  lemma {:induction false} FieldNames()
    ensures IsName("description") && IsName("confidence") && IsName("evidence_count")
  {
  }

  lemma {:induction false} ItemsWf(m: Merge)
    requires WfMerge(m)
    ensures WfItems(Items(m))
  {
    FieldNames();
  }

  /** The statement a merge stands for. */
  function Statement(m: Merge): MergeStmt
    requires WfMerge(m)
  {
    ItemsWf(m);
    MergeStmt(Memories(m.sources), Memory(m.target), ParsedItems(Items(m)), m.reason, m.observedAt, m.causedBy, None)
  }

  lemma {:induction false} ReadClauses(m: Merge)
    ensures var (reason, s2) := OptionalClause(ClausesText(m), "reason");
            var (observedAt, s3) := OptionalClause2(s2, "observed", "at");
            var (causedBy, s4) := OptionalClause2(s3, "caused", "by");
            var (ns, s5) := OptionalNamespace(s4);
            reason == m.reason && observedAt == m.observedAt && causedBy == m.causedBy && ns.None? && s5 == []
  {
    ClausesFresh(m);
    ReadReason(m.reason, ClauseText("OBSERVED AT", m.observedAt) + ClauseText("CAUSED BY", m.causedBy));
    ReadObservedAt(m.observedAt, ClauseText("CAUSED BY", m.causedBy));
    ReadCausedBy(m.causedBy);
    FreshNoKeyword([], "", "namespace");
  }

  lemma {:induction false} StuckTail(r: string)
    requires Stuck(r)
    ensures OptionalClause(r, "reason") == (None, r) && OptionalClause2(r, "observed", "at") == (None, r)
    ensures OptionalClause2(r, "caused", "by") == (None, r) && OptionalNamespace(r) == (None, r)
    ensures Skip(r) != []
  {
    SkipSolid(r);
    KeywordFails(r, "reason");
    KeywordFails(r, "observed");
    KeywordFails(r, "caused");
    KeywordFails(r, "namespace");
  }

  lemma {:induction false} ReadTail(m: Merge)
    requires WfMerge(m)
    ensures MergeTail(TailText(m), Memories(m.sources), Memory(m.target)) ==
            if Clean(Items(m)) then Some(Statement(m)) else None
  {
    ItemsWf(m);
    ClausesFresh(m);
    ReadSet(Items(m), ClausesText(m));
    if Clean(Items(m)) {
      ReadClauses(m);
    } else {
      StuckTail(OptionalSet(TailText(m)).1);
    }
  }

  lemma {:induction false} ReadWord(upper: string, word: string, t: string)
    requires upper != [] && Solid(upper + t)
    requires |upper| == |word| && forall i | 0 <= i < |word| :: LowerAscii(upper[i]) == word[i]
    ensures NextKeyword(upper + t, word) == Some(t) && NextKeyword(" " + (upper + t), word) == Some(t)
  {
    SkipSolid(upper + t);
    KeywordReads(upper, word, t);
  }

  lemma {:induction false} NoCommaBeforeInto(t: string)
    ensures NextChar(" " + ("INTO" + t), ',') == None
  {
    SkipSolid("INTO" + t);
  }

  lemma {:induction false} HeadPieces(m: Merge, tail: string)
    requires m.sources != []
    ensures HeadText(m) + tail ==
            "MERGE" + (" " + ("MEMORY" + (" " + IdsText(m.sources) + (" " + ("INTO" + (" " + Quote(m.target) + tail))))))
  {
    var ids, q := IdsText(m.sources), Quote(m.target);
    assert HeadText(m) == "MERGE MEMORY " + ids + " INTO " + q;
    assert " " + ("INTO" + (" " + q + tail)) == " INTO " + q + tail;
    assert "MERGE" + (" " + ("MEMORY" + (" " + ids + (" INTO " + q + tail)))) == "MERGE MEMORY " + ids + " INTO " + q + tail;
  }

  lemma {:induction false} ReadHead(m: Merge, tail: string)
    requires m.sources != []
    ensures MergeFront(HeadText(m) + tail) == Some((Memories(m.sources), Memory(m.target), tail))
  {
    var s4 := " " + Quote(m.target) + tail;
    var s3 := " " + ("INTO" + s4);
    var s2 := " " + IdsText(m.sources) + s3;
    var s1 := " " + ("MEMORY" + s2);
    HeadPieces(m, tail);
    ReadWord("MERGE", "merge", s1);
    ReadWord("MEMORY", "memory", s2);
    NoCommaBeforeInto(s4);
    ReadTargets(m.sources, s3);
    ReadWord("INTO", "into", s4);
    ReadTarget(m.target, tail);
  }

  /** The condition on the numbers of a merge: no exponent, and integers within 64 bits. */
  predicate NumberReads(n: Numeral)
    requires IsNumeral(n)
  {
    && n.exponent == []
    && (n.fraction == [] ==> DigitsValue(n.whole) < 0x8000_0000_0000_0000 + if n.negative then 1 else 0)
  }

  predicate NumbersRead(m: Merge)
    requires WfMerge(m)
  {
    && (m.confidence.Some? ==> NumberReads(m.confidence.value))
    && (m.evidenceCount.Some? ==> NumberReads(m.evidenceCount.value))
  }

  lemma {:induction false} ParsedAt(items: seq<Item>, k: nat)
    requires WfItems(items) && k < |items|
    ensures |ParsedItems(items)| == |items| && ParsedItems(items)[k] == ParsedItem(items[k])
  {
    if |items| > 1 {
      ParsedAt(items[1..], if k == 0 then 0 else k - 1);
    }
  }

  lemma {:induction false} NumbersReadIsClean(m: Merge)
    requires WfMerge(m)
    ensures WfItems(Items(m))
    ensures NumbersRead(m) <==> Clean(Items(m)) && IntsFit(ParsedItems(Items(m)))
  {
    ItemsWf(m);
    var items := Items(m);
    forall k | 0 <= k < |items|
      ensures |ParsedItems(items)| == |items| && ParsedItems(items)[k] == ParsedItem(items[k])
    {
      ParsedAt(items, k);
    }
    if m.confidence.Some? {
      var k := if m.description.Some? then 1 else 0;
      assert items[k] == NumberItem("confidence", m.confidence.value);
    }
    if m.evidenceCount.Some? {
      assert items[|items| - 1] == NumberItem("evidence_count", m.evidenceCount.value);
    }
  }

  /**
    The round trip, exactly: the engine reads the query of a merge as that merge when its
    numbers are readable, and rejects the query otherwise.
   */
  lemma {:induction false} MergeReadsBack(m: Merge)
    requires WfMerge(m)
    ensures Parse(MergeText(m)) == if NumbersRead(m) then Some(Statement(m)) else None
  {
    TextOf(m);
    ReadHead(m, TailText(m));
    ReadTail(m);
    NumbersReadIsClean(m);
  }

  /** Every query the builder returns is of this kind. */
  lemma {:induction false} BuilderReadsBack(sourceIds: seq<Arg>, targetId: Arg, options: MergeOptions)
    requires CheckMerge(sourceIds, targetId, options).Ok?
    ensures var m := CheckMerge(sourceIds, targetId, options).value;
            && WfMerge(m)
            && Parse(MergeText(m)) == (if NumbersRead(m) then Some(Statement(m)) else None)
            && (options.confidence.None? && options.evidenceCount.None? ==> Parse(MergeText(m)) == Some(Statement(m)))
  {
    var m := CheckMerge(sourceIds, targetId, options).value;
    MergeReadsBack(m);
  }

  /**
    Not every accepted merge is readable: JavaScript prints 0.0000001 as 1e-7, for which the
    grammar has no number.
   */
  lemma {:induction false} SmallConfidenceIsRejected(source: string, target: string)
    requires !Blank(source) && !Blank(target)
    ensures var small := Numeral(false, "1", "", "e-7");
            var options := MergeOptions(None, Some(Finite(small)), None, None, None, None);
            var m := Merge([source], target, None, Some(small), None, None, None, None);
            && CheckMerge([Text(source)], Text(target), options) == Ok(m)
            && Parse(MergeText(m)) == None
  {
    var m := Merge([source], target, None, Some(Numeral(false, "1", "", "e-7")), None, None, None, None);
    assert [Text(source)][1..] == [] && CheckSources([]) == Ok([]) && [source] + [] == [source];
    assert CheckSources([Text(source)]) == Ok([source]);
    MergeReadsBack(m);
  }
}
