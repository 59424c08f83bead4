/** Different merges have different queries: no text leaks from one field into another. */
module MergeInjective {
  import opened Options
  import opened HirnqlText
  import opened MergeQuery
  import opened MergeParser
  import opened MergeRoundTrip
  import opened MergeTheorem

  /** Two texts that are a run of `p` and then something else are cut at the same place. */
  lemma {:induction false} SameRun(a: string, t: string, a': string, t': string, p: char -> bool)
    requires a + t == a' + t'
    requires (forall i | 0 <= i < |a| :: p(a[i])) && (t == [] || !p(t[0]))
    requires (forall i | 0 <= i < |a'| :: p(a'[i])) && (t' == [] || !p(t'[0]))
    ensures a == a' && t == t'
  {
    RunLengthIs(a, t, p);
    RunLengthIs(a', t', p);
    Cut(a, t);
    Cut(a', t');
  }

  // ----- numbers -----

  function FractionText(n: Numeral): string {
    if n.fraction == [] then [] else "." + n.fraction
  }

  lemma {:induction false} RenderPieces(n: Numeral)
    ensures Render(n) == Sign(n) + (n.whole + (FractionText(n) + n.exponent))
  {
  }

  lemma {:induction false} StartsWithPoint(n: Numeral)
    requires IsNumeral(n)
    ensures var s := FractionText(n) + n.exponent;
            && (n.fraction != [] ==> s != [] && s[0] == '.' && s[1..] == n.fraction + n.exponent)
            && (n.fraction == [] ==> s == n.exponent && (s == [] || s[0] == 'e'))
  {
  }

  lemma {:induction false} FractionsAgree(a: Numeral, b: Numeral)
    requires IsNumeral(a) && IsNumeral(b) && FractionText(a) + a.exponent == FractionText(b) + b.exponent
    ensures a.fraction == b.fraction && a.exponent == b.exponent
  {
    StartsWithPoint(a);
    StartsWithPoint(b);
    if a.fraction != [] {
      SameRun(a.fraction, a.exponent, b.fraction, b.exponent, IsDigit);
    }
  }

  lemma {:induction false} SignsAgree(a: Numeral, x: string, b: Numeral, y: string)
    requires x != [] && IsDigit(x[0]) && y != [] && IsDigit(y[0]) && Sign(a) + x == Sign(b) + y
    ensures a.negative == b.negative && x == y
  {
    assert (Sign(a) + x)[0] == '-' <==> a.negative;
    assert (Sign(b) + y)[0] == '-' <==> b.negative;
    Cut(Sign(a), x);
    Cut(Sign(b), y);
  }

  /** A printed number determines its digits. */
  lemma {:induction false} RenderInjective(a: Numeral, b: Numeral)
    requires IsNumeral(a) && IsNumeral(b) && Render(a) == Render(b)
    ensures a == b
  {
    RenderPieces(a);
    RenderPieces(b);
    var s, t := FractionText(a) + a.exponent, FractionText(b) + b.exponent;
    SignsAgree(a, a.whole + s, b, b.whole + t);
    SameRun(a.whole, s, b.whole, t, IsDigit);
    FractionsAgree(a, b);
  }

  /** Everything but the characters that may follow a value. */
  predicate InValue(c: char) {
    c != ',' && c != ' '
  }

  lemma {:induction false} RenderInValue(n: Numeral)
    requires IsNumeral(n)
    ensures forall i | 0 <= i < |Render(n)| :: InValue(Render(n)[i])
  {
    assert forall i | 2 <= i < |n.exponent| :: n.exponent[i] == n.exponent[2..][i - 2];
    assert forall c | c in n.exponent :: InValue(c);
    assert forall c | c in FractionText(n) :: InValue(c);
    assert forall c | c in n.whole :: InValue(c);
    RenderPieces(n);
  }

  lemma {:induction false} NumbersAgree(a: Numeral, t: string, b: Numeral, t': string)
    requires IsNumeral(a) && IsNumeral(b) && Stops(t) && Stops(t') && Render(a) + t == Render(b) + t'
    ensures a == b && t == t'
  {
    RenderInValue(a);
    RenderInValue(b);
    SameRun(Render(a), t, Render(b), t', InValue);
    RenderInjective(a, b);
  }

  // ----- assignments -----

  lemma {:induction false} NotQuoted(n: Numeral, t: string)
    requires IsNumeral(n)
    ensures Render(n) + t != [] && (Render(n) + t)[0] != '\"'
  {
    RenderPieces(n);
    assert Sign(n) == [] ==> Render(n)[0] == n.whole[0];
  }

  lemma {:induction false} ValuesAgree(i: Item, t: string, j: Item, t': string)
    requires WfItem(i) && WfItem(j) && Stops(t) && Stops(t') && ValueText(i) + t == ValueText(j) + t'
    requires i.field == j.field
    ensures i == j && t == t'
  {
    if i.StringItem? {
      QuoteStarts(i.s, t);
      if j.StringItem? {
        QuoteSelfDelimiting(i.s, t, j.s, t');
      } else {
        NotQuoted(j.n, t');
      }
    } else if j.StringItem? {
      QuoteStarts(j.s, t');
      NotQuoted(i.n, t);
    } else {
      NumbersAgree(i.n, t, j.n, t');
    }
  }

  lemma {:induction false} ItemPieces(i: Item, t: string)
    ensures ItemText(i) + t == i.field + (" = " + (ValueText(i) + t))
  {
  }

  lemma {:induction false} ItemsAgree(i: Item, t: string, j: Item, t': string)
    requires WfItem(i) && WfItem(j) && Stops(t) && Stops(t') && ItemText(i) + t == ItemText(j) + t'
    ensures i == j && t == t'
  {
    var x, y := " = " + (ValueText(i) + t), " = " + (ValueText(j) + t');
    ItemPieces(i, t);
    ItemPieces(j, t');
    SameRun(i.field, x, j.field, y, IsIdentifierChar);
    Cut(" = ", ValueText(i) + t);
    Cut(" = ", ValueText(j) + t');
    ValuesAgree(i, t, j, t');
  }

  lemma {:induction false} StartsWithComma(items: seq<Item>, t: string)
    requires AfterSet(t)
    ensures items != [] <==> (var s := CommaItems(items) + t; s != [] && s[0] == ',')
  {
    if items == [] {
      assert CommaItems(items) + t == t;
    }
  }

  lemma {:induction false} CommaPieces(items: seq<Item>, t: string)
    requires items != []
    ensures CommaItems(items) + t == ", " + (ItemText(items[0]) + (CommaItems(items[1..]) + t))
  {
  }

  lemma {:induction false} ListsAgree(a: seq<Item>, t: string, b: seq<Item>, t': string)
    requires WfItems(a) && WfItems(b) && AfterSet(t) && AfterSet(t') && CommaItems(a) + t == CommaItems(b) + t'
    ensures a == b && t == t'
    decreases |a|, 0
  {
    StartsWithComma(a, t);
    StartsWithComma(b, t');
    if a == [] {
      assert CommaItems(a) + t == t && CommaItems(b) + t' == t';
    } else {
      CommaPieces(a, t);
      CommaPieces(b, t');
      Cut(", ", ItemText(a[0]) + (CommaItems(a[1..]) + t));
      Cut(", ", ItemText(b[0]) + (CommaItems(b[1..]) + t'));
      TailsAgree(a, t, b, t');
    }
  }

  lemma {:induction false} TailsAgree(a: seq<Item>, t: string, b: seq<Item>, t': string)
    requires a != [] && b != [] && WfItems(a) && WfItems(b) && AfterSet(t) && AfterSet(t')
    requires ItemText(a[0]) + (CommaItems(a[1..]) + t) == ItemText(b[0]) + (CommaItems(b[1..]) + t')
    ensures a == b && t == t'
    decreases |a[1..]|, 1
  {
    CommaStops(a[1..], t);
    CommaStops(b[1..], t');
    ItemsAgree(a[0], CommaItems(a[1..]) + t, b[0], CommaItems(b[1..]) + t');
    ListsAgree(a[1..], t, b[1..], t');
    assert a == [a[0]] + a[1..] && b == [b[0]] + b[1..];
  }

  // ----- the whole query -----

  lemma {:induction false} SetPieces(items: seq<Item>, t: string)
    requires items != []
    ensures SetText(items) + t == " SET " + (ItemText(items[0]) + (CommaItems(items[1..]) + t))
  {
  }

  lemma {:induction false} StartsWithSet(items: seq<Item>, t: string)
    requires AfterSet(t)
    ensures items != [] <==> (var s := SetText(items) + t; |s| >= 2 && s[1] == 'S')
  {
    if items == [] {
      assert SetText(items) + t == t;
    } else {
      SetPieces(items, t);
    }
  }

  lemma {:induction false} SetsAgree(a: seq<Item>, t: string, b: seq<Item>, t': string)
    requires WfItems(a) && WfItems(b) && AfterSet(t) && AfterSet(t') && SetText(a) + t == SetText(b) + t'
    ensures a == b && t == t'
  {
    StartsWithSet(a, t);
    StartsWithSet(b, t');
    if a == [] {
      assert SetText(a) + t == t && SetText(b) + t' == t';
    } else {
      SetPieces(a, t);
      SetPieces(b, t');
      Cut(" SET ", ItemText(a[0]) + (CommaItems(a[1..]) + t));
      Cut(" SET ", ItemText(b[0]) + (CommaItems(b[1..]) + t'));
      TailsAgree(a, t, b, t');
    }
  }

  lemma {:induction false} MemoriesInjective(a: seq<string>, b: seq<string>)
    requires Memories(a) == Memories(b)
    ensures a == b
  {
    if a != [] {
      assert Memories(a)[0] == Memories(b)[0];
      assert Memories(a)[1..] == Memories(a[1..]) && Memories(b)[1..] == Memories(b[1..]);
      MemoriesInjective(a[1..], b[1..]);
      assert a == [a[0]] + a[1..] && b == [b[0]] + b[1..];
    }
  }

  lemma {:induction false} ItemsDetermine(a: Merge, b: Merge)
    requires Items(a) == Items(b)
    ensures a.description == b.description && a.confidence == b.confidence && a.evidenceCount == b.evidenceCount
  {
    var items := Items(a);
    Member(a);
    Member(b);
  }

  /** Each optional field is present exactly when an item bears its name, and then is that item's value. */
  lemma {:induction false} Member(m: Merge)
    ensures forall s :: m.description == Some(s) <==> StringItem("description", s) in Items(m)
    ensures forall n :: m.confidence == Some(n) <==> NumberItem("confidence", n) in Items(m)
    ensures forall n :: m.evidenceCount == Some(n) <==> NumberItem("evidence_count", n) in Items(m)
  {
    assert "confidence"[0] != "evidence_count"[0];
  }

  lemma {:induction false} ClausesDetermine(a: Merge, b: Merge)
    requires ClausesText(a) == ClausesText(b)
    ensures a.reason == b.reason && a.observedAt == b.observedAt && a.causedBy == b.causedBy
  {
    ReadClauses(a);
    ReadClauses(b);
  }

  /** Two merges with the same query are the same merge. */
  lemma {:induction false} QueriesDoNotCollide(a: Merge, b: Merge)
    requires WfMerge(a) && WfMerge(b) && MergeText(a) == MergeText(b)
    ensures a == b
  {
    TextOf(a);
    TextOf(b);
    ReadHead(a, TailText(a));
    ReadHead(b, TailText(b));
    MemoriesInjective(a.sources, b.sources);
    ItemsWf(a);
    ItemsWf(b);
    ClausesFresh(a);
    ClausesFresh(b);
    SetsAgree(Items(a), ClausesText(a), Items(b), ClausesText(b));
    ItemsDetermine(a, b);
    ClausesDetermine(a, b);
  }
}
