/**
  JSON texts by the grammar of RFC 8259 (sections 2 to 7), and what the scanner does with them.

  A `Json` value is a derivation: it fixes every choice the grammar leaves open, the
  white space included, so `Text` covers every way to print an object.  Scalars are
  only required to be built from the bytes that numbers and the three literal names
  use, which admits every number and literal of the grammar.
 */
module JsonObjects {
  import opened Options
  import opened JsonScanner

  datatype StringItem =
    | Plain(b: Byte)
    | Escape(b: Byte)
    | Unicode(h0: Byte, h1: Byte, h2: Byte, h3: Byte)

  datatype Json =
    | Scalar(text: seq<Byte>)
    | String(items: seq<StringItem>)
    | Array(lead: seq<Byte>, elements: Elements)
    | Object(lead: seq<Byte>, members: Members)

  datatype Elements =
    | NoElements
    | Element(before: seq<Byte>, value: Json, after: seq<Byte>, rest: Elements)

  datatype Members =
    | NoMembers
    | Member(before: seq<Byte>, key: seq<StringItem>, preColon: seq<Byte>, postColon: seq<Byte>,
             value: Json, after: seq<Byte>, rest: Members)

  // ----- printing -----

  function ItemText(i: StringItem): seq<Byte> {
    match i
    case Plain(b) => [b]
    case Escape(b) => [BACKSLASH, b]
    case Unicode(h0, h1, h2, h3) => [BACKSLASH, 0x75, h0, h1, h2, h3]
  }

  function ItemsText(items: seq<StringItem>): seq<Byte> {
    if items == [] then [] else ItemText(items[0]) + ItemsText(items[1..])
  }

  function StringText(items: seq<StringItem>): seq<Byte> {
    [QUOTE] + ItemsText(items) + [QUOTE]
  }

  function Text(j: Json): seq<Byte> {
    match j
    case Scalar(text) => text
    case String(items) => StringText(items)
    case Array(lead, elements) => [LBRACKET] + (lead + ElementsText(elements)) + [RBRACKET]
    case Object(lead, members) => [LBRACE] + (lead + MembersText(members)) + [RBRACE]
  }

  function ElementsText(es: Elements): seq<Byte> {
    match es
    case NoElements => []
    case Element(before, value, after, rest) =>
      before + Text(value) + after + (if rest.NoElements? then [] else [COMMA]) + ElementsText(rest)
  }

  function MembersText(ms: Members): seq<Byte> {
    match ms
    case NoMembers => []
    case Member(before, key, preColon, postColon, value, after, rest) =>
      before + StringText(key) + preColon + [COLON] + postColon + Text(value) + after +
      (if rest.NoMembers? then [] else [COMMA]) + MembersText(rest)
  }

  // ----- well-formed derivations -----

  predicate IsSpace(b: Byte) {
    b == 0x20 || b == 0x09 || b == 0x0A || b == 0x0D
  }

  predicate IsHex(b: Byte) {
    0x30 <= b <= 0x39 || 0x41 <= b <= 0x46 || 0x61 <= b <= 0x66
  }

  predicate IsScalarByte(b: Byte) {
    0x30 <= b <= 0x39 || 0x61 <= b <= 0x7A || b == 0x45 || b == 0x2B || b == 0x2D || b == 0x2E
  }

  predicate Spaces(s: seq<Byte>) {
    forall i | 0 <= i < |s| :: IsSpace(s[i])
  }

  /** The bytes allowed after a backslash, other than the `u` of a four-digit escape. */
  predicate IsEscapable(b: Byte) {
    b == QUOTE || b == BACKSLASH || b == 0x2F || b == 0x62 || b == 0x66 || b == 0x6E || b == 0x72 || b == 0x74
  }

  predicate WfItem(i: StringItem) {
    match i
    case Plain(b) => b >= 0x20 && b != QUOTE && b != BACKSLASH
    case Escape(b) => IsEscapable(b)
    case Unicode(h0, h1, h2, h3) => IsHex(h0) && IsHex(h1) && IsHex(h2) && IsHex(h3)
  }

  predicate WfItems(items: seq<StringItem>) {
    forall i | i in items :: WfItem(i)
  }

  predicate Wf(j: Json) {
    match j
    case Scalar(text) => text != [] && forall i | 0 <= i < |text| :: IsScalarByte(text[i])
    case String(items) => WfItems(items)
    case Array(lead, elements) => Spaces(lead) && WfElements(elements)
    case Object(lead, members) => Spaces(lead) && WfMembers(members)
  }

  predicate WfElements(es: Elements) {
    match es
    case NoElements => true
    case Element(before, value, after, rest) =>
      Spaces(before) && Wf(value) && Spaces(after) && WfElements(rest)
  }

  predicate WfMembers(ms: Members) {
    match ms
    case NoMembers => true
    case Member(before, key, preColon, postColon, value, after, rest) =>
      && Spaces(before) && WfItems(key) && Spaces(preColon) && Spaces(postColon)
      && Wf(value) && Spaces(after) && WfMembers(rest)
  }

  // ----- texts that leave the scanner where it was -----

  /** Reading `s` outside a string ends outside a string at the same depth, and never below it. */
  ghost predicate Neutral(s: seq<Byte>) {
    && FeedAll(Outside, s) == Outside
    && forall k | 0 <= k <= |s| :: FeedAll(Outside, s[..k]).depth >= 0
  }

  lemma {:induction false} NeutralConcat(s: seq<Byte>, t: seq<Byte>)
    requires Neutral(s) && Neutral(t)
    ensures Neutral(s + t)
  {
    FeedConcat(Outside, s, t);
    forall k | 0 <= k <= |s + t| ensures FeedAll(Outside, (s + t)[..k]).depth >= 0 {
      if k <= |s| {
        assert (s + t)[..k] == s[..k];
      } else {
        assert (s + t)[..k] == s + t[..k - |s|];
        FeedConcat(Outside, s, t[..k - |s|]);
      }
    }
  }

  lemma {:induction false} NeutralBytes(s: seq<Byte>)
    requires forall i | 0 <= i < |s| :: s[i] != QUOTE && s[i] != LBRACE && s[i] != RBRACE
    ensures Neutral(s)
  {
    if s != [] {
      NeutralBytes(s[1..]);
      var one := [s[0]];
      assert Neutral(one) by {
        assert one[..0] == [] && one[..1] == one;
      }
      NeutralConcat(one, s[1..]);
      assert one + s[1..] == s;
    }
  }

  /** Inside a string literal nothing changes the depth, and items end inside it. */
  lemma {:induction false} ItemsStayInside(items: seq<StringItem>)
    requires WfItems(items)
    ensures FeedAll(Scan(0, true, false), ItemsText(items)) == Scan(0, true, false)
  {
    if items != [] {
      ItemsStayInside(items[1..]);
      FeedConcat(Scan(0, true, false), ItemText(items[0]), ItemsText(items[1..]));
      ItemStaysInside(items[0]);
    }
  }

  lemma {:induction false} ItemStaysInside(i: StringItem)
    requires WfItem(i)
    ensures FeedAll(Scan(0, true, false), ItemText(i)) == Scan(0, true, false)
  {
    var inside := Scan(0, true, false);
    match i
    case Plain(b) =>
    case Escape(b) =>
      assert [BACKSLASH, b] == [BACKSLASH] + [b];
      FeedConcat(inside, [BACKSLASH], [b]);
    case Unicode(h0, h1, h2, h3) =>
      assert ItemText(i) == [BACKSLASH] + [0x75] + [h0] + [h1] + [h2] + [h3];
      FeedConcat(inside, [BACKSLASH], [0x75]);
      FeedConcat(inside, [BACKSLASH] + [0x75], [h0]);
      FeedConcat(inside, [BACKSLASH] + [0x75] + [h0], [h1]);
      FeedConcat(inside, [BACKSLASH] + [0x75] + [h0] + [h1], [h2]);
      FeedConcat(inside, [BACKSLASH] + [0x75] + [h0] + [h1] + [h2], [h3]);
  }

  lemma {:induction false} DepthInsideString(items: seq<StringItem>, k: nat)
    requires WfItems(items) && k <= |ItemsText(items)|
    ensures FeedAll(Scan(0, true, false), ItemsText(items)[..k]).depth == 0
  {
    var inside := Scan(0, true, false);
    if items != [] {
      var first := ItemText(items[0]);
      var text := ItemsText(items);
      if k <= |first| {
        assert text[..k] == first[..k];
        ItemPrefixDepth(items[0], k);
      } else {
        assert text[..k] == first + ItemsText(items[1..])[..k - |first|];
        FeedConcat(inside, first, ItemsText(items[1..])[..k - |first|]);
        ItemStaysInside(items[0]);
        DepthInsideString(items[1..], k - |first|);
      }
    }
  }

  /** Nothing read inside a string that is not a closing quote can move the depth. */
  lemma {:induction false} ItemPrefixDepth(i: StringItem, k: nat)
    requires WfItem(i) && k <= |ItemText(i)|
    ensures FeedAll(Scan(0, true, false), ItemText(i)[..k]).depth == 0
  {
    FeedString(0, ItemText(i)[..k]);
    assert AfterString(ItemText(i)[..k]) == [] by {
      var p := ItemText(i)[..k];
      if i.Unicode? && k > 2 {
        assert p[2..] == [i.h0, i.h1, i.h2, i.h3][..k - 2];
        NoQuoteNoEnd(p[2..]);
      }
    }
  }

  lemma {:induction false} NoQuoteNoEnd(s: seq<Byte>)
    requires forall i | 0 <= i < |s| :: s[i] != QUOTE && s[i] != BACKSLASH
    ensures AfterString(s) == []
  {
    if s != [] {
      NoQuoteNoEnd(s[1..]);
    }
  }

  lemma {:induction false} NeutralString(items: seq<StringItem>)
    requires WfItems(items)
    ensures Neutral(StringText(items))
  {
    var text := StringText(items);
    var open := [QUOTE] + ItemsText(items);
    ItemsStayInside(items);
    FeedConcat(Outside, [QUOTE], ItemsText(items));
    FeedConcat(Outside, open, [QUOTE]);
    forall k | 0 <= k <= |text| ensures FeedAll(Outside, text[..k]).depth >= 0 {
      if k == 0 {
      } else if k < |text| {
        assert text[..k] == [QUOTE] + ItemsText(items)[..k - 1];
        FeedConcat(Outside, [QUOTE], ItemsText(items)[..k - 1]);
        DepthInsideString(items, k - 1);
      } else {
        assert text[..k] == text;
      }
    }
  }

  lemma {:induction false} AfterBrace(s: seq<Byte>)
    ensures FeedAll(Outside, [LBRACE] + s) == FeedAll(Outside, s).(depth := FeedAll(Outside, s).depth + 1)
  {
    FeedConcat(Outside, [LBRACE], s);
    FeedShift(Outside, s, 1);
  }

  lemma {:induction false} DeepInside(inner: seq<Byte>, k: nat)
    requires Neutral(inner) && 0 < k <= |inner| + 1
    ensures FeedAll(Outside, ([LBRACE] + inner)[..k]).depth > 0
  {
    assert ([LBRACE] + inner)[..k] == [LBRACE] + inner[..k - 1];
    AfterBrace(inner[..k - 1]);
    assert inner[..|inner|] == inner;
  }

  lemma {:induction false} BracedCloses(inner: seq<Byte>)
    requires Neutral(inner)
    ensures FeedAll(Outside, [LBRACE] + inner + [RBRACE]) == Outside
  {
    AfterBrace(inner);
    FeedConcat(Outside, [LBRACE] + inner, [RBRACE]);
  }

  /** A neutral text in braces: the depth is at least one until the last byte. */
  lemma {:induction false} Braced(inner: seq<Byte>)
    requires Neutral(inner)
    ensures var s := [LBRACE] + inner + [RBRACE];
            && Neutral(s)
            && forall k | 0 < k < |s| :: FeedAll(Outside, s[..k]).depth > 0
  {
    var s := [LBRACE] + inner + [RBRACE];
    forall k | 0 < k < |s| ensures FeedAll(Outside, s[..k]).depth > 0 {
      assert s[..k] == ([LBRACE] + inner)[..k];
      DeepInside(inner, k);
    }
    BracedCloses(inner);
    assert s[..|s|] == s && s[..0] == [];
  }

  lemma {:induction false} TextNeutral(j: Json)
    requires Wf(j)
    ensures Neutral(Text(j))
  {
    match j
    case Scalar(text) => NeutralBytes(text);
    case String(items) => NeutralString(items);
    case Array(lead, elements) =>
      NeutralBytes([LBRACKET]);
      NeutralBytes(lead);
      ElementsNeutral(elements);
      NeutralBytes([RBRACKET]);
      NeutralConcat(lead, ElementsText(elements));
      NeutralConcat([LBRACKET], lead + ElementsText(elements));
      NeutralConcat([LBRACKET] + (lead + ElementsText(elements)), [RBRACKET]);
    case Object(lead, members) =>
      ObjectInner(lead, members);
      Braced(lead + MembersText(members));
  }

  lemma {:induction false} ObjectInner(lead: seq<Byte>, members: Members)
    requires Spaces(lead) && WfMembers(members)
    ensures Neutral(lead + MembersText(members))
    decreases members, 1
  {
    NeutralBytes(lead);
    MembersNeutral(members);
    NeutralConcat(lead, MembersText(members));
  }

  lemma {:induction false} ElementsNeutral(es: Elements)
    requires WfElements(es)
    ensures Neutral(ElementsText(es))
  {
    match es
    case NoElements => NeutralBytes([]);
    case Element(before, value, after, rest) =>
      var comma := if rest.NoElements? then [] else [COMMA];
      NeutralBytes(before);
      TextNeutral(value);
      NeutralBytes(after);
      NeutralBytes(comma);
      ElementsNeutral(rest);
      NeutralConcat(before, Text(value));
      NeutralConcat(before + Text(value), after);
      NeutralConcat(before + Text(value) + after, comma);
      NeutralConcat(before + Text(value) + after + comma, ElementsText(rest));
  }

  lemma {:induction false} MembersNeutral(ms: Members)
    requires WfMembers(ms)
    ensures Neutral(MembersText(ms))
    decreases ms, 0
  {
    match ms
    case NoMembers => NeutralBytes([]);
    case Member(before, key, preColon, postColon, value, after, rest) =>
      var comma := if rest.NoMembers? then [] else [COMMA];
      NeutralBytes(before);
      NeutralString(key);
      NeutralBytes(preColon);
      NeutralBytes([COLON]);
      NeutralBytes(postColon);
      TextNeutral(value);
      NeutralBytes(after);
      NeutralBytes(comma);
      MembersNeutral(rest);
      NeutralConcat(before, StringText(key));
      var a := before + StringText(key);
      NeutralConcat(a, preColon);
      NeutralConcat(a + preColon, [COLON]);
      NeutralConcat(a + preColon + [COLON], postColon);
      var b := a + preColon + [COLON] + postColon;
      NeutralConcat(b, Text(value));
      NeutralConcat(b + Text(value), after);
      NeutralConcat(b + Text(value) + after, comma);
      NeutralConcat(b + Text(value) + after + comma, MembersText(rest));
  }

  // ----- the promise -----

  lemma {:induction false} ObjectComplete(j: Json)
    requires j.Object? && Wf(j)
    ensures Complete(Text(j)) && Text(j)[0] == LBRACE
  {
    var s := Text(j);
    ObjectInner(j.lead, j.members);
    Braced(j.lead + MembersText(j.members));
    DepthIsNesting(0, s);
    forall k | 0 < k < |s| ensures Nesting(s[..k]) > 0 {
      DepthIsNesting(0, s[..k]);
    }
  }

  /**
    Whatever prose, code fence or other bytes surround a printed object, as long as no
    brace opens before it, the scanner returns exactly the object and nothing else.
   */
  lemma {:induction false} PrintedObjectExtracted(before: seq<Byte>, j: Json, after: seq<Byte>, r: Option<seq<Byte>>)
    requires j.Object? && Wf(j) && LBRACE !in before
    ensures Extracts(before + Text(j) + after, r) <==> r == Some(Text(j))
  {
    var raw := before + Text(j) + after;
    ObjectComplete(j);
    assert raw[..|before|] == before && raw[|before|] == LBRACE;
    assert raw[|before|..] == Text(j) + after;
    assert FirstBrace(raw, |before|) && Text(j) <= raw[|before|..];
    assert Extracts(raw, Some(Text(j)));
    if Extracts(raw, r) {
      ExtractsUnique(raw, r, Some(Text(j)));
    }
  }
}
