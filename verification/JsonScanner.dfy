/**
  Finding the first JSON object in a model response.

  The program walks over bytes with a brace depth and two flags.  The reference
  meaning is given without them: `Code` deletes the string literals from a text, and
  `Nesting` counts the braces that remain.
 */
module JsonScanner {
  import opened Options

  newtype Byte = x: int | 0 <= x < 256

  const QUOTE: Byte := 0x22
  const COMMA: Byte := 0x2C
  const COLON: Byte := 0x3A
  const LBRACKET: Byte := 0x5B
  const BACKSLASH: Byte := 0x5C
  const RBRACKET: Byte := 0x5D
  const LBRACE: Byte := 0x7B
  const RBRACE: Byte := 0x7D

  // ----- reference meaning -----

  /** What follows the closing quote of a string literal whose opening quote has been read. */
  function AfterString(s: seq<Byte>): (rest: seq<Byte>)
    ensures |rest| <= |s|
  {
    if s == [] then []
    else if s[0] == QUOTE then s[1..]
    else if s[0] == BACKSLASH then if |s| == 1 then [] else AfterString(s[2..])
    else AfterString(s[1..])
  }

  /** The text without its string literals. */
  function Code(s: seq<Byte>): seq<Byte>
    decreases |s|
  {
    if s == [] then []
    else if s[0] == QUOTE then Code(AfterString(s[1..]))
    else [s[0]] + Code(s[1..])
  }

  function Count(b: Byte, s: seq<Byte>): nat {
    if s == [] then 0 else (if s[0] == b then 1 else 0) + Count(b, s[1..])
  }

  /** Braces opened but not closed, not looking inside string literals. */
  function Nesting(s: seq<Byte>): int {
    Count(LBRACE, Code(s)) - Count(RBRACE, Code(s))
  }

  /** Balanced, and no shorter beginning of it is. */
  ghost predicate Complete(s: seq<Byte>) {
    s != [] && Nesting(s) == 0 && forall k | 0 < k < |s| :: Nesting(s[..k]) > 0
  }

  predicate FirstBrace(raw: seq<Byte>, start: nat) {
    start < |raw| && raw[start] == LBRACE && LBRACE !in raw[..start]
  }

  /** The slice from the first brace to where it is first balanced, if it ever is. */
  ghost predicate Extracts(raw: seq<Byte>, r: Option<seq<Byte>>) {
    match r
    case Some(slice) =>
      exists start: nat ::
        FirstBrace(raw, start) && slice <= raw[start..] && Complete(slice)
    case None =>
      forall start: nat, k | FirstBrace(raw, start) && start < k <= |raw| :: Nesting(raw[start..k]) > 0
  }

  /** At most one answer meets `Extracts`. */
  lemma {:induction false} ExtractsUnique(raw: seq<Byte>, r: Option<seq<Byte>>, r': Option<seq<Byte>>)
    requires Extracts(raw, r) && Extracts(raw, r')
    ensures r == r'
  {
    if r.Some? && r'.Some? {
      var a: nat :| FirstBrace(raw, a) && r.value <= raw[a..] && Complete(r.value);
      var b: nat :| FirstBrace(raw, b) && r'.value <= raw[b..] && Complete(r'.value);
      assert a == b;
      if |r.value| <= |r'.value| {
        CompleteNotProper(r.value, r'.value);
      } else {
        CompleteNotProper(r'.value, r.value);
      }
    } else if r.Some? {
      NoneExcludesSome(raw, r.value);
    } else if r'.Some? {
      NoneExcludesSome(raw, r'.value);
    }
  }

  lemma {:induction false} CompleteNotProper(s: seq<Byte>, t: seq<Byte>)
    requires Complete(s) && Complete(t) && s <= t
    ensures s == t
  {
    assert t[..|s|] == s;
  }

  lemma {:induction false} NoneExcludesSome(raw: seq<Byte>, slice: seq<Byte>)
    requires Extracts(raw, Some(slice))
    ensures !Extracts(raw, None)
  {
    var start: nat :| FirstBrace(raw, start) && slice <= raw[start..] && Complete(slice);
    assert raw[start..start + |slice|] == slice;
  }

  // ----- the scanner -----

  datatype Scan = Scan(depth: int, inString: bool, escaped: bool)

  const Outside := Scan(0, false, false)

  function Feed(st: Scan, b: Byte): Scan {
    if st.inString then
      if st.escaped then st.(escaped := false)
      else if b == BACKSLASH then st.(escaped := true)
      else if b == QUOTE then st.(inString := false)
      else st
    else if b == QUOTE then st.(inString := true)
    else if b == LBRACE then st.(depth := st.depth + 1)
    else if b == RBRACE then st.(depth := st.depth - 1)
    else st
  }

  function FeedAll(st: Scan, s: seq<Byte>): Scan
    decreases |s|
  {
    if s == [] then st else FeedAll(Feed(st, s[0]), s[1..])
  }

  lemma {:induction false} FeedConcat(st: Scan, s: seq<Byte>, t: seq<Byte>)
    ensures FeedAll(st, s + t) == FeedAll(FeedAll(st, s), t)
    decreases |s|
  {
    if s == [] {
      assert s + t == t;
    } else {
      assert (s + t)[1..] == s[1..] + t;
      FeedConcat(Feed(st, s[0]), s[1..], t);
    }
  }

  lemma {:induction false} FeedShift(st: Scan, s: seq<Byte>, shift: int)
    ensures FeedAll(st.(depth := st.depth + shift), s) == FeedAll(st, s).(depth := FeedAll(st, s).depth + shift)
    decreases |s|
  {
    if s != [] {
      FeedShift(Feed(st, s[0]), s[1..], shift);
    }
  }

  lemma {:induction false} FeedString(d: int, s: seq<Byte>)
    ensures FeedAll(Scan(d, true, false), s).depth == FeedAll(Scan(d, false, false), AfterString(s)).depth
  {
    if s == [] {
    } else if s[0] == BACKSLASH {
      if |s| > 1 {
        assert s[1..][1..] == s[2..];
        FeedString(d, s[2..]);
      }
    } else if s[0] != QUOTE {
      FeedString(d, s[1..]);
    }
  }

  /** The scanner's depth is the nesting of the text it has read. */
  lemma {:induction false} DepthIsNesting(d: int, s: seq<Byte>)
    ensures FeedAll(Scan(d, false, false), s).depth == d + Nesting(s)
    decreases |s|
  {
    if s == [] {
    } else if s[0] == QUOTE {
      FeedString(d, s[1..]);
      DepthIsNesting(d, AfterString(s[1..]));
    } else {
      var d' := Feed(Scan(d, false, false), s[0]).depth;
      DepthIsNesting(d', s[1..]);
      assert Code(s)[1..] == Code(s[1..]);
    }
  }

  method ExtractJsonObject(raw: seq<Byte>) returns (r: Option<seq<Byte>>)
    ensures Extracts(raw, r)
  {
    var start := 0;
    while start < |raw| && raw[start] != LBRACE
      invariant 0 <= start <= |raw|
      invariant LBRACE !in raw[..start]
    {
      start := start + 1;
    }
    if start == |raw| {
      return None;
    }
    var depth: nat := 0;
    var inString, escaped := false, false;
    for i := start to |raw|
      invariant Scan(depth, inString, escaped) == FeedAll(Outside, raw[start..i])
      invariant forall k | start < k <= i :: Nesting(raw[start..k]) > 0
    {
      var c := raw[i];
      assert raw[start..i + 1] == raw[start..i] + [c];
      FeedConcat(Outside, raw[start..i], [c]);
      DepthIsNesting(0, raw[start..i]);
      DepthIsNesting(0, raw[start..i + 1]);
      if inString {
        if escaped {
          escaped := false;
        } else if c == BACKSLASH {
          escaped := true;
        } else if c == QUOTE {
          inString := false;
        }
      } else if c == QUOTE {
        inString := true;
      } else if c == LBRACE {
        depth := depth + 1;
      } else if c == RBRACE {
        depth := depth - 1;
        if depth == 0 {
          CompleteSlice(raw, start, i + 1);
          return Some(raw[start..i + 1]);
        }
      }
    }
    forall b: nat, k | FirstBrace(raw, b) && b < k <= |raw| ensures Nesting(raw[b..k]) > 0 {
      assert b == start;
    }
    return None;
  }

  lemma {:induction false} CompleteSlice(raw: seq<Byte>, start: nat, end: nat)
    requires FirstBrace(raw, start) && start < end <= |raw|
    requires Nesting(raw[start..end]) == 0
    requires forall k | start < k < end :: Nesting(raw[start..k]) > 0
    ensures Extracts(raw, Some(raw[start..end]))
  {
    var slice := raw[start..end];
    forall k | 0 < k < |slice| ensures Nesting(slice[..k]) > 0 {
      assert slice[..k] == raw[start..start + k];
    }
    assert slice <= raw[start..];
  }
}
