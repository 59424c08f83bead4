/**
  String literals of the HirnQL query language: how the Node binding writes them and
  how the engine's parser reads them.
 */
module HirnqlText {
  import opened Options

  // ----- writing: five replacement passes -----

  /** A global replacement of one character. */
  function ReplaceAll(s: string, c: char, replacement: string): string {
    if s == [] then []
    else (if s[0] == c then replacement else [s[0]]) + ReplaceAll(s[1..], c, replacement)
  }

  /** The passes in the order of the program: backslash, quote, newline, tab, carriage return. */
  function EscapePasses(value: string): string {
    ReplaceAll(ReplaceAll(ReplaceAll(ReplaceAll(ReplaceAll(
      value, '\\', "\\\\"), '\"', "\\\""), '\n', "\\n"), '\t', "\\t"), '\r', "\\r")
  }

  function Quote(value: string): string {
    "\"" + EscapePasses(value) + "\""
  }

  /** What one character becomes when all replacements are made at once. */
  function EscapeChar(c: char): string {
    if c == '\\' then "\\\\"
    else if c == '\"' then "\\\""
    else if c == '\n' then "\\n"
    else if c == '\t' then "\\t"
    else if c == '\r' then "\\r"
    else [c]
  }

  function Escape(value: string): string {
    if value == [] then [] else EscapeChar(value[0]) + Escape(value[1..])
  }

  lemma {:induction false} ReplaceConcat(s: string, t: string, c: char, r: string)
    ensures ReplaceAll(s + t, c, r) == ReplaceAll(s, c, r) + ReplaceAll(t, c, r)
  {
    if s == [] {
      assert s + t == t;
    } else {
      assert (s + t)[1..] == s[1..] + t;
      ReplaceConcat(s[1..], t, c, r);
    }
  }

  lemma {:induction false} PassesConcat(s: string, t: string)
    ensures EscapePasses(s + t) == EscapePasses(s) + EscapePasses(t)
  {
    ReplaceConcat(s, t, '\\', "\\\\");
    var s1, t1 := ReplaceAll(s, '\\', "\\\\"), ReplaceAll(t, '\\', "\\\\");
    ReplaceConcat(s1, t1, '\"', "\\\"");
    var s2, t2 := ReplaceAll(s1, '\"', "\\\""), ReplaceAll(t1, '\"', "\\\"");
    ReplaceConcat(s2, t2, '\n', "\\n");
    var s3, t3 := ReplaceAll(s2, '\n', "\\n"), ReplaceAll(t2, '\n', "\\n");
    ReplaceConcat(s3, t3, '\t', "\\t");
    ReplaceConcat(ReplaceAll(s3, '\t', "\\t"), ReplaceAll(t3, '\t', "\\t"), '\r', "\\r");
  }

  lemma {:induction false} ReplaceOne(c: char, d: char, r: string)
    ensures ReplaceAll([c], d, r) == if c == d then r else [c]
  {
    assert ReplaceAll([], d, r) == [];
  }

  lemma {:induction false} ReplaceTwo(a: char, b: char, d: char, r: string)
    requires a != d && b != d
    ensures ReplaceAll([a, b], d, r) == [a, b]
  {
    assert [a, b][1..] == [b];
    ReplaceOne(b, d, r);
  }

  lemma {:induction false} PassesOne(c: char)
    ensures EscapePasses([c]) == EscapeChar(c)
  {
    ReplaceOne(c, '\\', "\\\\");
    ReplaceOne(c, '\"', "\\\"");
    ReplaceOne(c, '\n', "\\n");
    ReplaceOne(c, '\t', "\\t");
    ReplaceOne(c, '\r', "\\r");
    ReplaceTwo('\\', '\\', '\"', "\\\"");
    ReplaceTwo('\\', '\\', '\n', "\\n");
    ReplaceTwo('\\', '\\', '\t', "\\t");
    ReplaceTwo('\\', '\\', '\r', "\\r");
    ReplaceTwo('\\', '\"', '\n', "\\n");
    ReplaceTwo('\\', '\"', '\t', "\\t");
    ReplaceTwo('\\', '\"', '\r', "\\r");
    ReplaceTwo('\\', 'n', '\t', "\\t");
    ReplaceTwo('\\', 'n', '\r', "\\r");
    ReplaceTwo('\\', 't', '\r', "\\r");
  }

  /** The five passes, one after the other, are one simultaneous replacement. */
  lemma {:induction false} PassesAreEscape(value: string)
    ensures EscapePasses(value) == Escape(value)
  {
    if value != [] {
      assert value == [value[0]] + value[1..];
      PassesConcat([value[0]], value[1..]);
      PassesOne(value[0]);
      PassesAreEscape(value[1..]);
    }
  }

  // ----- reading -----

  predicate IsEscapable(c: char) {
    c == '\"' || c == '\'' || c == '\\' || c == 'n' || c == 't' || c == 'r'
  }

  /** Length of the longest run of escape sequences and ordinary characters before the closing quote `q`. */
  function InnerLength(s: string, q: char): (n: nat)
    ensures n <= |s|
  {
    if s == [] || s[0] == q then 0
    else if s[0] == '\\' then
      if |s| > 1 && IsEscapable(s[1]) then 2 + InnerLength(s[2..], q) else 0
    else 1 + InnerLength(s[1..], q)
  }

  function Unescaped(c: char): Option<char> {
    if c == 'n' then Some('\n')
    else if c == 't' then Some('\t')
    else if c == 'r' then Some('\r')
    else if c == '\\' || c == '\"' || c == '\'' then Some(c)
    else None
  }

  /** Resolves escape sequences; a lone backslash at the end stands for itself. */
  function Unescape(s: string): Option<string> {
    if s == [] then Some([])
    else if s[0] == '\\' then
      if |s| == 1 then Some("\\")
      else
        var c, rest := Unescaped(s[1]), Unescape(s[2..]);
        if c.Some? && rest.Some? then Some([c.value] + rest.value) else None
    else
      var rest := Unescape(s[1..]);
      if rest.Some? then Some([s[0]] + rest.value) else None
  }

  function Prepend(s: string, r: Option<string>): Option<string> {
    if r.Some? then Some(s + r.value) else None
  }

  lemma {:induction false} PrependTwice(s: string, c: char, r: Option<string>)
    ensures Prepend(s, Prepend([c], r)) == Prepend(s + [c], r)
  {
    if r.Some? {
      assert s + ([c] + r.value) == s + [c] + r.value;
    }
  }

  /** What the loop consumes from `t`, and what it appends for it. */
  lemma {:induction false} UnescapeStep(t: string)
    requires t != []
    ensures t[0] != '\\' ==> Unescape(t) == Prepend([t[0]], Unescape(t[1..]))
    ensures t == "\\" ==> Unescape(t) == Prepend("\\", Unescape([]))
    ensures t[0] == '\\' && |t| > 1 ==>
              Unescape(t) == if Unescaped(t[1]).Some? then Prepend([Unescaped(t[1]).value], Unescape(t[2..])) else None
  {
    assert Unescape([]) == Some([]) && "\\" + [] == "\\";
  }

  method UnescapeString(s: string) returns (r: Option<string>)
    ensures r == Unescape(s)
  {
    var out := "";
    var i := 0;
    assert s[0..] == s;
    assert Unescape(s).Some? ==> [] + Unescape(s).value == Unescape(s).value;
    while i < |s|
      invariant 0 <= i <= |s|
      invariant Unescape(s) == Prepend(out, Unescape(s[i..]))
    {
      var c := s[i];
      ghost var t := s[i..];
      UnescapeStep(t);
      assert t[1..] == s[i + 1..];
      i := i + 1;
      if c == '\\' {
        if i == |s| {
          assert t == "\\" && s[i..] == [];
          PrependTwice(out, c, Unescape([]));
          out := out + "\\";
        } else {
          assert t[1] == s[i] && t[2..] == s[i + 1..];
          var u := Unescaped(s[i]);
          if u.None? {
            return None;
          }
          PrependTwice(out, u.value, Unescape(s[i + 1..]));
          out := out + [u.value];
          i := i + 1;
        }
      } else {
        PrependTwice(out, c, Unescape(s[i..]));
        out := out + [c];
      }
    }
    assert s[i..] == [];
    assert out + [] == out;
    r := Some(out);
  }

  /** A quoted literal at the start of `s`, resolved, and what follows it. */
  function Quoted(s: string, q: char): Option<(string, string)> {
    if s == [] || s[0] != q then None
    else
      var n := InnerLength(s[1..], q);
      if 1 + n < |s| && s[1 + n] == q && Unescape(s[1..1 + n]).Some?
      then Some((Unescape(s[1..1 + n]).value, s[2 + n..]))
      else None
  }

  /** A double-quoted or else a single-quoted literal. */
  function StringLiteral(s: string): Option<(string, string)> {
    if Quoted(s, '\"').Some? then Quoted(s, '\"') else Quoted(s, '\'')
  }

  /** The grammar only lets known escape sequences through, so resolving them never fails. */
  lemma {:induction false} InnerResolves(s: string, q: char)
    ensures Unescape(s[..InnerLength(s, q)]).Some?
  {
    var n := InnerLength(s, q);
    if n > 0 {
      var m := if s[0] == '\\' then 2 else 1;
      InnerResolves(s[m..], q);
      assert s[..n][m..] == s[m..][..n - m];
    }
  }

  // ----- round trip -----

  lemma {:induction false} EscapeIsInner(value: string, rest: string)
    ensures InnerLength(Escape(value) + "\"" + rest, '\"') == |Escape(value)|
  {
    var s := Escape(value) + "\"" + rest;
    if value != [] {
      var e := EscapeChar(value[0]);
      EscapeIsInner(value[1..], rest);
      assert s[|e|..] == Escape(value[1..]) + "\"" + rest;
    }
  }

  /** The escape has a left inverse. */
  lemma {:induction false} EscapeResolves(value: string)
    ensures Unescape(Escape(value)) == Some(value)
  {
    if value != [] {
      var e := EscapeChar(value[0]);
      EscapeResolves(value[1..]);
      assert Escape(value)[|e|..] == Escape(value[1..]);
      assert value == [value[0]] + value[1..];
    }
  }

  /** The engine reads back exactly the string the binding quoted, whatever follows it. */
  lemma {:induction false} QuoteReadsBack(value: string, rest: string)
    ensures StringLiteral(Quote(value) + rest) == Some((value, rest))
  {
    PassesAreEscape(value);
    var s := Quote(value) + rest;
    var n := |Escape(value)|;
    assert s[1..] == Escape(value) + "\"" + rest;
    EscapeIsInner(value, rest);
    assert s[1..1 + n] == Escape(value) && s[2 + n..] == rest;
    EscapeResolves(value);
  }

  /** So quoted literals are self-delimiting: two texts that start alike were quoted from the same string. */
  lemma {:induction false} QuoteSelfDelimiting(v: string, rest: string, v': string, rest': string)
    requires Quote(v) + rest == Quote(v') + rest'
    ensures v == v' && rest == rest'
  {
    QuoteReadsBack(v, rest);
    QuoteReadsBack(v', rest');
  }
}
