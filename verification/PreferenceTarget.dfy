/**
  Preference targets and their comparison keys.

  A target is lowered, split into words at every character that is not alphanumeric, and
  stripped of one leading article; the words are joined by single spaces.  Lowering and the
  classification of characters are the Unicode library's and are parameters here.
 */
module PreferenceTarget {
  // ----- words -----

  predicate AllAre(s: string, p: char -> bool) {
    forall i | 0 <= i < |s| :: p(s[i])
  }

  predicate NoneAre(s: string, p: char -> bool) {
    forall i | 0 <= i < |s| :: !p(s[i])
  }

  predicate EndsInWord(s: string, alnum: char -> bool) {
    s != [] && alnum(s[|s| - 1])
  }

  /** The maximal runs of alphanumeric characters, in order. */
  function Words(s: string, alnum: char -> bool): (ws: seq<string>)
    ensures EndsInWord(s, alnum) ==> ws != []
  {
    if s == [] then []
    else
      var (p, c) := (s[..|s| - 1], s[|s| - 1]);
      if !alnum(c) then Words(p, alnum)
      else if EndsInWord(p, alnum) then
        var ws := Words(p, alnum);
        ws[..|ws| - 1] + [ws[|ws| - 1] + [c]]
      else Words(p, alnum) + [[c]]
  }

  predicate AreWords(ws: seq<string>, alnum: char -> bool) {
    forall i | 0 <= i < |ws| :: ws[i] != [] && AllAre(ws[i], alnum)
  }

  /** Separators around words: none is alphanumeric, and those between words are not empty. */
  predicate AreSeparators(seps: seq<string>, n: nat, alnum: char -> bool) {
    && |seps| == n + 1
    && (forall i | 0 <= i < |seps| :: NoneAre(seps[i], alnum))
    && (forall i | 0 < i < n :: seps[i] != [])
  }

  function Assemble(seps: seq<string>, ws: seq<string>): string
    requires |seps| == |ws| + 1
  {
    if ws == [] then seps[0]
    else Assemble(seps[..|ws|], ws[..|ws| - 1]) + ws[|ws| - 1] + seps[|ws|]
  }

  lemma {:induction false} SeparatorsAddNothing(a: string, sep: string, alnum: char -> bool)
    requires NoneAre(sep, alnum)
    ensures Words(a + sep, alnum) == Words(a, alnum)
    ensures sep != [] ==> !EndsInWord(a + sep, alnum)
  {
    if sep == [] {
      assert a + sep == a;
    } else {
      var init := sep[..|sep| - 1];
      assert (a + sep)[..|a + sep| - 1] == a + init;
      SeparatorsAddNothing(a, init, alnum);
    }
  }

  lemma {:induction false} WordIsAdded(a: string, w: string, alnum: char -> bool)
    requires w != [] && AllAre(w, alnum) && !EndsInWord(a, alnum)
    ensures Words(a + w, alnum) == Words(a, alnum) + [w]
  {
    var init := w[..|w| - 1];
    assert (a + w)[..|a + w| - 1] == a + init;
    if init == [] {
      assert a + init == a && w == [w[0]];
    } else {
      WordIsAdded(a, init, alnum);
      assert w == init + [w[|w| - 1]];
    }
  }

  lemma {:induction false} AnotherWord(a: string, w: string, sep: string, alnum: char -> bool)
    requires w != [] && AllAre(w, alnum) && NoneAre(sep, alnum) && !EndsInWord(a, alnum)
    ensures Words(a + w + sep, alnum) == Words(a, alnum) + [w]
    ensures sep != [] ==> !EndsInWord(a + w + sep, alnum)
  {
    WordIsAdded(a, w, alnum);
    SeparatorsAddNothing(a + w, sep, alnum);
  }

  /** Whatever the separators are, the words of an assembled text are the words put in. */
  lemma {:induction false} WordsOfAssembled(seps: seq<string>, ws: seq<string>, alnum: char -> bool)
    requires AreWords(ws, alnum) && AreSeparators(seps, |ws|, alnum)
    ensures Words(Assemble(seps, ws), alnum) == ws
    ensures seps[|ws|] != [] || ws == [] ==> !EndsInWord(Assemble(seps, ws), alnum)
  {
    if ws == [] {
      SeparatorsAddNothing([], seps[0], alnum);
      assert [] + seps[0] == seps[0];
    } else {
      var n := |ws| - 1;
      WordsOfAssembled(seps[..n + 1], ws[..n], alnum);
      AnotherWord(Assemble(seps[..n + 1], ws[..n]), ws[n], seps[n + 1], alnum);
      assert ws == ws[..n] + [ws[n]];
    }
  }

  /** The separators of a text. */
  function Separators(s: string, alnum: char -> bool): (seps: seq<string>)
    ensures seps != []
  {
    if s == [] then [[]]
    else
      var (p, c) := (s[..|s| - 1], s[|s| - 1]);
      var seps := Separators(p, alnum);
      if !alnum(c) then seps[..|seps| - 1] + [seps[|seps| - 1] + [c]]
      else if EndsInWord(p, alnum) then seps
      else seps + [[]]
  }

  predicate IsSplit(s: string, ws: seq<string>, seps: seq<string>, alnum: char -> bool) {
    && AreWords(ws, alnum) && AreSeparators(seps, |ws|, alnum)
    && Assemble(seps, ws) == s
    && (EndsInWord(s, alnum) <==> ws != [] && seps[|ws|] == [])
  }

  /** Every text is its words put back between separators, so the words lose nothing else. */
  lemma {:induction false} TextIsAssembled(s: string, alnum: char -> bool)
    ensures IsSplit(s, Words(s, alnum), Separators(s, alnum), alnum)
  {
    if s != [] {
      var (p, c) := (s[..|s| - 1], s[|s| - 1]);
      var (ws, seps) := (Words(p, alnum), Separators(p, alnum));
      assert s == p + [c];
      TextIsAssembled(p, alnum);
      if !alnum(c) {
        LongerSeparator(p, c, ws, seps, alnum);
      } else if EndsInWord(p, alnum) {
        LongerWord(p, c, ws, seps, alnum);
      } else {
        NewWord(p, c, ws, seps, alnum);
      }
    }
  }

  lemma {:induction false} AssembleSnoc(seps: seq<string>, sep: string, ws: seq<string>, w: string)
    requires |seps| == |ws| + 1
    ensures Assemble(seps + [sep], ws + [w]) == Assemble(seps, ws) + w + sep
  {
    assert (seps + [sep])[..|ws| + 1] == seps && (ws + [w])[..|ws|] == ws;
  }

  lemma {:induction false} LongerSeparator(p: string, c: char, ws: seq<string>, seps: seq<string>, alnum: char -> bool)
    requires IsSplit(p, ws, seps, alnum) && !alnum(c)
    ensures IsSplit(p + [c], ws, seps[..|seps| - 1] + [seps[|seps| - 1] + [c]], alnum)
  {
    var n := |ws|;
    if n > 0 {
      var (init, sep, w) := (seps[..n], seps[n], ws[n - 1]);
      assert seps == init + [sep] && ws == ws[..n - 1] + [w];
      AssembleSnoc(init, sep, ws[..n - 1], w);
      AssembleSnoc(init, sep + [c], ws[..n - 1], w);
      assert Assemble(init, ws[..n - 1]) + w + (sep + [c]) == p + [c];
    }
  }

  lemma {:induction false} LongerWord(p: string, c: char, ws: seq<string>, seps: seq<string>, alnum: char -> bool)
    requires IsSplit(p, ws, seps, alnum) && alnum(c) && EndsInWord(p, alnum)
    ensures IsSplit(p + [c], ws[..|ws| - 1] + [ws[|ws| - 1] + [c]], seps, alnum)
  {
    var n := |ws|;
    var (init, w) := (ws[..n - 1], ws[n - 1]);
    assert ws == init + [w] && seps == seps[..n] + [[]];
    AssembleSnoc(seps[..n], [], init, w);
    AssembleSnoc(seps[..n], [], init, w + [c]);
    assert Assemble(seps[..n], init) + (w + [c]) + [] == p + [c];
  }

  lemma {:induction false} NewWord(p: string, c: char, ws: seq<string>, seps: seq<string>, alnum: char -> bool)
    requires IsSplit(p, ws, seps, alnum) && alnum(c) && !EndsInWord(p, alnum)
    ensures IsSplit(p + [c], ws + [[c]], seps + [[]], alnum)
  {
    AssembleSnoc(seps, [], ws, [c]);
    assert p + [c] + [] == p + [c];
  }

  // ----- the key -----

  /** Words joined by single spaces. */
  function Spaced(ws: seq<string>): string {
    if ws == [] then [] else if |ws| == 1 then ws[0] else Spaced(ws[..|ws| - 1]) + " " + ws[|ws| - 1]
  }

  predicate IsArticle(w: string) {
    w == "the" || w == "a" || w == "an" || w == "my"
  }

  /** The words without one leading article, which is dropped only when another word follows. */
  function Stripped(ws: seq<string>): seq<string> {
    if |ws| >= 2 && IsArticle(ws[0]) then ws[1..] else ws
  }

  function NormalForm(lowered: string, alnum: char -> bool): string {
    Spaced(Stripped(Words(lowered, alnum)))
  }

  function Gaps(n: nat): seq<string> {
    if n == 0 then [[]] else seq(n + 1, i => if i == 0 || i == n then [] else " ")
  }

  lemma {:induction false} SpacedIsAssembled(ws: seq<string>, seps: seq<string>)
    requires |seps| == |ws| + 1 && seps[0] == [] && forall i | 0 < i < |ws| :: seps[i] == " "
    ensures Assemble(seps, ws) == Spaced(ws) + if ws == [] then [] else seps[|ws|]
  {
    if |ws| >= 1 {
      SpacedIsAssembled(ws[..|ws| - 1], seps[..|ws|]);
    }
    if |ws| == 1 {
      assert [] + ws[0] == ws[0];
    }
  }

  lemma {:induction false} WordsOfSpaced(ws: seq<string>, alnum: char -> bool)
    requires AreWords(ws, alnum) && !alnum(' ')
    ensures Words(Spaced(ws), alnum) == ws
  {
    var seps := Gaps(|ws|);
    SpacedIsAssembled(ws, seps);
    WordsOfAssembled(seps, ws, alnum);
    assert Assemble(seps, ws) == Spaced(ws);
  }

  /** Two targets share a key exactly when their words agree up to one leading article. */
  lemma {:induction false} SameKeyExactly(a: string, b: string, alnum: char -> bool)
    requires !alnum(' ')
    ensures NormalForm(a, alnum) == NormalForm(b, alnum) <==> Stripped(Words(a, alnum)) == Stripped(Words(b, alnum))
  {
    TextIsAssembled(a, alnum);
    TextIsAssembled(b, alnum);
    WordsOfSpaced(Stripped(Words(a, alnum)), alnum);
    WordsOfSpaced(Stripped(Words(b, alnum)), alnum);
  }

  /** Of two words the first is dropped exactly when it is one of the four articles. */
  lemma {:induction false} TwoWords(first: string, second: string, alnum: char -> bool)
    requires !alnum(' ') && AreWords([first, second], alnum)
    ensures NormalForm(first + " " + second, alnum) ==
            if first in ["the", "a", "an", "my"] then second else first + " " + second
  {
    var ws := [first, second];
    assert ws[..1] == [first] && ws[1..] == [second];
    assert Spaced(ws) == first + " " + second;
    WordsOfSpaced(ws, alnum);
  }

  /** The key of a target as written: lowered, then normalised. */
  function Normalized(target: string, lower: string -> string, alnum: char -> bool): string {
    NormalForm(lower(target), alnum)
  }

  /**
    For a key that lowering leaves alone, normalising again changes it exactly when the
    target began with two articles and a further word.
   */
  lemma {:induction false} NormalizedAgain(target: string, lower: string -> string, alnum: char -> bool)
    requires !alnum(' ')
    requires lower(Normalized(target, lower, alnum)) == Normalized(target, lower, alnum)
    ensures var key, ws := Normalized(target, lower, alnum), Words(lower(target), alnum);
            Normalized(key, lower, alnum) == key <==> !(|ws| >= 3 && IsArticle(ws[0]) && IsArticle(ws[1]))
  {
    var ws := Words(lower(target), alnum);
    TextIsAssembled(lower(target), alnum);
    WordsOfSpaced(Stripped(ws), alnum);
    WordsOfSpaced(Stripped(Stripped(ws)), alnum);
  }

  /** Normalising is not idempotent: of two leading articles only one goes at a time. */
  lemma {:induction false} TwoArticles(noun: string, lower: string -> string, alnum: char -> bool)
    requires !alnum(' ') && AreWords(["the", "the", noun], alnum)
    requires lower(Spaced(["the", "the", noun])) == Spaced(["the", "the", noun])
    requires lower(Spaced(["the", noun])) == Spaced(["the", noun])
    ensures var s := Spaced(["the", "the", noun]);
            Normalized(Normalized(s, lower, alnum), lower, alnum) != Normalized(s, lower, alnum)
  {
    var ws := ["the", "the", noun];
    WordsOfSpaced(ws, alnum);
    assert Stripped(ws) == ["the", noun];
    NormalizedAgain(Spaced(ws), lower, alnum);
  }

  // ----- the loop -----

  lemma {:induction false} SpacedFront(ws: seq<string>)
    requires |ws| >= 2
    ensures Spaced(ws) == ws[0] + (" " + Spaced(ws[1..]))
  {
    var n := |ws| - 1;
    if n == 1 {
      assert ws[..1] == [ws[0]] && ws[1..] == [ws[1]];
      assert Spaced(ws) == ws[0] + " " + ws[1];
      assert ws[0] + " " + ws[1] == ws[0] + (" " + ws[1]);
    } else {
      SpacedFront(ws[..n]);
      assert ws[1..][..n - 1] == ws[..n][1..];
      var mid := Spaced(ws[..n][1..]);
      assert Spaced(ws[1..]) == mid + " " + ws[n];
      assert Spaced(ws) == (ws[0] + (" " + mid)) + " " + ws[n];
      assert (ws[0] + (" " + mid)) + " " + ws[n] == ws[0] + (" " + (mid + " " + ws[n]));
    }
  }

  /** The first space of a joined text ends its first word. */
  lemma {:induction false} FirstSpace(w: string, rest: string, article: string)
    requires ' ' !in w && ' ' !in article && article + " " <= w + (" " + rest)
    ensures w == article
  {
    var (t, n) := (w + (" " + rest), |article|);
    assert t[n] == (article + " ")[n] == ' ';
    assert n >= |w|;
    assert t[|w|] == ' ' == (article + " ")[|w|];
    assert w == t[..n] && article == (article + " ")[..n];
  }

  lemma {:induction false} ManyWords(ws: seq<string>, article: string, alnum: char -> bool)
    requires |ws| >= 2 && AreWords(ws, alnum) && !alnum(' ') && ' ' !in article
    ensures article + " " <= Spaced(ws) <==> ws[0] == article
    ensures ws[0] == article ==> Spaced(ws)[|article| + 1..] == Spaced(ws[1..])
  {
    SpacedFront(ws);
    var rest := Spaced(ws[1..]);
    assert ws[0] + (" " + rest) == (ws[0] + " ") + rest;
    if article + " " <= Spaced(ws) {
      FirstSpace(ws[0], rest, article);
    }
  }

  lemma {:induction false} OneWord(w: string, article: string, alnum: char -> bool)
    requires AllAre(w, alnum) && !alnum(' ')
    ensures !(article + " " <= w)
  {
    var t := article + " ";
    assert t[|article|] == ' ';
    assert |article| < |w| ==> w[|article|] != ' ';
  }

  lemma {:induction false} SpacedSnoc(ws: seq<string>, w: string)
    ensures Spaced(ws + [w]) == if ws == [] then w else Spaced(ws) + " " + w
  {
    assert (ws + [w])[..|ws|] == ws;
  }

  lemma {:induction false} SpacedExtends(ws: seq<string>, w: string, c: char)
    ensures Spaced(ws + [w + [c]]) == Spaced(ws + [w]) + [c]
  {
    SpacedSnoc(ws, w);
    SpacedSnoc(ws, w + [c]);
    assert Spaced(ws) + " " + (w + [c]) == Spaced(ws) + " " + w + [c];
  }

  /** What one character adds to the joined words. */
  lemma {:induction false} SpacedGrows(p: string, c: char, alnum: char -> bool)
    ensures var ws := Words(p, alnum);
            Spaced(Words(p + [c], alnum)) == Spaced(ws) +
              if !alnum(c) then [] else if EndsInWord(p, alnum) || ws == [] then [c] else [' ', c]
  {
    var ws := Words(p, alnum);
    assert (p + [c])[..|p|] == p;
    if alnum(c) {
      if EndsInWord(p, alnum) {
        assert ws == ws[..|ws| - 1] + [ws[|ws| - 1]];
        SpacedExtends(ws[..|ws| - 1], ws[|ws| - 1], c);
      } else {
        SpacedSnoc(ws, [c]);
        assert Spaced(ws) + " " + [c] == Spaced(ws) + [' ', c];
      }
    }
  }

  lemma {:induction false} SpacedEmpty(ws: seq<string>, alnum: char -> bool)
    requires AreWords(ws, alnum)
    ensures Spaced(ws) == [] <==> ws == []
  {
  }

  method NormalizePreferenceTarget(lowered: string, alnum: char -> bool) returns (r: string)
    requires !alnum(' ')
    ensures r == NormalForm(lowered, alnum)
  {
    var normalized: string := [];
    var pendingSpace := false;
    for i := 0 to |lowered|
      invariant normalized == Spaced(Words(lowered[..i], alnum))
      invariant pendingSpace <==> i > 0 && !EndsInWord(lowered[..i], alnum)
    {
      var c := lowered[i];
      ghost var p := lowered[..i];
      assert lowered[..i + 1] == p + [c];
      TextIsAssembled(p, alnum);
      SpacedEmpty(Words(p, alnum), alnum);
      SpacedGrows(p, c, alnum);
      if alnum(c) {
        if pendingSpace && normalized != [] {
          normalized := normalized + [' '];
        }
        pendingSpace := false;
        normalized := normalized + [c];
      } else {
        pendingSpace := true;
      }
    }
    assert lowered[..|lowered|] == lowered;
    TextIsAssembled(lowered, alnum);
    r := StripArticle(normalized, Words(lowered, alnum), alnum);
  }

  method StripArticle(normalized: string, ghost ws: seq<string>, alnum: char -> bool) returns (r: string)
    requires AreWords(ws, alnum) && !alnum(' ') && normalized == Spaced(ws)
    ensures r == Spaced(Stripped(ws))
  {
    var articles := ["the", "a", "an", "my"];
    for k := 0 to |articles|
      invariant forall j | 0 <= j < k :: !(|ws| >= 2 && ws[0] == articles[j])
    {
      if |ws| >= 2 {
        ManyWords(ws, articles[k], alnum);
      } else {
        OneWord(Spaced(ws), articles[k], alnum);
      }
      if articles[k] + " " <= normalized {
        return normalized[|articles[k]| + 1..];
      }
    }
    assert IsArticle(articles[0]) && IsArticle(articles[1]) && IsArticle(articles[2]) && IsArticle(articles[3]);
    return normalized;
  }
}
