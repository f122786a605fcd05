/**
  The text half of `applyFixtures` (`agent/src/playwrightConfig.ts`): a source is split at the single-quoted
  module name and joined with the new specifier, then the same with double quotes. The statements hold for any
  module name and specifier without quote characters.
 */
module FixtureRewrite {
  // ---------------------------------------------------------------------------
  // split and join
  // ---------------------------------------------------------------------------

  /** `s.split(pattern)`: occurrences are taken from the left and do not overlap. */
  function SplitAt(s: string, pattern: string): (r: seq<string>)
    requires pattern != ""
    ensures r != []
    decreases |s|
  {
    if pattern <= s then [""] + SplitAt(s[|pattern|..], pattern)
    else if s == "" then [""]
    else
      var r := SplitAt(s[1..], pattern);
      [[s[0]] + r[0]] + r[1..]
  }

  function JoinWith(parts: seq<string>, separator: string): string {
    if parts == [] then ""
    else if |parts| == 1 then parts[0]
    else parts[0] + separator + JoinWith(parts[1..], separator)
  }

  function Replace(s: string, pattern: string, instead: string): string
    requires pattern != ""
  {
    JoinWith(SplitAt(s, pattern), instead)
  }

  function Quoted(q: char, name: string): string {
    [q] + name + [q]
  }

  /** The two passes of the source. */
  function Rewrite(s: string, name: string, specifier: string): string {
    Replace(Replace(s, Quoted('\'', name), Quoted('\'', specifier)), Quoted('"', name), Quoted('"', specifier))
  }

  // ---------------------------------------------------------------------------
  // One pass over the text
  // ---------------------------------------------------------------------------

  predicate IsQuote(c: char) {
    c == '\'' || c == '"'
  }

  predicate NoQuotes(s: string) {
    forall i :: 0 <= i < |s| ==> !IsQuote(s[i])
  }

  /** A source text as characters and whole quoted module names. */
  datatype Piece = Plain(c: char) | Import(quote: char)

  function Pieces(s: string, name: string): seq<Piece>
    decreases |s|
  {
    if s == "" then []
    else if Quoted('\'', name) <= s then [Import('\'')] + Pieces(s[|name| + 2..], name)
    else if Quoted('"', name) <= s then [Import('"')] + Pieces(s[|name| + 2..], name)
    else [Plain(s[0])] + Pieces(s[1..], name)
  }

  /** The text again, with `one` in single-quoted imports and `two` in double-quoted ones. */
  function Text(p: seq<Piece>, one: string, two: string): string {
    if p == [] then ""
    else
      (match p[0] case Plain(c) => [c] case Import(q) => Quoted(q, if q == '\'' then one else two))
      + Text(p[1..], one, two)
  }

  /** The text of one piece, and what `Text` makes of it in front of others. */
  lemma TextStep(p: Piece, rest: seq<Piece>, one: string, two: string)
    ensures Text([p] + rest, one, two)
         == (match p case Plain(c) => [c] case Import(q) => Quoted(q, if q == '\'' then one else two))
            + Text(rest, one, two)
  {
    hide Quoted;
    assert ([p] + rest)[1..] == rest;
  }

  lemma {:induction false} PiecesText(s: string, name: string)
    ensures Text(Pieces(s, name), name, name) == s
    decreases |s|, 1
  {
    hide Text;
    if s == "" {
      NoPieces(name);
    } else if Quoted('\'', name) <= s {
      QuotedPiece('\'', s, name);
    } else if Quoted('"', name) <= s {
      QuotedPiece('"', s, name);
    } else {
      var rest := s[1..];
      PiecesText(rest, name);
      TextStep(Plain(s[0]), Pieces(rest, name), name, name);
      assert s == [s[0]] + rest;
    }
  }

  lemma NoPieces(name: string)
    ensures Text(Pieces("", name), name, name) == ""
  {
  }

  lemma {:induction false} QuotedPiece(q: char, s: string, name: string)
    requires IsQuote(q) && Quoted(q, name) <= s
    ensures Text([Import(q)] + Pieces(s[|name| + 2..], name), name, name) == s
    decreases |s|, 0
  {
    hide Text, Pieces;
    var x, rest := Quoted(q, name), s[|name| + 2..];
    PiecesText(rest, name);
    TextStep(Import(q), Pieces(rest, name), name, name);
    assert |x| == |name| + 2 && s == x + rest;
  }

  // ---------------------------------------------------------------------------
  // Replacing piece by piece
  // ---------------------------------------------------------------------------

  lemma ReplaceMatch(s: string, pattern: string, instead: string)
    requires pattern != ""
    ensures Replace(pattern + s, pattern, instead) == instead + Replace(s, pattern, instead)
  {
    assert (pattern + s)[|pattern|..] == s;
    var r := SplitAt(s, pattern);
    assert ([""] + r)[1..] == r;
    assert "" + instead + JoinWith(r, instead) == instead + JoinWith(r, instead);
  }

  lemma ReplaceSkip(c: char, s: string, pattern: string, instead: string)
    requires pattern != "" && !(pattern <= [c] + s)
    ensures Replace([c] + s, pattern, instead) == [c] + Replace(s, pattern, instead)
  {
    assert ([c] + s)[1..] == s;
    var r := SplitAt(s, pattern);
    var t := [[c] + r[0]] + r[1..];
    assert t[1..] == r[1..];
    if |r| > 1 {
      assert [c] + r[0] + instead + JoinWith(r[1..], instead) == [c] + (r[0] + instead + JoinWith(r[1..], instead));
    }
  }

  lemma HeadFirst(x: string, s: string)
    requires x != ""
    ensures x + s == [x[0]] + (x[1..] + s)
  {
  }

  lemma {:induction false} ReplaceSkipAll(x: string, s: string, pattern: string, instead: string)
    requires pattern != "" && pattern[0] !in x
    ensures Replace(x + s, pattern, instead) == x + Replace(s, pattern, instead)
  {
    if x == "" {
      assert x + s == s;
    } else {
      hide Replace;
      ReplaceSkipAll(x[1..], s, pattern, instead);
      HeadFirst(x, s);
      ReplaceSkip(x[0], x[1..] + s, pattern, instead);
      HeadFirst(x, Replace(s, pattern, instead));
    }
  }

  /** The first pass replaces the single-quoted pieces only. */
  lemma {:induction false} FirstPass(s: string, name: string, specifier: string)
    requires NoQuotes(name)
    ensures Replace(s, Quoted('\'', name), Quoted('\'', specifier)) == Text(Pieces(s, name), specifier, name)
    decreases |s|
  {
    var p, instead := Quoted('\'', name), Quoted('\'', specifier);
    if s == "" {
    } else if p <= s {
      FirstPass(s[|name| + 2..], name, specifier);
      assert s == p + s[|name| + 2..];
      ReplaceMatch(s[|name| + 2..], p, instead);
    } else if Quoted('"', name) <= s {
      FirstPass(s[|name| + 2..], name, specifier);
      assert s == Quoted('"', name) + s[|name| + 2..];
      ReplaceSkipAll(Quoted('"', name), s[|name| + 2..], p, instead);
    } else {
      FirstPass(s[1..], name, specifier);
      assert s == [s[0]] + s[1..];
      ReplaceSkip(s[0], s[1..], p, instead);
    }
  }

  /** Quotes only at the end. */
  ghost predicate Bare(x: string) {
    x != "" && forall i :: 0 <= i < |x| - 1 ==> !IsQuote(x[i])
  }

  /** What a text starts with, up to its first quote, does not depend on the module names in it. */
  lemma {:induction false} StartUnchanged(p: seq<Piece>, a: string, b: string, c: string, d: string, x: string)
    requires Bare(x) && forall i :: 0 <= i < |p| && p[i].Import? ==> IsQuote(p[i].quote)
    ensures x <= Text(p, a, b) <==> x <= Text(p, c, d)
  {
    if p != [] && p[0].Plain? {
      var t, u := Text(p[1..], a, b), Text(p[1..], c, d);
      if |x| > 1 {
        StartUnchanged(p[1..], a, b, c, d, x[1..]);
        PrefixCons(x, p[0].c, t);
        PrefixCons(x, p[0].c, u);
      }
    } else if p != [] {
      assert Text(p, a, b)[0] == p[0].quote == Text(p, c, d)[0];
      FirstOnly(x, Text(p, a, b));
      FirstOnly(x, Text(p, c, d));
    }
  }

  lemma FirstOnly(x: string, t: string)
    requires Bare(x) && t != "" && IsQuote(t[0])
    ensures x <= t <==> x == [t[0]]
  {
    if x <= t {
      assert x[0] == t[0];
    }
  }

  lemma PrefixCons(x: string, c: char, t: string)
    requires x != ""
    ensures x <= [c] + t <==> x[0] == c && x[1..] <= t
  {
    assert x == [x[0]] + x[1..];
    assert ([c] + t)[1..] == t;
    if x <= [c] + t {
      assert x[1..] == ([c] + t)[1..|x|] == t[..|x| - 1];
    }
  }

  lemma {:induction false} ImportsQuoted(s: string, name: string)
    ensures forall i :: 0 <= i < |Pieces(s, name)| && Pieces(s, name)[i].Import? ==> IsQuote(Pieces(s, name)[i].quote)
    decreases |s|
  {
    if s == "" {
    } else if Quoted('\'', name) <= s || Quoted('"', name) <= s {
      ImportsQuoted(s[|name| + 2..], name);
    } else {
      ImportsQuoted(s[1..], name);
    }
  }

  /** Rewriting what follows creates no quoted module name after a quote, and destroys none. */
  lemma RestStart(s: string, name: string, one: string, two: string, q: char)
    requires NoQuotes(name) && IsQuote(q)
    ensures name + [q] <= Text(Pieces(s, name), one, two) <==> name + [q] <= s
  {
    ImportsQuoted(s, name);
    PiecesText(s, name);
    StartUnchanged(Pieces(s, name), one, two, name, name, name + [q]);
  }

  /** The second pass replaces the double-quoted pieces of what the first one left. */
  lemma {:induction false} SecondPass(s: string, name: string, specifier: string)
    requires NoQuotes(name) && NoQuotes(specifier)
    ensures Replace(Text(Pieces(s, name), specifier, name), Quoted('"', name), Quoted('"', specifier))
         == Text(Pieces(s, name), specifier, specifier)
    decreases |s|
  {
    var p, instead := Quoted('"', name), Quoted('"', specifier);
    if s == "" {
    } else if Quoted('\'', name) <= s {
      var rest := s[|name| + 2..];
      SecondPass(rest, name, specifier);
      ReplaceSkipAll(Quoted('\'', specifier), Text(Pieces(rest, name), specifier, name), p, instead);
      assert ([Import('\'')] + Pieces(rest, name))[1..] == Pieces(rest, name);
    } else if p <= s {
      var rest := s[|name| + 2..];
      SecondPass(rest, name, specifier);
      ReplaceMatch(Text(Pieces(rest, name), specifier, name), p, instead);
      assert ([Import('"')] + Pieces(rest, name))[1..] == Pieces(rest, name);
    } else {
      SecondPass(s[1..], name, specifier);
      var t := Text(Pieces(s[1..], name), specifier, name);
      NotQuoted(s, name, specifier, name, '"');
      ReplaceSkip(s[0], t, p, instead);
      assert ([Plain(s[0])] + Pieces(s[1..], name))[1..] == Pieces(s[1..], name);
    }
  }

  /** A character that starts no quoted name in the text starts none in the rewritten text. */
  lemma NotQuoted(s: string, name: string, one: string, two: string, q: char)
    requires s != "" && NoQuotes(name) && IsQuote(q) && !(Quoted(q, name) <= s)
    ensures !(Quoted(q, name) <= [s[0]] + Text(Pieces(s[1..], name), one, two))
  {
    RestStart(s[1..], name, one, two, q);
    var x := Quoted(q, name);
    assert x[1..] == name + [q];
    PrefixCons(x, s[0], s[1..]);
    assert [s[0]] + s[1..] == s;
    PrefixCons(x, s[0], Text(Pieces(s[1..], name), one, two));
  }

  /** For every text: only the module names inside quotes change, all other text stays where it is. */
  lemma RewriteChangesModuleOnly(s: string, name: string, specifier: string)
    requires NoQuotes(name) && NoQuotes(specifier)
    ensures Text(Pieces(s, name), name, name) == s
    ensures Text(Pieces(s, name), specifier, specifier) == Rewrite(s, name, specifier)
  {
    PiecesText(s, name);
    FirstPass(s, name, specifier);
    SecondPass(s, name, specifier);
  }

  // ---------------------------------------------------------------------------
  // When no quoted module name is left
  // ---------------------------------------------------------------------------

  predicate Contains(t: string, x: string) {
    x <= t || (t != "" && Contains(t[1..], x))
  }

  predicate Remains(t: string, name: string) {
    Contains(t, Quoted('\'', name)) || Contains(t, Quoted('"', name))
  }

  /** Two quoted module names share a quote character: the first one's closing quote opens the second. */
  predicate SharesQuote(s: string, name: string)
    decreases |s|
  {
    || SharesHere(s, name, '\'')
    || SharesHere(s, name, '"')
    || (s != "" && SharesQuote(s[1..], name))
  }

  predicate SharesHere(s: string, name: string, q: char) {
    Quoted(q, name) <= s && Quoted(q, name) <= s[|name| + 1..]
  }

  lemma {:induction false} ContainsSkip(x: string, t: string, y: string)
    requires y != "" && y[0] !in x
    ensures Contains(x + t, y) <==> Contains(t, y)
  {
    if x == "" {
      assert x + t == t;
    } else {
      ContainsSkip(x[1..], t, y);
      assert (x + t)[1..] == x[1..] + t;
    }
  }

  lemma {:induction false} SharesSkip(x: string, t: string, name: string)
    requires NoQuotes(x)
    ensures SharesQuote(x + t, name) <==> SharesQuote(t, name)
  {
    if x == "" {
      assert x + t == t;
    } else {
      SharesSkip(x[1..], t, name);
      assert (x + t)[1..] == x[1..] + t;
      assert (x + t)[0] == x[0];
      assert Quoted('\'', name)[0] == '\'' && Quoted('"', name)[0] == '"';
    }
  }

  /** The rewritten import itself is no quoted module name, unless its closing quote opens one. */
  lemma RemainsAfterImport(q: char, t: string, name: string, specifier: string)
    requires NoQuotes(name) && NoQuotes(specifier) && specifier != name && IsQuote(q)
    ensures Remains(Quoted(q, specifier) + t, name) <==> name + [q] <= t || Remains(t, name)
  {
    var out := Quoted(q, specifier) + t;
    assert out[1..] == specifier + ([q] + t);
    DifferentName(q, t, name, specifier);
    forall r | IsQuote(r)
      ensures Contains(out, Quoted(r, name)) <==> (r == q && name + [q] <= t) || Contains(t, Quoted(r, name))
    {
      var x := Quoted(r, name);
      assert x[0] == r && x[1..] == name + [r];
      ContainsSkip(specifier, [q] + t, x);
      PrefixCons(x, q, t);
      assert ([q] + t)[1..] == t;
      assert out == [q] + (specifier + ([q] + t));
      PrefixCons(x, q, specifier + ([q] + t));
    }
  }

  lemma DifferentName(q: char, t: string, name: string, specifier: string)
    requires NoQuotes(name) && NoQuotes(specifier) && specifier != name && IsQuote(q)
    ensures !(name + [q] <= specifier + ([q] + t))
  {
    var x, u := name + [q], specifier + ([q] + t);
    var n := |name|;
    assert u[|specifier|] == q && x[n] == q;
    if n < |specifier| {
      assert u[n] == specifier[n];
    } else if |specifier| < n {
      assert x[|specifier|] == name[|specifier|];
    } else {
      assert x[..n] == name && u[..n] == specifier;
    }
  }

  lemma SharesAfterImport(q: char, t: string, name: string)
    requires NoQuotes(name) && IsQuote(q)
    ensures SharesQuote(Quoted(q, name) + t, name) <==> name + [q] <= t || SharesQuote(t, name)
  {
    var s, x := Quoted(q, name) + t, Quoted(q, name);
    assert s[1..] == name + ([q] + t);
    SharesSkip(name, [q] + t, name);
    assert ([q] + t)[1..] == t;
    assert x[1..] == name + [q];
    PrefixCons(x, q, t);
    assert s[|name| + 1..] == [q] + t;
    assert SharesHere(s, name, q) <==> name + [q] <= t;
  }

  /** A quoted module name is left exactly when two of them shared a quote. */
  lemma {:induction false} RemainsExactly(s: string, name: string, specifier: string)
    requires NoQuotes(name) && NoQuotes(specifier) && specifier != name
    ensures Remains(Text(Pieces(s, name), specifier, specifier), name) <==> SharesQuote(s, name)
    decreases |s|
  {
    if s == "" {
    } else if Quoted('\'', name) <= s || Quoted('"', name) <= s {
      var q := s[0];
      var rest := s[|name| + 2..];
      assert Quoted(q, name) <= s && s == Quoted(q, name) + rest;
      RemainsExactly(rest, name, specifier);
      var t := Text(Pieces(rest, name), specifier, specifier);
      assert Pieces(s, name) == [Import(q)] + Pieces(rest, name);
      assert Text(Pieces(s, name), specifier, specifier) == Quoted(q, specifier) + t;
      RemainsAfterImport(q, t, name, specifier);
      SharesAfterImport(q, rest, name);
      RestStart(rest, name, specifier, specifier, q);
    } else {
      RemainsExactly(s[1..], name, specifier);
      var t := Text(Pieces(s[1..], name), specifier, specifier);
      NotQuoted(s, name, specifier, specifier, '\'');
      NotQuoted(s, name, specifier, specifier, '"');
      assert Pieces(s, name)[1..] == Pieces(s[1..], name);
      assert ([s[0]] + t)[1..] == t;
    }
  }

  lemma {:induction false} NoneRemains(s: string, name: string)
    requires !Remains(s, name)
    ensures forall i :: 0 <= i < |Pieces(s, name)| ==> Pieces(s, name)[i].Plain?
    decreases |s|
  {
    if s != "" {
      NoneRemains(s[1..], name);
    }
  }

  lemma {:induction false} PlainText(p: seq<Piece>, a: string, b: string, c: string, d: string)
    requires forall i :: 0 <= i < |p| ==> p[i].Plain?
    ensures Text(p, a, b) == Text(p, c, d)
  {
    if p != [] {
      PlainText(p[1..], a, b, c, d);
    }
  }

  /** A text that still holds a quoted module name is changed by the rewrite. */
  lemma {:induction false} RemainsChanges(s: string, name: string, specifier: string)
    requires NoQuotes(name) && NoQuotes(specifier) && specifier != name && Remains(s, name)
    ensures Text(Pieces(s, name), specifier, specifier) != s
    decreases |s|
  {
    if Quoted('\'', name) <= s || Quoted('"', name) <= s {
      var q := s[0];
      var rest := s[|name| + 2..];
      assert Quoted(q, name) <= s;
      var t := Text(Pieces(rest, name), specifier, specifier);
      assert Pieces(s, name) == [Import(q)] + Pieces(rest, name);
      var out := Quoted(q, specifier) + t;
      assert Text(Pieces(s, name), specifier, specifier) == out;
      DifferentName(q, t, name, specifier);
      assert out[1..] == specifier + ([q] + t);
      assert s[1..] == name + [q] + rest;
    } else {
      RemainsChanges(s[1..], name, specifier);
      assert Pieces(s, name)[1..] == Pieces(s[1..], name);
      var rest := Text(Pieces(s[1..], name), specifier, specifier);
      assert ([s[0]] + rest)[1..] == rest;
    }
  }

  /** The rewrite leaves neither quoted form, and a second application changes nothing, exactly for the texts
      in which no two quoted module names share a quote character. */
  lemma RewriteComplete(s: string, name: string, specifier: string)
    requires NoQuotes(name) && NoQuotes(specifier) && specifier != name
    ensures var t := Rewrite(s, name, specifier);
            && (!Remains(t, name) <==> !SharesQuote(s, name))
            && (Rewrite(t, name, specifier) == t <==> !SharesQuote(s, name))
  {
    var t := Rewrite(s, name, specifier);
    RewriteChangesModuleOnly(s, name, specifier);
    RewriteChangesModuleOnly(t, name, specifier);
    RemainsExactly(s, name, specifier);
    if Remains(t, name) {
      RemainsChanges(t, name, specifier);
    } else {
      NoneRemains(t, name);
      PlainText(Pieces(t, name), specifier, specifier, name, name);
    }
  }

  /** A text changes exactly when it holds a quoted module name: what `applyFixtures` reports as rewritten. */
  lemma RewriteChangesExactly(s: string, name: string, specifier: string)
    requires NoQuotes(name) && NoQuotes(specifier) && specifier != name
    ensures Rewrite(s, name, specifier) != s <==> Remains(s, name)
  {
    RewriteChangesModuleOnly(s, name, specifier);
    if Remains(s, name) {
      RemainsChanges(s, name, specifier);
    } else {
      NoneRemains(s, name);
      PlainText(Pieces(s, name), specifier, specifier, name, name);
    }
  }
}
