/**
  Texts with holes: how the dc-runtime splits `a {{ x }} b` and what an attribute means
  (`design/Q-Agent app design/support.js`, `compileAttr` and the split in `walkText`).
 */
module Holes {
  import opened Strings
  import opened Wrappers
  import opened Expr
  import opened ExprSyntax

  predicate IsPair(s: string, i: nat, c: char) {
    i + 1 < |s| && s[i] == c && s[i + 1] == c
  }

  /** The first position from `i` on where `c` stands twice; `|s|` when there is none. */
  function FindPair(s: string, i: nat, c: char): (r: nat)
    requires i <= |s|
    ensures i <= r <= |s|
    ensures r < |s| ==> IsPair(s, r, c)
    ensures forall j :: i <= j < r ==> !IsPair(s, j, c)
    decreases |s| - i
  {
    if i == |s| then |s| else if IsPair(s, i, c) then i else FindPair(s, i + 1, c)
  }

  /** `s.includes("{{")`. */
  predicate HasOpen(s: string) {
    FindPair(s, 0, '{') < |s|
  }

  /** Where the first hole opens and closes: the leftmost braces that close after at least one character. */
  function FirstHole(s: string): (r: Option<(nat, nat)>)
    ensures r.Some? ==> r.value.0 + 3 <= r.value.1 && r.value.1 + 2 <= |s|
    ensures r.Some? ==> IsPair(s, r.value.0, '{') && IsPair(s, r.value.1, '}')
    ensures r.Some? ==> forall i :: 0 <= i < r.value.0 ==> !IsPair(s, i, '{')
    ensures r.Some? ==> forall j :: r.value.0 + 3 <= j < r.value.1 ==> !IsPair(s, j, '}')
    ensures r.None? ==> forall i, j :: 0 <= i && i + 3 <= j ==> !(IsPair(s, i, '{') && IsPair(s, j, '}'))
  {
    var i := FindPair(s, 0, '{');
    if i + 3 > |s| then None
    else
      var j := FindPair(s, i + 3, '}');
      if j == |s| then None else Some((i, j))
  }

  /** `s.split(/\{\{([\s\S]+?)\}\}/g)`: literal texts and hole texts in turn. */
  function Parts(s: string): (r: seq<string>)
    ensures |r| % 2 == 1
    decreases |s|
  {
    match FirstHole(s)
    case None => [s]
    case Some((i, j)) => [s[..i], s[i + 2..j]] + Parts(s[j + 2..])
  }

  /** The text of the hole when `raw` is one hole, up to white space around it. */
  function WholeHole(raw: string): Option<string> {
    var t := Trim(raw);
    if |t| >= 5 && t[..2] == "{{" && t[|t| - 2..] == "}}" then Some(t[2..|t| - 2]) else None
  }

  /** `parts.map((s, i) => i & 1 ? resolve(vals, s) ?? "" : s).join("")`. */
  function JoinParts<V>(js: Js<V>, show: V -> string, vals: Env<V>, parts: seq<string>): string {
    if parts == [] then ""
    else if |parts| == 1 then parts[0]
    else
      var v := Resolve(js, vals, parts[1]);
      parts[0] + (if js.nullish(v) then "" else show(v)) + JoinParts(js, show, vals, parts[2..])
  }

  /** The value of an attribute in an environment. */
  function AttrValue<V>(js: Js<V>, show: V -> string, vals: Env<V>, raw: string): V {
    match WholeHole(raw)
    case Some(path) => Resolve(js, vals, path)
    case None => js.text(if HasOpen(raw) then JoinParts(js, show, vals, Parts(raw)) else raw)
  }

  function CompileAttr<V>(js: Js<V>, show: V -> string, raw: string): Env<V> -> V {
    match WholeHole(raw)
    case Some(path) => (vals: Env<V>) => Resolve(js, vals, path)
    case None =>
      if HasOpen(raw) then
        var parts := Parts(raw);
        (vals: Env<V>) => js.text(JoinParts(js, show, vals, parts))
      else (vals: Env<V>) => js.text(raw)
  }

  lemma CompiledAttr<V>(js: Js<V>, show: V -> string, raw: string, vals: Env<V>)
    ensures CompileAttr(js, show, raw)(vals) == AttrValue(js, show, vals, raw)
  {
  }

  // ---------------------------------------------------------------------------
  // What a text with holes means, by its pieces
  // ---------------------------------------------------------------------------

  /** Literal text, and a hole after it: an expression with white space around it between the braces. */
  datatype Piece = Hole(before: string, padL: string, e: Syntax, padR: string)

  function HoleText(p: Piece): string {
    p.padL + Show(p.e) + p.padR
  }

  /** With two more of it behind, `c` first stands twice at the very end. */
  predicate FirstPairAtEnd(s: string, c: char) {
    forall i :: 0 <= i < |s| ==> !IsPair(s + [c, c], i, c)
  }

  /** Literal text opens no hole too early, and the text of a hole does not close it too early. */
  predicate WellFormedPiece(p: Piece) {
    && AllSpace(p.padL) && AllSpace(p.padR) && WellFormed(p.e)
    && FirstPairAtEnd(p.before, '{') && FirstPairAtEnd(HoleText(p), '}')
  }

  function ShowPieces(ps: seq<Piece>, tail: string): string {
    if ps == [] then tail else ps[0].before + ("{{" + (HoleText(ps[0]) + ("}}" + ShowPieces(ps[1..], tail))))
  }

  function PieceParts(ps: seq<Piece>, tail: string): seq<string> {
    if ps == [] then [tail] else [ps[0].before, HoleText(ps[0])] + PieceParts(ps[1..], tail)
  }

  function PiecesValue<V>(js: Js<V>, show: V -> string, vals: Env<V>, ps: seq<Piece>, tail: string): string
    requires forall p <- ps :: WellFormedPiece(p)
  {
    if ps == [] then tail
    else
      assert WellFormedPiece(ps[0]);
      var v := Eval(js, vals, ps[0].e);
      ps[0].before + (if js.nullish(v) then "" else show(v)) + PiecesValue(js, show, vals, ps[1..], tail)
  }

  lemma FindPairIs(s: string, i: nat, c: char, r: nat)
    requires i <= r && IsPair(s, r, c)
    requires forall j :: i <= j < r ==> !IsPair(s, j, c)
    ensures FindPair(s, i, c) == r
  {
    assert !(FindPair(s, i, c) > r);
  }

  lemma FirstHoleIs(a: string, hole: string, rest: string)
    requires FirstPairAtEnd(a, '{') && FirstPairAtEnd(hole, '}') && hole != ""
    ensures var s := a + ("{{" + (hole + ("}}" + rest)));
            && FirstHole(s) == Some((|a|, |a| + 2 + |hole|))
            && s[..|a|] == a && s[|a| + 2..|a| + 2 + |hole|] == hole && s[|a| + 4 + |hole|..] == rest
  {
    hide FirstPairAtEnd, FindPair;
    var s, j := a + ("{{" + (hole + ("}}" + rest))), |a| + 2 + |hole|;
    PairsUpTo(s, 0, a, '{');
    FindPairIs(s, 0, '{', |a|);
    PairsUpTo(s, |a| + 2, hole, '}');
    FindPairIs(s, |a| + 3, '}', j);
  }

  /** Where `x` and then `c` twice stand in `s`, the pair at the end of `x` is the first one from its start on. */
  lemma PairsUpTo(s: string, start: nat, x: string, c: char)
    requires FirstPairAtEnd(x, c)
    requires start + |x| + 2 <= |s| && s[start..start + |x| + 2] == x + [c, c]
    ensures IsPair(s, start + |x|, c)
    ensures forall i :: start <= i < start + |x| ==> !IsPair(s, i, c)
  {
    var y := x + [c, c];
    assert forall i :: 0 <= i < |y| ==> s[start + i] == y[i];
    assert y[|x|] == c && y[|x| + 1] == c;
    forall i | start <= i < start + |x|
      ensures !IsPair(s, i, c)
    {
      assert !IsPair(y, i - start, c);
    }
  }

  /** Splitting a text gives back the literal texts and the hole texts it was written from. */
  lemma {:induction false} PartsOfPieces(ps: seq<Piece>, tail: string)
    requires forall p <- ps :: WellFormedPiece(p)
    requires !HasOpen(tail)
    ensures Parts(ShowPieces(ps, tail)) == PieceParts(ps, tail)
  {
    hide WellFormedPiece, FirstHole, HoleText, Parts, HasOpen;
    if ps == [] {
      NoHole(tail);
      PartsStep(tail);
    } else {
      var rest := ShowPieces(ps[1..], tail);
      PartsOfPieces(ps[1..], tail);
      assert WellFormedPiece(ps[0]);
      HoleNotEmpty(ps[0]);
      PartsOfHole(ps[0].before, HoleText(ps[0]), rest);
    }
  }

  lemma PartsOfHole(a: string, hole: string, rest: string)
    requires FirstPairAtEnd(a, '{') && FirstPairAtEnd(hole, '}') && hole != ""
    ensures Parts(a + ("{{" + (hole + ("}}" + rest)))) == [a, hole] + Parts(rest)
  {
    hide FirstHole, Parts, FirstPairAtEnd;
    FirstHoleIs(a, hole, rest);
    PartsStep(a + ("{{" + (hole + ("}}" + rest))));
  }

  lemma PartsStep(s: string)
    ensures match FirstHole(s)
            case None => Parts(s) == [s]
            case Some(h) => Parts(s) == [s[..h.0], s[h.0 + 2..h.1]] + Parts(s[h.1 + 2..])
  {
    hide FirstHole;
  }

  lemma NoHole(s: string)
    requires !HasOpen(s)
    ensures FirstHole(s).None?
  {
  }

  lemma HoleNotEmpty(p: Piece)
    requires WellFormedPiece(p)
    ensures HoleText(p) != "" && FirstPairAtEnd(p.before, '{') && FirstPairAtEnd(HoleText(p), '}')
  {
    ShowEnds(p.e);
  }

  lemma {:induction false} JoinPieces<V>(js: Js<V>, show: V -> string, vals: Env<V>, ps: seq<Piece>, tail: string)
    requires forall p <- ps :: WellFormedPiece(p)
    ensures JoinParts(js, show, vals, PieceParts(ps, tail)) == PiecesValue(js, show, vals, ps, tail)
  {
    hide WellFormed, AllSpace, Resolve, Eval;
    if ps != [] {
      JoinPieces(js, show, vals, ps[1..], tail);
      var p := ps[0];
      assert WellFormedPiece(p);
      ResolveShow(js, vals, p.padL, p.e, p.padR);
      assert PieceParts(ps, tail)[2..] == PieceParts(ps[1..], tail);
    }
  }

  // ---------------------------------------------------------------------------
  // When an attribute is read as one hole
  // ---------------------------------------------------------------------------

  /** The text from the braces that open the first hole to those that close the last one. */
  function Span(ps: seq<Piece>): string
    requires ps != []
  {
    if |ps| == 1 then HoleText(ps[0]) else HoleText(ps[0]) + ("}}" + (ps[1].before + ("{{" + Span(ps[1..]))))
  }

  /** Nothing but white space follows the last hole, or the text after it ends in two closing braces as well. */
  predicate Closes(tail: string) {
    EndsClosed(TrimEnd("}}" + tail))
  }

  predicate EndsClosed(s: string) {
    |s| >= 2 && s[|s| - 2..] == "}}"
  }

  lemma ClosesAfterSpace(tail: string)
    requires AllSpace(tail)
    ensures Closes(tail) && TrimEnd("}}" + tail) == "}}"
  {
    TrimEndPadded("}}", tail);
  }

  lemma {:induction false} ShowSpan(ps: seq<Piece>, tail: string)
    requires ps != []
    ensures ShowPieces(ps, tail) == ps[0].before + ("{{" + (Span(ps) + ("}}" + tail)))
  {
    hide HoleText;
    if |ps| > 1 {
      ShowSpan(ps[1..], tail);
      var first, second, inner := HoleText(ps[0]), ps[1].before, Span(ps[1..]);
      assert first + ("}}" + (second + ("{{" + (inner + ("}}" + tail))))) == Span(ps) + ("}}" + tail);
    } else {
      assert ShowPieces(ps[1..], tail) == tail;
    }
  }

  /**
    Trimming keeps everything between the first opening and the last closing braces; it reaches the opening
    ones exactly when only white space stands before them.
   */
  lemma {:induction false} TrimHoles(before: string, span: string, tail: string)
    requires FirstPairAtEnd(before, '{')
    ensures AllSpace(before) ==>
              Trim(before + ("{{" + (span + ("}}" + tail)))) == "{{" + (span + TrimEnd("}}" + tail))
    ensures !AllSpace(before) ==> !StartsOpen(Trim(before + ("{{" + (span + ("}}" + tail)))))
    decreases |before|
  {
    hide IsSpace, TrimEnd, FirstPairAtEnd, StartsOpen;
    var rest := "{{" + (span + ("}}" + tail));
    if before == "" {
      TrimFromBraces(span, tail);
      assert before + rest == rest;
    } else if IsSpace(before[0]) {
      hide AllSpace;
      assert (before + rest)[1..] == before[1..] + rest;
      TailPairs(before);
      TrimHoles(before[1..], span, tail);
      AllSpaceCons(before);
    } else {
      RestOpens(rest, span + ("}}" + tail));
      StartKept(before, rest);
    }
  }

  lemma AllSpaceCons(s: string)
    requires s != "" && IsSpace(s[0])
    ensures AllSpace(s) <==> AllSpace(s[1..])
  {
    assert s == [s[0]] + s[1..];
  }

  lemma RestOpens(rest: string, after: string)
    requires rest == "{{" + after
    ensures StartsOpen(rest)
  {
  }

  lemma TrimFromBraces(span: string, tail: string)
    ensures Trim("{{" + (span + ("}}" + tail))) == "{{" + (span + TrimEnd("}}" + tail))
  {
    hide TrimEnd;
    var rest := "{{" + (span + ("}}" + tail));
    assert TrimStart(rest) == rest;
    assert "{{" + span + ("}}" + tail) == rest;
    TrimEndInner("{{" + span, "}}" + tail);
    assert "{{" + span + TrimEnd("}}" + tail) == "{{" + (span + TrimEnd("}}" + tail));
  }

  predicate StartsOpen(s: string) {
    |s| >= 2 && s[..2] == "{{"
  }

  lemma TailPairs(s: string)
    requires s != "" && FirstPairAtEnd(s, '{')
    ensures FirstPairAtEnd(s[1..], '{')
  {
    var x, y := s + ['{', '{'], s[1..] + ['{', '{'];
    assert x[1..] == y;
    forall i | 0 <= i < |s[1..]|
      ensures !IsPair(y, i, '{')
    {
      assert !IsPair(x, i + 1, '{');
    }
  }

  /** Text that starts with something else than white space and opening braces still does so after trimming. */
  lemma StartKept(before: string, rest: string)
    requires before != "" && !IsSpace(before[0]) && FirstPairAtEnd(before, '{')
    requires StartsOpen(rest)
    ensures !StartsOpen(Trim(before + rest))
  {
    var s := before + rest;
    assert TrimStart(s) == s;
    var x := before + ['{', '{'];
    assert !IsPair(x, 0, '{');
    assert rest[0] == '{' && rest[1] == '{';
    assert s[0] == x[0] && s[1] == x[1];
    assert Trim(s) <= s;
  }

  lemma {:induction false} TrimEndInner(a: string, b: string)
    requires b != "" && !IsSpace(b[0])
    ensures TrimEnd(a + b) == a + TrimEnd(b)
    decreases |b|
  {
    if IsSpace(b[|b| - 1]) {
      assert (a + b)[..|a + b| - 1] == a + b[..|b| - 1];
      TrimEndInner(a, b[..|b| - 1]);
    }
  }

  /**
    An attribute with holes is read as one hole exactly when only white space stands before its first one, and
    only white space, or more text that ends in closing braces, after its last one. What is then resolved runs
    from the first opening to the last closing braces, whatever stands between them.
   */
  lemma WholeExactly(ps: seq<Piece>, tail: string)
    requires ps != [] && forall p <- ps :: WellFormedPiece(p)
    ensures var whole := WholeHole(ShowPieces(ps, tail));
            && (whole.Some? <==> AllSpace(ps[0].before) && Closes(tail))
            && (whole.Some? ==> "{{" + whole.value + "}}" == "{{" + (Span(ps) + TrimEnd("}}" + tail)))
  {
    hide WellFormed, AllSpace, HoleText, Trim, TrimEnd, WholeHole, StartsOpen, FirstPairAtEnd, Show, Span, ShowPieces,
         EndsClosed;
    assert WellFormedPiece(ps[0]);
    HoleNotEmpty(ps[0]);
    ShowSpan(ps, tail);
    TrimHoles(ps[0].before, Span(ps), tail);
    TrimmedBraces(tail);
    SpanNotEmpty(ps);
    BracesRead(ShowPieces(ps, tail), Span(ps), TrimEnd("}}" + tail));
  }

  /** What the test for one hole makes of a trimmed text. */
  lemma BracesRead(raw: string, span: string, end: string)
    requires |end| >= 2 && span != ""
    ensures !StartsOpen(Trim(raw)) ==> WholeHole(raw).None?
    ensures Trim(raw) == "{{" + (span + end) ==>
              var whole := WholeHole(raw);
              && (whole.Some? <==> EndsClosed(end))
              && (whole.Some? ==> "{{" + whole.value + "}}" == "{{" + (span + end))
  {
    hide Trim;
    var u := "{{" + (span + end);
    assert u[..2] == "{{" && u[|u| - 2..] == end[|end| - 2..];
    if EndsClosed(end) {
      assert "{{" + u[2..|u| - 2] + "}}" == u;
    }
  }

  lemma TrimmedBraces(tail: string)
    ensures |TrimEnd("}}" + tail)| >= 2
  {
    TrimEndInner("}", "}" + tail);
    assert "}" + ("}" + tail) == "}}" + tail;
    TrimEndInner("", "}" + tail);
    TrimmedNotEmpty("}" + tail);
  }

  lemma {:induction false} TrimmedNotEmpty(s: string)
    requires s != "" && !IsSpace(s[0])
    ensures TrimEnd(s) != ""
    decreases |s|
  {
    if IsSpace(s[|s| - 1]) { TrimmedNotEmpty(s[..|s| - 1]); }
  }

  lemma SpanNotEmpty(ps: seq<Piece>)
    requires ps != [] && HoleText(ps[0]) != ""
    ensures Span(ps) != ""
  {
  }

  /**
    Otherwise it is the text with its holes filled in: an undefined or null hole is left empty.
   */
  lemma MixedAttr<V>(js: Js<V>, show: V -> string, vals: Env<V>, ps: seq<Piece>, tail: string)
    requires ps != [] && forall p <- ps :: WellFormedPiece(p)
    requires !HasOpen(tail) && !(AllSpace(ps[0].before) && Closes(tail))
    ensures AttrValue(js, show, vals, ShowPieces(ps, tail)) == js.text(PiecesValue(js, show, vals, ps, tail))
  {
    hide WholeHole, Resolve, WellFormed, AllSpace, Closes, HasOpen;
    WholeExactly(ps, tail);
    PartsOfPieces(ps, tail);
    JoinPieces(js, show, vals, ps, tail);
    HoleNotEmpty(ps[0]);
    HoleIsOpen(ps[0].before, HoleText(ps[0]), ShowPieces(ps[1..], tail));
  }

  lemma HoleIsOpen(a: string, hole: string, rest: string)
    requires FirstPairAtEnd(a, '{') && FirstPairAtEnd(hole, '}') && hole != ""
    ensures HasOpen(a + ("{{" + (hole + ("}}" + rest))))
  {
    FirstHoleIs(a, hole, rest);
  }

  /**
    Several holes with literal text between them only are therefore no joined text: the expression that is
    resolved is everything from the first hole to the last.
   */
  lemma HolesReadAsOne<V>(js: Js<V>, show: V -> string, vals: Env<V>, ps: seq<Piece>, tail: string)
    requires ps != [] && forall p <- ps :: WellFormedPiece(p)
    requires AllSpace(ps[0].before) && AllSpace(tail)
    ensures AttrValue(js, show, vals, ShowPieces(ps, tail)) == Resolve(js, vals, Span(ps))
  {
    hide WholeHole, Resolve, WellFormed, Closes, TrimEnd, Span;
    WholeExactly(ps, tail);
    ClosesAfterSpace(tail);
    var path := WholeHole(ShowPieces(ps, tail)).value;
    var one, two := "{{" + path + "}}", "{{" + (Span(ps) + "}}");
    assert one[2..|one| - 2] == path && two[2..|two| - 2] == Span(ps);
  }

  /** An attribute that is one hole is the value of its expression, of whatever type. */
  lemma HoleAttr<V>(js: Js<V>, show: V -> string, vals: Env<V>, a: string, padL: string, e: Syntax, padR: string,
                    b: string)
    requires AllSpace(a) && AllSpace(b) && AllSpace(padL) && AllSpace(padR) && WellFormed(e)
    ensures AttrValue(js, show, vals, a + ("{{" + (padL + Show(e) + padR) + "}}") + b) == Eval(js, vals, e)
  {
    hide WellFormed, Resolve, Show, Eval;
    var inner := padL + Show(e) + padR;
    var t := "{{" + inner + "}}";
    ShowEnds(e);
    TrimPadded(a, t, b);
    assert t[2..|t| - 2] == inner && t[..2] == "{{" && t[|t| - 2..] == "}}";
    ResolveShow(js, vals, padL, e, padR);
  }

  lemma BracedHole(path: string)
    requires path != ""
    ensures WholeHole("{{" + path + "}}") == Some(path)
  {
    var raw := "{{" + path + "}}";
    TrimPadded("", raw, "");
    assert "" + raw + "" == raw;
    assert raw[2..|raw| - 2] == path && raw[..2] == "{{" && raw[|raw| - 2..] == "}}";
  }

  /** A path that goes on with a closing brace has no value. */
  lemma BraceEndsPath<V>(js: Js<V>, vals: Env<V>, x: string, rest: string)
    requires IsIdent(x) && rest != "" && rest[0] == '}'
    ensures PathValue(js, vals, x + rest) == js.undef
  {
    var path := x + rest;
    assert forall j :: 0 <= j < |x| ==> path[j] == x[j];
    RunLenExact(IsIdentPart, path, 0, |x|);
  }

  /** Two names: the text between the outer braces is no expression, and the value is undefined. */
  lemma TwoNamesAreUndefined<V>(js: Js<V>, show: V -> string, vals: Env<V>, x: string, gap: string, y: string)
    requires IsIdent(x) && AllSpace(gap) && IsIdent(y)
    ensures AttrValue(js, show, vals, "{{" + x + "}}" + gap + "{{" + y + "}}") == js.undef
  {
    hide WholeHole, Resolve;
    var path := x + ("}}" + gap + "{{" + y);
    assert "{{" + path + "}}" == "{{" + x + "}}" + gap + "{{" + y + "}}";
    BracedHole(path);
    NotAnExpression(js, vals, x, gap, y);
  }

  lemma NotAnExpression<V>(js: Js<V>, vals: Env<V>, x: string, gap: string, y: string)
    requires IsIdent(x) && AllSpace(gap) && IsIdent(y)
    ensures Resolve(js, vals, x + ("}}" + gap + "{{" + y)) == js.undef
  {
    hide Trim, FirstEquality, IsNumber, IsKeyword, PathValue, WrapsWhole;
    var path := x + ("}}" + gap + "{{" + y);
    BracesPlain(x, gap, y);
    assert path[0] == x[0] && path[|x|] == '}';
    BraceEndsPath(js, vals, x, "}}" + gap + "{{" + y);
    NotNumber(path);
    NotKeyword(path);
  }

  lemma BracesPlain(x: string, gap: string, y: string)
    requires IsIdent(x) && AllSpace(gap) && IsIdent(y)
    ensures var path := x + ("}}" + gap + "{{" + y); Trim(path) == path && FirstEquality(path).None?
  {
    hide Trim;
    var path := x + ("}}" + gap + "{{" + y);
    IdentPlain(x);
    IdentPlain(y);
    assert path[0] == x[0] && path[|path| - 1] == y[|y| - 1];
    TrimPadded("", path, "");
    assert "" + path + "" == path;
    assert forall c <- path :: !IsBang(c);
    assert forall i: nat :: !EqualityAt(path, i);
  }
}
