/**
  What a compiled template puts on the page, read off its output (`design/Q-Agent app design/support.js`): the
  statements here do not mention the functions by which the builders compute it.
 */
module TemplateOutput {
  import opened Strings
  import opened Wrappers
  import opened Expr
  import opened ExprSyntax
  import opened Holes
  import opened Template

  // ---------------------------------------------------------------------------
  // Text nodes
  // ---------------------------------------------------------------------------

  /** The text a reader sees: literal texts and the texts of spans, in order. */
  ghost function Visible<V>(out: Out<V>): string {
    match out
    case Str(s) => s
    case Span(_, _, text) => text
    case Fragment(_, kids) => VisibleAll(kids)
    case _ => ""
  }

  ghost function VisibleAll<V>(outs: seq<Out<V>>): string {
    if outs == [] then "" else Visible(outs[0]) + VisibleAll(outs[1..])
  }

  /** A hole `e` of value `v` at place `at` of its text. */
  ghost predicate ShowsHole<V>(h: Host<V>, hole: Out<V>, at: nat, e: Syntax, v: V, ctx: Ctx) {
    if h.js.strictEq(v, h.js.undef) then
      && (ctx.streaming ==> hole == Span(at, "sc-interp sc-missing", Show(e)))
      && (!ctx.streaming && ctx.editor ==> hole == Span(at, "sc-interp sc-unresolved", "{{ " + Show(e) + " }}"))
      && (!ctx.streaming && !ctx.editor ==> hole == Null)
    else
      && (h.isElement(v) || h.items(v).Some? ==> hole == Child(at, v))
      && (!h.isElement(v) && h.items(v).None? ==>
            && (h.js.strictEq(v, h.js.nul) || h.isBoolean(v) ==> hole == Null)
            && (!h.js.strictEq(v, h.js.nul) && !h.isBoolean(v) ==> hole == Span(at, "sc-interp", h.show(v))))
  }

  lemma HoleShown<V>(h: Host<V>, p: Piece, at: nat, v: V, ctx: Ctx)
    requires WellFormedPiece(p)
    ensures ShowsHole(h, HoleOut(h, HoleText(p), at, v, ctx), at, p.e, v, ctx)
  {
    hide WellFormed, Show, Trim, FirstPairAtEnd;
    ShowEnds(p.e);
    TrimPadded(p.padL, Show(p.e), p.padR);
  }

  lemma {:induction false} PieceShown<V>(h: Host<V>, ps: seq<Piece>, tail: string, i: nat, k: nat, vals: Env<V>,
                                         ctx: Ctx)
    requires k < |ps| && forall p <- ps :: WellFormedPiece(p)
    ensures var outs := PiecesOut(h, ps, tail, i, vals, ctx);
            && |outs| == 2 * |ps| + 1 && outs[2 * |ps|] == Str(tail)
            && outs[2 * k] == Str(ps[k].before)
            && WellFormedPiece(ps[k])
            && ShowsHole(h, outs[2 * k + 1], i + 2 * k + 1, ps[k].e, Eval(h.js, vals, ps[k].e), ctx)
  {
    hide WellFormed, AllSpace, FirstPairAtEnd, HoleText, HoleOut, ShowsHole, Eval;
    assert WellFormedPiece(ps[0]);
    HoleShown(h, ps[0], i + 1, Eval(h.js, vals, ps[0].e), ctx);
    if |ps| > 1 {
      PieceShown(h, ps[1..], tail, i + 2, if k == 0 then 0 else k - 1, vals, ctx);
    }
  }

  /**
    A compiled text node has its literal texts as even children and its holes as odd ones: an undefined hole is
    marked while streaming or in the editor and nothing otherwise, elements and lists are children themselves,
    null and booleans are nothing, and any other value is its text.
   */
  lemma TextChildren<V>(h: Host<V>, ps: seq<Piece>, tail: string, k: nat, vals: Env<V>, ctx: Ctx, key: nat)
    requires k < |ps| && !HasOpen(tail) && forall p <- ps :: WellFormedPiece(p)
    ensures var b := Compile(h, Text(ShowPieces(ps, tail)));
            && b.Some?
            && var out := b.value(vals, ctx, key);
               && out.Fragment? && out.key == key && |out.kids| == 2 * |ps| + 1 && out.kids[2 * |ps|] == Str(tail)
               && out.kids[2 * k] == Str(ps[k].before)
               && WellFormedPiece(ps[k])
               && ShowsHole(h, out.kids[2 * k + 1], 2 * k + 1, ps[k].e, Eval(h.js, vals, ps[k].e), ctx)
  {
    hide WellFormedPiece, ShowsHole, Eval, Compile, PiecesOut, HasOpen, ShowPieces;
    TextMeaning(h, ps, tail, vals, ctx, key);
    PieceShown(h, ps, tail, 0, k, vals, ctx);
  }

  /**
    The value is no element, list or boolean, and undefined only where that is not marked. The host's test for
    a nullish value is JavaScript's: it holds of undefined and null only.
   */
  predicate Plain<V>(h: Host<V>, v: V, ctx: Ctx) {
    && (h.js.nullish(v) <==> h.js.strictEq(v, h.js.undef) || h.js.strictEq(v, h.js.nul))
    && !h.isElement(v) && h.items(v).None? && !h.isBoolean(v)
    && (h.js.strictEq(v, h.js.undef) ==> !ctx.streaming && !ctx.editor)
  }

  lemma PlainHoleVisible<V>(h: Host<V>, part: string, at: nat, v: V, ctx: Ctx)
    requires Plain(h, v, ctx)
    ensures Visible(HoleOut(h, part, at, v, ctx)) == if h.js.nullish(v) then "" else h.show(v)
  {
  }

  lemma {:induction false} PiecesVisible<V>(h: Host<V>, ps: seq<Piece>, tail: string, i: nat, vals: Env<V>, ctx: Ctx)
    requires forall p <- ps :: WellFormedPiece(p) && Plain(h, Eval(h.js, vals, p.e), ctx)
    ensures VisibleAll(PiecesOut(h, ps, tail, i, vals, ctx)) == PiecesValue(h.js, h.show, vals, ps, tail)
  {
    hide WellFormed, AllSpace, FirstPairAtEnd, HoleText, HoleOut, Plain, Eval;
    var outs := PiecesOut(h, ps, tail, i, vals, ctx);
    if ps == [] {
      assert outs[1..] == [];
    } else {
      assert WellFormedPiece(ps[0]);
      PlainHoleVisible(h, HoleText(ps[0]), i + 1, Eval(h.js, vals, ps[0].e), ctx);
      PiecesVisible(h, ps[1..], tail, i + 2, vals, ctx);
      assert outs[1..][1..] == PiecesOut(h, ps[1..], tail, i + 2, vals, ctx);
    }
  }

  /** What is seen of a text whose holes have plain values is the text with the holes filled in. */
  lemma TextReads<V>(h: Host<V>, ps: seq<Piece>, tail: string, vals: Env<V>, ctx: Ctx, key: nat)
    requires ps != [] && !HasOpen(tail)
    requires forall p <- ps :: WellFormedPiece(p) && Plain(h, Eval(h.js, vals, p.e), ctx)
    ensures var b := Compile(h, Text(ShowPieces(ps, tail)));
            b.Some? && Visible(b.value(vals, ctx, key)) == PiecesValue(h.js, h.show, vals, ps, tail)
  {
    hide WellFormedPiece, Plain, Eval, Compile, PiecesOut, PiecesValue, HasOpen, ShowPieces;
    TextMeaning(h, ps, tail, vals, ctx, key);
    PiecesVisible(h, ps, tail, 0, vals, ctx);
  }

  /** So a text and an attribute written the same read the same, unless the attribute is one hole. */
  lemma TextReadsAsAttr<V>(h: Host<V>, ps: seq<Piece>, tail: string, vals: Env<V>, ctx: Ctx, key: nat)
    requires ps != [] && !HasOpen(tail)
    requires forall p <- ps :: WellFormedPiece(p) && Plain(h, Eval(h.js, vals, p.e), ctx)
    requires !(AllSpace(ps[0].before) && Closes(tail))
    ensures var b := Compile(h, Text(ShowPieces(ps, tail)));
            && b.Some?
            && AttrValue(h.js, h.show, vals, ShowPieces(ps, tail)) == h.js.text(Visible(b.value(vals, ctx, key)))
  {
    hide WellFormedPiece, Plain, Eval, Compile, PiecesValue, HasOpen, ShowPieces, AllSpace, Closes, AttrValue,
         Visible;
    TextReads(h, ps, tail, vals, ctx, key);
    MixedAttr(h.js, h.show, vals, ps, tail);
  }

  // ---------------------------------------------------------------------------
  // Elements
  // ---------------------------------------------------------------------------

  /**
    A compiled element has the tag, the stamp and, under the key of each attribute, the value of the last one
    written under it. A style is turned into an object; an undefined `value` or `checked` is the empty text or
    false, which keeps an input controlled.
   */
  lemma ElementProps<V>(h: Host<V>, n: Node, before: seq<Attr>, a: Attr, after: seq<Attr>, vals: Env<V>, ctx: Ctx,
                        key: nat)
    requires n.Element? && n.attrs == before + ([a] + after) && forall b <- after :: b.key != a.key
    ensures var b := Compile(h, n);
            && b.Some? && var out := b.value(vals, ctx, key);
               && out.Tag? && out.tag == n.tag && a.key in out.props
               && var v, put := AttrValue(h.js, h.show, vals, a.raw), out.props[a.key];
                  var missing := h.js.strictEq(v, h.js.undef);
                  && (a.key != "style" && a.key != "checked" && a.key != "value" ==> put == Val(v))
                  && (a.key == "style" ==> put == Val(h.styled(v)))
                  && (a.key == "checked" ==> put == Val(if missing then h.js.boolean(false) else v))
                  && (a.key == "value" ==> put == Val(if missing then h.js.text("") else v))
  {
    hide AttrValue, TagAttrs, Compile, InterpretAll, Silent;
    var start: Props<V> := map["key" := Key(key, n.keySuffix), "data-dc-tpl" := TplId(n.id)];
    ElementCompiled(h, n, vals, ctx, key);
    LastAttrCounts(h, before, a, after, vals, start);
  }

  lemma ElementCompiled<V>(h: Host<V>, n: Node, vals: Env<V>, ctx: Ctx, key: nat)
    requires n.Element?
    ensures var b := Compile(h, n);
            && b.Some?
            && b.value(vals, ctx, key)
               == Tag(n.tag,
                      TagAttrs(h, n.attrs, vals, map["key" := Key(key, n.keySuffix), "data-dc-tpl" := TplId(n.id)]),
                      InterpretAll(h, n.kids, vals, ctx, 0))
  {
    hide Compile, TagAttrs, InterpretAll;
    CompiledNode(h, n, vals, ctx, key);
  }

  /** Its stamp and its React key stand under their own names unless an attribute is written under the same. */
  lemma ElementStamped<V>(h: Host<V>, n: Node, vals: Env<V>, ctx: Ctx, key: nat)
    requires n.Element? && forall a <- n.attrs :: a.key != "key" && a.key != "data-dc-tpl"
    ensures var b := Compile(h, n);
            && b.Some? && var out := b.value(vals, ctx, key);
               && out.Tag? && "key" in out.props && out.props["key"] == Key(key, n.keySuffix)
               && "data-dc-tpl" in out.props && out.props["data-dc-tpl"] == TplId(n.id)
  {
    hide TagAttrs, Compile, InterpretAll;
    var start: Props<V> := map["key" := Key(key, n.keySuffix), "data-dc-tpl" := TplId(n.id)];
    ElementCompiled(h, n, vals, ctx, key);
    OtherPropsKept(h, n.attrs, vals, start, "key");
    OtherPropsKept(h, n.attrs, vals, start, "data-dc-tpl");
  }

  // ---------------------------------------------------------------------------
  // Components
  // ---------------------------------------------------------------------------

  /** The attribute sets the prop under `key`: it is written there, or spreads an object that has it. */
  predicate SetsProp<V>(h: Host<V>, a: Attr, key: string, vals: Env<V>) {
    if a.key == "dcProps" then
      var m := h.entries(AttrValue(h.js, h.show, vals, a.raw));
      m.Some? && key in m.value
    else a.key == key
  }

  /** What it sets it to: its value, or the entry of the object it spreads. */
  function PropSet<V>(h: Host<V>, a: Attr, key: string, vals: Env<V>): V
    requires SetsProp(h, a, key, vals)
  {
    var v := AttrValue(h.js, h.show, vals, a.raw);
    if a.key == "dcProps" then h.entries(v).value[key] else v
  }

  lemma {:induction false} UnsetPropKept<V>(h: Host<V>, attrs: seq<Attr>, vals: Env<V>, props: Props<V>, key: string)
    requires forall a <- attrs :: !SetsProp(h, a, key, vals)
    ensures var r := ImportAttrs(h, attrs, vals, props);
            (key in r <==> key in props) && (key in r ==> r[key] == props[key])
  {
    hide AttrValue;
    if attrs != [] {
      var next := SetImportProp(h, props, attrs[0].key, AttrValue(h.js, h.show, vals, attrs[0].raw));
      assert !SetsProp(h, attrs[0], key, vals);
      UnsetPropKept(h, attrs[1..], vals, next, key);
    }
  }

  lemma {:induction false} LastSetCounts<V>(h: Host<V>, before: seq<Attr>, a: Attr, after: seq<Attr>, key: string,
                                            vals: Env<V>, props: Props<V>)
    requires SetsProp(h, a, key, vals) && forall b <- after :: !SetsProp(h, b, key, vals)
    ensures var r := ImportAttrs(h, before + ([a] + after), vals, props);
            key in r && r[key] == Val(PropSet(h, a, key, vals))
  {
    hide AttrValue;
    var all := before + ([a] + after);
    if before == [] {
      assert all == [a] + after && all[1..] == after;
      var next := SetImportProp(h, props, a.key, AttrValue(h.js, h.show, vals, a.raw));
      assert key in next && next[key] == Val(PropSet(h, a, key, vals));
      UnsetPropKept(h, after, vals, next, key);
    } else {
      hide SetImportProp, SetsProp, PropSet;
      assert all[1..] == before[1..] + ([a] + after);
      LastSetCounts(h, before[1..], a, after, key, vals,
                    SetImportProp(h, props, before[0].key, AttrValue(h.js, h.show, vals, before[0].raw)));
    }
  }

  /**
    The props of an imported component: the last attribute that sets one decides it, and one that no attribute
    sets is there only if the runtime itself put it there.
   */
  lemma ComponentProps<V>(h: Host<V>, n: Node, before: seq<Attr>, a: Attr, after: seq<Attr>, key: string,
                          vals: Env<V>, ctx: Ctx, at: nat)
    requires n.Import? && n.attrs == before + ([a] + after) && key != "children"
    requires SetsProp(h, a, key, vals) && forall b <- after :: !SetsProp(h, b, key, vals)
    ensures var b := Compile(h, n);
            && b.Some? && var out := b.value(vals, ctx, at);
               && out.Component? && out.name == n.name && key in out.props
               && out.props[key] == Val(PropSet(h, a, key, vals))
  {
    hide AttrValue, SetsProp, PropSet, ImportAttrs, ImportProps, Compile, InterpretAll, Trim, HasOpen;
    CompiledNode(h, n, vals, ctx, at);
    var style := if n.style.Some? then Some(h.hostStyle(AttrValue(h.js, h.show, vals, n.style.value))) else None;
    LastSetCounts(h, before, a, after, key, vals, ImportProps(at, n.hintSize, n.id, style));
  }

  lemma ComponentOwnProps<V>(h: Host<V>, n: Node, key: string, vals: Env<V>, ctx: Ctx, at: nat)
    requires n.Import? && key != "children" && forall a <- n.attrs :: !SetsProp(h, a, key, vals)
    ensures var b := Compile(h, n);
            && b.Some? && var out := b.value(vals, ctx, at);
               && out.Component? && out.name == n.name
               && (key in out.props <==>
                     key == "key" || key == "__hintSize" || key == "__tplId" || key == "__hostStyle")
               && (key == "key" ==> out.props[key] == Key(at, ""))
               && (key == "__hintSize" ==> out.props[key] == HintSize(n.hintSize))
               && (key == "__tplId" ==> out.props[key] == TplId(n.id))
               && (key == "__hostStyle" && n.style.None? ==> out.props[key] == HostStyle(None))
               && (key == "__hostStyle" && n.style.Some? ==>
                     out.props[key] == HostStyle(Some(h.hostStyle(AttrValue(h.js, h.show, vals, n.style.value)))))
  {
    hide AttrValue, SetsProp, ImportAttrs, Compile, InterpretAll, Trim, HasOpen;
    CompiledNode(h, n, vals, ctx, at);
    var style := if n.style.Some? then Some(h.hostStyle(AttrValue(h.js, h.show, vals, n.style.value))) else None;
    UnsetPropKept(h, n.attrs, vals, ImportProps(at, n.hintSize, n.id, style), key);
  }

  // ---------------------------------------------------------------------------
  // Components from outside
  // ---------------------------------------------------------------------------

  predicate NoHoleIn(s: string) {
    forall i :: 0 <= i < |s| ==> !IsPair(s, i, '{')
  }

  /** The value names something: its text is not empty and holds no hole. */
  predicate Names<V>(h: Host<V>, v: V, name: string) {
    !h.js.nullish(v) && h.show(v) == name && name != "" && NoHoleIn(name)
  }

  predicate NamesNothing<V>(h: Host<V>, v: V) {
    h.js.nullish(v) || h.show(v) == "" || !NoHoleIn(h.show(v))
  }

  /** The component is looked up by its global name, or else by its export name. */
  ghost predicate FoundAs<V>(h: Host<V>, globalV: V, exportV: V, url: string, name: string, component: Option<V>) {
    || (Names(h, globalV, name) && component == h.external(url, name, true))
    || (NamesNothing(h, globalV) && Names(h, exportV, name) && component == h.external(url, name, false))
  }

  lemma NameExactly<V>(h: Host<V>, v: V)
    ensures forall name :: Names(h, v, name) <==> NameOf(h, v) == name && name != ""
    ensures NamesNothing(h, v) <==> NameOf(h, v) == ""
  {
    var s := h.show(v);
    assert HasOpen(s) ==> IsPair(s, FindPair(s, 0, '{'), '{');
  }

  /** The box has its own class and stamp, and the attribute's style as far as it positions something. */
  ghost predicate BoxProps<V>(h: Host<V>, n: Node, props: Props<V>, vals: Env<V>, key: nat)
    requires n.External?
  {
    && "key" in props && props["key"] == Key(key, "")
    && "className" in props && props["className"] == Val(h.js.text("sc-host-x"))
    && "data-dc-tpl" in props && props["data-dc-tpl"] == TplId(n.id)
    && "style" in props && props["style"].HostStyle?
    && (n.style.None? ==> props["style"].style.None?)
    && (n.style.Some? ==>
          var positioned := h.hostStyle(AttrValue(h.js, h.show, vals, n.style.value));
          props["style"].style == if h.js.truthy(positioned) then Some(positioned) else None)
  }

  /** The box around an external component holds it when it was found and no prop is still to come. */
  lemma ExternalShown<V>(h: Host<V>, n: Node, name: string, component: Option<V>, vals: Env<V>, ctx: Ctx, key: nat)
    requires n.External?
    requires FoundAs(h, AttrValue(h.js, h.show, vals, n.source.globalName),
                     AttrValue(h.js, h.show, vals, n.source.exportName), LastUrl(n.source.from), name, component)
    ensures var b := Compile(h, n);
            && b.Some? && var out := b.value(vals, ctx, key);
               && out.Tag? && out.tag == "div" && |out.kids| == 1 && BoxProps(h, n, out.props, vals, key)
               && var found := NoHoleIn(n.source.from) && component.Some?;
                  var coming := ctx.htmlStreaming && exists a <- OwnAttrs(n.attrs) ::
                      h.js.strictEq(AttrValue(h.js, h.show, vals, a.raw), h.js.undef);
                  && (found && !coming ==> out.kids[0].Loaded? && out.kids[0].component == component.value)
                  && (found && coming ==> out.kids[0] == Placeholder(name, n.hintSize, None))
                  && (!found ==> out.kids[0].Placeholder? && out.kids[0].name == name
                                 && out.kids[0].hintSize == n.hintSize && out.kids[0].error.Some?)
  {
    hide AttrValue, Names, NamesNothing, NoHoleIn, ImportAttrs, Compile, InterpretAll, Trim, NameOf, LastUrl,
         HasContent, OwnAttrs, UNBINDABLE, IsPair;
    CompiledNode(h, n, vals, ctx, key);
    NameExactly(h, AttrValue(h.js, h.show, vals, n.source.globalName));
    NameExactly(h, AttrValue(h.js, h.show, vals, n.source.exportName));
    OpenExactly(n.source.from);
  }

  /** Without a name there is nothing to look up. */
  lemma ExternalUnnamed<V>(h: Host<V>, n: Node, vals: Env<V>, ctx: Ctx, key: nat)
    requires n.External?
    requires NamesNothing(h, AttrValue(h.js, h.show, vals, n.source.globalName))
    requires NamesNothing(h, AttrValue(h.js, h.show, vals, n.source.exportName))
    ensures var b := Compile(h, n);
            && b.Some? && var out := b.value(vals, ctx, key);
               out.Tag? && |out.kids| == 1 && out.kids[0].Placeholder? && out.kids[0].error.Some?
  {
    hide AttrValue, NamesNothing, ImportAttrs, Compile, InterpretAll, Trim, NameOf, LastUrl, HasContent, HasOpen,
         OwnAttrs, BoxStyle, UNBINDABLE;
    CompiledNode(h, n, vals, ctx, key);
    NameExactly(h, AttrValue(h.js, h.show, vals, n.source.globalName));
    NameExactly(h, AttrValue(h.js, h.show, vals, n.source.exportName));
  }

  lemma OpenExactly(s: string)
    ensures HasOpen(s) <==> !NoHoleIn(s)
  {
    assert HasOpen(s) ==> IsPair(s, FindPair(s, 0, '{'), '{');
  }

  /** Of several URLs separated by white space the last one is asked for the component. */
  lemma {:induction false} LastUrlIs(before: string, url: string, after: string)
    requires url != "" && (forall i :: 0 <= i < |url| ==> !IsSpace(url[i])) && AllSpace(after)
    requires before != "" ==> IsSpace(before[|before| - 1])
    ensures LastUrl(before + url + after) == url
    decreases |before|
  {
    hide IsSpace, AllSpace;
    if before == "" {
      assert before + url + after == "" + url + after;
      LastUrlStarts("", url, after);
    } else if IsSpace(before[0]) {
      assert (before + url + after)[1..] == before[1..] + url + after;
      LastUrlIs(before[1..], url, after);
    } else {
      LastUrlStarts(before, url, after);
    }
  }

  lemma LastUrlStarts(before: string, url: string, after: string)
    requires url != "" && (forall i :: 0 <= i < |url| ==> !IsSpace(url[i])) && AllSpace(after)
    requires before != "" ==> !IsSpace(before[0]) && IsSpace(before[|before| - 1])
    ensures LastUrl(before + url + after) == url
  {
    hide IsSpace;
    var s := before + url;
    assert s[|s| - 1] == url[|url| - 1] && s[0] == if before == "" then url[0] else before[0];
    TrimPadded("", s, after);
    assert "" + s + after == before + url + after;
    WordEnds(before, url);
  }

  lemma {:induction false} WordEnds(before: string, word: string)
    requires forall i :: 0 <= i < |word| ==> !IsSpace(word[i])
    requires before != "" ==> IsSpace(before[|before| - 1])
    ensures LastWord(before + word) == word
    decreases |word|
  {
    hide IsSpace;
    if word == "" {
      assert before + word == before;
    } else {
      var cut := word[..|word| - 1];
      assert (before + word)[..|before + word| - 1] == before + cut;
      WordEnds(before, cut);
    }
  }

  /** These attributes say which component to load; they are no props of it. */
  predicate SourceAttr(a: Attr) {
    a.key == "component" || a.key == "componentFromGlobalScope" || a.key == "from"
  }

  lemma {:induction false} OwnSplit(a: seq<Attr>, b: seq<Attr>)
    ensures OwnAttrs(a + b) == OwnAttrs(a) + OwnAttrs(b)
  {
    hide NamesSource;
    if a == [] {
      assert a + b == b;
    } else {
      assert (a + b)[1..] == a[1..] + b;
      OwnSplit(a[1..], b);
    }
  }

  lemma {:induction false} OwnMembers(attrs: seq<Attr>)
    ensures forall a <- OwnAttrs(attrs) :: a in attrs && !SourceAttr(a)
  {
    if attrs != [] { OwnMembers(attrs[1..]); }
  }

  /** The component in the box of a compiled `x-import`, when there is one. */
  ghost predicate Loads<V>(h: Host<V>, n: Node, vals: Env<V>, ctx: Ctx, at: nat, props: Props<V>) {
    var b := Compile(h, n);
    && b.Some?
    && var out := b.value(vals, ctx, at);
       out.Tag? && |out.kids| == 1 && out.kids[0].Loaded? && out.kids[0].props == props
  }

  lemma LoadedWith<V>(h: Host<V>, n: Node, vals: Env<V>, ctx: Ctx, at: nat, props: Props<V>)
    requires n.External? && Loads(h, n, vals, ctx, at, props)
    ensures var own := ImportAttrs(h, OwnAttrs(n.attrs), vals, map[]);
            props == if !HasContent(n.kids) || forall k <- n.kids :: Silent(k) then own
                     else own["children" := Children(InterpretAll(h, n.kids, vals, ctx, 0))]
  {
    hide AttrValue, ImportAttrs, Compile, InterpretAll, NameOf, LastUrl, HasContent, HasOpen, OwnAttrs, BoxStyle,
         UNBINDABLE, Trim;
    CompiledNode(h, n, vals, ctx, at);
  }

  /** The last of its own attributes that sets a prop of a loaded component decides it. */
  lemma LoadedProps<V>(h: Host<V>, n: Node, before: seq<Attr>, a: Attr, after: seq<Attr>, key: string,
                       vals: Env<V>, ctx: Ctx, at: nat, props: Props<V>)
    requires n.External? && Loads(h, n, vals, ctx, at, props) && n.attrs == before + ([a] + after) && key != "children"
    requires !SourceAttr(a) && SetsProp(h, a, key, vals)
    requires forall b <- after :: SetsProp(h, b, key, vals) ==> SourceAttr(b)
    ensures key in props && props[key] == Val(PropSet(h, a, key, vals))
  {
    hide Loads, AttrValue, ImportAttrs, InterpretAll, HasContent, Silent, SetsProp, PropSet;
    LoadedWith(h, n, vals, ctx, at, props);
    OwnSplit(before, [a] + after);
    OwnSplit([a], after);
    OneOwn(a);
    OwnMembers(after);
    LastSetCounts(h, OwnAttrs(before), a, OwnAttrs(after), key, vals, map[]);
  }

  lemma OneOwn(a: Attr)
    requires !SourceAttr(a)
    ensures OwnAttrs([a]) == [a]
  {
    assert [a][1..] == [];
  }

  /** A prop that none of them sets is not there. */
  lemma LoadedNoOther<V>(h: Host<V>, n: Node, key: string, vals: Env<V>, ctx: Ctx, at: nat, props: Props<V>)
    requires n.External? && Loads(h, n, vals, ctx, at, props) && key != "children"
    requires forall a <- n.attrs :: SetsProp(h, a, key, vals) ==> SourceAttr(a)
    ensures key !in props
  {
    hide Loads, AttrValue, ImportAttrs, InterpretAll, HasContent, Silent, SetsProp;
    LoadedWith(h, n, vals, ctx, at, props);
    OwnMembers(n.attrs);
    UnsetPropKept(h, OwnAttrs(n.attrs), vals, map[], key);
  }

  /** An element, or a text with something else than white space. */
  predicate Contentful(n: Node) {
    !n.Other? && (n.Text? ==> exists i :: 0 <= i < |n.raw| && !IsSpace(n.raw[i]))
  }

  lemma {:induction false} TrimEndBlank(s: string)
    ensures TrimEnd(s) == "" <==> AllSpace(s)
    decreases |s|
  {
    if s != "" {
      TrimEndBlank(s[..|s| - 1]);
      assert s == s[..|s| - 1] + [s[|s| - 1]];
    }
  }

  lemma {:induction false} TrimBlank(s: string)
    ensures Trim(s) == "" <==> AllSpace(s)
    decreases |s|
  {
    if s != "" && IsSpace(s[0]) {
      TrimBlank(s[1..]);
      assert s == [s[0]] + s[1..];
    } else {
      TrimEndBlank(s);
    }
  }

  lemma ContentExactly(kids: seq<Node>)
    ensures HasContent(kids) <==> exists k <- kids :: Contentful(k)
    ensures HasContent(kids) ==> exists k <- kids :: !Silent(k)
  {
    hide IsSpace, Trim, HasOpen;
    forall i | 0 <= i < |kids| && kids[i].Text?
      ensures Trim(kids[i].raw) != "" <==> Contentful(kids[i])
    {
      TrimBlank(kids[i].raw);
    }
    assert forall i :: 0 <= i < |kids| ==> kids[i] in kids;
  }

  /** A loaded component has children exactly when something stands between its tags: what these are rendered to. */
  lemma LoadedChildren<V>(h: Host<V>, n: Node, vals: Env<V>, ctx: Ctx, at: nat, props: Props<V>)
    requires n.External? && Loads(h, n, vals, ctx, at, props)
    requires forall a <- n.attrs :: SetsProp(h, a, "children", vals) ==> SourceAttr(a)
    ensures "children" in props <==> exists k <- n.kids :: Contentful(k)
    ensures "children" in props ==> props["children"] == Children(InterpretAll(h, n.kids, vals, ctx, 0))
  {
    hide Loads, AttrValue, ImportAttrs, InterpretAll, HasContent, Silent, SetsProp, Contentful;
    LoadedWith(h, n, vals, ctx, at, props);
    ContentExactly(n.kids);
    OwnMembers(n.attrs);
    UnsetPropKept(h, OwnAttrs(n.attrs), vals, map[], "children");
  }
}
