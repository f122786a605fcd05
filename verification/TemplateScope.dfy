/**
  Which names a rendering looks up: the names a loop binds are visible in its body and nowhere else
  (`design/Q-Agent app design/support.js`, `walkFor`).
 */
module TemplateScope {
  import opened Wrappers
  import opened Expr
  import opened ExprScope
  import opened Holes
  import opened Template

  /** The names that the holes of a split text look up. */
  function PartHeads(parts: seq<string>): set<string> {
    if |parts| <= 1 then {} else Heads(parts[1]) + PartHeads(parts[2..])
  }

  function FreeInText(raw: string): set<string> {
    if HasOpen(raw) then PartHeads(Parts(raw)) else {}
  }

  function FreeInAttr(raw: string): set<string> {
    match WholeHole(raw)
    case Some(path) => Heads(path)
    case None => FreeInText(raw)
  }

  function FreeInOption(raw: Option<string>): set<string> {
    if raw.Some? then FreeInAttr(raw.value) else {}
  }

  function FreeInAttrs(attrs: seq<Attr>): set<string> {
    if attrs == [] then {} else FreeInAttr(attrs[0].raw) + FreeInAttrs(attrs[1..])
  }

  /** The names a node takes from around it: a loop binds its item name and `$index` for its children only. */
  function Free(n: Node): set<string> {
    match n
    case Text(raw) => FreeInText(raw)
    case Other => {}
    case For(_, list, asName, _, kids) => FreeInAttr(list) + (FreeInAll(kids) - {asName, "$index"})
    case If(_, value, hintVal, kids) => FreeInAttr(value) + FreeInOption(hintVal) + FreeInAll(kids)
    case Import(_, _, _, style, attrs, kids) => FreeInOption(style) + FreeInAttrs(attrs) + FreeInAll(kids)
    case External(_, source, _, style, attrs, kids) =>
      FreeInAttr(source.globalName) + FreeInAttr(source.exportName) + FreeInOption(style)
      + FreeInAttrs(OwnAttrs(attrs)) + FreeInAll(kids)
    case Helmet(_, _) => {}
    case Element(_, _, _, attrs, kids) => FreeInAttrs(attrs) + FreeInAll(kids)
  }

  function FreeInAll(ns: seq<Node>): set<string> {
    if ns == [] then {} else Free(ns[0]) + FreeInAll(ns[1..])
  }

  lemma {:induction false} JoinLocal<V>(js: Js<V>, show: V -> string, v1: Env<V>, v2: Env<V>, parts: seq<string>)
    requires Agree(v1, v2, PartHeads(parts))
    ensures JoinParts(js, show, v1, parts) == JoinParts(js, show, v2, parts)
  {
    hide Heads, Resolve;
    if |parts| > 1 {
      ResolveLocal(js, v1, v2, parts[1]);
      JoinLocal(js, show, v1, v2, parts[2..]);
    }
  }

  lemma AttrLocal<V>(js: Js<V>, show: V -> string, v1: Env<V>, v2: Env<V>, raw: string)
    requires Agree(v1, v2, FreeInAttr(raw))
    ensures AttrValue(js, show, v1, raw) == AttrValue(js, show, v2, raw)
  {
    hide Heads, Resolve, PartHeads, JoinParts, Parts, HasOpen;
    match WholeHole(raw)
    case Some(path) => ResolveLocal(js, v1, v2, path);
    case None => if HasOpen(raw) { JoinLocal(js, show, v1, v2, Parts(raw)); }
  }

  lemma {:induction false} PartsLocal<V>(h: Host<V>, parts: seq<string>, i: nat, v1: Env<V>, v2: Env<V>, ctx: Ctx)
    requires i % 2 == 0 && Agree(v1, v2, PartHeads(parts))
    ensures InterpretParts(h, parts, i, v1, ctx) == InterpretParts(h, parts, i, v2, ctx)
  {
    hide Heads, Resolve, HoleOut;
    if |parts| > 1 {
      ResolveLocal(h.js, v1, v2, parts[1]);
      PartsLocal(h, parts[2..], i + 2, v1, v2, ctx);
      assert parts[1..][1..] == parts[2..];
    }
  }

  lemma {:induction false} ImportAttrsLocal<V>(h: Host<V>, attrs: seq<Attr>, v1: Env<V>, v2: Env<V>, props: Props<V>)
    requires Agree(v1, v2, FreeInAttrs(attrs))
    ensures ImportAttrs(h, attrs, v1, props) == ImportAttrs(h, attrs, v2, props)
  {
    hide FreeInAttr, AttrValue, SetImportProp;
    if attrs != [] {
      AttrLocal(h.js, h.show, v1, v2, attrs[0].raw);
      ImportAttrsLocal(h, attrs[1..], v1, v2, SetImportProp(h, props, attrs[0].key,
                                                            AttrValue(h.js, h.show, v1, attrs[0].raw)));
    }
  }

  lemma {:induction false} TagAttrsLocal<V>(h: Host<V>, attrs: seq<Attr>, v1: Env<V>, v2: Env<V>, props: Props<V>)
    requires Agree(v1, v2, FreeInAttrs(attrs))
    ensures TagAttrs(h, attrs, v1, props) == TagAttrs(h, attrs, v2, props)
  {
    hide FreeInAttr, AttrValue, SetTagProp;
    if attrs != [] {
      AttrLocal(h.js, h.show, v1, v2, attrs[0].raw);
      TagAttrsLocal(h, attrs[1..], v1, v2, SetTagProp(h, props, attrs[0].key,
                                                      AttrValue(h.js, h.show, v1, attrs[0].raw)));
    }
  }

  /** A rendering depends only on what the node's free names are bound to. */
  lemma {:induction false} RenderingLocal<V>(h: Host<V>, n: Node, v1: Env<V>, v2: Env<V>, ctx: Ctx, key: nat)
    requires Agree(v1, v2, Free(n))
    ensures Interpret(h, n, v1, ctx, key) == Interpret(h, n, v2, ctx, key)
    decreases n, 1
  {
    hide FreeInAttr, AttrValue, Parts, LoopItems, SetImportProp, SetTagProp, Bind, PartHeads, InterpretParts, Rounds,
         Silent,
         ImportAttrs, TagAttrs, ImportProps, Agree;
    match n
    case Text(raw) => TextLocal(h, n, v1, v2, ctx, key);
    case Other =>
    case For(_, list, asName, hint, kids) =>
      AgreeParts(v1, v2, FreeInAttr(list), FreeInAll(kids) - {asName, "$index"});
      AttrLocal(h.js, h.show, v1, v2, list);
      RoundsLocal(h, kids, asName, LoopItems(h, AttrValue(h.js, h.show, v1, list), hint, ctx), 0, v1, v2, ctx);
    case If(_, value, hintVal, kids) =>
      AgreeParts(v1, v2, FreeInAttr(value) + FreeInOption(hintVal), FreeInAll(kids));
      AgreeParts(v1, v2, FreeInAttr(value), FreeInOption(hintVal));
      AttrLocal(h.js, h.show, v1, v2, value);
      if hintVal.Some? { AttrLocal(h.js, h.show, v1, v2, hintVal.value); }
      ChildrenLocal(h, kids, v1, v2, ctx, 0);
    case Import(id, _, hintSize, style, attrs, kids) =>
      AgreeParts(v1, v2, FreeInOption(style) + FreeInAttrs(attrs), FreeInAll(kids));
      AgreeParts(v1, v2, FreeInOption(style), FreeInAttrs(attrs));
      if style.Some? { AttrLocal(h.js, h.show, v1, v2, style.value); }
      var hostStyle := if style.Some? then Some(h.hostStyle(AttrValue(h.js, h.show, v1, style.value))) else None;
      ImportAttrsLocal(h, attrs, v1, v2, ImportProps(key, hintSize, id, hostStyle));
      ChildrenLocal(h, kids, v1, v2, ctx, 0);
    case External(_, _, _, _, _, _) => ExternalLocal(h, n, v1, v2, ctx, key);
    case Helmet(_, _) =>
    case Element(id, _, keySuffix, attrs, kids) =>
      AgreeParts(v1, v2, FreeInAttrs(attrs), FreeInAll(kids));
      TagAttrsLocal(h, attrs, v1, v2, map["key" := Key(key, keySuffix), "data-dc-tpl" := TplId(id)]);
      ChildrenLocal(h, kids, v1, v2, ctx, 0);
  }

  lemma {:induction false} ExternalLocal<V>(h: Host<V>, n: Node, v1: Env<V>, v2: Env<V>, ctx: Ctx, key: nat)
    requires n.External? && Agree(v1, v2, Free(n))
    ensures Interpret(h, n, v1, ctx, key) == Interpret(h, n, v2, ctx, key)
    decreases n, 0, 0
  {
    hide FreeInAttr, AttrValue, Silent, ImportAttrs, Agree, ExternalOut, HasContent, FreeInAll, FreeInAttrs,
         FreeInOption;
    var globals, exports, styles := FreeInAttr(n.source.globalName), FreeInAttr(n.source.exportName),
         FreeInOption(n.style);
    var own := OwnAttrs(n.attrs);
    AgreeParts(v1, v2, globals + exports + styles + FreeInAttrs(own), FreeInAll(n.kids));
    AgreeParts(v1, v2, globals + exports + styles, FreeInAttrs(own));
    AgreeParts(v1, v2, globals + exports, styles);
    AgreeParts(v1, v2, globals, exports);
    AttrLocal(h.js, h.show, v1, v2, n.source.globalName);
    AttrLocal(h.js, h.show, v1, v2, n.source.exportName);
    OptionLocal(h, n.style, v1, v2);
    ImportAttrsLocal(h, own, v1, v2, map[]);
    OwnLocal(h, own, v1, v2);
    ChildrenLocal(h, n.kids, v1, v2, ctx, 0);
  }

  lemma OptionLocal<V>(h: Host<V>, raw: Option<string>, v1: Env<V>, v2: Env<V>)
    requires Agree(v1, v2, FreeInOption(raw))
    ensures raw.Some? ==> AttrValue(h.js, h.show, v1, raw.value) == AttrValue(h.js, h.show, v2, raw.value)
  {
    hide FreeInAttr, AttrValue;
    if raw.Some? { AttrLocal(h.js, h.show, v1, v2, raw.value); }
  }

  lemma {:induction false} OwnLocal<V>(h: Host<V>, attrs: seq<Attr>, v1: Env<V>, v2: Env<V>)
    requires Agree(v1, v2, FreeInAttrs(attrs))
    ensures forall a <- attrs :: AttrValue(h.js, h.show, v1, a.raw) == AttrValue(h.js, h.show, v2, a.raw)
  {
    hide FreeInAttr, AttrValue;
    if attrs != [] {
      AttrLocal(h.js, h.show, v1, v2, attrs[0].raw);
      OwnLocal(h, attrs[1..], v1, v2);
      assert forall a <- attrs :: a == attrs[0] || a in attrs[1..];
    }
  }

  lemma TextLocal<V>(h: Host<V>, n: Node, v1: Env<V>, v2: Env<V>, ctx: Ctx, key: nat)
    requires n.Text? && Agree(v1, v2, FreeInText(n.raw))
    ensures Interpret(h, n, v1, ctx, key) == Interpret(h, n, v2, ctx, key)
  {
    hide Parts, PartHeads, InterpretParts;
    if HasOpen(n.raw) { PartsLocal(h, Parts(n.raw), 0, v1, v2, ctx); }
  }

  lemma AgreeParts<V>(v1: Env<V>, v2: Env<V>, a: set<string>, b: set<string>)
    requires Agree(v1, v2, a + b)
    ensures Agree(v1, v2, a) && Agree(v1, v2, b)
  {
  }

  lemma {:induction false} ChildrenLocal<V>(h: Host<V>, ns: seq<Node>, v1: Env<V>, v2: Env<V>, ctx: Ctx, key: nat)
    requires Agree(v1, v2, FreeInAll(ns))
    ensures InterpretAll(h, ns, v1, ctx, key) == InterpretAll(h, ns, v2, ctx, key)
    decreases ns, 0
  {
    hide Interpret, Free, Silent, Agree;
    if ns != [] {
      AgreeParts(v1, v2, Free(ns[0]), FreeInAll(ns[1..]));
      RenderingLocal(h, ns[0], v1, v2, ctx, key);
      ChildrenLocal(h, ns[1..], v1, v2, ctx, if Silent(ns[0]) then key else key + 1);
    }
  }

  lemma {:induction false} RoundsLocal<V>(h: Host<V>, kids: seq<Node>, asName: string, list: seq<V>, i: nat,
                                          v1: Env<V>, v2: Env<V>, ctx: Ctx)
    requires Agree(v1, v2, FreeInAll(kids) - {asName, "$index"})
    ensures Rounds(h, kids, asName, list, i, v1, ctx) == Rounds(h, kids, asName, list, i, v2, ctx)
    decreases kids, 1, |list|
  {
    hide InterpretAll, FreeInAll;
    if list != [] {
      ChildrenLocal(h, kids, Bind(h, v1, asName, list[0], i), Bind(h, v2, asName, list[0], i), ctx, 0);
      RoundsLocal(h, kids, asName, list[1..], i + 1, v1, v2, ctx);
    }
  }

  /** A loop whose list mentions neither its item name nor `$index` ignores what they are bound to outside. */
  lemma LoopNamesStayInside<V>(h: Host<V>, n: Node, vals: Env<V>, item: V, i: nat, ctx: Ctx, key: nat)
    requires n.For? && n.asName !in FreeInAttr(n.list) && "$index" !in FreeInAttr(n.list)
    ensures Interpret(h, n, Bind(h, vals, n.asName, item, i), ctx, key) == Interpret(h, n, vals, ctx, key)
  {
    hide Interpret, FreeInAttr, FreeInAll;
    RenderingLocal(h, n, Bind(h, vals, n.asName, item, i), vals, ctx, key);
  }

  /** Every element of the list gets one round, in order, in which it and its index are bound. */
  lemma LoopRounds<V>(h: Host<V>, n: Node, vals: Env<V>, ctx: Ctx, key: nat, list: seq<V>)
    requires n.For? && h.items(AttrValue(h.js, h.show, vals, n.list)) == Some(list)
    ensures Interpret(h, n, vals, ctx, key) == Fragment(key, seq(|list|, i requires 0 <= i < |list| =>
              Fragment(i, InterpretAll(h, n.kids, Bind(h, vals, n.asName, list[i], i), ctx, 0))))
    ensures forall i | 0 <= i < |list| ::
              && Bind(h, vals, n.asName, list[i], i)("$index") == h.index(i)
              && (n.asName != "$index" ==> Bind(h, vals, n.asName, list[i], i)(n.asName) == list[i])
              && forall x | x != n.asName && x != "$index" :: Bind(h, vals, n.asName, list[i], i)(x) == vals(x)
  {
    hide InterpretAll, AttrValue;
    RoundAt(h, n.kids, n.asName, list, 0, vals, ctx);
  }
}
