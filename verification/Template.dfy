/**
  The template compiler of the dc-runtime (`design/Q-Agent app design/support.js`, `src/compile.ts`).
  `Compile` turns a parsed tree into builders, closures that are run once for every render; `Interpret`
  renders the tree directly. A parsed tree is given: its attributes are already collected under the
  property names that `AttrCodec` computes.
 */
module Template {
  import opened Strings
  import opened Wrappers
  import opened Expr
  import opened ExprSyntax
  import opened Holes

  /** What the builders ask of the host beside the operators of expressions. */
  datatype Host<!V> = Host(
    js: Js<V>,
    items: V -> Option<seq<V>>,
    index: nat -> V,
    show: V -> string,
    isElement: V -> bool,
    isBoolean: V -> bool,
    entries: V -> Option<map<string, V>>,
    styled: V -> V,
    hostStyle: V -> V,
    external: (string, string, bool) -> Option<V>,
    externalError: (string, string) -> string)
  {
    predicate IsUndef(v: V) {
      js.strictEq(v, js.undef)
    }
  }

  datatype Attr = Attr(key: string, raw: string)

  /** Where an `x-import` takes its component from: a module's URLs, a name in the global scope, an export. */
  datatype Source = Source(from: string, globalName: string, exportName: string)

  /** A node of the parsed template; `id` is the stamp `data-dc-tpl`. */
  datatype Node =
    | Text(raw: string)
    | Other
    | For(id: nat, list: string, asName: string, hint: int, kids: seq<Node>)
    | If(id: nat, value: string, hintVal: Option<string>, kids: seq<Node>)
    | Import(id: nat, name: string, hintSize: Option<string>, style: Option<string>, attrs: seq<Attr>, kids: seq<Node>)
    | External(id: nat, source: Source, hintSize: Option<string>, style: Option<string>, attrs: seq<Attr>,
               kids: seq<Node>)
    | Helmet(id: nat, kids: seq<Node>)
    | Element(id: nat, tag: string, keySuffix: string, attrs: seq<Attr>, kids: seq<Node>)

  /** The component's `__streamingNow` and `__htmlStreamingNow`, and the page's `data-dc-editor-on`. */
  datatype Ctx = Ctx(streaming: bool, htmlStreaming: bool, editor: bool)

  datatype Prop<+V> =
    | Val(v: V)
    | Key(n: nat, suffix: string)
    | TplId(id: nat)
    | HintSize(size: Option<string>)
    | HostStyle(style: Option<V>)
    | Children(kids: seq<Out<V>>)

  datatype Out<+V> =
    | Null
    | Str(s: string)
    | Child(key: nat, v: V)
    | Span(key: nat, className: string, text: string)
    | Fragment(key: nat, kids: seq<Out<V>>)
    | Tag(tag: string, props: Props<V>, kids: seq<Out<V>>)
    | Component(name: string, props: Props<V>)
    | Loaded(component: V, props: Props<V>)
    | Placeholder(name: string, hintSize: Option<string>, error: Option<string>)

  type Props<+V> = map<string, Prop<V>>

  type Builder<!V> = (Env<V>, Ctx, nat) -> Out<V>

  /** `{ ...vals, [asName]: item, $index: i }`: the index is written last. */
  function Bind<V>(h: Host<V>, vals: Env<V>, asName: string, item: V, i: nat): Env<V> {
    name => if name == "$index" then h.index(i) else if name == asName then item else vals(name)
  }

  // ---------------------------------------------------------------------------
  // Parts shared by both renderings
  // ---------------------------------------------------------------------------

  /** One part of a text: the even ones are literal, the odd ones are holes. */
  function TextPart<V>(h: Host<V>, part: string, i: nat, vals: Env<V>, ctx: Ctx): Out<V> {
    if i % 2 == 0 then Str(part) else HoleOut(h, part, i, Resolve(h.js, vals, part), ctx)
  }

  function HoleOut<V>(h: Host<V>, part: string, i: nat, v: V, ctx: Ctx): Out<V> {
    if h.IsUndef(v) then
      if ctx.streaming then Span(i, "sc-interp sc-missing", Trim(part))
      else if ctx.editor then Span(i, "sc-interp sc-unresolved", "{{ " + Trim(part) + " }}")
      else Null
    else if h.isElement(v) || h.items(v).Some? then Child(i, v)
    else if h.js.strictEq(v, h.js.nul) || h.isBoolean(v) then Null
    else Span(i, "sc-interp", h.show(v))
  }

  /** The list a loop runs over: while streaming, a missing list shows `hint` placeholder rounds. */
  function LoopItems<V>(h: Host<V>, v: V, hint: int, ctx: Ctx): seq<V> {
    match h.items(v)
    case Some(list) => list
    case None => if ctx.streaming && hint > 0 then seq(hint, _ => h.js.undef) else []
  }

  function ImportProps<V>(key: nat, hintSize: Option<string>, id: nat, style: Option<V>): Props<V> {
    map["key" := Key(key, ""), "__hintSize" := HintSize(hintSize), "__tplId" := TplId(id),
        "__hostStyle" := HostStyle(style)]
  }

  /** One attribute of a component: `dcProps` is spread, every other one assigned. */
  function SetImportProp<V>(h: Host<V>, props: Props<V>, key: string, v: V): Props<V> {
    if key != "dcProps" then props[key := Val(v)]
    else match h.entries(v)
         case None => props
         case Some(m) => props + map k | k in m :: Val(m[k])
  }

  /** The attributes that say which component to load are no props of it. */
  predicate NamesSource(key: string) {
    key == "component" || key == "componentFromGlobalScope" || key == "from"
  }

  /** The last of the URLs listed in `from`. */
  function LastUrl(from: string): string {
    LastWord(Trim(from))
  }

  function LastWord(s: string): string {
    if s == "" || IsSpace(s[|s| - 1]) then "" else LastWord(s[..|s| - 1]) + [s[|s| - 1]]
  }

  /** A name that still holds a hole is no name yet. */
  function NameOf<V>(h: Host<V>, v: V): string {
    var s := if h.js.nullish(v) then "" else h.show(v);
    if HasOpen(s) then "" else s
  }

  const UNBINDABLE :=
    "x-import `from` cannot contain {{ \U{2026} }} \U{2014} module URLs are resolved at parse time; use a literal URL"

  /**
    What an `x-import` shows, always inside its own box: a placeholder when its component cannot be resolved, or
    while a prop of it is still undefined in streamed markup; the component otherwise.
   */
  function ExternalOut<V>(h: Host<V>, key: nat, id: nat, from: string, hintSize: Option<string>, style: Option<V>,
                          globalV: V, exportV: V, missing: bool, props: Props<V>, ctx: Ctx): Out<V>
  {
    var globalName := NameOf(h, globalV);
    var name := if globalName != "" then globalName else NameOf(h, exportV);
    var component :=
      if name == "" || HasOpen(from) then None else h.external(LastUrl(from), name, globalName != "");
    var shown :=
      if component.None? then
        Placeholder(name, hintSize, Some(if HasOpen(from) then UNBINDABLE else h.externalError(LastUrl(from), name)))
      else if missing && ctx.htmlStreaming then Placeholder(name, hintSize, None)
      else Loaded(component.value, props);
    Tag("div", map["key" := Key(key, ""), "className" := Val(h.js.text("sc-host-x")), "data-dc-tpl" := TplId(id),
                   "style" := HostStyle(style)], [shown])
  }

  /** The style of the box; without one it is laid out as its contents. */
  function BoxStyle<V>(h: Host<V>, style: Option<V>): Option<V> {
    if style.Some? && h.js.truthy(h.hostStyle(style.value)) then Some(h.hostStyle(style.value)) else None
  }

  predicate HasContent(ns: seq<Node>) {
    exists i :: 0 <= i < |ns| && !ns[i].Other? && (ns[i].Text? ==> Trim(ns[i].raw) != "")
  }

  /** What an element's attribute is set to: an undefined `value` or `checked` would make an input uncontrolled. */
  function TagValue<V>(h: Host<V>, key: string, v: V): V {
    var v := if key == "style" then h.styled(v) else v;
    if key == "checked" && h.IsUndef(v) then h.js.boolean(false)
    else if key == "value" && h.IsUndef(v) then h.js.text("")
    else v
  }

  function SetTagProp<V>(h: Host<V>, props: Props<V>, key: string, v: V): Props<V> {
    props[key := Val(TagValue(h, key, v))]
  }

  predicate Silent(n: Node) {
    n.Other? || (n.Text? && !HasOpen(n.raw) && Trim(n.raw) == "" && ' ' !in n.raw)
  }

  // ---------------------------------------------------------------------------
  // Compiling: walk, walkText, walkFor, walkIf, walkComponent, walkElement
  // ---------------------------------------------------------------------------

  type Getter<!V> = Env<V> -> V

  type Getters<!V> = seq<(string, Getter<V>)>

  function Compile<V>(h: Host<V>, n: Node): Option<Builder<V>> {
    match n
    case Text(raw) => CompileText(h, raw)
    case Other => None
    case For(_, list, asName, hint, kids) =>
      var listGet := CompileAttr(h.js, h.show, list);
      var bs := CompileAll(h, kids);
      Some((vals: Env<V>, ctx: Ctx, key: nat) =>
        var list := LoopItems(h, listGet(vals), hint, ctx);
        Fragment(key, seq(|list|, i requires 0 <= i < |list| =>
          Fragment(i, Run(bs, Bind(h, vals, asName, list[i], i), ctx)))))
    case If(_, value, hintVal, kids) =>
      var valGet := CompileAttr(h.js, h.show, value);
      var hintGet: Option<Getter<V>> := if hintVal.Some? then Some(CompileAttr(h.js, h.show, hintVal.value)) else None;
      var bs := CompileAll(h, kids);
      Some((vals: Env<V>, ctx: Ctx, key: nat) =>
        var v := valGet(vals);
        var v := if h.IsUndef(v) && hintGet.Some? && ctx.streaming then hintGet.value(vals) else v;
        if h.js.truthy(v) then Fragment(key, Run(bs, vals, ctx)) else Null)
    case Import(id, name, hintSize, style, attrs, kids) =>
      var styleGet: Option<Getter<V>> := if style.Some? then Some(CompileAttr(h.js, h.show, style.value)) else None;
      var getters := CompileAttrs(h, attrs);
      var bs := CompileAll(h, kids);
      Some((vals: Env<V>, ctx: Ctx, key: nat) =>
        var hostStyle := if styleGet.Some? then Some(h.hostStyle(styleGet.value(vals))) else None;
        var props := RunImportProps(h, getters, vals, ImportProps(key, hintSize, id, hostStyle));
        Component(name, if bs == [] then props else props["children" := Children(Run(bs, vals, ctx))]))
    case External(id, source, hintSize, style, attrs, kids) =>
      var globalGet := CompileAttr(h.js, h.show, source.globalName);
      var exportGet := CompileAttr(h.js, h.show, source.exportName);
      var styleGet: Option<Getter<V>> := if style.Some? then Some(CompileAttr(h.js, h.show, style.value)) else None;
      var getters := CompileAttrs(h, attrs);
      var bs := if HasContent(kids) then CompileAll(h, kids) else [];
      Some((vals: Env<V>, ctx: Ctx, key: nat) =>
        var box := BoxStyle(h, if styleGet.Some? then Some(styleGet.value(vals)) else None);
        var props := RunExternalProps(h, getters, vals, map[]);
        var props := if bs == [] then props else props["children" := Children(Run(bs, vals, ctx))];
        ExternalOut(h, key, id, source.from, hintSize, box, globalGet(vals), exportGet(vals),
                    RunMissing(h, getters, vals), props, ctx))
    case Helmet(_, _) => Some((vals: Env<V>, ctx: Ctx, key: nat) => Null)
    case Element(id, tag, keySuffix, attrs, kids) =>
      var getters := CompileAttrs(h, attrs);
      var bs := CompileAll(h, kids);
      Some((vals: Env<V>, ctx: Ctx, key: nat) =>
        Tag(tag, RunTagProps(h, getters, vals, map["key" := Key(key, keySuffix), "data-dc-tpl" := TplId(id)]),
            Run(bs, vals, ctx)))
  }

  function CompileText<V>(h: Host<V>, raw: string): Option<Builder<V>> {
    if !HasOpen(raw) then
      if Trim(raw) == "" && ' ' !in raw then None else Some((vals: Env<V>, ctx: Ctx, key: nat) => Str(raw))
    else
      var parts := Parts(raw);
      Some((vals: Env<V>, ctx: Ctx, key: nat) =>
        Fragment(key, seq(|parts|, i requires 0 <= i < |parts| => TextPart(h, parts[i], i, vals, ctx))))
  }

  /** Children that compile to nothing are dropped before the rest are numbered. */
  function CompileAll<V>(h: Host<V>, ns: seq<Node>): seq<Builder<V>> {
    if ns == [] then []
    else
      var rest := CompileAll(h, ns[1..]);
      match Compile(h, ns[0])
      case None => rest
      case Some(b) => [b] + rest
  }

  function Run<V>(bs: seq<Builder<V>>, vals: Env<V>, ctx: Ctx): seq<Out<V>> {
    seq(|bs|, j requires 0 <= j < |bs| => bs[j](vals, ctx, j))
  }

  function CompileAttrs<V>(h: Host<V>, attrs: seq<Attr>): (r: Getters<V>) {
    if attrs == [] then []
    else [(attrs[0].key, CompileAttr(h.js, h.show, attrs[0].raw))] + CompileAttrs(h, attrs[1..])
  }

  function RunImportProps<V>(h: Host<V>, gs: Getters<V>, vals: Env<V>, props: Props<V>): Props<V> {
    if gs == [] then props
    else RunImportProps(h, gs[1..], vals, SetImportProp(h, props, gs[0].0, gs[0].1(vals)))
  }

  function RunExternalProps<V>(h: Host<V>, gs: Getters<V>, vals: Env<V>, props: Props<V>): Props<V> {
    if gs == [] then props
    else
      RunExternalProps(h, gs[1..], vals,
                       if NamesSource(gs[0].0) then props else SetImportProp(h, props, gs[0].0, gs[0].1(vals)))
  }

  predicate RunMissing<V>(h: Host<V>, gs: Getters<V>, vals: Env<V>) {
    gs != [] && ((!NamesSource(gs[0].0) && h.IsUndef(gs[0].1(vals))) || RunMissing(h, gs[1..], vals))
  }

  function RunTagProps<V>(h: Host<V>, gs: Getters<V>, vals: Env<V>, props: Props<V>): Props<V> {
    if gs == [] then props
    else RunTagProps(h, gs[1..], vals, SetTagProp(h, props, gs[0].0, gs[0].1(vals)))
  }

  // ---------------------------------------------------------------------------
  // Interpreting the tree directly
  // ---------------------------------------------------------------------------

  /** The rendering of a node that is not silent, as the `key`-th child of its parent. */
  function Interpret<V>(h: Host<V>, n: Node, vals: Env<V>, ctx: Ctx, key: nat): Out<V>
    decreases n, 0
  {
    match n
    case Text(raw) =>
      if HasOpen(raw) then Fragment(key, InterpretParts(h, Parts(raw), 0, vals, ctx)) else Str(raw)
    case Other => Null
    case For(_, list, asName, hint, kids) =>
      Fragment(key, Rounds(h, kids, asName, LoopItems(h, AttrValue(h.js, h.show, vals, list), hint, ctx), 0, vals, ctx))
    case If(_, value, hintVal, kids) =>
      var v := AttrValue(h.js, h.show, vals, value);
      var hinted := h.IsUndef(v) && hintVal.Some? && ctx.streaming;
      var v := if hinted then AttrValue(h.js, h.show, vals, hintVal.value) else v;
      if h.js.truthy(v) then Fragment(key, InterpretAll(h, kids, vals, ctx, 0)) else Null
    case Import(id, name, hintSize, style, attrs, kids) =>
      var hostStyle := if style.Some? then Some(h.hostStyle(AttrValue(h.js, h.show, vals, style.value))) else None;
      var props := ImportAttrs(h, attrs, vals, ImportProps(key, hintSize, id, hostStyle));
      Component(name, if forall k <- kids :: Silent(k) then props
                      else props["children" := Children(InterpretAll(h, kids, vals, ctx, 0))])
    case External(id, source, hintSize, style, attrs, kids) =>
      var box := BoxStyle(h, if style.Some? then Some(AttrValue(h.js, h.show, vals, style.value)) else None);
      var own := OwnAttrs(attrs);
      var props := ImportAttrs(h, own, vals, map[]);
      var empty := !HasContent(kids) || forall k <- kids :: Silent(k);
      ExternalOut(h, key, id, source.from, hintSize, box,
                  AttrValue(h.js, h.show, vals, source.globalName), AttrValue(h.js, h.show, vals, source.exportName),
                  exists a <- own :: h.IsUndef(AttrValue(h.js, h.show, vals, a.raw)),
                  if empty then props else props["children" := Children(InterpretAll(h, kids, vals, ctx, 0))], ctx)
    case Helmet(_, _) => Null
    case Element(id, tag, keySuffix, attrs, kids) =>
      Tag(tag, TagAttrs(h, attrs, vals, map["key" := Key(key, keySuffix), "data-dc-tpl" := TplId(id)]),
          InterpretAll(h, kids, vals, ctx, 0))
  }

  /** Children in order, silent ones skipped; `key` numbers the others. */
  function InterpretAll<V>(h: Host<V>, ns: seq<Node>, vals: Env<V>, ctx: Ctx, key: nat): seq<Out<V>>
    decreases ns, 0
  {
    if ns == [] then []
    else if Silent(ns[0]) then InterpretAll(h, ns[1..], vals, ctx, key)
    else [Interpret(h, ns[0], vals, ctx, key)] + InterpretAll(h, ns[1..], vals, ctx, key + 1)
  }

  /** The rounds of a loop from number `i` on: each sees its own item and index. */
  function Rounds<V>(h: Host<V>, kids: seq<Node>, asName: string, list: seq<V>, i: nat, vals: Env<V>,
                     ctx: Ctx): seq<Out<V>>
    decreases kids, 1, |list|
  {
    if list == [] then []
    else
      [Fragment(i, InterpretAll(h, kids, Bind(h, vals, asName, list[0], i), ctx, 0))]
      + Rounds(h, kids, asName, list[1..], i + 1, vals, ctx)
  }

  function InterpretParts<V>(h: Host<V>, parts: seq<string>, i: nat, vals: Env<V>, ctx: Ctx): seq<Out<V>> {
    if parts == [] then [] else [TextPart(h, parts[0], i, vals, ctx)] + InterpretParts(h, parts[1..], i + 1, vals, ctx)
  }

  /** The attributes of an `x-import` that are props of the component. */
  function OwnAttrs(attrs: seq<Attr>): seq<Attr> {
    if attrs == [] then []
    else (if NamesSource(attrs[0].key) then [] else [attrs[0]]) + OwnAttrs(attrs[1..])
  }

  function ImportAttrs<V>(h: Host<V>, attrs: seq<Attr>, vals: Env<V>, props: Props<V>): Props<V> {
    if attrs == [] then props
    else ImportAttrs(h, attrs[1..], vals, SetImportProp(h, props, attrs[0].key,
                                                        AttrValue(h.js, h.show, vals, attrs[0].raw)))
  }

  function TagAttrs<V>(h: Host<V>, attrs: seq<Attr>, vals: Env<V>, props: Props<V>): Props<V> {
    if attrs == [] then props
    else TagAttrs(h, attrs[1..], vals, SetTagProp(h, props, attrs[0].key, AttrValue(h.js, h.show, vals, attrs[0].raw)))
  }

  // ---------------------------------------------------------------------------
  // Compiling keeps the meaning
  // ---------------------------------------------------------------------------

  /** The builder of a node renders what interpreting the node renders; exactly the silent nodes have none. */
  lemma {:induction false} CompiledNode<V>(h: Host<V>, n: Node, vals: Env<V>, ctx: Ctx, key: nat)
    ensures Compile(h, n).None? <==> Silent(n)
    ensures Compile(h, n).Some? ==> Compile(h, n).value(vals, ctx, key) == Interpret(h, n, vals, ctx, key)
    decreases n, 1
  {
    hide Bind, CompileAttr, AttrValue, Parts, HoleOut, LoopItems, SetImportProp, SetTagProp, ExternalOut, HasContent,
         NamesSource;
    match n
    case Text(raw) =>
      if HasOpen(raw) { CompiledParts(h, Parts(raw), 0, vals, ctx); }
    case Other =>
    case For(_, list, asName, hint, kids) =>
      CompiledAttr(h.js, h.show, list, vals);
      CompiledRounds(h, kids, asName, LoopItems(h, AttrValue(h.js, h.show, vals, list), hint, ctx), 0, vals, ctx);
    case If(_, value, hintVal, kids) =>
      CompiledAttr(h.js, h.show, value, vals);
      if hintVal.Some? { CompiledAttr(h.js, h.show, hintVal.value, vals); }
      CompiledChildren(h, kids, vals, ctx, 0);
    case Import(_, _, _, _, _, _) => CompiledImport(h, n, vals, ctx, key);
    case External(_, _, _, _, _, _) => CompiledExternal(h, n, vals, ctx, key);
    case Helmet(_, _) =>
    case Element(id, _, keySuffix, attrs, kids) =>
      CompiledTagAttrs(h, attrs, vals, map["key" := Key(key, keySuffix), "data-dc-tpl" := TplId(id)]);
      CompiledChildren(h, kids, vals, ctx, 0);
  }

  lemma {:induction false} CompiledImport<V>(h: Host<V>, n: Node, vals: Env<V>, ctx: Ctx, key: nat)
    requires n.Import?
    ensures Compile(h, n).Some? && Compile(h, n).value(vals, ctx, key) == Interpret(h, n, vals, ctx, key)
    decreases n, 0
  {
    hide CompileAttr, AttrValue, Silent, CompileAll, InterpretAll, SetImportProp;
    if n.style.Some? { CompiledAttr(h.js, h.show, n.style.value, vals); }
    var style := if n.style.Some? then Some(h.hostStyle(AttrValue(h.js, h.show, vals, n.style.value))) else None;
    CompiledImportAttrs(h, n.attrs, vals, ImportProps(key, n.hintSize, n.id, style));
    CompiledChildren(h, n.kids, vals, ctx, 0);
    SilentChildren(h, n.kids, vals, ctx, 0);
  }

  lemma {:induction false} CompiledExternal<V>(h: Host<V>, n: Node, vals: Env<V>, ctx: Ctx, key: nat)
    requires n.External?
    ensures Compile(h, n).Some? && Compile(h, n).value(vals, ctx, key) == Interpret(h, n, vals, ctx, key)
    decreases n, 0
  {
    hide CompileAttr, AttrValue, Silent, ExternalOut, HasContent, BoxStyle, CompileAll, InterpretAll;
    CompiledAttr(h.js, h.show, n.source.globalName, vals);
    CompiledAttr(h.js, h.show, n.source.exportName, vals);
    if n.style.Some? { CompiledAttr(h.js, h.show, n.style.value, vals); }
    CompiledOwnAttrs(h, n.attrs, vals, map[]);
    CompiledMissing(h, n.attrs, vals);
    CompiledChildren(h, n.kids, vals, ctx, 0);
    SilentChildren(h, n.kids, vals, ctx, 0);
  }

  /** Running the children's builders from number `from` on. */
  function RunFrom<V>(bs: seq<Builder<V>>, vals: Env<V>, ctx: Ctx, from: nat): seq<Out<V>> {
    seq(|bs|, j requires 0 <= j < |bs| => bs[j](vals, ctx, from + j))
  }

  /** A whole template: the builders run in order, numbered from 0, give the interpretation of the tree. */
  lemma {:induction false} CompiledTemplate<V>(h: Host<V>, ns: seq<Node>, vals: Env<V>, ctx: Ctx)
    ensures Run(CompileAll(h, ns), vals, ctx) == InterpretAll(h, ns, vals, ctx, 0)
    decreases ns, 1
  {
    CompiledChildren(h, ns, vals, ctx, 0);
  }

  lemma RunStep<V>(b: Builder<V>, rest: seq<Builder<V>>, vals: Env<V>, ctx: Ctx, from: nat)
    ensures RunFrom([b] + rest, vals, ctx, from) == [b(vals, ctx, from)] + RunFrom(rest, vals, ctx, from + 1)
  {
  }

  lemma RunNone<V>(vals: Env<V>, ctx: Ctx, from: nat)
    ensures RunFrom([], vals, ctx, from) == []
  {
  }

  lemma RunIsFromZero<V>(bs: seq<Builder<V>>, vals: Env<V>, ctx: Ctx)
    ensures Run(bs, vals, ctx) == RunFrom(bs, vals, ctx, 0)
  {
  }

  lemma {:induction false} CompiledChildren<V>(h: Host<V>, ns: seq<Node>, vals: Env<V>, ctx: Ctx, from: nat)
    ensures RunFrom(CompileAll(h, ns), vals, ctx, from) == InterpretAll(h, ns, vals, ctx, from)
    ensures Run(CompileAll(h, ns), vals, ctx) == RunFrom(CompileAll(h, ns), vals, ctx, 0)
    decreases ns, 0
  {
    hide Compile, Interpret, Silent, RunFrom;
    RunIsFromZero(CompileAll(h, ns), vals, ctx);
    if ns == [] {
      RunNone<V>(vals, ctx, from);
    } else {
      CompiledNode(h, ns[0], vals, ctx, from);
      var rest := CompileAll(h, ns[1..]);
      if Compile(h, ns[0]).Some? { RunStep(Compile(h, ns[0]).value, rest, vals, ctx, from); }
      CompiledChildren(h, ns[1..], vals, ctx, if Silent(ns[0]) then from else from + 1);
    }
  }

  lemma {:induction false} SilentChildren<V>(h: Host<V>, ns: seq<Node>, vals: Env<V>, ctx: Ctx, key: nat)
    ensures CompileAll(h, ns) == [] <==> forall n <- ns :: Silent(n)
    decreases ns, 0
  {
    hide Compile, Interpret, Silent;
    if ns != [] {
      CompiledNode(h, ns[0], vals, ctx, key);
      SilentChildren(h, ns[1..], vals, ctx, key);
      assert forall n <- ns :: n == ns[0] || n in ns[1..];
    }
  }

  lemma {:induction false} CompiledRounds<V>(h: Host<V>, kids: seq<Node>, asName: string, list: seq<V>, from: nat,
                                             vals: Env<V>, ctx: Ctx)
    ensures Rounds(h, kids, asName, list, from, vals, ctx)
         == seq(|list|, i requires 0 <= i < |list| =>
              Fragment(from + i, Run(CompileAll(h, kids), Bind(h, vals, asName, list[i], from + i), ctx)))
    decreases kids, 2, |list|
  {
    hide Run, CompileAll, InterpretAll, Bind;
    if list != [] {
      CompiledTemplate(h, kids, Bind(h, vals, asName, list[0], from), ctx);
      CompiledRounds(h, kids, asName, list[1..], from + 1, vals, ctx);
    }
  }

  lemma {:induction false} CompiledParts<V>(h: Host<V>, parts: seq<string>, from: nat, vals: Env<V>, ctx: Ctx)
    ensures InterpretParts(h, parts, from, vals, ctx)
         == seq(|parts|, i requires 0 <= i < |parts| => TextPart(h, parts[i], from + i, vals, ctx))
  {
    hide TextPart;
    if parts != [] { CompiledParts(h, parts[1..], from + 1, vals, ctx); }
  }

  lemma {:induction false} CompiledImportAttrs<V>(h: Host<V>, attrs: seq<Attr>, vals: Env<V>, props: Props<V>)
    ensures RunImportProps(h, CompileAttrs(h, attrs), vals, props) == ImportAttrs(h, attrs, vals, props)
  {
    hide SetImportProp, CompileAttr, AttrValue;
    if attrs != [] {
      CompiledAttr(h.js, h.show, attrs[0].raw, vals);
      CompiledImportAttrs(h, attrs[1..], vals, SetImportProp(h, props, attrs[0].key,
                                                             AttrValue(h.js, h.show, vals, attrs[0].raw)));
    }
  }

  lemma {:induction false} CompiledOwnAttrs<V>(h: Host<V>, attrs: seq<Attr>, vals: Env<V>, props: Props<V>)
    ensures RunExternalProps(h, CompileAttrs(h, attrs), vals, props) == ImportAttrs(h, OwnAttrs(attrs), vals, props)
  {
    hide SetImportProp, CompileAttr, AttrValue, NamesSource;
    if attrs != [] {
      var a, rest := attrs[0], OwnAttrs(attrs[1..]);
      CompiledAttr(h.js, h.show, a.raw, vals);
      if NamesSource(a.key) {
        CompiledOwnAttrs(h, attrs[1..], vals, props);
        assert OwnAttrs(attrs) == rest;
      } else {
        CompiledOwnAttrs(h, attrs[1..], vals, SetImportProp(h, props, a.key, AttrValue(h.js, h.show, vals, a.raw)));
        assert OwnAttrs(attrs) == [a] + rest && ([a] + rest)[1..] == rest;
      }
    }
  }

  lemma {:induction false} CompiledMissing<V>(h: Host<V>, attrs: seq<Attr>, vals: Env<V>)
    ensures RunMissing(h, CompileAttrs(h, attrs), vals)
       <==> exists a <- OwnAttrs(attrs) :: h.IsUndef(AttrValue(h.js, h.show, vals, a.raw))
  {
    hide CompileAttr, AttrValue, NamesSource;
    if attrs != [] {
      var a, rest := attrs[0], OwnAttrs(attrs[1..]);
      CompiledAttr(h.js, h.show, a.raw, vals);
      CompiledMissing(h, attrs[1..], vals);
      assert forall b :: b in OwnAttrs(attrs) <==> (b == a && !NamesSource(a.key)) || b in rest;
    }
  }

  lemma {:induction false} CompiledTagAttrs<V>(h: Host<V>, attrs: seq<Attr>, vals: Env<V>, props: Props<V>)
    ensures RunTagProps(h, CompileAttrs(h, attrs), vals, props) == TagAttrs(h, attrs, vals, props)
  {
    hide SetTagProp, CompileAttr, AttrValue;
    if attrs != [] {
      CompiledAttr(h.js, h.show, attrs[0].raw, vals);
      CompiledTagAttrs(h, attrs[1..], vals, SetTagProp(h, props, attrs[0].key,
                                                       AttrValue(h.js, h.show, vals, attrs[0].raw)));
    }
  }

  // ---------------------------------------------------------------------------
  // Texts with holes
  // ---------------------------------------------------------------------------

  /** What a text shows: its literal pieces as they are, each hole by the meaning of its expression. */
  function PiecesOut<V>(h: Host<V>, ps: seq<Piece>, tail: string, i: nat, vals: Env<V>, ctx: Ctx): seq<Out<V>>
    requires forall p <- ps :: WellFormedPiece(p)
  {
    if ps == [] then [Str(tail)]
    else
      assert WellFormedPiece(ps[0]);
      [Str(ps[0].before), HoleOut(h, HoleText(ps[0]), i + 1, Eval(h.js, vals, ps[0].e), ctx)]
      + PiecesOut(h, ps[1..], tail, i + 2, vals, ctx)
  }

  lemma {:induction false} PiecesShown<V>(h: Host<V>, ps: seq<Piece>, tail: string, i: nat, vals: Env<V>, ctx: Ctx)
    requires i % 2 == 0 && forall p <- ps :: WellFormedPiece(p)
    ensures InterpretParts(h, PieceParts(ps, tail), i, vals, ctx) == PiecesOut(h, ps, tail, i, vals, ctx)
  {
    hide WellFormed, AllSpace, Resolve, Eval, HoleOut, Show;
    var parts := PieceParts(ps, tail);
    if ps == [] {
      assert parts[1..] == [];
    } else {
      var p := ps[0];
      assert WellFormedPiece(p);
      ResolveShow(h.js, vals, p.padL, p.e, p.padR);
      PiecesShown(h, ps[1..], tail, i + 2, vals, ctx);
      assert parts[1..][1..] == PieceParts(ps[1..], tail);
    }
  }

  /** A text node is split, parsed, evaluated and compiled to what its pieces mean. */
  lemma TextMeaning<V>(h: Host<V>, ps: seq<Piece>, tail: string, vals: Env<V>, ctx: Ctx, key: nat)
    requires forall p <- ps :: WellFormedPiece(p)
    requires !HasOpen(tail) && ps != []
    ensures var b := Compile(h, Text(ShowPieces(ps, tail)));
            b.Some? && b.value(vals, ctx, key) == Fragment(key, PiecesOut(h, ps, tail, 0, vals, ctx))
  {
    hide WellFormed, AllSpace, Resolve, Eval, Compile, Trim, InterpretParts, PiecesOut;
    var n := Text(ShowPieces(ps, tail));
    PartsOfPieces(ps, tail);
    PiecesShown(h, ps, tail, 0, vals, ctx);
    HoleNotEmpty(ps[0]);
    FirstHoleIs(ps[0].before, HoleText(ps[0]), ShowPieces(ps[1..], tail));
    CompiledNode(h, n, vals, ctx, key);
  }

  // ---------------------------------------------------------------------------
  // After streaming, placeholder rounds and attributes
  // ---------------------------------------------------------------------------

  /** Nowhere in the output, inside components included, does a span stand for a value that is missing. */
  ghost predicate Settled<V>(out: Out<V>) {
    && (out.Span? ==> out.className == "sc-interp")
    && (out.Fragment? || out.Tag? ==> forall k <- out.kids :: Settled(k))
    && (out.Tag? || out.Component? || out.Loaded? ==>
          forall k <- out.props :: out.props[k].Children? ==> forall o <- out.props[k].kids :: Settled(o))
  }

  ghost predicate SettledProps<V>(props: Props<V>) {
    forall k <- props :: props[k].Children? ==> forall o <- props[k].kids :: Settled(o)
  }

  lemma HoleSettled<V>(h: Host<V>, part: string, i: nat, v: V, ctx: Ctx)
    requires !ctx.streaming && !ctx.editor
    ensures Settled(HoleOut(h, part, i, v, ctx))
  {
    hide Trim;
  }

  lemma {:induction false} PartsSettled<V>(h: Host<V>, parts: seq<string>, i: nat, vals: Env<V>, ctx: Ctx)
    requires !ctx.streaming && !ctx.editor
    ensures forall o <- InterpretParts(h, parts, i, vals, ctx) :: Settled(o)
  {
    hide HoleOut, Resolve;
    if parts != [] {
      HoleSettled(h, parts[0], i, Resolve(h.js, vals, parts[0]), ctx);
      PartsSettled(h, parts[1..], i + 1, vals, ctx);
    }
  }

  lemma {:induction false} ImportAttrsSettled<V>(h: Host<V>, attrs: seq<Attr>, vals: Env<V>, props: Props<V>)
    requires SettledProps(props)
    ensures SettledProps(ImportAttrs(h, attrs, vals, props))
  {
    hide AttrValue, Settled;
    if attrs != [] {
      ImportAttrsSettled(h, attrs[1..], vals, SetImportProp(h, props, attrs[0].key,
                                                            AttrValue(h.js, h.show, vals, attrs[0].raw)));
    }
  }

  lemma {:induction false} TagAttrsSettled<V>(h: Host<V>, attrs: seq<Attr>, vals: Env<V>, props: Props<V>)
    requires SettledProps(props)
    ensures SettledProps(TagAttrs(h, attrs, vals, props))
  {
    hide AttrValue, Settled, TagValue;
    if attrs != [] {
      TagAttrsSettled(h, attrs[1..], vals, SetTagProp(h, props, attrs[0].key,
                                                      AttrValue(h.js, h.show, vals, attrs[0].raw)));
    }
  }

  lemma ExternalSettled<V>(h: Host<V>, key: nat, id: nat, from: string, hintSize: Option<string>, style: Option<V>,
                           globalV: V, exportV: V, missing: bool, props: Props<V>, ctx: Ctx)
    requires SettledProps(props)
    ensures Settled(ExternalOut(h, key, id, from, hintSize, style, globalV, exportV, missing, props, ctx))
  {
    hide NameOf, LastUrl, HasOpen, UNBINDABLE;
  }

  /**
    Once streaming is over, and with no editor open, a rendering holds no stand-in for a missing value, in
    loops, components and imports of any depth: what is still undefined is shown as nothing.
   */
  lemma {:induction false} NoPlaceholderLeft<V>(h: Host<V>, n: Node, vals: Env<V>, ctx: Ctx, key: nat)
    requires !ctx.streaming && !ctx.editor
    ensures Settled(Interpret(h, n, vals, ctx, key))
    decreases n, 1
  {
    hide AttrValue, Parts, LoopItems, HasOpen, Silent, ExternalOut, HasContent, Bind, SettledProps, ImportAttrs,
         TagAttrs, InterpretAll;
    match n
    case Text(raw) => PartsSettled(h, Parts(raw), 0, vals, ctx);
    case Other =>
    case For(_, list, asName, hint, kids) =>
      RoundsSettled(h, kids, asName, LoopItems(h, AttrValue(h.js, h.show, vals, list), hint, ctx), 0, vals, ctx);
    case If(_, _, _, kids) => ChildrenSettled(h, kids, vals, ctx, 0);
    case Import(id, _, hintSize, style, attrs, kids) =>
      var hostStyle := if style.Some? then Some(h.hostStyle(AttrValue(h.js, h.show, vals, style.value))) else None;
      ImportStart(key, hintSize, id, hostStyle);
      ImportAttrsSettled(h, attrs, vals, ImportProps(key, hintSize, id, hostStyle));
      ChildrenSettled(h, kids, vals, ctx, 0);
      var props := ImportAttrs(h, attrs, vals, ImportProps(key, hintSize, id, hostStyle));
      WithChildren(props, InterpretAll(h, kids, vals, ctx, 0));
      SettledBy(n.name, props, []);
      SettledBy(n.name, props["children" := Children(InterpretAll(h, kids, vals, ctx, 0))], []);
    case External(id, source, hintSize, style, attrs, kids) => ExternalNodeSettled(h, n, vals, ctx, key);
    case Helmet(_, _) =>
    case Element(id, _, keySuffix, attrs, kids) =>
      ElementStart<V>(key, keySuffix, id);
      TagAttrsSettled(h, attrs, vals, map["key" := Key(key, keySuffix), "data-dc-tpl" := TplId(id)]);
      ChildrenSettled(h, kids, vals, ctx, 0);
      SettledBy(n.tag, TagAttrs(h, attrs, vals, map["key" := Key(key, keySuffix), "data-dc-tpl" := TplId(id)]),
                InterpretAll(h, kids, vals, ctx, 0));
  }

  lemma SettledBy<V>(name: string, props: Props<V>, kids: seq<Out<V>>)
    requires SettledProps(props) && forall k <- kids :: Settled(k)
    ensures Settled(Tag(name, props, kids)) && Settled(Component(name, props))
  {
  }

  lemma ImportStart<V>(key: nat, hintSize: Option<string>, id: nat, style: Option<V>)
    ensures SettledProps(ImportProps(key, hintSize, id, style))
  {
  }

  lemma ElementStart<V>(key: nat, keySuffix: string, id: nat)
    ensures SettledProps<V>(map["key" := Key(key, keySuffix), "data-dc-tpl" := TplId(id)])
  {
  }

  lemma WithChildren<V>(props: Props<V>, kids: seq<Out<V>>)
    requires SettledProps(props) && forall k <- kids :: Settled(k)
    ensures SettledProps(props["children" := Children(kids)])
  {
    hide Settled;
  }

  lemma {:induction false} ExternalNodeSettled<V>(h: Host<V>, n: Node, vals: Env<V>, ctx: Ctx, key: nat)
    requires n.External? && !ctx.streaming && !ctx.editor
    ensures Settled(Interpret(h, n, vals, ctx, key))
    decreases n, 0
  {
    hide AttrValue, Silent, ExternalOut, HasContent, SettledProps, Settled, InterpretAll;
    var own := OwnAttrs(n.attrs);
    var props := ImportAttrs(h, own, vals, map[]);
    assert SettledProps<V>(map[]) by { NoProps<V>(); }
    ImportAttrsSettled(h, own, vals, map[]);
    ChildrenSettled(h, n.kids, vals, ctx, 0);
    WithChildren(props, InterpretAll(h, n.kids, vals, ctx, 0));
    var empty := !HasContent(n.kids) || forall k <- n.kids :: Silent(k);
    ExternalSettled(h, key, n.id, n.source.from, n.hintSize,
                    BoxStyle(h, if n.style.Some? then Some(AttrValue(h.js, h.show, vals, n.style.value)) else None),
                    AttrValue(h.js, h.show, vals, n.source.globalName),
                    AttrValue(h.js, h.show, vals, n.source.exportName),
                    exists a <- own :: h.IsUndef(AttrValue(h.js, h.show, vals, a.raw)),
                    if empty then props else props["children" := Children(InterpretAll(h, n.kids, vals, ctx, 0))], ctx);
  }

  lemma NoProps<V>()
    ensures SettledProps<V>(map[])
  {
  }

  lemma {:induction false} ChildrenSettled<V>(h: Host<V>, ns: seq<Node>, vals: Env<V>, ctx: Ctx, key: nat)
    requires !ctx.streaming && !ctx.editor
    ensures forall o <- InterpretAll(h, ns, vals, ctx, key) :: Settled(o)
    decreases ns, 0
  {
    hide Interpret, Silent, Settled;
    if ns != [] {
      NoPlaceholderLeft(h, ns[0], vals, ctx, key);
      ChildrenSettled(h, ns[1..], vals, ctx, if Silent(ns[0]) then key else key + 1);
    }
  }

  lemma {:induction false} RoundsSettled<V>(h: Host<V>, kids: seq<Node>, asName: string, list: seq<V>, i: nat,
                                            vals: Env<V>, ctx: Ctx)
    requires !ctx.streaming && !ctx.editor
    ensures forall o <- Rounds(h, kids, asName, list, i, vals, ctx) :: Settled(o)
    decreases kids, 1, |list|
  {
    hide InterpretAll, Bind;
    if list != [] {
      ChildrenSettled(h, kids, Bind(h, vals, asName, list[0], i), ctx, 0);
      RoundsSettled(h, kids, asName, list[1..], i + 1, vals, ctx);
    }
  }

  /** A loop over something that is not a list shows its placeholder rounds while streaming, and then nothing. */
  lemma PlaceholderRounds<V>(h: Host<V>, n: Node, vals: Env<V>, ctx: Ctx, key: nat)
    requires n.For? && h.items(AttrValue(h.js, h.show, vals, n.list)).None?
    ensures var out := Interpret(h, n, vals, ctx, key);
            && out.Fragment? && out.key == key
            && |out.kids| == (if ctx.streaming && n.hint > 0 then n.hint else 0)
            && forall i :: 0 <= i < |out.kids| ==>
                 out.kids[i] == Fragment(i, InterpretAll(h, n.kids, Bind(h, vals, n.asName, h.js.undef, i), ctx, 0))
  {
    hide InterpretAll, AttrValue, Bind, Rounds;
    var list := LoopItems(h, AttrValue(h.js, h.show, vals, n.list), n.hint, ctx);
    assert forall i :: 0 <= i < |list| ==> list[i] == h.js.undef;
    RoundAt(h, n.kids, n.asName, list, 0, vals, ctx);
  }

  lemma {:induction false} RoundAt<V>(h: Host<V>, kids: seq<Node>, asName: string, list: seq<V>, from: nat,
                                      vals: Env<V>, ctx: Ctx)
    ensures Rounds(h, kids, asName, list, from, vals, ctx) == seq(|list|, i requires 0 <= i < |list| =>
              Fragment(from + i, InterpretAll(h, kids, Bind(h, vals, asName, list[i], from + i), ctx, 0)))
  {
    hide InterpretAll, Bind;
    if list != [] { RoundAt(h, kids, asName, list[1..], from + 1, vals, ctx); }
  }

  /** Attributes set nothing but their own keys. */
  lemma {:induction false} OtherPropsKept<V>(h: Host<V>, attrs: seq<Attr>, vals: Env<V>, props: Props<V>, key: string)
    requires key in props && forall a <- attrs :: a.key != key
    ensures key in TagAttrs(h, attrs, vals, props) && TagAttrs(h, attrs, vals, props)[key] == props[key]
  {
    hide AttrValue, TagValue;
    if attrs != [] {
      OtherPropsKept(h, attrs[1..], vals, SetTagProp(h, props, attrs[0].key,
                                                     AttrValue(h.js, h.show, vals, attrs[0].raw)), key);
    }
  }

  /** Of several attributes of an element under one key the last one counts, whatever stood there before. */
  lemma {:induction false} LastAttrCounts<V>(h: Host<V>, before: seq<Attr>, a: Attr, after: seq<Attr>, vals: Env<V>,
                                             props: Props<V>)
    requires forall b <- after :: b.key != a.key
    ensures var r := TagAttrs(h, before + ([a] + after), vals, props);
            a.key in r && r[a.key] == Val(TagValue(h, a.key, AttrValue(h.js, h.show, vals, a.raw)))
  {
    hide AttrValue, TagValue;
    var all := before + ([a] + after);
    if before == [] {
      assert all == [a] + after && all[1..] == after;
      OtherPropsKept(h, after, vals, SetTagProp(h, props, a.key, AttrValue(h.js, h.show, vals, a.raw)), a.key);
    } else {
      assert all[1..] == before[1..] + ([a] + after);
      LastAttrCounts(h, before[1..], a, after, vals, SetTagProp(h, props, before[0].key,
                                                                AttrValue(h.js, h.show, vals, before[0].raw)));
    }
  }
}
