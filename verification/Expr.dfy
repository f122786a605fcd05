/**
  The hole expressions of the dc-runtime (`design/Q-Agent app design/support.js`, `src/expr.ts`):
  `resolve` works directly on the text of an expression. The model keeps its branches and their
  order. What a JavaScript operator does to values is a parameter (`Js`), so every statement below
  holds for every meaning of property access, of the equalities and of truthiness.
 */
module Expr {
  import opened Strings
  import opened Wrappers

  /** The host language: its constants and the operators `resolve` applies to values. */
  datatype Js<!V> = Js(
    undef: V,
    nul: V,
    boolean: bool -> V,
    number: string -> V,
    text: string -> V,
    get: (V, V) -> V,
    strictEq: (V, V) -> bool,
    looseEq: (V, V) -> bool,
    truthy: V -> bool,
    nullish: V -> bool)
  {
    /** `cur == null ? undefined : cur[key]`. */
    function Member(cur: V, key: V): V {
      if nullish(cur) then undef else get(cur, key)
    }

    function Compare(op: EqOp, l: V, r: V): V {
      match op
      case StrictEq => boolean(strictEq(l, r))
      case StrictNe => boolean(!strictEq(l, r))
      case LooseEq => boolean(looseEq(l, r))
      case LooseNe => boolean(!looseEq(l, r))
    }
  }

  /** The values a template sees: what each name is bound to (`undefined` when it is not). */
  type Env<!V> = string -> V

  datatype EqOp = StrictEq | StrictNe | LooseEq | LooseNe

  // ---------------------------------------------------------------------------
  // Nesting depth
  // ---------------------------------------------------------------------------

  /** Which brackets are counted: the three scans of the source count different ones. */
  datatype Kind = Parens | Squares | Both

  function Delta(k: Kind, c: char): int {
    if c == '(' && !k.Squares? then 1
    else if c == ')' && !k.Squares? then -1
    else if c == '[' && !k.Parens? then 1
    else if c == ']' && !k.Parens? then -1
    else 0
  }

  /** Opening minus closing brackets in `s`. */
  function Depth(k: Kind, s: string): int {
    if s == "" then 0 else Depth(k, s[..|s| - 1]) + Delta(k, s[|s| - 1])
  }

  // ---------------------------------------------------------------------------
  // The scans
  // ---------------------------------------------------------------------------

  /** No closing parenthesis before the last character brings the depth back to zero. */
  predicate WrapsWhole(expr: string) {
    forall i :: 0 <= i < |expr| - 1 && expr[i] == ')' ==> Depth(Parens, expr[..i + 1]) != 0
  }

  method ParensWrapWhole(expr: string) returns (r: bool)
    ensures r == WrapsWhole(expr)
  {
    var depth := 0;
    var i := 0;
    while i < |expr| - 1
      invariant 0 <= i && (i <= |expr| - 1 || i == 0)
      invariant i <= |expr| && depth == Depth(Parens, expr[..i])
      invariant forall j :: 0 <= j < i && expr[j] == ')' ==> Depth(Parens, expr[..j + 1]) != 0
    {
      DepthStep(Parens, expr, i);
      if expr[i] == '(' {
        depth := depth + 1;
      } else if expr[i] == ')' {
        depth := depth - 1;
        if depth == 0 {
          return false;
        }
      }
      i := i + 1;
    }
    return true;
  }

  predicate IsBang(c: char) {
    c == '=' || c == '!'
  }

  /** An equality operator outside all brackets starts at `i`, with a left operand before it. */
  predicate EqualityAt(expr: string, i: nat) {
    && i + 1 < |expr|
    && Depth(Both, expr[..i]) == 0
    && IsBang(expr[i])
    && expr[i + 1] == '='
    && !(i > 0 && IsBang(expr[i - 1]))
    && Trim(expr[..i]) != ""
  }

  /** The first equality operator at or after `from`. */
  function FirstEqualityFrom(expr: string, from: nat): (r: Option<nat>)
    ensures r.Some? ==> from <= r.value && EqualityAt(expr, r.value)
    ensures r.Some? ==> forall j :: from <= j < r.value ==> !EqualityAt(expr, j)
    ensures r.None? ==> forall j :: from <= j ==> !EqualityAt(expr, j)
    decreases |expr| - from
  {
    if from >= |expr| then None
    else if EqualityAt(expr, from) then Some(from)
    else FirstEqualityFrom(expr, from + 1)
  }

  function FirstEquality(expr: string): Option<nat> {
    FirstEqualityFrom(expr, 0)
  }

  /** The operator at an equality position: three characters when a second `=` follows. */
  function OpAt(expr: string, i: nat): EqOp
    requires EqualityAt(expr, i)
  {
    var three := i + 2 < |expr| && expr[i + 2] == '=';
    if expr[i] == '=' then (if three then StrictEq else LooseEq)
    else (if three then StrictNe else LooseNe)
  }

  function OpText(op: EqOp): string {
    match op
    case StrictEq => "==="
    case StrictNe => "!=="
    case LooseEq => "=="
    case LooseNe => "!="
  }

  /** The operator's text stands at `i`, and the longer operator is read where it can be. */
  predicate ReadsOp(expr: string, i: nat, op: EqOp) {
    && i < |expr| && OpText(op) <= expr[i..]
    && (op.LooseEq? ==> !("===" <= expr[i..])) && (op.LooseNe? ==> !("!==" <= expr[i..]))
  }

  lemma OpAtReads(expr: string, i: nat)
    requires EqualityAt(expr, i)
    ensures ReadsOp(expr, i, OpAt(expr, i))
  {
    var rest := expr[i..];
    assert rest[0] == expr[i] && rest[1] == expr[i + 1] && (|rest| > 2 ==> rest[2] == expr[i + 2]);
  }

  method FindTopLevelEquality(expr: string) returns (r: Option<(nat, EqOp)>)
    ensures r.None? <==> FirstEquality(expr).None?
    ensures r.Some? ==> FirstEquality(expr) == Some(r.value.0) && r.value.1 == OpAt(expr, r.value.0)
    ensures r.Some? ==> EqualityAt(expr, r.value.0) && forall j :: 0 <= j < r.value.0 ==> !EqualityAt(expr, j)
    ensures r.Some? ==> ReadsOp(expr, r.value.0, r.value.1)
  {
    var depth := 0;
    var i := 0;
    while i < |expr|
      invariant 0 <= i <= |expr|
      invariant depth == Depth(Both, expr[..i])
      invariant forall j :: 0 <= j < i ==> !EqualityAt(expr, j)
    {
      var c := expr[i];
      DepthStep(Both, expr, i);
      if c == '[' || c == '(' {
        depth := depth + 1;
      } else if c == ']' || c == ')' {
        depth := depth - 1;
      } else if depth == 0 && IsBang(c) && i + 1 < |expr| && expr[i + 1] == '=' {
        if i > 0 && IsBang(expr[i - 1]) {
        } else if Trim(expr[..i]) == "" {
        } else {
          assert EqualityAt(expr, i);
          OpAtReads(expr, i);
          return Some((i, OpAt(expr, i)));
        }
      }
      i := i + 1;
    }
    return None;
  }

  predicate IsIdentStart(c: char) {
    IsLower(c) || IsUpper(c) || c == '_' || c == '$'
  }

  predicate IsIdentPart(c: char) {
    IsIdentStart(c) || IsDigit(c)
  }

  predicate IsIdent(s: string) {
    s != "" && IsIdentStart(s[0]) && forall i :: 0 <= i < |s| ==> IsIdentPart(s[i])
  }

  /** How many characters from `i` on satisfy `p`, greedily. */
  function RunLen(p: char -> bool, s: string, i: nat): (n: nat)
    requires i <= |s|
    ensures i + n <= |s|
    ensures forall j :: i <= j < i + n ==> p(s[j])
    ensures i + n < |s| ==> !p(s[i + n])
    decreases |s| - i
  {
    if i < |s| && p(s[i]) then 1 + RunLen(p, s, i + 1) else 0
  }

  /** The length of the identifier that starts at `i`, 0 when none does. */
  function IdentLen(s: string, i: nat): (n: nat)
    requires i <= |s|
    ensures i + n <= |s|
  {
    if i < |s| && IsIdentStart(s[i]) then RunLen(IsIdentPart, s, i) else 0
  }

  function DigitsLen(s: string, i: nat): (n: nat)
    requires i <= |s|
    ensures i + n <= |s|
  {
    RunLen(IsDigit, s, i)
  }

  /** An optional sign, digits, and an optional fraction: `NUMBER_RE`. */
  predicate IsNumber(s: string) {
    var i := if s != "" && s[0] == '-' then 1 else 0;
    var n := DigitsLen(s, i);
    && n > 0
    && (|| i + n == |s|
        || (&& s[i + n] == '.'
            && DigitsLen(s, i + n + 1) > 0
            && i + n + 1 + DigitsLen(s, i + n + 1) == |s|))
  }

  /** Where the `[` that was opened `depth` levels ago closes; `|s|` when it does not. */
  function CloseFrom(s: string, j: nat, depth: nat): (r: nat)
    requires j <= |s| && depth > 0
    ensures j <= r <= |s|
    decreases |s| - j
  {
    if j == |s| then |s|
    else if s[j] == '[' then CloseFrom(s, j + 1, depth + 1)
    else if s[j] == ']' then (if depth == 1 then j else CloseFrom(s, j + 1, depth - 1))
    else CloseFrom(s, j + 1, depth)
  }

  // ---------------------------------------------------------------------------
  // resolve and resolvePath
  // ---------------------------------------------------------------------------

  predicate IsKeyword(s: string) {
    s == "true" || s == "false" || s == "null" || s == "undefined"
  }

  function KeywordValue<V>(js: Js<V>, s: string): V {
    if s == "true" then js.boolean(true)
    else if s == "false" then js.boolean(false)
    else if s == "null" then js.nul
    else js.undef
  }

  /** Total on every string: each call works on a shorter trimmed text, or hands the same text on to the path. */
  function Resolve<V>(js: Js<V>, vals: Env<V>, src: string): V
    decreases |Trim(src)|, 2, 0
  {
    var expr := Trim(src);
    if expr == "" then js.undef
    else if expr[0] == '(' && expr[|expr| - 1] == ')' && WrapsWhole(expr) then
      Resolve(js, vals, expr[1..|expr| - 1])
    else if FirstEquality(expr).Some? then
      var i := FirstEquality(expr).value;
      var op := OpAt(expr, i);
      js.Compare(op, Resolve(js, vals, expr[..i]), Resolve(js, vals, expr[i + |OpText(op)|..]))
    else if expr[0] == '!' then js.boolean(!js.truthy(Resolve(js, vals, expr[1..])))
    else if IsKeyword(expr) then KeywordValue(js, expr)
    else if IsNumber(expr) then js.number(expr)
    else if |expr| >= 2 && (expr[0] == '"' || expr[0] == '\'') && expr[|expr| - 1] == expr[0] then
      js.text(expr[1..|expr| - 1])
    else PathValue(js, vals, expr)
  }

  function PathValue<V>(js: Js<V>, vals: Env<V>, expr: string): V
    decreases |expr|, 1, 0
  {
    var n := IdentLen(expr, 0);
    if n == 0 then js.undef else PathFrom(js, vals, vals(expr[..n]), expr, n)
  }

  /** The rest of a path, from position `i` on, starting at the value `cur`. */
  function PathFrom<V>(js: Js<V>, vals: Env<V>, cur: V, expr: string, i: nat): V
    requires i <= |expr|
    decreases |expr|, 0, |expr| - i
  {
    if i == |expr| then cur
    else if expr[i] == '.' then
      var n := if IdentLen(expr, i + 1) > 0 then IdentLen(expr, i + 1) else DigitsLen(expr, i + 1);
      if n == 0 then js.undef
      else PathFrom(js, vals, js.Member(cur, js.text(expr[i + 1..i + 1 + n])), expr, i + 1 + n)
    else if expr[i] == '[' then
      var j := CloseFrom(expr, i + 1, 1);
      if j == |expr| then js.undef
      else PathFrom(js, vals, js.Member(cur, Resolve(js, vals, expr[i + 1..j])), expr, j + 1)
    else js.undef
  }

  /** The inner scan of `resolvePath`: the matching `]`, counting square brackets only. */
  method MatchBracket(expr: string, start: nat) returns (j: nat)
    requires start <= |expr|
    ensures j == CloseFrom(expr, start, 1)
  {
    var depth := 1;
    j := start;
    while j < |expr| && depth > 0
      invariant start <= j <= |expr| && depth > 0
      invariant CloseFrom(expr, start, 1) == CloseFrom(expr, j, depth)
      decreases |expr| - j
    {
      if expr[j] == '[' {
        depth := depth + 1;
      } else if expr[j] == ']' {
        depth := depth - 1;
        if depth == 0 {
          break;
        }
      }
      j := j + 1;
    }
  }

  method ResolvePath<V>(js: Js<V>, vals: Env<V>, expr: string) returns (r: V)
    ensures r == PathValue(js, vals, expr)
  {
    hide CloseFrom, Resolve, IdentLen, DigitsLen;
    var head := IdentLen(expr, 0);
    if head == 0 {
      return js.undef;
    }
    var cur := vals(expr[..head]);
    var i := head;
    while i < |expr|
      invariant 0 <= i <= |expr|
      invariant PathFrom(js, vals, cur, expr, i) == PathValue(js, vals, expr)
    {
      if expr[i] == '.' {
        var n := IdentLen(expr, i + 1);
        if n == 0 {
          n := DigitsLen(expr, i + 1);
        }
        if n == 0 {
          return js.undef;
        }
        cur := js.Member(cur, js.text(expr[i + 1..i + 1 + n]));
        i := i + 1 + n;
      } else if expr[i] == '[' {
        var j := MatchBracket(expr, i + 1);
        if j == |expr| {
          return js.undef;
        }
        var key := Resolve(js, vals, expr[i + 1..j]);
        cur := js.Member(cur, key);
        i := j + 1;
      } else {
        return js.undef;
      }
    }
    return cur;
  }

  lemma DepthStep(k: Kind, s: string, i: nat)
    requires i < |s|
    ensures Depth(k, s[..i + 1]) == Depth(k, s[..i]) + Delta(k, s[i])
  {
    assert s[..i + 1][..i] == s[..i];
  }
}
