/**
  The expression language that `resolve` reads, as syntax trees with their own meaning, and the proof
  that evaluating the text of a tree gives the meaning of the tree.
 */
module ExprSyntax {
  import opened Strings
  import opened Wrappers
  import opened Expr

  /** Concrete syntax: the white space that may stand around an operator is part of the tree. */
  datatype Syntax =
    | Keyword(word: string)
    | Number(digits: string)
    | Quoted(quote: char, content: string)
    | Path(head: string, steps: Steps)
    | Not(pad: string, operand: Syntax)
    | Equality(left: Syntax, padL: string, op: EqOp, padR: string, right: Syntax)
    | Paren(padL: string, inner: Syntax, padR: string)

  /** What follows the head of a path: `.x`, `.0` and `[e]` in any number. */
  datatype Steps =
    | Done
    | Field(name: string, rest: Steps)
    | Item(index: string, rest: Steps)
    | Computed(padL: string, key: Syntax, padR: string, rest: Steps)

  predicate PlainChar(c: char) {
    c != '(' && c != ')' && c != '[' && c != ']' && c != '=' && c != '!'
  }

  predicate IsQuote(c: char) {
    c == '"' || c == '\''
  }

  predicate IsStepStart(c: char) {
    c == '.' || c == '['
  }

  /** An equality may stand under another operator only in parentheses; literals hold no brackets, `=` or `!`. */
  predicate WellFormed(e: Syntax) {
    match e
    case Keyword(word) => IsKeyword(word)
    case Number(digits) => IsNumber(digits)
    case Quoted(quote, content) => IsQuote(quote) && forall i :: 0 <= i < |content| ==> PlainChar(content[i])
    case Path(head, steps) => IsIdent(head) && (steps.Done? ==> !IsKeyword(head)) && WellFormedSteps(steps)
    case Not(pad, operand) => AllSpace(pad) && !operand.Equality? && WellFormed(operand)
    case Equality(l, padL, op, padR, r) =>
      AllSpace(padL) && AllSpace(padR) && !l.Equality? && !r.Equality? && WellFormed(l) && WellFormed(r)
    case Paren(padL, inner, padR) => AllSpace(padL) && AllSpace(padR) && WellFormed(inner)
  }

  predicate WellFormedSteps(p: Steps) {
    match p
    case Done => true
    case Field(name, rest) => IsIdent(name) && WellFormedSteps(rest)
    case Item(index, rest) => index != "" && AllDigits(index) && WellFormedSteps(rest)
    case Computed(padL, key, padR, rest) =>
      AllSpace(padL) && AllSpace(padR) && WellFormed(key) && WellFormedSteps(rest)
  }

  function Show(e: Syntax): string {
    match e
    case Keyword(word) => word
    case Number(digits) => digits
    case Quoted(quote, content) => [quote] + content + [quote]
    case Path(head, steps) => head + ShowSteps(steps)
    case Not(pad, operand) => "!" + (pad + Show(operand))
    case Equality(l, padL, op, padR, r) => (Show(l) + padL) + (OpText(op) + (padR + Show(r)))
    case Paren(padL, inner, padR) => "(" + (padL + Show(inner) + padR) + ")"
  }

  function ShowSteps(p: Steps): string {
    match p
    case Done => ""
    case Field(name, rest) => "." + name + ShowSteps(rest)
    case Item(index, rest) => "." + index + ShowSteps(rest)
    case Computed(padL, key, padR, rest) => "[" + (padL + Show(key) + padR) + "]" + ShowSteps(rest)
  }

  /** The meaning of a tree, by its structure alone. */
  function Eval<V>(js: Js<V>, vals: Env<V>, e: Syntax): V
    requires WellFormed(e)
  {
    match e
    case Keyword(word) =>
      if word == "null" then js.nul else if word == "undefined" then js.undef else js.boolean(word == "true")
    case Number(digits) => js.number(digits)
    case Quoted(_, content) => js.text(content)
    case Path(head, steps) => EvalSteps(js, vals, vals(head), steps)
    case Not(_, operand) => js.boolean(!js.truthy(Eval(js, vals, operand)))
    case Equality(l, _, StrictEq, _, r) => js.boolean(js.strictEq(Eval(js, vals, l), Eval(js, vals, r)))
    case Equality(l, _, StrictNe, _, r) => js.boolean(!js.strictEq(Eval(js, vals, l), Eval(js, vals, r)))
    case Equality(l, _, LooseEq, _, r) => js.boolean(js.looseEq(Eval(js, vals, l), Eval(js, vals, r)))
    case Equality(l, _, LooseNe, _, r) => js.boolean(!js.looseEq(Eval(js, vals, l), Eval(js, vals, r)))
    case Paren(_, inner, _) => Eval(js, vals, inner)
  }

  function EvalSteps<V>(js: Js<V>, vals: Env<V>, cur: V, p: Steps): V
    requires WellFormedSteps(p)
  {
    match p
    case Done => cur
    case Field(name, rest) =>
      EvalSteps(js, vals, if js.nullish(cur) then js.undef else js.get(cur, js.text(name)), rest)
    case Item(index, rest) =>
      EvalSteps(js, vals, if js.nullish(cur) then js.undef else js.get(cur, js.text(index)), rest)
    case Computed(_, key, _, rest) =>
      EvalSteps(js, vals, if js.nullish(cur) then js.undef else js.get(cur, Eval(js, vals, key)), rest)
  }

  // ---------------------------------------------------------------------------
  // Brackets balance in printed text
  // ---------------------------------------------------------------------------

  lemma {:induction false} DepthConcat(k: Kind, a: string, b: string)
    ensures Depth(k, a + b) == Depth(k, a) + Depth(k, b)
  {
    if b == "" {
      assert a + b == a;
    } else {
      DepthConcat(k, a, b[..|b| - 1]);
      assert (a + b)[..|a + b| - 1] == a + b[..|b| - 1];
    }
  }

  ghost predicate Balanced(k: Kind, s: string) {
    Depth(k, s) == 0 && forall i :: 0 <= i <= |s| ==> Depth(k, s[..i]) >= 0
  }

  lemma BalancedConcat(k: Kind, a: string, b: string)
    requires Balanced(k, a) && Balanced(k, b)
    ensures Balanced(k, a + b)
  {
    DepthConcat(k, a, b);
    forall i | 0 <= i <= |a + b|
      ensures Depth(k, (a + b)[..i]) >= 0
    {
      PrefixDepth(k, a, b, i);
    }
  }

  /** The depth at a position of a concatenation. */
  lemma PrefixDepth(k: Kind, a: string, b: string, i: nat)
    requires i <= |a + b|
    ensures i <= |a| ==> (a + b)[..i] == a[..i]
    ensures i >= |a| ==> Depth(k, (a + b)[..i]) == Depth(k, a) + Depth(k, b[..i - |a|])
  {
    if i >= |a| {
      assert (a + b)[..i] == a + b[..i - |a|];
      DepthConcat(k, a, b[..i - |a|]);
    }
  }

  lemma {:induction false} PlainDepth(k: Kind, s: string)
    requires forall i :: 0 <= i < |s| ==> Delta(k, s[i]) == 0
    ensures Depth(k, s) == 0
  {
    if s != "" {
      PlainDepth(k, s[..|s| - 1]);
    }
  }

  lemma PlainBalanced(k: Kind, s: string)
    requires forall i :: 0 <= i < |s| ==> PlainChar(s[i])
    ensures Balanced(k, s)
  {
    PlainDepth(k, s);
    forall i | 0 <= i <= |s|
      ensures Depth(k, s[..i]) >= 0
    {
      PlainDepth(k, s[..i]);
    }
  }

  lemma SingleDepth(k: Kind, c: char)
    ensures Depth(k, [c]) == Delta(k, c)
  {
    assert [c][..0] == "";
  }

  /** Inside a pair of brackets of the counted kind every position lies one level deeper. */
  lemma EncloseDepth(k: Kind, o: char, s: string, c: char, i: nat)
    requires Balanced(k, s)
    requires (o == '(' && c == ')') || (o == '[' && c == ']')
    requires 0 < i <= |s| + 1
    ensures Depth(k, ([o] + s + [c])[..i]) == Delta(k, o) + Depth(k, s[..i - 1]) >= Delta(k, o)
  {
    assert ([o] + s + [c])[..i] == [o] + s[..i - 1];
    SingleDepth(k, o);
    DepthConcat(k, [o], s[..i - 1]);
  }

  lemma EncloseBalanced(k: Kind, o: char, s: string, c: char)
    requires Balanced(k, s)
    requires (o == '(' && c == ')') || (o == '[' && c == ']')
    ensures Balanced(k, [o] + s + [c])
  {
    var t := [o] + s + [c];
    SingleDepth(k, o);
    SingleDepth(k, c);
    DepthConcat(k, [o], s);
    DepthConcat(k, [o] + s, [c]);
    forall i | 0 <= i <= |t|
      ensures Depth(k, t[..i]) >= 0
    {
      if 0 < i <= |s| + 1 {
        EncloseDepth(k, o, s, c, i);
      } else if i > 0 {
        assert t[..i] == t;
      }
    }
  }

  lemma SpacePlain(s: string)
    requires AllSpace(s)
    ensures forall i :: 0 <= i < |s| ==> PlainChar(s[i]) && !IsBang(s[i])
    ensures !IsSpace('!')
  {
  }

  lemma IdentPlain(s: string)
    requires IsIdent(s) || AllDigits(s)
    ensures forall i :: 0 <= i < |s| ==> PlainChar(s[i]) && !IsSpace(s[i])
  {
  }

  lemma NumberPlain(s: string)
    requires IsNumber(s)
    ensures forall i :: 0 <= i < |s| ==> PlainChar(s[i]) && !IsSpace(s[i])
    ensures IsDigit(s[0]) || s[0] == '-'
    ensures IsDigit(s[|s| - 1])
  {
    var i := if s != "" && s[0] == '-' then 1 else 0;
    var n := DigitsLen(s, i);
    assert forall j :: i <= j < i + n ==> IsDigit(s[j]);
    if i + n < |s| {
      assert s[i + n] == '.';
      assert forall j :: i + n + 1 <= j < |s| ==> IsDigit(s[j]);
    }
  }

  lemma {:induction false} ShowBalanced(k: Kind, e: Syntax)
    requires WellFormed(e)
    ensures Balanced(k, Show(e))
    decreases e, 0
  {
    hide IsSpace, Depth, IsIdent, IsNumber, IsKeyword;
    match e
    case Keyword(word) =>
      KeywordPlain(word);
      PlainBalanced(k, word);
    case Number(digits) =>
      NumberPlain(digits);
      PlainBalanced(k, digits);
    case Quoted(quote, content) => PlainBalanced(k, Show(e));
    case Path(head, steps) =>
      IdentPlain(head);
      PlainBalanced(k, head);
      StepsBalanced(k, steps);
      BalancedConcat(k, head, ShowSteps(steps));
    case Not(pad, operand) =>
      BangBalanced(k);
      PaddedBalanced(k, pad, operand, "");
      assert pad + Show(operand) + "" == pad + Show(operand);
      BalancedConcat(k, "!", pad + Show(operand));
    case Equality(l, padL, op, padR, r) =>
      PaddedBalanced(k, "", l, padL);
      PaddedBalanced(k, padR, r, "");
      assert padR + Show(r) + "" == padR + Show(r);
      assert "" + Show(l) + padL == Show(l) + padL;
      OpBalanced(k, op);
      BalancedConcat(k, OpText(op), padR + Show(r));
      BalancedConcat(k, Show(l) + padL, OpText(op) + (padR + Show(r)));
    case Paren(padL, inner, padR) =>
      PaddedBalanced(k, padL, inner, padR);
      EncloseBalanced(k, '(', padL + Show(inner) + padR, ')');
  }

  lemma OpBalanced(k: Kind, op: EqOp)
    ensures Balanced(k, OpText(op))
  {
    forall i | 0 <= i <= |OpText(op)|
      ensures Depth(k, OpText(op)[..i]) == 0
    {
      PlainDepth(k, OpText(op)[..i]);
    }
    assert OpText(op)[..|OpText(op)|] == OpText(op);
  }

  lemma {:induction false} PaddedBalanced(k: Kind, a: string, e: Syntax, b: string)
    requires WellFormed(e) && AllSpace(a) && AllSpace(b)
    ensures Balanced(k, a + Show(e) + b)
    decreases e, 1
  {
    ShowBalanced(k, e);
    SpacePlain(a);
    SpacePlain(b);
    PlainBalanced(k, a);
    PlainBalanced(k, b);
    BalancedConcat(k, a, Show(e));
    BalancedConcat(k, a + Show(e), b);
  }

  lemma {:induction false} StepsBalanced(k: Kind, p: Steps)
    requires WellFormedSteps(p)
    ensures Balanced(k, ShowSteps(p))
    decreases p, 2
  {
    match p
    case Done =>
    case Field(name, rest) =>
      IdentPlain(name);
      PlainBalanced(k, "." + name);
      StepsBalanced(k, rest);
      BalancedConcat(k, "." + name, ShowSteps(rest));
    case Item(index, rest) =>
      IdentPlain(index);
      PlainBalanced(k, "." + index);
      StepsBalanced(k, rest);
      BalancedConcat(k, "." + index, ShowSteps(rest));
    case Computed(padL, key, padR, rest) =>
      PaddedBalanced(k, padL, key, padR);
      EncloseBalanced(k, '[', padL + Show(key) + padR, ']');
      StepsBalanced(k, rest);
      BalancedConcat(k, "[" + (padL + Show(key) + padR) + "]", ShowSteps(rest));
  }

  // ---------------------------------------------------------------------------
  // The shape of printed text
  // ---------------------------------------------------------------------------

  ghost predicate CleanEnds(s: string) {
    && s != ""
    && !IsSpace(s[0]) && s[0] != '='
    && !IsSpace(s[|s| - 1]) && !IsBang(s[|s| - 1])
  }

  lemma KeywordPlain(s: string)
    requires IsKeyword(s)
    ensures s != "" && forall i :: 0 <= i < |s| ==> IsLower(s[i])
  {
  }

  /** A text between two others keeps the outer first and last characters. */
  lemma SurroundEnds(a: string, m: string, b: string)
    requires a != "" && !IsSpace(a[0]) && a[0] != '=' && CleanEnds(b)
    ensures CleanEnds(a + m + b) && (a + m + b)[0] == a[0]
  {
    var s := a + m + b;
    assert s[|s| - 1] == b[|b| - 1];
    assert s[0] == a[0];
  }

  lemma ParenEnds(s: string)
    ensures CleanEnds("(" + s + ")") && ("(" + s + ")")[0] == '('
  {
    assert ("(" + s + ")")[|s| + 1] == ')';
  }

  lemma QuotedEnds(quote: char, s: string)
    requires IsQuote(quote)
    ensures var q := [quote] + s + [quote];
            CleanEnds(q) && q[0] == quote && q[|q| - 1] == quote && q[1..|q| - 1] == s
  {
    var q := [quote] + s + [quote];
    assert q[|s| + 1] == quote;
  }

  lemma PathEnds(head: string, steps: Steps)
    requires IsIdent(head) && WellFormedSteps(steps)
    ensures CleanEnds(head + ShowSteps(steps)) && IsIdentStart((head + ShowSteps(steps))[0])
  {
    IdentPlain(head);
    StepsEnd(steps);
    var s, t := head + ShowSteps(steps), ShowSteps(steps);
    assert s[|s| - 1] == if t == "" then head[|head| - 1] else t[|t| - 1];
  }

  ghost predicate ShowsWell(e: Syntax) {
    var s := Show(e);
    && CleanEnds(s)
    && (s[0] == '!' ==> e.Not? || e.Equality?)
    && (s[0] == '(' ==> e.Paren? || e.Equality?)
    && (e.Path? ==> IsIdentStart(s[0]))
  }

  lemma AtomEnds(e: Syntax)
    requires WellFormed(e) && !e.Not? && !e.Equality?
    ensures ShowsWell(e)
  {
    match e
    case Keyword(word) => KeywordPlain(word);
    case Number(digits) => NumberPlain(digits);
    case Quoted(quote, content) => QuotedEnds(quote, content);
    case Path(head, steps) => PathEnds(head, steps);
    case Paren(padL, inner, padR) => ParenEnds(padL + Show(inner) + padR);
  }

  lemma NotEnds(e: Syntax)
    requires WellFormed(e) && e.Not? && CleanEnds(Show(e.operand))
    ensures ShowsWell(e)
  {
    hide IsSpace, WellFormed, WellFormedSteps, ShowSteps;
    assert !IsSpace('!') by { SpacePlain(""); }
    SurroundEnds("!", e.pad, Show(e.operand));
    assert Show(e) == "!" + e.pad + Show(e.operand);
  }

  lemma EqualityEnds(e: Syntax)
    requires WellFormed(e) && e.Equality? && CleanEnds(Show(e.left)) && CleanEnds(Show(e.right))
    ensures ShowsWell(e)
  {
    hide IsSpace, WellFormed, WellFormedSteps, ShowSteps;
    var middle := e.padL + OpText(e.op) + e.padR;
    SurroundEnds(Show(e.left), middle, Show(e.right));
    assert Show(e) == Show(e.left) + middle + Show(e.right);
  }

  lemma {:induction false} ShowEnds(e: Syntax)
    requires WellFormed(e)
    ensures ShowsWell(e)
  {
    hide Show, CleanEnds;
    match e
    case Not(pad, operand) =>
      ShowEnds(operand);
      NotEnds(e);
    case Equality(l, padL, op, padR, r) =>
      ShowEnds(l);
      ShowEnds(r);
      EqualityEnds(e);
    case _ => AtomEnds(e);
  }

  lemma {:induction false} StepsEnd(p: Steps)
    requires WellFormedSteps(p)
    ensures p.Done? <==> ShowSteps(p) == ""
    ensures !p.Done? ==> IsStepStart(ShowSteps(p)[0])
    ensures !p.Done? ==> !IsSpace(ShowSteps(p)[|ShowSteps(p)| - 1]) && !IsBang(ShowSteps(p)[|ShowSteps(p)| - 1])
  {
    match p
    case Done =>
    case Field(name, rest) =>
      IdentPlain(name);
      StepsEnd(rest);
    case Item(index, rest) =>
      IdentPlain(index);
      StepsEnd(rest);
    case Computed(_, _, _, rest) =>
      StepsEnd(rest);
  }

  // ---------------------------------------------------------------------------
  // Where equality operators stand
  // ---------------------------------------------------------------------------

  /** No `=` outside brackets. */
  ghost predicate NoTopEquals(s: string) {
    forall i :: 0 <= i < |s| && Depth(Both, s[..i]) == 0 ==> s[i] != '='
  }

  lemma NoTopEqualsPlain(s: string)
    requires forall i :: 0 <= i < |s| ==> PlainChar(s[i])
    ensures NoTopEquals(s)
  {
  }

  lemma NoTopEqualsConcat(a: string, b: string)
    requires Balanced(Both, a) && NoTopEquals(a) && NoTopEquals(b)
    ensures NoTopEquals(a + b)
  {
    forall i | 0 <= i < |a + b| && Depth(Both, (a + b)[..i]) == 0
      ensures (a + b)[i] != '='
    {
      PrefixDepth(Both, a, b, i);
    }
  }

  lemma NoTopEqualsEnclosed(o: char, s: string, c: char)
    requires Balanced(Both, s)
    requires (o == '(' && c == ')') || (o == '[' && c == ']')
    ensures NoTopEquals([o] + s + [c])
  {
    forall i | 0 < i < |s| + 1
      ensures Depth(Both, ([o] + s + [c])[..i]) > 0
    {
      EncloseDepth(Both, o, s, c, i);
    }
  }

  lemma {:induction false} ShowNoTopEquals(e: Syntax)
    requires WellFormed(e) && !e.Equality?
    ensures NoTopEquals(Show(e))
  {
    match e
    case Keyword(word) => NoTopEqualsPlain(word);
    case Number(digits) =>
      NumberPlain(digits);
      NoTopEqualsPlain(digits);
    case Quoted(_, _) => NoTopEqualsPlain(Show(e));
    case Path(head, steps) =>
      IdentPlain(head);
      NoTopEqualsPlain(head);
      PlainBalanced(Both, head);
      StepsNoTopEquals(steps);
      NoTopEqualsConcat(head, ShowSteps(steps));
    case Not(pad, operand) =>
      SpacePlain(pad);
      NoTopEqualsPlain(pad);
      PlainBalanced(Both, pad);
      ShowNoTopEquals(operand);
      NoTopEqualsConcat(pad, Show(operand));
      BangBalanced(Both);
      NoTopEqualsConcat("!", pad + Show(operand));
    case Paren(padL, inner, padR) =>
      PaddedBalanced(Both, padL, inner, padR);
      NoTopEqualsEnclosed('(', padL + Show(inner) + padR, ')');
  }

  lemma BangBalanced(k: Kind)
    ensures Balanced(k, "!")
  {
    PlainDepth(k, "!");
    assert "!"[..0] == "" && "!"[..1] == "!";
  }

  lemma {:induction false} StepsNoTopEquals(p: Steps)
    requires WellFormedSteps(p)
    ensures NoTopEquals(ShowSteps(p))
  {
    match p
    case Done =>
    case Field(name, rest) =>
      IdentPlain(name);
      StepsNoTopEquals(rest);
      PlainBalanced(Both, "." + name);
      NoTopEqualsConcat("." + name, ShowSteps(rest));
    case Item(index, rest) =>
      IdentPlain(index);
      StepsNoTopEquals(rest);
      PlainBalanced(Both, "." + index);
      NoTopEqualsConcat("." + index, ShowSteps(rest));
    case Computed(padL, key, padR, rest) =>
      PaddedBalanced(Both, padL, key, padR);
      NoTopEqualsEnclosed('[', padL + Show(key) + padR, ']');
      EncloseBalanced(Both, '[', padL + Show(key) + padR, ']');
      StepsNoTopEquals(rest);
      NoTopEqualsConcat("[" + (padL + Show(key) + padR) + "]", ShowSteps(rest));
  }

  /** Text without a top-level `=` holds no equality operator. */
  lemma NoEquality(s: string)
    requires NoTopEquals(s)
    ensures FirstEquality(s).None?
  {
    forall i: nat | EqualityAt(s, i)
      ensures false
    {
      DepthStep(Both, s, i);
    }
  }

  /** Left of its operator, a printed equality holds no operator. */
  lemma LeftOfOperator(a: string, b: string)
    requires Balanced(Both, a) && NoTopEquals(a)
    requires a != "" && !IsBang(a[|a| - 1])
    ensures forall j: nat :: j < |a| ==> !EqualityAt(a + b, j)
  {
    forall j: nat | j < |a|
      ensures !EqualityAt(a + b, j)
    {
      PrefixDepth(Both, a, b, j);
      DepthStep(Both, a, j);
      assert (a + b)[j] == a[j];
      assert j + 1 < |a| ==> (a + b)[j + 1] == a[j + 1];
    }
  }

  lemma OperandBeforeOperator(l: Syntax, pad: string)
    requires WellFormed(l) && !l.Equality? && AllSpace(pad)
    ensures var a := Show(l) + pad;
            Balanced(Both, a) && NoTopEquals(a) && a != "" && !IsBang(a[|a| - 1]) && Trim(a) != ""
  {
    hide IsSpace, WellFormed, Show, Depth, TrimStart, TrimEnd;
    var a := "" + Show(l) + pad;
    assert a == Show(l) + pad;
    assert Balanced(Both, a) by { PaddedBalanced(Both, "", l, pad); }
    assert NoTopEquals(a) by {
      SpacePlain(pad);
      ShowNoTopEquals(l);
      ShowBalanced(Both, l);
      NoTopEqualsPlain(pad);
      NoTopEqualsConcat(Show(l), pad);
    }
    ShowEnds(l);
    SpacePlain(pad);
    TrimPadded("", Show(l), pad);
    assert a[|a| - 1] == if pad == "" then Show(l)[|Show(l)| - 1] else pad[|pad| - 1];
  }

  lemma OperatorRead(a: string, op: EqOp, c: string)
    requires Depth(Both, a) == 0 && a != "" && !IsBang(a[|a| - 1]) && Trim(a) != ""
    requires c != "" && c[0] != '='
    ensures EqualityAt(a + (OpText(op) + c), |a|)
    ensures OpAt(a + (OpText(op) + c), |a|) == op
  {
    var s := a + (OpText(op) + c);
    assert s[..|a|] == a;
    assert s[|a|] == OpText(op)[0] && s[|a| + 1] == OpText(op)[1];
    assert s[|a| + 2] == (OpText(op) + c)[2];
    assert s[|a| - 1] == a[|a| - 1];
  }

  /** The operator of a printed equality is the first one the scan finds. */
  lemma FirstIsOperator(l: Syntax, padL: string, op: EqOp, padR: string, r: Syntax)
    requires WellFormed(Equality(l, padL, op, padR, r))
    ensures var s := Show(Equality(l, padL, op, padR, r));
            && FirstEquality(s) == Some(|Show(l) + padL|)
            && OpAt(s, |Show(l) + padL|) == op
  {
    var a, c := Show(l) + padL, padR + Show(r);
    OperandBeforeOperator(l, padL);
    ShowEnds(r);
    assert c[0] == if padR == "" then Show(r)[0] else padR[0];
    OperatorRead(a, op, c);
    LeftOfOperator(a, OpText(op) + c);
    assert Show(Equality(l, padL, op, padR, r)) == a + (OpText(op) + c);
  }

  // ---------------------------------------------------------------------------
  // Parentheses around the whole text
  // ---------------------------------------------------------------------------

  lemma ParenWraps(s: string)
    requires Balanced(Parens, s)
    ensures WrapsWhole("(" + s + ")")
  {
    var t := "(" + s + ")";
    forall i | 0 <= i < |t| - 1 && t[i] == ')'
      ensures Depth(Parens, t[..i + 1]) != 0
    {
      EncloseDepth(Parens, '(', s, ')', i + 1);
    }
  }

  /** `(l) op r` is not one parenthesis: the first one closes before the end. */
  lemma EqualityDoesNotWrap(l: Syntax, padL: string, op: EqOp, padR: string, r: Syntax)
    requires WellFormed(Equality(l, padL, op, padR, r))
    requires Show(l) != "" && Show(l)[0] == '('
    ensures !WrapsWhole(Show(Equality(l, padL, op, padR, r)))
  {
    ShowEnds(l);
    ShowBalanced(Parens, l);
    var s := Show(Equality(l, padL, op, padR, r));
    var i := |Show(l)| - 1;
    assert s[..i + 1] == Show(l);
    assert s[i] == ')';
  }

  // ---------------------------------------------------------------------------
  // Paths
  // ---------------------------------------------------------------------------

  lemma {:induction false} RunLenExact(p: char -> bool, s: string, i: nat, n: nat)
    requires i + n <= |s|
    requires forall j :: i <= j < i + n ==> p(s[j])
    requires i + n < |s| ==> !p(s[i + n])
    ensures RunLen(p, s, i) == n
    decreases n
  {
    if n > 0 {
      RunLenExact(p, s, i + 1, n - 1);
    }
  }

  lemma IdentLenExact(s: string, i: nat, name: string)
    requires i + |name| <= |s| && s[i..i + |name|] == name && IsIdent(name)
    requires i + |name| < |s| ==> IsStepStart(s[i + |name|])
    ensures IdentLen(s, i) == |name|
  {
    assert forall j :: i <= j < i + |name| ==> s[j] == name[j - i];
    RunLenExact(IsIdentPart, s, i, |name|);
  }

  lemma ItemLenExact(s: string, i: nat, index: string)
    requires i + |index| <= |s| && s[i..i + |index|] == index && index != "" && AllDigits(index)
    requires i + |index| < |s| ==> IsStepStart(s[i + |index|])
    ensures IdentLen(s, i) == 0 && DigitsLen(s, i) == |index|
  {
    assert forall j :: i <= j < i + |index| ==> s[j] == index[j - i];
    assert IsDigit(s[i]);
    RunLenExact(IsDigit, s, i, |index|);
  }

  /** From inside a balanced text, at nesting `depth`, the scan reaches the text's own closing bracket. */
  lemma {:induction false} CloseFromBalanced(s: string, start: nat, inner: string, j: nat, depth: nat)
    requires start + |inner| < |s| && s[start..start + |inner|] == inner && s[start + |inner|] == ']'
    requires Balanced(Squares, inner)
    requires start <= j <= start + |inner|
    requires depth == 1 + Depth(Squares, inner[..j - start])
    ensures CloseFrom(s, j, depth) == start + |inner|
    decreases start + |inner| - j
  {
    if j == start + |inner| {
      assert inner[..j - start] == inner;
    } else {
      assert s[j] == inner[j - start];
      DepthStep(Squares, inner, j - start);
      assert Depth(Squares, inner[..j - start + 1]) >= 0;
      CloseFromBalanced(s, start, inner, j + 1, 1 + Depth(Squares, inner[..j + 1 - start]));
    }
  }

  lemma {:induction false} PathFromShow<V>(js: Js<V>, vals: Env<V>, cur: V, expr: string, i: nat, p: Steps)
    requires i <= |expr| && expr[i..] == ShowSteps(p)
    requires WellFormedSteps(p)
    ensures PathFrom(js, vals, cur, expr, i) == EvalSteps(js, vals, cur, p)
    decreases p, 0
  {
    hide Resolve, PathFrom, Show, AllDigits, CloseFrom, IdentLen, DigitsLen, IsSpace;
    match p
    case Done => PathFromDone(js, vals, cur, expr);
    case Field(name, rest) =>
      DotStep(expr, i, name, rest);
      PathFromShow(js, vals, js.Member(cur, js.text(name)), expr, i + 1 + |name|, rest);
      IdentLenExact(expr, i + 1, name);
      PathFromDot(js, vals, cur, expr, i, name, p);
    case Item(index, rest) =>
      DotStep(expr, i, index, rest);
      PathFromShow(js, vals, js.Member(cur, js.text(index)), expr, i + 1 + |index|, rest);
      ItemLenExact(expr, i + 1, index);
      PathFromDot(js, vals, cur, expr, i, index, p);
    case Computed(padL, key, padR, rest) =>
      BracketStep(expr, i, padL, key, padR, ShowSteps(rest));
      ResolveShow(js, vals, padL, key, padR);
      PathFromShow(js, vals, js.Member(cur, Eval(js, vals, key)), expr, i + |padL + Show(key) + padR| + 2, rest);
      PathFromBracket(js, vals, cur, expr, i, p);
  }

  lemma PathFromDone<V>(js: Js<V>, vals: Env<V>, cur: V, expr: string)
    ensures PathFrom(js, vals, cur, expr, |expr|) == cur
  {
  }

  lemma PathFromDot<V>(js: Js<V>, vals: Env<V>, cur: V, expr: string, i: nat, name: string, p: Steps)
    requires WellFormedSteps(p) && ((p.Field? && p.name == name) || (p.Item? && p.index == name))
    requires i + 1 + |name| <= |expr| && expr[i] == '.' && expr[i + 1..i + 1 + |name|] == name != ""
    requires IdentLen(expr, i + 1) == |name| || (IdentLen(expr, i + 1) == 0 && DigitsLen(expr, i + 1) == |name|)
    requires PathFrom(js, vals, js.Member(cur, js.text(name)), expr, i + 1 + |name|)
          == EvalSteps(js, vals, js.Member(cur, js.text(name)), p.rest)
    ensures PathFrom(js, vals, cur, expr, i) == EvalSteps(js, vals, cur, p)
  {
    hide Resolve, CloseFrom, IdentLen, DigitsLen, WellFormed, IsIdent, AllDigits, Eval;
  }

  lemma PathFromBracket<V>(js: Js<V>, vals: Env<V>, cur: V, expr: string, i: nat, p: Steps)
    requires p.Computed? && WellFormedSteps(p)
    requires var inner := p.padL + Show(p.key) + p.padR;
             var next := js.Member(cur, Eval(js, vals, p.key));
             && i + 2 + |inner| <= |expr| && expr[i] == '[' && expr[i + 1..i + 1 + |inner|] == inner
             && CloseFrom(expr, i + 1, 1) == i + 1 + |inner|
             && Resolve(js, vals, inner) == Eval(js, vals, p.key)
             && PathFrom(js, vals, next, expr, i + 2 + |inner|) == EvalSteps(js, vals, next, p.rest)
    ensures PathFrom(js, vals, cur, expr, i) == EvalSteps(js, vals, cur, p)
  {
    hide Resolve, CloseFrom, IdentLen, DigitsLen, WellFormed, Eval, Show;
  }

  lemma DotStep(expr: string, i: nat, name: string, rest: Steps)
    requires WellFormedSteps(rest)
    requires i <= |expr| && expr[i..] == "." + name + ShowSteps(rest)
    ensures i + 1 + |name| <= |expr| && expr[i] == '.'
    ensures expr[i + 1..i + 1 + |name|] == name && expr[i + 1 + |name|..] == ShowSteps(rest)
    ensures i + 1 + |name| < |expr| ==> IsStepStart(expr[i + 1 + |name|])
  {
    StepsEnd(rest);
    NextStep(expr, i, "." + name, ShowSteps(rest));
    assert expr[i + 1..i + 1 + |name|] == ("." + name)[1..];
  }

  lemma BracketStep(expr: string, i: nat, padL: string, key: Syntax, padR: string, rest: string)
    requires WellFormed(key) && AllSpace(padL) && AllSpace(padR)
    requires i <= |expr| && expr[i..] == "[" + (padL + Show(key) + padR) + "]" + rest
    ensures var j := i + 1 + |padL + Show(key) + padR|;
            && j < |expr| && expr[i] == '['
            && CloseFrom(expr, i + 1, 1) == j
            && expr[i + 1..j] == padL + Show(key) + padR
            && expr[j + 1..] == rest
  {
    hide IsSpace, WellFormed, Show;
    var inner := padL + Show(key) + padR;
    var step := "[" + inner + "]";
    NextStep(expr, i, step, rest);
    var j := i + 1 + |inner|;
    assert expr[i] == step[0] && expr[j] == step[1 + |inner|];
    assert expr[i + 1..j] == step[1..1 + |inner|] == inner;
    PaddedBalanced(Squares, padL, key, padR);
    CloseFromBalanced(expr, i + 1, inner, i + 1, 1);
  }

  lemma NextStep(expr: string, i: nat, step: string, rest: string)
    requires i <= |expr| && expr[i..] == step + rest
    ensures i + |step| <= |expr|
    ensures expr[i..i + |step|] == step && expr[i + |step|..] == rest
    ensures forall j :: 0 <= j < |step| ==> expr[i + j] == step[j]
    ensures i + |step| < |expr| ==> rest != "" && expr[i + |step|] == rest[0]
  {
    assert |expr| - i == |step + rest|;
    assert forall j :: 0 <= j < |step| ==> expr[i + j] == expr[i..][j] == (step + rest)[j];
    assert expr[i + |step|..] == expr[i..][|step|..] == rest;
    assert expr[i..i + |step|] == expr[i..][..|step|] == step;
  }

  // ---------------------------------------------------------------------------
  // The round trip
  // ---------------------------------------------------------------------------

  /** Resolving the text of a tree, with any white space around it, gives the meaning of the tree. */
  lemma {:induction false} ResolveShow<V>(js: Js<V>, vals: Env<V>, a: string, e: Syntax, b: string)
    requires WellFormed(e) && AllSpace(a) && AllSpace(b)
    ensures Resolve(js, vals, a + Show(e) + b) == Eval(js, vals, e)
    decreases e, 1
  {
    ShowEnds(e);
    TrimPadded(a, Show(e), b);
    var src := a + Show(e) + b;
    match e
    case Paren(_, _, _) => ResolveParen(js, vals, e, src);
    case Equality(_, _, _, _, _) => ResolveEquality(js, vals, e, src);
    case Not(_, _) => ResolveNot(js, vals, e, src);
    case Path(_, _) => ResolvePathText(js, vals, e, src);
    case _ => ResolveLiteral(js, vals, e, src);
  }

  lemma {:induction false} ResolveParen<V>(js: Js<V>, vals: Env<V>, e: Syntax, src: string)
    requires WellFormed(e) && e.Paren? && Trim(src) == Show(e)
    ensures Resolve(js, vals, src) == Eval(js, vals, e)
    decreases e, 0
  {
    var s, body := Show(e), e.padL + Show(e.inner) + e.padR;
    PaddedBalanced(Parens, e.padL, e.inner, e.padR);
    ParenWraps(body);
    assert s[0] == '(' && s[|s| - 1] == ')' && s[1..|s| - 1] == body;
    ResolveShow(js, vals, e.padL, e.inner, e.padR);
  }

  lemma {:induction false} ResolveEquality<V>(js: Js<V>, vals: Env<V>, e: Syntax, src: string)
    requires WellFormed(e) && e.Equality? && Trim(src) == Show(e)
    ensures Resolve(js, vals, src) == Eval(js, vals, e)
    decreases e, 0
  {
    hide Resolve, Trim, FirstEquality, OpAt, WrapsWhole, Depth, IsSpace;
    ResolveShow(js, vals, "", e.left, e.padL);
    ResolveShow(js, vals, e.padR, e.right, "");
    EqualityParts(e.left, e.padL, e.op, e.padR, e.right);
    ResolveAtEquality(js, vals, src, e);
  }

  /** How `resolve` takes a printed equality apart. */
  lemma EqualityParts(l: Syntax, padL: string, op: EqOp, padR: string, r: Syntax)
    requires WellFormed(Equality(l, padL, op, padR, r))
    ensures var s, i := Show(Equality(l, padL, op, padR, r)), |Show(l) + padL|;
            && s != "" && !(s[0] == '(' && WrapsWhole(s))
            && FirstEquality(s) == Some(i) && OpAt(s, i) == op
            && s[..i] == "" + Show(l) + padL
            && i + |OpText(op)| <= |s| && s[i + |OpText(op)|..] == padR + Show(r) + ""
  {
    hide IsSpace, WellFormedSteps, ShowSteps, Depth, WrapsWhole, FirstEquality, OpAt;
    var s, a := Show(Equality(l, padL, op, padR, r)), Show(l) + padL;
    ShowEnds(l);
    assert s[0] == Show(l)[0];
    if s[0] == '(' {
      EqualityDoesNotWrap(l, padL, op, padR, r);
    }
    FirstIsOperator(l, padL, op, padR, r);
    assert a == "" + Show(l) + padL;
    assert padR + Show(r) == padR + Show(r) + "";
    assert s[|a|..] == OpText(op) + (padR + Show(r));
    assert s[|a| + |OpText(op)|..] == s[|a|..][|OpText(op)|..];
  }

  lemma ResolveAtEquality<V>(js: Js<V>, vals: Env<V>, src: string, e: Syntax)
    requires e.Equality? && WellFormed(e)
    requires var s, i := Trim(src), |Show(e.left) + e.padL|;
             && s != "" && !(s[0] == '(' && WrapsWhole(s))
             && FirstEquality(s) == Some(i) && OpAt(s, i) == e.op && i + |OpText(e.op)| <= |s|
             && Resolve(js, vals, s[..i]) == Eval(js, vals, e.left)
             && Resolve(js, vals, s[i + |OpText(e.op)|..]) == Eval(js, vals, e.right)
    ensures Resolve(js, vals, src) == Eval(js, vals, e)
  {
    hide IsNumber, WrapsWhole, Depth, WellFormed, FirstEquality, OpAt, Show, PathValue, Trim;
  }

  lemma {:induction false} ResolveNot<V>(js: Js<V>, vals: Env<V>, e: Syntax, src: string)
    requires WellFormed(e) && e.Not? && Trim(src) == Show(e)
    ensures Resolve(js, vals, src) == Eval(js, vals, e)
    decreases e, 0
  {
    ShowNoTopEquals(e);
    NoEquality(Show(e));
    assert Show(e)[0] == '!' && Show(e)[1..] == e.pad + Show(e.operand) + "";
    ResolveShow(js, vals, e.pad, e.operand, "");
  }

  lemma ResolveLiteral<V>(js: Js<V>, vals: Env<V>, e: Syntax, src: string)
    requires WellFormed(e) && (e.Keyword? || e.Number? || e.Quoted?) && Trim(src) == Show(e)
    ensures Resolve(js, vals, src) == Eval(js, vals, e)
  {
    hide WrapsWhole, FirstEquality, OpAt, PathValue, Trim;
    var s := Show(e);
    ShowEnds(e);
    ShowNoTopEquals(e);
    NoEquality(s);
    match e
    case Keyword(_) =>
    case Number(digits) =>
      NumberPlain(digits);
      NotKeyword(s);
      hide IsNumber, IsKeyword;
    case Quoted(quote, content) =>
      QuotedEnds(quote, content);
      NotKeyword(s);
      NotNumber(s);
      hide IsNumber, IsKeyword;
  }

  lemma NotKeyword(s: string)
    requires exists i :: 0 <= i < |s| && !IsLower(s[i])
    ensures !IsKeyword(s)
  {
    if IsKeyword(s) { KeywordPlain(s); }
  }

  lemma NotNumber(s: string)
    requires s != "" && !IsDigit(s[0]) && s[0] != '-'
    ensures !IsNumber(s)
  {
    if IsNumber(s) { NumberPlain(s); }
  }

  lemma {:induction false} ResolvePathText<V>(js: Js<V>, vals: Env<V>, e: Syntax, src: string)
    requires WellFormed(e) && e.Path? && Trim(src) == Show(e)
    ensures Resolve(js, vals, src) == Eval(js, vals, e)
    decreases e, 0
  {
    var s, head := Show(e), e.head;
    ShowEnds(e);
    ShowNoTopEquals(e);
    NoEquality(s);
    StepsEnd(e.steps);
    NotNumber(s);
    if e.steps.Done? {
      assert s == head;
    } else {
      assert IsStepStart(s[|head|]);
      NotKeyword(s);
    }
    assert s[0..|head|] == head && s[..|head|] == head && s[|head|..] == ShowSteps(e.steps);
    IdentLenExact(s, 0, head);
    PathFromShow(js, vals, vals(head), s, |head|, e.steps);
    assert Resolve(js, vals, src) == PathValue(js, vals, s);
  }

  // ---------------------------------------------------------------------------
  // What the texts of the operators, the keywords and the steps mean
  // ---------------------------------------------------------------------------

  lemma OperatorsMean<V>(js: Js<V>, vals: Env<V>, l: Syntax, a: string, b: string, r: Syntax)
    requires WellFormed(l) && WellFormed(r) && !l.Equality? && !r.Equality? && AllSpace(a) && AllSpace(b)
    ensures var x, y := Eval(js, vals, l), Eval(js, vals, r);
            && Resolve(js, vals, Show(l) + a + "===" + b + Show(r)) == js.boolean(js.strictEq(x, y))
            && Resolve(js, vals, Show(l) + a + "!==" + b + Show(r)) == js.boolean(!js.strictEq(x, y))
            && Resolve(js, vals, Show(l) + a + "==" + b + Show(r)) == js.boolean(js.looseEq(x, y))
            && Resolve(js, vals, Show(l) + a + "!=" + b + Show(r)) == js.boolean(!js.looseEq(x, y))
  {
    hide Resolve, AllSpace, Show;
    OperatorText(js, vals, l, a, StrictEq, b, r, "===", js.boolean(js.strictEq(Eval(js, vals, l), Eval(js, vals, r))));
    OperatorText(js, vals, l, a, StrictNe, b, r, "!==", js.boolean(!js.strictEq(Eval(js, vals, l), Eval(js, vals, r))));
    OperatorText(js, vals, l, a, LooseEq, b, r, "==", js.boolean(js.looseEq(Eval(js, vals, l), Eval(js, vals, r))));
    OperatorText(js, vals, l, a, LooseNe, b, r, "!=", js.boolean(!js.looseEq(Eval(js, vals, l), Eval(js, vals, r))));
  }

  lemma OperatorText<V>(
      js: Js<V>, vals: Env<V>, l: Syntax, a: string, op: EqOp, b: string, r: Syntax, text: string, v: V)
    requires WellFormed(Equality(l, a, op, b, r)) && text == OpText(op)
    requires v == Eval(js, vals, Equality(l, a, op, b, r))
    ensures Resolve(js, vals, Show(l) + a + text + b + Show(r)) == v
  {
    hide Resolve, WellFormed, Eval, OpText;
    var e := Equality(l, a, op, b, r);
    ResolveShow(js, vals, "", e, "");
    assert "" + Show(e) + "" == Show(l) + a + text + b + Show(r);
  }

  lemma KeywordsMean<V>(js: Js<V>, vals: Env<V>)
    ensures Resolve(js, vals, "true") == js.boolean(true)
    ensures Resolve(js, vals, "false") == js.boolean(false)
    ensures Resolve(js, vals, "null") == js.nul
    ensures Resolve(js, vals, "undefined") == js.undef
  {
    KeywordText(js, vals, "true");
    KeywordText(js, vals, "false");
    KeywordText(js, vals, "null");
    KeywordText(js, vals, "undefined");
    hide Resolve;
  }

  lemma KeywordText<V>(js: Js<V>, vals: Env<V>, word: string)
    requires IsKeyword(word)
    ensures Resolve(js, vals, word) == Eval(js, vals, Keyword(word))
  {
    hide Resolve, IsKeyword;
    ResolveShow(js, vals, "", Keyword(word), "");
    assert "" + Show(Keyword(word)) + "" == word;
  }

  /** A step past null or undefined gives undefined, past any other value what the host finds there. */
  lemma StepsMean<V>(js: Js<V>, vals: Env<V>, head: string, name: string, index: string, key: Syntax)
    requires IsIdent(head) && IsIdent(name) && index != "" && AllDigits(index) && WellFormed(key)
    ensures var cur := vals(head);
            && Resolve(js, vals, head + "." + name)
               == (if js.nullish(cur) then js.undef else js.get(cur, js.text(name)))
            && Resolve(js, vals, head + "." + index)
               == (if js.nullish(cur) then js.undef else js.get(cur, js.text(index)))
            && Resolve(js, vals, head + "[" + Show(key) + "]")
               == (if js.nullish(cur) then js.undef else js.get(cur, Eval(js, vals, key)))
  {
    hide *;
    FieldMeans(js, vals, head, name);
    IndexMeans(js, vals, head, index);
    ComputedMeans(js, vals, head, key);
  }

  lemma FieldMeans<V>(js: Js<V>, vals: Env<V>, head: string, name: string)
    requires IsIdent(head) && IsIdent(name)
    ensures Resolve(js, vals, head + "." + name)
            == (if js.nullish(vals(head)) then js.undef else js.get(vals(head), js.text(name)))
  {
    hide Resolve, IsIdent;
    StepText(js, vals, head, Field(name, Done), "." + name);
    assert head + ("." + name) == head + "." + name;
  }

  lemma IndexMeans<V>(js: Js<V>, vals: Env<V>, head: string, index: string)
    requires IsIdent(head) && index != "" && AllDigits(index)
    ensures Resolve(js, vals, head + "." + index)
            == (if js.nullish(vals(head)) then js.undef else js.get(vals(head), js.text(index)))
  {
    hide Resolve, IsIdent, AllDigits;
    StepText(js, vals, head, Item(index, Done), "." + index);
    assert head + ("." + index) == head + "." + index;
  }

  lemma ComputedMeans<V>(js: Js<V>, vals: Env<V>, head: string, key: Syntax)
    requires IsIdent(head) && WellFormed(key)
    ensures Resolve(js, vals, head + "[" + Show(key) + "]")
            == (if js.nullish(vals(head)) then js.undef else js.get(vals(head), Eval(js, vals, key)))
  {
    hide Resolve, IsIdent, Show, Eval, WellFormed;
    StepText(js, vals, head, Computed("", key, "", Done), "[" + Show(key) + "]");
    assert head + ("[" + Show(key) + "]") == head + "[" + Show(key) + "]";
  }

  lemma StepText<V>(js: Js<V>, vals: Env<V>, head: string, steps: Steps, text: string)
    requires IsIdent(head) && !steps.Done? && WellFormedSteps(steps) && ShowSteps(steps) == text
    ensures Resolve(js, vals, head + text) == EvalSteps(js, vals, vals(head), steps)
  {
    hide Resolve, IsIdent, ShowSteps, WellFormedSteps, EvalSteps;
    ResolveShow(js, vals, "", Path(head, steps), "");
    assert "" + Show(Path(head, steps)) + "" == head + text;
  }

  ghost predicate NumberParts(s: string, sign: string, whole: string, fraction: string) {
    && (sign == "" || sign == "-")
    && whole != "" && AllDigits(whole)
    && (fraction == "" || (|fraction| > 1 && fraction[0] == '.' && AllDigits(fraction[1..])))
    && s == sign + whole + fraction
  }

  ghost predicate NumberShape(s: string) {
    exists sign, whole, fraction :: NumberParts(s, sign, whole, fraction)
  }

  /** A number is an optional minus sign, digits, and an optional point with digits; nothing else is one. */
  lemma NumberExactly(s: string)
    ensures IsNumber(s) <==> NumberShape(s)
  {
    if IsNumber(s) {
      NumberHasParts(s);
    }
    if NumberShape(s) {
      var sign, whole, fraction :| NumberParts(s, sign, whole, fraction);
      PartsAreNumber(s, sign, whole, fraction);
    }
  }

  lemma NumberHasParts(s: string)
    requires IsNumber(s)
    ensures NumberShape(s)
  {
    var i := if s != "" && s[0] == '-' then 1 else 0;
    var n := DigitsLen(s, i);
    assert s == s[..i] + s[i..i + n] + s[i + n..];
    if i + n < |s| {
      assert s[i + n..][1..] == s[i + n + 1..];
    }
    assert NumberParts(s, s[..i], s[i..i + n], s[i + n..]);
  }

  lemma PartsAreNumber(s: string, sign: string, whole: string, fraction: string)
    requires NumberParts(s, sign, whole, fraction)
    ensures IsNumber(s)
  {
    var i := |sign|;
    assert s[i] == whole[0];
    assert i == if s != "" && s[0] == '-' then 1 else 0;
    assert forall j :: i <= j < i + |whole| ==> s[j] == whole[j - i];
    assert fraction != "" ==> s[i + |whole|] == '.';
    DigitsRun(s, i, |whole|);
    if fraction != "" {
      var at := i + |whole| + 1;
      assert forall j :: at <= j < |s| ==> s[j] == fraction[1..][j - at];
      DigitsRun(s, at, |fraction| - 1);
    }
  }

  /** The digits from `i` on end after `n` characters. */
  lemma {:induction false} DigitsRun(s: string, i: nat, n: nat)
    requires i + n <= |s| && forall j :: i <= j < i + n ==> IsDigit(s[j])
    requires i + n < |s| ==> !IsDigit(s[i + n])
    ensures DigitsLen(s, i) == n
    decreases n
  {
    if n > 0 {
      DigitsRun(s, i + 1, n - 1);
    }
  }

  /** A letter, a dollar sign or an underscore. */
  predicate NameStart(c: char) {
    'a' <= c <= 'z' || 'A' <= c <= 'Z' || c in "$_"
  }

  /** A name is one of these, followed by any number of them and of digits. */
  lemma NameExactly(s: string)
    ensures IsIdent(s) <==> s != "" && NameStart(s[0]) && forall c <- s :: NameStart(c) || '0' <= c <= '9'
  {
    assert forall i :: 0 <= i < |s| ==> s[i] in s;
  }

  /** A number is its own text's value; a text between two equal quotation marks is itself. */
  lemma LiteralsMean<V>(js: Js<V>, vals: Env<V>, digits: string, content: string)
    requires IsNumber(digits) && forall i :: 0 <= i < |content| ==> PlainChar(content[i])
    ensures Resolve(js, vals, digits) == js.number(digits)
    ensures Resolve(js, vals, "\"" + content + "\"") == js.text(content)
    ensures Resolve(js, vals, "'" + content + "'") == js.text(content)
  {
    hide Resolve, IsNumber, PlainChar;
    LiteralText(js, vals, Number(digits), digits);
    LiteralText(js, vals, Quoted('"', content), "\"" + content + "\"");
    LiteralText(js, vals, Quoted('\'', content), "'" + content + "'");
  }

  lemma LiteralText<V>(js: Js<V>, vals: Env<V>, e: Syntax, text: string)
    requires WellFormed(e) && Show(e) == text
    ensures Resolve(js, vals, text) == Eval(js, vals, e)
  {
    hide Resolve, WellFormed, Show, Eval;
    ResolveShow(js, vals, "", e, "");
    assert "" + Show(e) + "" == text;
  }

  /** `!` gives the other truth value of its operand. */
  lemma NotMeans<V>(js: Js<V>, vals: Env<V>, pad: string, e: Syntax)
    requires AllSpace(pad) && !e.Equality? && WellFormed(e)
    ensures Resolve(js, vals, "!" + pad + Show(e)) == js.boolean(!js.truthy(Eval(js, vals, e)))
  {
    hide Resolve, AllSpace, Show;
    LiteralText(js, vals, Not(pad, e), "!" + pad + Show(e)) by { NotShown(pad, e); }
  }

  lemma NotShown(pad: string, e: Syntax)
    ensures Show(Not(pad, e)) == "!" + pad + Show(e)
  {
  }
}
