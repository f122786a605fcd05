/** Which names of an environment an expression text looks up. */
module ExprScope {
  import opened Strings
  import opened Wrappers
  import opened Expr

  /** The heads of all paths that resolving `src` can reach. */
  function Heads(src: string): set<string>
    decreases |Trim(src)|, 2, 0
  {
    var expr := Trim(src);
    if expr == "" then {}
    else if expr[0] == '(' && expr[|expr| - 1] == ')' && WrapsWhole(expr) then Heads(expr[1..|expr| - 1])
    else if FirstEquality(expr).Some? then
      var i := FirstEquality(expr).value;
      Heads(expr[..i]) + Heads(expr[i + |OpText(OpAt(expr, i))|..])
    else if expr[0] == '!' then Heads(expr[1..])
    else if IsKeyword(expr) || IsNumber(expr) then {}
    else if |expr| >= 2 && (expr[0] == '"' || expr[0] == '\'') && expr[|expr| - 1] == expr[0] then {}
    else PathHeads(expr)
  }

  function PathHeads(expr: string): set<string>
    decreases |expr|, 1, 0
  {
    var n := IdentLen(expr, 0);
    if n == 0 then {} else {expr[..n]} + StepHeads(expr, n)
  }

  function StepHeads(expr: string, i: nat): set<string>
    requires i <= |expr|
    decreases |expr|, 0, |expr| - i
  {
    if i == |expr| then {}
    else if expr[i] == '.' then
      var n := if IdentLen(expr, i + 1) > 0 then IdentLen(expr, i + 1) else DigitsLen(expr, i + 1);
      if n == 0 then {} else StepHeads(expr, i + 1 + n)
    else if expr[i] == '[' then
      var j := CloseFrom(expr, i + 1, 1);
      if j == |expr| then {} else Heads(expr[i + 1..j]) + StepHeads(expr, j + 1)
    else {}
  }

  ghost predicate Agree<V>(v1: Env<V>, v2: Env<V>, names: set<string>) {
    forall name <- names :: v1(name) == v2(name)
  }

  /** Environments that agree on the heads give the same value. */
  lemma {:induction false} ResolveLocal<V>(js: Js<V>, v1: Env<V>, v2: Env<V>, src: string)
    requires Agree(v1, v2, Heads(src))
    ensures Resolve(js, v1, src) == Resolve(js, v2, src)
    decreases |Trim(src)|, 2, 0
  {
    hide IsNumber, IsKeyword, WrapsWhole, Trim, Depth, PathValue, PathHeads;
    var expr := Trim(src);
    if expr == "" {
    } else if expr[0] == '(' && expr[|expr| - 1] == ')' && WrapsWhole(expr) {
      ResolveLocal(js, v1, v2, expr[1..|expr| - 1]);
    } else if FirstEquality(expr).Some? {
      var i := FirstEquality(expr).value;
      ResolveLocal(js, v1, v2, expr[..i]);
      ResolveLocal(js, v1, v2, expr[i + |OpText(OpAt(expr, i))|..]);
    } else if expr[0] == '!' {
      ResolveLocal(js, v1, v2, expr[1..]);
    } else if IsKeyword(expr) || IsNumber(expr) {
    } else if |expr| >= 2 && (expr[0] == '"' || expr[0] == '\'') && expr[|expr| - 1] == expr[0] {
    } else {
      PathLocal(js, v1, v2, expr);
    }
  }

  lemma {:induction false} PathLocal<V>(js: Js<V>, v1: Env<V>, v2: Env<V>, expr: string)
    requires Agree(v1, v2, PathHeads(expr))
    ensures PathValue(js, v1, expr) == PathValue(js, v2, expr)
    decreases |expr|, 1, 0
  {
    var n := IdentLen(expr, 0);
    if n > 0 {
      assert expr[..n] in PathHeads(expr);
      StepsLocal(js, v1, v2, v1(expr[..n]), expr, n);
    }
  }

  lemma {:induction false} StepsLocal<V>(js: Js<V>, v1: Env<V>, v2: Env<V>, cur: V, expr: string, i: nat)
    requires i <= |expr| && Agree(v1, v2, StepHeads(expr, i))
    ensures PathFrom(js, v1, cur, expr, i) == PathFrom(js, v2, cur, expr, i)
    decreases |expr|, 0, |expr| - i
  {
    hide Resolve, Heads;
    if i == |expr| {
    } else if expr[i] == '.' {
      var n := if IdentLen(expr, i + 1) > 0 then IdentLen(expr, i + 1) else DigitsLen(expr, i + 1);
      if n > 0 {
        StepsLocal(js, v1, v2, js.Member(cur, js.text(expr[i + 1..i + 1 + n])), expr, i + 1 + n);
      }
    } else if expr[i] == '[' {
      var j := CloseFrom(expr, i + 1, 1);
      if j < |expr| {
        ResolveLocal(js, v1, v2, expr[i + 1..j]);
        StepsLocal(js, v1, v2, js.Member(cur, Resolve(js, v1, expr[i + 1..j])), expr, j + 1);
      }
    }
  }
}
