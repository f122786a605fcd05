/**
  The stamping pass of `compileTemplate` (`design/Q-Agent app design/support.js`): every element gets the
  next number, parents before their children, as its `data-dc-tpl`.
 */
module Stamping {
  import opened Template

  predicate IsElement(n: Node) {
    !n.Text? && !n.Other?
  }

  function Kids(n: Node): seq<Node> {
    if n.Text? || n.Other? then [] else n.kids
  }

  function WithId(n: Node, id: nat, kids: seq<Node>): Node {
    match n
    case Text(_) => n
    case Other => n
    case For(_, list, asName, hint, _) => For(id, list, asName, hint, kids)
    case If(_, value, hintVal, _) => If(id, value, hintVal, kids)
    case Import(_, name, hintSize, style, attrs, _) => Import(id, name, hintSize, style, attrs, kids)
    case External(_, source, hintSize, style, attrs, _) => External(id, source, hintSize, style, attrs, kids)
    case Helmet(_, _) => Helmet(id, kids)
    case Element(_, tag, keySuffix, attrs, _) => Element(id, tag, keySuffix, attrs, kids)
  }

  /** How many elements a node holds, itself included. */
  function Size(n: Node): nat {
    if IsElement(n) then 1 + Count(Kids(n)) else 0
  }

  function Count(ns: seq<Node>): nat {
    if ns == [] then 0 else Size(ns[0]) + Count(ns[1..])
  }

  /** The node numbered from `start` on: itself first, its children after it. */
  function StampedNode(n: Node, start: nat): Node {
    if IsElement(n) then WithId(n, start, Stamped(Kids(n), start + 1)) else n
  }

  function Stamped(ns: seq<Node>, start: nat): seq<Node> {
    if ns == [] then []
    else [StampedNode(ns[0], start)] + Stamped(ns[1..], start + Size(ns[0]))
  }

  /** The numbers of a forest's elements in document order. */
  function Ids(ns: seq<Node>): seq<nat> {
    if ns == [] then []
    else (if IsElement(ns[0]) then [ns[0].id] + Ids(Kids(ns[0])) else []) + Ids(ns[1..])
  }

  /** The forest without its numbers. */
  function Erased(ns: seq<Node>): seq<Node> {
    if ns == [] then []
    else (if IsElement(ns[0]) then [ns[0].(id := 0, kids := Erased(Kids(ns[0])))] else [ns[0]]) + Erased(ns[1..])
  }

  function Range(start: nat, count: nat): (r: seq<nat>)
    ensures |r| == count
  {
    seq(count, i requires 0 <= i < count => start + i)
  }

  lemma Append(rs: seq<Node>, r: Node, rest: seq<Node>)
    ensures rs + ([r] + rest) == (rs + [r]) + rest
  {
  }

  /** The counter of the pass; the numbered nodes are returned instead of being changed in place. */
  class Stamper {
    var tplN: nat

    constructor ()
      ensures tplN == 0
    {
      tplN := 0;
    }

    method Stamp(n: Node) returns (r: Node)
      modifies this
      ensures r == StampedNode(n, old(tplN))
      ensures tplN == old(tplN) + Size(n)
      decreases n, 0
    {
      r := n;
      if IsElement(n) {
        var id := tplN;
        tplN := tplN + 1;
        var kids := StampAll(Kids(n));
        r := WithId(n, id, kids);
      }
    }

    method StampAll(ns: seq<Node>) returns (rs: seq<Node>)
      modifies this
      ensures rs == Stamped(ns, old(tplN))
      ensures tplN == old(tplN) + Count(ns)
      decreases ns, 1
    {
      hide StampedNode, Size;
      rs := [];
      var i := 0;
      assert ns[0..] == ns;
      while i < |ns|
        invariant 0 <= i <= |ns|
        invariant rs + Stamped(ns[i..], tplN) == Stamped(ns, old(tplN))
        invariant tplN + Count(ns[i..]) == old(tplN) + Count(ns)
      {
        assert ns[i..][1..] == ns[i + 1..];
        ghost var rest := Stamped(ns[i + 1..], tplN + Size(ns[i]));
        var r := Stamp(ns[i]);
        Append(rs, r, rest);
        rs := rs + [r];
        i := i + 1;
      }
    }
  }

  lemma RangeStep(start: nat, a: nat, b: nat)
    ensures Range(start, a) + Range(start + a, b) == Range(start, a + b)
    ensures a == 1 ==> Range(start, a) == [start]
  {
  }

  /** The first node's own numbers, when its children's are known, come before the others'. */
  lemma HeadIds(ns: seq<Node>, start: nat)
    requires ns != []
    requires IsElement(ns[0]) ==> Ids(Stamped(Kids(ns[0]), start + 1)) == Range(start + 1, Count(Kids(ns[0])))
    ensures Ids(Stamped(ns, start)) == Range(start, Size(ns[0])) + Ids(Stamped(ns[1..], start + Size(ns[0])))
  {
    hide Range, Count;
    RangeStep(start, 1, Size(ns[0]));
    RangeStep(start, 0, 0);
    if IsElement(ns[0]) { RangeStep(start, 1, Count(Kids(ns[0]))); }
    else { assert |Range(start, 0)| == 0; }
  }

  lemma NoIds(start: nat)
    ensures Ids(Stamped([], start)) == Range(start, 0)
  {
    assert |Range(start, 0)| == 0;
  }

  /** The numbers are `start`, `start + 1`, … in document order, so no two elements share one. */
  lemma {:induction false} StampedIds(ns: seq<Node>, start: nat)
    ensures Ids(Stamped(ns, start)) == Range(start, Count(ns))
  {
    hide Range, Size, StampedNode, Ids, Stamped;
    if ns == [] {
      NoIds(start);
    } else {
      StampedIds(ns[1..], start + Size(ns[0]));
      RangeStep(start, Size(ns[0]), Count(ns[1..]));
      if IsElement(ns[0]) {
        StampedIds(Kids(ns[0]), start + 1);
      }
      HeadIds(ns, start);
    }
  }

  /** Nothing but the numbers changes. */
  lemma {:induction false} StampedErased(ns: seq<Node>, start: nat)
    ensures Erased(Stamped(ns, start)) == Erased(ns)
  {
    hide Count;
    if ns != [] {
      if IsElement(ns[0]) { StampedErased(Kids(ns[0]), start + 1); }
      StampedErased(ns[1..], start + Size(ns[0]));
    }
  }
}
