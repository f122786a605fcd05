/**
  The life of one mounted component of the dc-runtime (`design/Q-Agent app design/support.js`,
  `StreamableComponent`): its logic instance is created with it, may be swapped while rendering when the
  registry holds another class, and is told when it is mounted, updated and unmounted. React calls the
  methods; a run is any sequence of calls, with any registry content at each.
 */
module Lifecycle {
  import opened Wrappers

  /** `Base` is the no-op logic class of the runtime. */
  datatype Class = Base | User(id: nat)

  /** The registry entry of the component's name, as one call finds it. */
  datatype Entry = Entry(logic: Option<Class>, ver: nat, hasTpl: bool)

  /** The author-visible props; `UNDEFINED` is what a missing key reads as. */
  type Props = map<string, nat>

  const UNDEFINED: nat := 0

  function Prop(p: Props, k: string): nat {
    if k in p then p[k] else UNDEFINED
  }

  /** The source's comparison: the same number of keys, and equal values on the first one's keys. */
  predicate ShallowEqual(a: Props, b: Option<Props>) {
    && b.Some?
    && |a.Keys - {"children"}| == |b.value.Keys - {"children"}|
    && forall k :: k in a && k != "children" ==> a[k] == Prop(b.value, k)
  }

  /** A call the runtime makes on a logic instance. */
  datatype Call = DidMount(instance: nat) | DidUpdate(instance: nat) | WillUnmount(instance: nat)

  datatype Component = Component(
    instance: nat,
    cls: Class,
    needsDidMount: bool,
    failedLogic: Option<Class>,
    failedProps: Option<Props>,
    failedVer: int,
    err: bool,
    nextId: nat,
    log: seq<Call>)

  /** A new logic instance: of the class asked for, or of the base class when its constructor throws. */
  function Make(c: Component, logic: Option<Class>, props: Props, ver: nat, throws: bool): Component {
    var wanted := if logic.Some? then logic.value else Base;
    if throws && wanted != Base then
      c.(instance := c.nextId, nextId := c.nextId + 1, cls := Base,
      failedLogic := logic, failedProps := Some(props), failedVer := ver)
    else
      c.(instance := c.nextId, nextId := c.nextId + 1, cls := wanted, failedLogic := None, failedProps := None)
  }

  /** The guard of the swap: another class than the current one, and not the attempt that just failed. */
  predicate Swaps(c: Component, e: Entry, props: Props) {
    && e.logic != Some(c.cls)
    && !(e.logic.None? && c.cls == Base)
    && !(e.logic == c.failedLogic && e.ver == c.failedVer && ShallowEqual(props, c.failedProps))
  }

  function Tell(c: Component, call: Call): Component {
    c.(log := c.log + [call])
  }

  function Reconcile(c: Component, e: Entry, props: Props, throws: bool): Component {
    if !Swaps(c, e, props) then c
    else
      var told := if c.needsDidMount then c else Tell(c, WillUnmount(c.instance));
      Make(told, e.logic, props, e.ver, throws).(needsDidMount := true)
  }

  /** What can happen to the component between two points where React holds it. */
  datatype Input =
    | Render(entry: Entry, props: Props, cyclic: bool, throws: bool)
    | Updated(entry: Entry)
    | RenderError
    | Notified

  function React(c: Component, i: Input): Component {
    match i
    case Render(e, props, cyclic, throws) =>
      if cyclic || c.err then c else Reconcile(c, e, props, throws)
    case Updated(e) =>
      if !c.needsDidMount then Tell(c, DidUpdate(c.instance))
      else if c.err || !e.hasTpl then c
      else Tell(c.(needsDidMount := false), DidMount(c.instance))
    case RenderError => c.(err := true)
    case Notified => c.(err := false)
  }

  function Created(e: Entry, props: Props, throws: bool): Component {
    Make(Component(0, Base, false, None, None, -1, false, 0, []), e.logic, props, e.ver, throws)
  }

  function Mounted(c: Component): Component {
    Tell(c, DidMount(c.instance))
  }

  function Unmounted(c: Component): Component {
    if c.needsDidMount then c else Tell(c, WillUnmount(c.instance))
  }

  function Inputs(c: Component, inputs: seq<Input>): Component
    decreases |inputs|
  {
    if inputs == [] then c else Inputs(React(c, inputs[0]), inputs[1..])
  }

  // ---------------------------------------------------------------------------
  // The object
  // ---------------------------------------------------------------------------

  /** The component as the source keeps it: fields its methods assign. `calls` records what was called. */
  class StreamableComponent {
    var instance: nat
    var cls: Class
    var needsDidMount: bool
    var failedLogic: Option<Class>
    var failedProps: Option<Props>
    var failedVer: int
    var err: bool
    var nextId: nat
    var calls: seq<Call>

    ghost function Abs(): Component
      reads this
    {
      Component(instance, cls, needsDidMount, failedLogic, failedProps, failedVer, err, nextId, calls)
    }

    constructor (e: Entry, props: Props, throws: bool)
      ensures Abs() == Created(e, props, throws)
    {
      needsDidMount, failedLogic, failedProps, failedVer, err := false, None, None, -1, false;
      instance, cls, nextId, calls := 0, Base, 0, [];
      new;
      MakeLogic(e.logic, props, e.ver, throws);
    }

    method MakeLogic(logic: Option<Class>, props: Props, ver: nat, throws: bool)
      modifies this
      ensures Abs() == Make(old(Abs()), logic, props, ver, throws)
    {
      var wanted := if logic.Some? then logic.value else Base;
      if throws && wanted != Base {
        failedLogic, failedProps, failedVer := logic, Some(props), ver;
        cls := Base;
      } else {
        failedLogic, failedProps := None, None;
        cls := wanted;
      }
      instance, nextId := nextId, nextId + 1;
    }

    method ReconcileLogic(e: Entry, props: Props, throws: bool)
      modifies this
      ensures Abs() == Reconcile(old(Abs()), e, props, throws)
    {
      hide ShallowEqual;
      if e.logic == Some(cls) || (e.logic.None? && cls == Base)
         || (e.logic == failedLogic && e.ver == failedVer && ShallowEqual(props, failedProps)) {
        return;
      }
      if !needsDidMount {
        calls := calls + [WillUnmount(instance)];
      }
      MakeLogic(e.logic, props, e.ver, throws);
      needsDidMount := true;
    }

    method RenderOnce(e: Entry, props: Props, cyclic: bool, throws: bool)
      modifies this
      ensures Abs() == React(old(Abs()), Render(e, props, cyclic, throws))
    {
      if cyclic || err {
        return;
      }
      ReconcileLogic(e, props, throws);
    }

    method ComponentDidMount()
      modifies this
      ensures Abs() == Mounted(old(Abs()))
    {
      calls := calls + [DidMount(instance)];
    }

    method ComponentDidUpdate(e: Entry)
      modifies this
      ensures Abs() == React(old(Abs()), Updated(e))
    {
      if needsDidMount {
        if err || !e.hasTpl {
          return;
        }
        needsDidMount := false;
        calls := calls + [DidMount(instance)];
      } else {
        calls := calls + [DidUpdate(instance)];
      }
    }

    method ComponentWillUnmount()
      modifies this
      ensures Abs() == Unmounted(old(Abs()))
    {
      if !needsDidMount {
        calls := calls + [WillUnmount(instance)];
      }
    }
  }

  // ---------------------------------------------------------------------------
  // What an instance may be told
  // ---------------------------------------------------------------------------

  /** Mounted at most once, unmounted at most once and only after that, updated only in between. */
  ghost predicate WellPaired(log: seq<Call>) {
    && (forall j, k :: 0 <= j < k < |log| && log[j] == log[k] ==> log[k].DidUpdate?)
    && (forall k :: 0 <= k < |log| && !log[k].DidMount? ==> DidMount(log[k].instance) in log[..k])
    && (forall k :: 0 <= k < |log| && log[k].DidUpdate? ==> WillUnmount(log[k].instance) !in log[..k])
  }

  /** Every mounted instance was unmounted. */
  ghost predicate AllClosed(log: seq<Call>) {
    forall i :: DidMount(i) in log ==> WillUnmount(i) in log
  }

  /** The flag is down exactly while the current instance is mounted; every earlier one is done with. */
  ghost predicate Tracked(c: Component) {
    && WellPaired(c.log)
    && c.instance < c.nextId
    && (forall call :: call in c.log ==> call.instance < c.nextId)
    && (!c.needsDidMount <==> DidMount(c.instance) in c.log)
    && WillUnmount(c.instance) !in c.log
    && (forall i :: DidMount(i) in c.log && i != c.instance ==> WillUnmount(i) in c.log)
  }

  lemma WellPairedAppend(log: seq<Call>, call: Call)
    requires WellPaired(log)
    requires call in log ==> call.DidUpdate?
    requires !call.DidMount? ==> DidMount(call.instance) in log
    requires call.DidUpdate? ==> WillUnmount(call.instance) !in log
    ensures WellPaired(log + [call])
  {
    var l := log + [call];
    forall k | 0 <= k < |l|
      ensures l[..k] == if k == |log| then log else log[..k]
    {
    }
  }

  lemma TrackedStep(c: Component, i: Input)
    requires Tracked(c)
    ensures Tracked(React(c, i))
  {
    match i
    case Render(e, props, cyclic, throws) =>
      if !cyclic && !c.err && Swaps(c, e, props) && !c.needsDidMount {
        WellPairedAppend(c.log, WillUnmount(c.instance));
      }
    case Updated(e) =>
      if !c.needsDidMount {
        WellPairedAppend(c.log, DidUpdate(c.instance));
      } else if !c.err && e.hasTpl {
        WellPairedAppend(c.log, DidMount(c.instance));
      }
    case _ =>
  }

  lemma {:induction false} TrackedAlways(c: Component, inputs: seq<Input>)
    requires Tracked(c)
    ensures Tracked(Inputs(c, inputs))
    decreases |inputs|
  {
    if inputs != [] {
      TrackedStep(c, inputs[0]);
      TrackedAlways(React(c, inputs[0]), inputs[1..]);
    }
  }

  // ---------------------------------------------------------------------------
  // Whole lives
  // ---------------------------------------------------------------------------

  /** Before the first commit React may render, and may find a render error, but commits nothing. */
  predicate BeforeCommit(inputs: seq<Input>) {
    forall k :: 0 <= k < |inputs| ==> !inputs[k].Updated?
  }

  /** No render before the first commit replaces the logic instance. */
  ghost predicate SwapFree(c: Component, inputs: seq<Input>)
    decreases |inputs|
  {
    inputs == []
    || (&& (inputs[0].Render? && !inputs[0].cyclic && !c.err ==> !Swaps(c, inputs[0].entry, inputs[0].props))
        && SwapFree(React(c, inputs[0]), inputs[1..]))
  }

  function Life(e: Entry, props: Props, throws: bool, before: seq<Input>, after: seq<Input>): seq<Call> {
    Unmounted(Inputs(Mounted(Inputs(Created(e, props, throws), before)), after)).log
  }

  lemma {:induction false} SwapFreeUntouched(c: Component, inputs: seq<Input>)
    requires BeforeCommit(inputs) && SwapFree(c, inputs)
    ensures Inputs(c, inputs).(err := c.err) == c
    decreases |inputs|
  {
    if inputs != [] {
      SwapFreeUntouched(React(c, inputs[0]), inputs[1..]);
    }
  }

  lemma {:induction false} LogGrows(c: Component, inputs: seq<Input>)
    ensures c.log <= Inputs(c, inputs).log
    decreases |inputs|
  {
    if inputs != [] {
      LogGrows(React(c, inputs[0]), inputs[1..]);
    }
  }

  /** A swap before the first commit unmounts an instance that was never mounted. */
  lemma {:induction false} EarlySwap(c: Component, inputs: seq<Input>)
    requires BeforeCommit(inputs) && !SwapFree(c, inputs) && c.log == [] && !c.needsDidMount
    ensures Inputs(c, inputs).log != [] && Inputs(c, inputs).log[0].WillUnmount?
    decreases |inputs|
  {
    var next := React(c, inputs[0]);
    if inputs[0].Render? && !inputs[0].cyclic && !c.err && Swaps(c, inputs[0].entry, inputs[0].props) {
      assert next.log == [WillUnmount(c.instance)];
      LogGrows(next, inputs[1..]);
    } else {
      EarlySwap(next, inputs[1..]);
    }
  }

  /** From construction to the final unmount, over every run: the calls pair up exactly when no render
      before the first commit swapped the logic instance. */
  lemma LifePairsUp(e: Entry, props: Props, throws: bool, before: seq<Input>, after: seq<Input>)
    requires BeforeCommit(before)
    ensures var log := Life(e, props, throws, before, after);
            WellPaired(log) && AllClosed(log) <==> SwapFree(Created(e, props, throws), before)
  {
    var created := Created(e, props, throws);
    var first := Inputs(created, before);
    var mounted := Mounted(first);
    var final := Inputs(mounted, after);
    if SwapFree(created, before) {
      SwapFreeUntouched(created, before);
      WellPairedAppend([], DidMount(first.instance));
      assert mounted.log == [DidMount(first.instance)] == [] + [DidMount(first.instance)];
      TrackedAlways(mounted, after);
      if !final.needsDidMount {
        WellPairedAppend(final.log, WillUnmount(final.instance));
      }
    } else {
      EarlySwap(created, before);
      LogGrows(mounted, after);
      var log := Unmounted(final).log;
      assert log[0] == first.log[0] && log[..0] == [];
      assert !log[0].DidMount? && DidMount(log[0].instance) !in log[..0];
    }
  }

  /** The failed-constructor memo keeps a broken class from being rebuilt until the registry or the props move. */
  lemma FailedClassNotRetried(c: Component, e: Entry, props: Props, throws: bool)
    requires Swaps(c, e, props) && throws && e.logic.Some? && e.logic.value != Base
    ensures var c' := Reconcile(c, e, props, true);
            && c'.cls == Base && !Swaps(c', e, props)
            && (forall e': Entry, p' :: e'.logic == e.logic ==>
                  (Swaps(c', e', p') <==> e'.ver != e.ver || !ShallowEqual(p', Some(props))))
  {
  }

  // ---------------------------------------------------------------------------
  // Which class an instance has
  // ---------------------------------------------------------------------------

  function Wanted(e: Entry): Class {
    if e.logic.Some? then e.logic.value else Base
  }

  /** A constructor that failed left an instance of the base class behind. */
  ghost predicate MemoFits(c: Component) {
    && (c.failedProps.Some? <==> c.failedLogic.Some?)
    && (c.failedLogic.Some? ==> c.failedLogic != Some(Base) && c.cls == Base)
  }

  /** The class was tried before, at this version of the registry and with the same props, and its constructor threw. */
  predicate Remembered(c: Component, e: Entry, props: Props) {
    e.logic.Some? && c.failedLogic == e.logic && c.failedVer == e.ver && ShallowEqual(props, c.failedProps)
  }

  lemma MemoStep(c: Component, i: Input)
    requires MemoFits(c)
    ensures MemoFits(React(c, i))
  {
    hide ShallowEqual;
  }

  lemma {:induction false} MemoAlways(c: Component, inputs: seq<Input>)
    requires MemoFits(c)
    ensures MemoFits(Inputs(c, inputs))
    decreases |inputs|
  {
    hide React, MemoFits;
    if inputs != [] {
      MemoStep(c, inputs[0]);
      MemoAlways(React(c, inputs[0]), inputs[1..]);
    }
  }

  /**
    Over every life: after a render that shows the component, its instance has the class that the registry holds,
    the base class when it holds none; except exactly when that class's constructor is known to throw for these
    props, and then it has the base class. An instance that is replaced is a new one and is told that it is going
    if it was mounted; one that stays is left alone.
   */
  lemma RenderedClass(e0: Entry, props0: Props, throws0: bool, before: seq<Input>, e: Entry, props: Props, throws: bool)
    ensures var c := Inputs(Created(e0, props0, throws0), before);
            var c' := React(c, Render(e, props, false, throws));
            !c.err ==>
              && (c'.cls == Wanted(e) <==> !Remembered(c', e, props))
              && (Remembered(c', e, props) ==> c'.cls == Base)
              && (c'.instance == c.instance <==> c' == c)
              && (c'.instance != c.instance ==>
                    && c'.instance == c.nextId && c'.needsDidMount
                    && (Remembered(c', e, props) <==> throws && Wanted(e) != Base)
                    && c'.log == if c.needsDidMount then c.log else c.log + [WillUnmount(c.instance)])
  {
    var created := Created(e0, props0, throws0);
    MemoAlways(created, before);
    FreshAlways(created, before);
    hide Inputs, ShallowEqual;
    SameProps(props);
  }

  lemma SameProps(props: Props)
    ensures ShallowEqual(props, Some(props)) && !ShallowEqual(props, None)
  {
  }

  lemma {:induction false} FreshAlways(c: Component, inputs: seq<Input>)
    requires c.instance < c.nextId
    ensures Inputs(c, inputs).instance < Inputs(c, inputs).nextId
    decreases |inputs|
  {
    hide Swaps;
    if inputs != [] {
      FreshAlways(React(c, inputs[0]), inputs[1..]);
    }
  }

  /** When no value on the left is undefined, the comparison says that the props agree but for the children. */
  lemma ShallowEqualExactly(a: Props, b: Props)
    requires forall k <- a :: k != "children" ==> a[k] != UNDEFINED
    ensures ShallowEqual(a, Some(b)) <==> a - {"children"} == b - {"children"}
  {
    if ShallowEqual(a, Some(b)) {
      SubsetOfSize(a.Keys - {"children"}, b.Keys - {"children"});
      assert (a - {"children"}).Keys == (b - {"children"}).Keys;
    }
    if a - {"children"} == b - {"children"} {
      assert a.Keys - {"children"} == (a - {"children"}).Keys;
      assert b.Keys - {"children"} == (b - {"children"}).Keys;
      forall k | k in a && k != "children"
        ensures a[k] == Prop(b, k)
      {
        assert a[k] == (a - {"children"})[k];
      }
    }
  }

  lemma SubsetOfSize<T>(x: set<T>, y: set<T>)
    requires x <= y && |x| == |y|
    ensures x == y
  {
    var extra := y - x;
    assert y == x + extra;
    assert |y| == |x| + |extra|;
  }

  /** With an undefined value it can miss a difference: the other props have another key in its place. */
  lemma UndefinedPropOverlooked(x: string, y: string, v: nat)
    requires x != y && x != "children" && y != "children"
    ensures ShallowEqual(map[x := UNDEFINED], Some(map[y := v])) && map[x := UNDEFINED] != map[y := v]
  {
    var a: Props, b: Props := map[x := UNDEFINED], map[y := v];
    assert a.Keys - {"children"} == {x} && b.Keys - {"children"} == {y};
    assert x in a && x !in b;
  }

  /** After a render error the instance is not replaced, whatever is rendered, until the registry sends a notice. */
  lemma {:induction false} ErrorHoldsInstance(c: Component, inputs: seq<Input>)
    requires c.err && Notified !in inputs
    ensures var c' := Inputs(c, inputs); c'.err && c'.instance == c.instance && c'.cls == c.cls
    decreases |inputs|
  {
    hide Reconcile;
    if inputs != [] {
      ErrorHoldsInstance(React(c, inputs[0]), inputs[1..]);
    }
  }

  /** An error and a notice cancel out: the next render is that of a component without an error. */
  lemma ErrorUntilNotice(c: Component, during: seq<Input>)
    requires Notified !in during
    ensures Inputs(c, [RenderError]).err && !Inputs(c, [Notified]).err
    ensures Inputs(Inputs(c, [RenderError]), during).instance == c.instance
  {
    hide Reconcile;
    assert [RenderError][1..] == [] && [Notified][1..] == [];
    ErrorHoldsInstance(c.(err := true), during);
  }
}
