/**
  The request channel to the exploration driver (`agent/src/runner.ts`, `makeExploreDriver`): commands go out
  as lines, answers come back as lines, and answers are matched to commands only by their order. Requests are
  numbered in the order of issue, reply lines in the order of arrival after the ready line.
 */
module DriverChannel {
  /** What settled a request. */
  datatype Outcome = Reply(line: nat) | TimedOut | Closed

  datatype Settled = Settled(request: nat, outcome: Outcome)

  datatype Channel = Channel(
    pending: seq<nat>,
    timers: set<nat>,
    ready: bool,
    issued: nat,
    replies: nat,
    settled: seq<Settled>)

  const FRESH := Channel([], {}, false, 0, 0, [])

  /** `Noise` is a blank or non-JSON line; `Timeout` a timer that fires; `Exit` the process closing or failing. */
  datatype Input = Request | Noise | Line | Timeout(request: nat) | Exit

  /** Only a timer that was not cleared can fire. */
  predicate Possible(c: Channel, i: Input) {
    i.Timeout? ==> i.request in c.timers
  }

  function Without(s: seq<nat>, x: nat): seq<nat> {
    if s == [] then [] else if s[0] == x then s[1..] else [s[0]] + Without(s[1..], x)
  }

  function Close(pending: seq<nat>): seq<Settled> {
    if pending == [] then [] else Close(pending[..|pending| - 1]) + [Settled(pending[|pending| - 1], Closed)]
  }

  function React(c: Channel, i: Input): Channel
    requires Possible(c, i)
  {
    match i
    case Request =>
      c.(pending := c.pending + [c.issued], timers := c.timers + {c.issued}, issued := c.issued + 1)
    case Noise => c
    case Line =>
      if !c.ready then c.(ready := true)
      else if c.pending == [] then c.(replies := c.replies + 1)
      else
        c.(pending := c.pending[1..], timers := c.timers - {c.pending[0]}, replies := c.replies + 1,
        settled := c.settled + [Settled(c.pending[0], Reply(c.replies))])
    case Timeout(r) =>
      c.(pending := Without(c.pending, r), timers := c.timers - {r}, settled := c.settled + [Settled(r, TimedOut)])
    case Exit =>
      c.(ready := true, pending := [], timers := c.timers - Members(c.pending), settled := c.settled + Close(c.pending))
  }

  function Members(s: seq<nat>): set<nat> {
    set x | x in s
  }

  predicate Runs(c: Channel, inputs: seq<Input>)
    decreases |inputs|
  {
    inputs == [] || (Possible(c, inputs[0]) && Runs(React(c, inputs[0]), inputs[1..]))
  }

  function After(c: Channel, inputs: seq<Input>): Channel
    requires Runs(c, inputs)
    decreases |inputs|
  {
    if inputs == [] then c else After(React(c, inputs[0]), inputs[1..])
  }

  // ---------------------------------------------------------------------------
  // The object
  // ---------------------------------------------------------------------------

  class ExploreDriver {
    var pending: seq<nat>
    var timers: set<nat>
    var ready: bool
    var issued: nat
    var replies: nat
    var settled: seq<Settled>

    ghost function Abs(): Channel
      reads this
    {
      Channel(pending, timers, ready, issued, replies, settled)
    }

    constructor ()
      ensures Abs() == FRESH
    {
      pending, timers, ready, issued, replies, settled := [], {}, false, 0, 0, [];
    }

    method SendRequest() returns (request: nat)
      modifies this
      ensures request == old(issued) && Abs() == React(old(Abs()), Request)
    {
      request := issued;
      pending := pending + [request];
      timers := timers + {request};
      issued := issued + 1;
    }

    /** A JSON line: the first one announces readiness, every later one goes to the oldest waiting request. */
    method OnLine()
      modifies this
      ensures Abs() == React(old(Abs()), Line)
    {
      if !ready {
        ready := true;
        return;
      }
      if pending != [] {
        timers := timers - {pending[0]};
        settled := settled + [Settled(pending[0], Reply(replies))];
        pending := pending[1..];
      }
      replies := replies + 1;
    }

    method OnTimeout(request: nat)
      requires request in timers
      modifies this
      ensures Abs() == React(old(Abs()), Timeout(request))
    {
      var i := 0;
      while i < |pending| && pending[i] != request
        invariant 0 <= i <= |pending|
        invariant request !in pending[..i]
      {
        i := i + 1;
      }
      WithoutAt(pending, request, i);
      if i < |pending| {
        pending := pending[..i] + pending[i + 1..];
      }
      timers := timers - {request};
      settled := settled + [Settled(request, TimedOut)];
    }

    /** `failAll`: the driver process is gone. */
    method FailAll()
      modifies this
      ensures Abs() == React(old(Abs()), Exit)
    {
      ready := true;
      ghost var k := 0;
      while pending != []
        invariant 0 <= k <= |old(pending)| && pending == old(pending)[k..]
        invariant timers == old(timers) - Members(old(pending)[..k])
        invariant settled == old(settled) + Close(old(pending)[..k])
        invariant ready && issued == old(issued) && replies == old(replies)
        decreases |pending|
      {
        timers := timers - {pending[0]};
        settled := settled + [Settled(pending[0], Closed)];
        pending := pending[1..];
        assert old(pending)[..k + 1][..k] == old(pending)[..k];
        assert old(pending)[..k + 1] == old(pending)[..k] + [old(pending)[k]];
        k := k + 1;
      }
      assert old(pending)[..k] == old(pending);
    }
  }

  lemma {:induction false} WithoutAt(s: seq<nat>, x: nat, i: nat)
    requires i <= |s| && x !in s[..i] && (i < |s| ==> s[i] == x)
    ensures Without(s, x) == if i < |s| then s[..i] + s[i + 1..] else s
  {
    if s != [] && i > 0 {
      var rest := s[1..];
      PrefixTail(s, x, i);
      WithoutAt(rest, x, i - 1);
      if i < |s| { assert [s[0]] + (rest[..i - 1] + rest[i..]) == s[..i] + s[i + 1..]; }
    }
  }

  lemma PrefixTail(s: seq<nat>, x: nat, i: nat)
    requires 0 < i <= |s| && x !in s[..i]
    ensures s[0] != x && x !in s[1..][..i - 1] && s == [s[0]] + s[1..]
  {
    var before := s[..i];
    assert before[0] == s[0] && forall j :: 0 <= j < i - 1 ==> s[1..][j] == before[j + 1];
  }

  // ---------------------------------------------------------------------------
  // Pending requests are the unsettled ones
  // ---------------------------------------------------------------------------

  ghost predicate IsSettled(c: Channel, r: nat) {
    exists k :: 0 <= k < |c.settled| && c.settled[k].request == r
  }

  ghost predicate Ascending(s: seq<nat>) {
    forall i, j :: 0 <= i < j < |s| ==> s[i] < s[j]
  }

  /** `pending` holds exactly the unsettled requests in issue order, each with its timer; none settles twice. */
  ghost predicate Sound(c: Channel) {
    && Ascending(c.pending)
    && c.timers == Members(c.pending)
    && (forall r: nat :: r in c.pending <==> r < c.issued && !IsSettled(c, r))
    && (forall r: nat :: IsSettled(c, r) ==> r < c.issued)
    && (forall j, k :: 0 <= j < k < |c.settled| ==> c.settled[j].request != c.settled[k].request)
  }

  lemma {:induction false} WithoutAscending(s: seq<nat>, x: nat)
    requires Ascending(s) && x in s
    ensures Ascending(Without(s, x))
    ensures forall y :: y in Without(s, x) <==> y in s && y != x
  {
    hide Ascending;
    AscendingTail(s);
    if s[0] != x {
      WithoutAscending(s[1..], x);
      AscendingCons(s[0], Without(s[1..], x));
    }
  }

  lemma AscendingTail(s: seq<nat>)
    requires s != [] && Ascending(s)
    ensures Ascending(s[1..]) && forall y :: y in s[1..] ==> s[0] < y
    ensures forall y :: y in s <==> y == s[0] || y in s[1..]
  {
    assert s == [s[0]] + s[1..];
  }

  lemma AscendingCons(a: nat, t: seq<nat>)
    requires Ascending(t) && forall y :: y in t ==> a < y
    ensures Ascending([a] + t)
  {
    assert forall k :: 0 <= k < |t| ==> t[k] in t;
  }

  lemma {:induction false} CloseAll(pending: seq<nat>)
    ensures |Close(pending)| == |pending|
    ensures forall k :: 0 <= k < |pending| ==> Close(pending)[k] == Settled(pending[k], Closed)
  {
    if pending != [] {
      CloseAll(pending[..|pending| - 1]);
    }
  }

  lemma SettleOne(c: Channel, c': Channel, s: Settled)
    requires Sound(c) && s.request in c.pending
    requires c'.settled == c.settled + [s] && c'.issued == c.issued && c'.timers == c.timers - {s.request}
    requires Ascending(c'.pending) && forall r :: r in c'.pending <==> r in c.pending && r != s.request
    ensures Sound(c')
  {
    assert forall k :: 0 <= k < |c.settled| ==> c'.settled[k] == c.settled[k];
    assert c'.settled[|c.settled|] == s;
    forall r: nat
      ensures IsSettled(c', r) <==> IsSettled(c, r) || r == s.request
    {
      if IsSettled(c, r) {
        var k :| 0 <= k < |c.settled| && c.settled[k].request == r;
        assert c'.settled[k].request == r;
      }
    }
  }

  lemma SettleAll(c: Channel)
    requires Sound(c)
    ensures Sound(React(c, Exit))
  {
    var c' := React(c, Exit);
    hide Close;
    CloseAll(c.pending);
    var n := |c.settled|;
    assert forall k :: 0 <= k < n ==> c'.settled[k] == c.settled[k];
    assert forall k :: 0 <= k < |c.pending| ==> c'.settled[n + k] == Settled(c.pending[k], Closed);
    hide React;
    forall r: nat
      ensures IsSettled(c', r) <==> r < c.issued
    {
      ClosedOrSettled(c, c', r);
    }
    forall j, k | 0 <= j < k < |c'.settled|
      ensures c'.settled[j].request != c'.settled[k].request
    {
      if j < n <= k {
        assert IsSettled(c, c.settled[j].request) && c.pending[k - n] in c.pending;
      }
    }
  }

  /** After the end of the process the settled requests are those settled before and those that were pending. */
  lemma ClosedOrSettled(c: Channel, c': Channel, r: nat)
    requires |c'.settled| == |c.settled| + |c.pending|
    requires forall k :: 0 <= k < |c.settled| ==> c'.settled[k] == c.settled[k]
    requires forall k :: 0 <= k < |c.pending| ==> c'.settled[|c.settled| + k] == Settled(c.pending[k], Closed)
    ensures IsSettled(c', r) <==> IsSettled(c, r) || r in c.pending
  {
    var n := |c.settled|;
    if r in c.pending {
      var k :| 0 <= k < |c.pending| && c.pending[k] == r;
      assert c'.settled[n + k].request == r;
    }
    if IsSettled(c, r) {
      var k :| 0 <= k < n && c.settled[k].request == r;
      assert c'.settled[k].request == r;
    }
    if IsSettled(c', r) {
      var k :| 0 <= k < |c'.settled| && c'.settled[k].request == r;
      assert if k < n then c.settled[k].request == r else c'.settled[n + (k - n)] == Settled(c.pending[k - n], Closed);
    }
  }

  lemma SoundStep(c: Channel, i: Input)
    requires Sound(c) && Possible(c, i)
    ensures Sound(React(c, i))
  {
    var c' := React(c, i);
    match i
    case Request =>
      assert forall k :: 0 <= k < |c.pending| ==> c.pending[k] in c.pending;
      assert forall r: nat :: IsSettled(c', r) <==> IsSettled(c, r);
    case Noise =>
    case Line =>
      if c.ready && c.pending != [] {
        assert c.pending == [c.pending[0]] + c.pending[1..];
        SettleOne(c, c', Settled(c.pending[0], Reply(c.replies)));
      } else {
        assert forall r: nat :: IsSettled(c', r) <==> IsSettled(c, r);
      }
    case Timeout(r) =>
      WithoutAscending(c.pending, r);
      SettleOne(c, c', Settled(r, TimedOut));
    case Exit => SettleAll(c);
  }

  lemma {:induction false} SoundAlways(c: Channel, inputs: seq<Input>)
    requires Sound(c) && Runs(c, inputs)
    ensures Sound(After(c, inputs))
    decreases |inputs|
  {
    if inputs != [] {
      SoundStep(c, inputs[0]);
      SoundAlways(React(c, inputs[0]), inputs[1..]);
    }
  }

  /** In every run: the pending requests are the unsettled ones in issue order, and each settles at most once. */
  lemma EachRequestSettlesOnce(inputs: seq<Input>)
    requires Runs(FRESH, inputs)
    ensures Sound(After(FRESH, inputs))
  {
    SoundAlways(FRESH, inputs);
  }

  // ---------------------------------------------------------------------------
  // Which reply settles which request
  // ---------------------------------------------------------------------------

  /** The driver answers each command with one line, in order: no reply comes before its command. */
  predicate Answers(c: Channel, i: Input) {
    i.Line? && c.ready ==> c.replies < c.issued
  }

  predicate AnswersAlways(c: Channel, inputs: seq<Input>)
    requires Runs(c, inputs)
    decreases |inputs|
  {
    inputs == [] || (Answers(c, inputs[0]) && AnswersAlways(React(c, inputs[0]), inputs[1..]))
  }

  /** Every waiting request's own answer is still to come. */
  ghost predicate Waiting(c: Channel) {
    c.replies <= c.issued && forall r :: r in c.pending ==> c.replies <= r
  }

  lemma {:induction false} WithoutMembers(s: seq<nat>, x: nat)
    ensures forall y :: y in Without(s, x) ==> y in s
  {
    if s != [] && s[0] != x {
      WithoutMembers(s[1..], x);
    }
  }

  lemma {:induction false} WaitingAlways(c: Channel, inputs: seq<Input>)
    requires Sound(c) && Waiting(c) && Runs(c, inputs) && AnswersAlways(c, inputs)
    ensures Waiting(After(c, inputs))
    decreases |inputs|
  {
    if inputs != [] {
      SoundStep(c, inputs[0]);
      if inputs[0].Timeout? {
        WithoutMembers(c.pending, inputs[0].request);
      } else if inputs[0].Line? && c.ready && c.pending != [] {
        assert c.pending[0] in c.pending;
        assert forall k :: 0 <= k < |c.pending| - 1 ==> c.pending[0] < c.pending[1..][k];
      }
      WaitingAlways(React(c, inputs[0]), inputs[1..]);
    }
  }

  /** A reply never settles a request older than its own; it settles its own exactly when that one still waits,
      and otherwise the oldest younger one that does. */
  lemma ReplySettles(inputs: seq<Input>)
    requires Runs(FRESH, inputs) && AnswersAlways(FRESH, inputs)
    requires var c := After(FRESH, inputs); c.ready && c.pending != [] && Answers(c, Line)
    ensures var c := After(FRESH, inputs);
            var c' := React(c, Line);
            var s := c'.settled[|c.settled|];
            && |c'.settled| == |c.settled| + 1 && s.outcome == Reply(c.replies)
            && s.request >= c.replies
            && (s.request == c.replies <==> !IsSettled(c, c.replies))
            && (forall r: nat :: r < s.request ==> IsSettled(c, r))
  {
    SoundAlways(FRESH, inputs);
    WaitingAlways(FRESH, inputs);
    var c := After(FRESH, inputs);
    assert c.pending[0] in c.pending;
    assert forall r: nat :: r < c.pending[0] ==> r !in c.pending;
  }

  ghost predicate Undisturbed(inputs: seq<Input>) {
    forall k :: 0 <= k < |inputs| ==> !inputs[k].Timeout? && !inputs[k].Exit?
  }

  /** Reply n settled request n, for every reply so far. */
  ghost predicate Matched(c: Channel) {
    && |c.settled| == c.replies <= c.issued
    && (forall k :: 0 <= k < c.replies ==> c.settled[k] == Settled(k, Reply(k)))
    && |c.pending| == c.issued - c.replies
    && (forall k :: 0 <= k < |c.pending| ==> c.pending[k] == c.replies + k)
  }

  lemma {:induction false} MatchedAlways(c: Channel, inputs: seq<Input>)
    requires Matched(c) && Runs(c, inputs) && AnswersAlways(c, inputs) && Undisturbed(inputs)
    ensures Matched(After(c, inputs))
    decreases |inputs|
  {
    if inputs != [] {
      MatchedAlways(React(c, inputs[0]), inputs[1..]);
    }
  }

  /** As long as no command timed out and the process lives, the n-th reply settles the n-th request. */
  lemma RepliesMatchRequests(inputs: seq<Input>)
    requires Runs(FRESH, inputs) && AnswersAlways(FRESH, inputs) && Undisturbed(inputs)
    ensures Matched(After(FRESH, inputs))
  {
    MatchedAlways(FRESH, inputs);
  }

  /** After a timeout the late answer to command 0 settles request 1. */
  lemma LateReplyMismatch()
    ensures var inputs := [Line, Request, Timeout(0), Request, Line];
            && Runs(FRESH, inputs) && AnswersAlways(FRESH, inputs)
            && After(FRESH, inputs).settled == [Settled(0, TimedOut), Settled(1, Reply(0))]
  {
    var c1 := React(FRESH, Line);
    var c2 := React(c1, Request);
    var c3 := React(c2, Timeout(0));
    assert c2.pending == [0] && c3.pending == [];
    var c4 := React(c3, Request);
    assert c4.pending == [1];
    var c5 := React(c4, Line);
    assert c5.settled == [Settled(0, TimedOut), Settled(1, Reply(0))];
    Unroll(c4, Line, []);
    Unroll(c3, Request, [Line]);
    Unroll(c2, Timeout(0), [Request, Line]);
    Unroll(c1, Request, [Timeout(0), Request, Line]);
    Unroll(FRESH, Line, [Request, Timeout(0), Request, Line]);
    assert [Line] + [Request, Timeout(0), Request, Line] == [Line, Request, Timeout(0), Request, Line];
    assert [Request] + [Timeout(0), Request, Line] == [Request, Timeout(0), Request, Line];
    assert [Timeout(0)] + [Request, Line] == [Timeout(0), Request, Line];
    assert [Request] + [Line] == [Request, Line] && [Line] + [] == [Line];
  }

  lemma Unroll(c: Channel, i: Input, rest: seq<Input>)
    requires Possible(c, i) && Answers(c, i)
    requires Runs(React(c, i), rest) && AnswersAlways(React(c, i), rest)
    ensures Runs(c, [i] + rest) && AnswersAlways(c, [i] + rest)
    ensures After(c, [i] + rest) == After(React(c, i), rest)
  {
    assert ([i] + rest)[1..] == rest;
  }
}
