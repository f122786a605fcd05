/**
  The WebSocket fan-out of `api/app/ws.py`: worker threads publish, an event loop connects sockets, replays
  the cached event and broadcasts. `Hub` is the object; `State` adds what is in flight around it, and each
  `Step` is one stretch of code between two points where another thread or coroutine can run.
 */
module ProgressHub {
  import opened Wrappers

  type Run = string
  type Socket = nat

  /** One publication: `id` tells publications apart, whatever their payload. */
  datatype Event = Event(run: Run, id: nat)

  type Connections = map<Run, set<Socket>>

  function Of(conns: Connections, run: Run): set<Socket> {
    if run in conns then conns[run] else {}
  }

  function Joined(conns: Connections, run: Run, ws: Socket): Connections {
    conns[run := Of(conns, run) + {ws}]
  }

  function Discarded(conns: Connections, run: Run, gone: set<Socket>): Connections {
    if gone == {} then conns else conns[run := Of(conns, run) - gone]
  }

  /** The object. Each method is one step of the protocol below, as far as the object's fields show it. */
  class Hub {
    var conns: Connections
    var last: map<Run, Event>

    /** The fields are what the state of the protocol says they are. */
    ghost predicate Shows(s: State)
      reads this
    {
      conns == s.conns && last == s.last
    }

    constructor ()
      ensures Shows(INIT)
    {
      conns, last := map[], map[];
    }

    /** First half of `connect`: the socket is registered before the cache is read. */
    method Register(run: Run, ws: Socket)
      modifies this`conns
      ensures forall r, w :: w in Of(conns, r) <==> w in Of(old(conns), r) || (r == run && w == ws)
      ensures forall s, t | old(Shows(s)) && Enabled(s, Connect(t, run, ws)) :: Shows(Apply(s, Connect(t, run, ws)))
    {
      conns := conns[run := Of(conns, run) + {ws}];
    }

    /** Second half of `connect`: what there is to replay. */
    method LastEvent(run: Run) returns (e: Option<Event>)
      ensures forall s, t, ws | Shows(s) && t in s.connects && s.connects[t] == Registered(run, ws) ::
                var s' := Apply(s, ReadCache(t));
                && Shows(s')
                && (e.Some? <==> t in s'.connects)
                && (e.Some? ==> s'.connects[t] == Replaying(run, ws, e.value))
    {
      e := if run in last then Some(last[run]) else None;
    }

    method Disconnect(run: Run, ws: Socket)
      modifies this`conns
      ensures conns == Discarded(old(conns), run, {ws})
      ensures forall r, w :: w in Of(conns, r) <==> w in Of(old(conns), r) && !(r == run && w == ws)
      ensures forall s | old(Shows(s)) :: Shows(Apply(s, Leave(run, ws)))
      ensures forall s, t | old(Shows(s)) && t in s.connects && s.connects[t].Replaying?
                && s.connects[t].run == run && s.connects[t].ws == ws :: Shows(Apply(s, ReplayFail(t)))
    {
      conns := conns[run := Of(conns, run) - {ws}];
    }

    /** First half of `publish`: cache before the broadcast is scheduled. */
    method Cache(e: Event)
      modifies this`last
      ensures forall s | old(Shows(s)) && e == Event(e.run, s.nextId) :: Shows(Apply(s, Publish(e.run)))
    {
      last := last[e.run := e];
    }

    /** `_broadcast` when nothing else runs meanwhile; `gone` are the sockets whose send raises. */
    method Broadcast(run: Run, gone: set<Socket>) returns (delivered: set<Socket>)
      modifies this`conns
      ensures delivered == Of(old(conns), run) - gone
      ensures conns == Discarded(old(conns), run, Of(old(conns), run) * gone)
      ensures forall r, ws :: ws in Of(conns, r) <==> ws in Of(old(conns), r) && !(r == run && ws in gone)
      ensures forall s, e | old(Shows(s)) && Enabled(s, Begin(e)) && e.run == run ::
                exists steps :: BroadcastRun(s, e, delivered, steps) && Shows(After(s, steps))
    {
      var todo := Of(conns, run);
      var dead: set<Socket> := {};
      delivered := {};
      while todo != {}
        invariant todo <= Of(conns, run)
        invariant delivered == (Of(conns, run) - todo) - gone
        invariant dead == (Of(conns, run) - todo) * gone
        decreases todo
      {
        var ws :| ws in todo;
        if ws in gone {
          dead := dead + {ws};
        } else {
          delivered := delivered + {ws};
        }
        todo := todo - {ws};
      }
      ghost var before, all := conns, dead;
      while dead != {}
        invariant dead <= all
        invariant conns == Discarded(before, run, all - dead)
        decreases dead
      {
        var ws :| ws in dead;
        Disconnect(run, ws);
        DiscardMore(before, run, all - dead, ws);
        assert all - (dead - {ws}) == (all - dead) + {ws};
        dead := dead - {ws};
      }
      assert all - dead == all == Of(before, run) * gone;
      forall s: State, e: Event | s.conns == before && s.last == last && Enabled(s, Begin(e)) && e.run == run
        ensures exists steps :: BroadcastRun(s, e, delivered, steps) && Shows(After(s, steps))
      {
        var steps := BroadcastSteps(s, e, gone);
        assert Shows(After(s, steps));
      }
    }
  }

  lemma DiscardMore(conns: Connections, run: Run, gone: set<Socket>, ws: Socket)
    ensures Discarded(Discarded(conns, run, gone), run, {ws}) == Discarded(conns, run, gone + {ws})
  {
    assert (Of(conns, run) - gone) - {ws} == Of(conns, run) - (gone + {ws});
    if gone == {} {
      assert gone + {ws} == {ws};
    } else {
      var once := conns[run := Of(conns, run) - gone];
      assert once[run := Of(once, run) - {ws}] == conns[run := Of(conns, run) - (gone + {ws})];
    }
  }

  // ---------------------------------------------------------------------------
  // The protocol
  // ---------------------------------------------------------------------------

  /** A running `connect`: registered and about to read the cache, or about to send what it read. */
  datatype Connecting =
    | Registered(run: Run, ws: Socket)
    | Replaying(run: Run, ws: Socket, event: Event)

  /** A running `_broadcast`: the sockets still to be sent to, and those whose send raised. */
  datatype Sending = Sending(todo: set<Socket>, dead: set<Socket>)

  datatype State = State(
    conns: Connections,
    last: map<Run, Event>,
    loopOpen: bool,
    cached: set<Event>,
    scheduled: set<Event>,
    active: map<Event, Sending>,
    connects: map<nat, Connecting>,
    received: map<(Run, Socket), seq<Event>>,
    dropped: set<Event>,
    nextId: nat)

  const INIT := State(map[], map[], false, {}, {}, map[], map[], map[], {}, 0)

  datatype Step =
    | SetLoop(open: bool)
    | Publish(run: Run)
    | Schedule(event: Event)
    | Drop(event: Event)
    | Begin(event: Event)
    | SendOk(event: Event, ws: Socket)
    | SendFail(event: Event, ws: Socket)
    | Finish(event: Event)
    | Connect(task: nat, run: Run, ws: Socket)
    | ReadCache(task: nat)
    | ReplayOk(task: nat)
    | ReplayFail(task: nat)
    | Leave(run: Run, ws: Socket)

  predicate Enabled(s: State, step: Step) {
    match step
    case SetLoop(_) => true
    case Publish(_) => true
    case Schedule(e) => e in s.cached && s.loopOpen
    // no loop, a closed one, or a RuntimeError from the scheduling call
    case Drop(e) => e in s.cached
    case Begin(e) => e in s.scheduled && e !in s.active
    case SendOk(e, ws) => e in s.active && ws in s.active[e].todo
    case SendFail(e, ws) => e in s.active && ws in s.active[e].todo
    case Finish(e) => e in s.active && s.active[e].todo == {}
    case Connect(t, _, _) => t !in s.connects
    case ReadCache(t) => t in s.connects && s.connects[t].Registered?
    case ReplayOk(t) => t in s.connects && s.connects[t].Replaying?
    case ReplayFail(t) => t in s.connects && s.connects[t].Replaying?
    case Leave(_, _) => true
  }

  function Got(received: map<(Run, Socket), seq<Event>>, run: Run, ws: Socket): seq<Event> {
    if (run, ws) in received then received[(run, ws)] else []
  }

  function Deliver(s: State, e: Event, run: Run, ws: Socket): map<(Run, Socket), seq<Event>> {
    s.received[(run, ws) := Got(s.received, run, ws) + [e]]
  }

  function Apply(s: State, step: Step): State
    requires Enabled(s, step)
  {
    match step
    case SetLoop(open) => s.(loopOpen := open)
    case Publish(run) =>
      var e := Event(run, s.nextId);
      s.(last := s.last[run := e], cached := s.cached + {e}, nextId := s.nextId + 1)
    case Schedule(e) => s.(cached := s.cached - {e}, scheduled := s.scheduled + {e})
    case Drop(e) => s.(cached := s.cached - {e}, dropped := s.dropped + {e})
    case Begin(e) =>
      s.(scheduled := s.scheduled - {e}, active := s.active[e := Sending(Of(s.conns, e.run), {})])
    case SendOk(e, ws) =>
      var b := s.active[e];
      s.(active := s.active[e := b.(todo := b.todo - {ws})], received := Deliver(s, e, e.run, ws))
    case SendFail(e, ws) =>
      var b := s.active[e];
      s.(active := s.active[e := Sending(b.todo - {ws}, b.dead + {ws})])
    case Finish(e) => s.(active := s.active - {e}, conns := Discarded(s.conns, e.run, s.active[e].dead))
    case Connect(t, run, ws) =>
      s.(conns := Joined(s.conns, run, ws), connects := s.connects[t := Registered(run, ws)])
    case ReadCache(t) =>
      var c := s.connects[t];
      if c.run in s.last then s.(connects := s.connects[t := Replaying(c.run, c.ws, s.last[c.run])])
      else s.(connects := s.connects - {t})
    case ReplayOk(t) =>
      var c := s.connects[t];
      s.(connects := s.connects - {t}, received := Deliver(s, c.event, c.run, c.ws))
    case ReplayFail(t) =>
      var c := s.connects[t];
      s.(connects := s.connects - {t}, conns := Discarded(s.conns, c.run, {c.ws}))
    case Leave(run, ws) => s.(conns := Discarded(s.conns, run, {ws}))
  }

  predicate Runs(s: State, steps: seq<Step>)
    decreases |steps|
  {
    steps == [] || (Enabled(s, steps[0]) && Runs(Apply(s, steps[0]), steps[1..]))
  }

  function After(s: State, steps: seq<Step>): State
    requires Runs(s, steps)
    decreases |steps|
  {
    if steps == [] then s else After(Apply(s, steps[0]), steps[1..])
  }

  /** No publish, broadcast or connect is under way. */
  predicate Quiet(s: State) {
    s.cached == {} && s.scheduled == {} && s.active == map[] && s.connects == map[]
  }

  // ---------------------------------------------------------------------------
  // A broadcast that nothing interrupts
  // ---------------------------------------------------------------------------

  /** A run of the protocol that is one whole broadcast of `e` and nothing else; `delivered` receive it, last. */
  ghost predicate BroadcastRun(s: State, e: Event, delivered: set<Socket>, steps: seq<Step>) {
    && Runs(s, steps) && |steps| >= 2 && steps[0] == Begin(e) && steps[|steps| - 1] == Finish(e)
    && (forall i :: 0 < i < |steps| - 1 ==> (steps[i].SendOk? || steps[i].SendFail?) && steps[i].event == e)
    && forall run, ws :: Got(After(s, steps).received, run, ws)
                      == Got(s.received, run, ws) + if run == e.run && ws in delivered then [e] else []
  }

  lemma {:induction false} SendSteps(s: State, e: Event, gone: set<Socket>) returns (steps: seq<Step>)
    requires e in s.active
    ensures Runs(s, steps)
    ensures forall i :: 0 <= i < |steps| ==> (steps[i].SendOk? || steps[i].SendFail?) && steps[i].event == e
    ensures var s', b := After(s, steps), s.active[e];
            && s'.conns == s.conns && s'.last == s.last
            && e in s'.active && s'.active[e] == Sending({}, b.dead + b.todo * gone)
            && forall run, ws :: Got(s'.received, run, ws)
                              == Got(s.received, run, ws) + if run == e.run && ws in b.todo - gone then [e] else []
    decreases s.active[e].todo
  {
    hide Apply, Got;
    var b := s.active[e];
    if b.todo == {} {
      steps := [];
      assert b.dead + b.todo * gone == b.dead;
    } else {
      var ws :| ws in b.todo;
      var step := if ws in gone then SendFail(e, ws) else SendOk(e, ws);
      var next := Apply(s, step);
      SendStep(s, e, ws);
      var rest := SendSteps(next, e, gone);
      steps := [step] + rest;
      assert steps[1..] == rest;
      SentOne(b, ws, gone);
    }
  }

  lemma SendStep(s: State, e: Event, ws: Socket)
    requires e in s.active && ws in s.active[e].todo
    ensures var b, s' := s.active[e], Apply(s, SendOk(e, ws));
            && s'.conns == s.conns && s'.last == s.last
            && e in s'.active && s'.active[e] == Sending(b.todo - {ws}, b.dead)
            && forall r, w :: Got(s'.received, r, w) == Got(s.received, r,
                                                            w) + if r == e.run && w == ws then [e] else []
    ensures var b, s' := s.active[e], Apply(s, SendFail(e, ws));
            && s'.conns == s.conns && s'.last == s.last
            && e in s'.active && s'.active[e] == Sending(b.todo - {ws}, b.dead + {ws})
            && s'.received == s.received
  {
  }

  lemma SentOne(b: Sending, ws: Socket, gone: set<Socket>)
    requires ws in b.todo
    ensures ws in gone ==> (b.dead + {ws}) + (b.todo - {ws}) * gone == b.dead + b.todo * gone
    ensures ws !in gone ==> b.dead + (b.todo - {ws}) * gone == b.dead + b.todo * gone
  {
  }

  lemma BroadcastSteps(s: State, e: Event, gone: set<Socket>) returns (steps: seq<Step>)
    requires Enabled(s, Begin(e))
    ensures BroadcastRun(s, e, Of(s.conns, e.run) - gone, steps)
    ensures After(s, steps).conns == Discarded(s.conns, e.run, Of(s.conns, e.run) * gone)
    ensures After(s, steps).last == s.last
  {
    var begun := Apply(s, Begin(e));
    var sends := SendSteps(begun, e, gone);
    var sent := After(begun, sends);
    var all := Of(s.conns, e.run);
    assert {} + all * gone == all * gone;
    RunsConcat(begun, sends, [Finish(e)]);
    steps := [Begin(e)] + (sends + [Finish(e)]);
    assert steps[1..] == sends + [Finish(e)];
    assert After(s, steps) == Apply(sent, Finish(e));
  }

  // ---------------------------------------------------------------------------
  // No final event is lost
  // ---------------------------------------------------------------------------

  predicate Awaits(c: Connecting, run: Run, ws: Socket, e: Event) {
    c.run == run && c.ws == ws && (c.Replaying? ==> c.event == e)
  }

  /** Something in flight will still deliver `e` to the socket, or take the socket off the run. */
  ghost predicate Coming(s: State, e: Event, ws: Socket) {
    || e in s.cached
    || e in s.scheduled
    || (e in s.active && (ws in s.active[e].todo || ws in s.active[e].dead))
    || exists t :: t in s.connects && Awaits(s.connects[t], e.run, ws, e)
  }

  ghost predicate LastFits(s: State) {
    && (forall r :: r in s.last ==> s.last[r].run == r)
    && (forall t :: t in s.connects && s.connects[t].Replaying? ==> s.connects[t].event.run == s.connects[t].run)
  }

  predicate Newest(es: seq<Event>, e: Event) {
    es != [] && es[|es| - 1] == e
  }

  ghost predicate Reaches(s: State) {
    forall r, ws :: r in s.last && ws in Of(s.conns, r) && s.last[r] !in s.dropped ==>
      s.last[r] in Got(s.received, r, ws) || Coming(s, s.last[r], ws)
  }

  lemma LastFitsStep(s: State, step: Step)
    requires LastFits(s) && Enabled(s, step)
    ensures LastFits(Apply(s, step))
  {
  }

  lemma ReachesStep(s: State, step: Step)
    requires LastFits(s) && Reaches(s) && Enabled(s, step)
    ensures LastFits(Apply(s, step)) && Reaches(Apply(s, step))
  {
    LastFitsStep(s, step);
    hide LastFits;
    var s' := Apply(s, step);
    forall r, ws | r in s'.last && ws in Of(s'.conns, r) && s'.last[r] !in s'.dropped
      ensures s'.last[r] in Got(s'.received, r, ws) || Coming(s', s'.last[r], ws)
    {
      if step.Publish? && step.run == r {
        assert s'.last[r] in s'.cached;
      } else if step.Connect? && step.run == r && step.ws == ws {
        assert Awaits(s'.connects[step.task], r, ws, s'.last[r]);
      } else {
        assert ws in Of(s.conns, r);
        ComingStep(s, step, s.last[r], ws);
      }
    }
  }

  /** What was received stays received; whatever is on its way stays so until it arrives, as the newest. */
  lemma ComingStep(s: State, step: Step, e: Event, ws: Socket)
    requires LastFits(s) && Enabled(s, step) && e.run in s.last && e == s.last[e.run]
    requires ws in Of(Apply(s, step).conns, e.run)
    ensures e in Got(s.received, e.run, ws) ==> e in Got(Apply(s, step).received, e.run, ws)
    ensures Coming(s, e, ws) ==>
              var s' := Apply(s, step);
              e in s'.dropped || Newest(Got(s'.received, e.run, ws), e) || Coming(s', e, ws)
  {
    if e in s.cached || e in s.scheduled {
      QueuedStep(s, step, e, ws);
    } else if e in s.active && (ws in s.active[e].todo || ws in s.active[e].dead) {
      SendingStep(s, step, e, ws);
    } else if t :| t in s.connects && Awaits(s.connects[t], e.run, ws, e) {
      ConnectingStep(s, step, e, ws, t);
    }
  }

  lemma QueuedStep(s: State, step: Step, e: Event, ws: Socket)
    requires Enabled(s, step) && (e in s.cached || e in s.scheduled) && ws in Of(Apply(s, step).conns, e.run)
    ensures e in Apply(s, step).dropped || Coming(Apply(s, step), e, ws)
  {
  }

  lemma SendingStep(s: State, step: Step, e: Event, ws: Socket)
    requires Enabled(s, step) && e in s.active && (ws in s.active[e].todo || ws in s.active[e].dead)
    requires ws in Of(Apply(s, step).conns, e.run)
    ensures Newest(Got(Apply(s, step).received, e.run, ws), e) || Coming(Apply(s, step), e, ws)
  {
  }

  lemma ConnectingStep(s: State, step: Step, e: Event, ws: Socket, t: nat)
    requires LastFits(s) && Enabled(s, step) && e.run in s.last && e == s.last[e.run]
    requires t in s.connects && Awaits(s.connects[t], e.run, ws, e)
    requires ws in Of(Apply(s, step).conns, e.run)
    ensures Newest(Got(Apply(s, step).received, e.run, ws), e) || Coming(Apply(s, step), e, ws)
  {
    var s' := Apply(s, step);
    if t in s'.connects {
      assert Awaits(s'.connects[t], e.run, ws, e);
    }
  }

  lemma {:induction false} ReachesAlways(s: State, steps: seq<Step>)
    requires LastFits(s) && Reaches(s) && Runs(s, steps)
    ensures LastFits(After(s, steps)) && Reaches(After(s, steps))
    decreases |steps|
  {
    if steps != [] {
      ReachesStep(s, steps[0]);
      ReachesAlways(Apply(s, steps[0]), steps[1..]);
    }
  }

  /** In every interleaving: once all is quiet, every registered socket has been sent its run's final event,
      unless that very event could not be scheduled. */
  lemma NoLostFinalEvent(steps: seq<Step>)
    requires Runs(INIT, steps) && Quiet(After(INIT, steps))
    ensures var s := After(INIT, steps);
            forall r, ws :: r in s.last && ws in Of(s.conns, r) && s.last[r] !in s.dropped ==>
              s.last[r] in Got(s.received, r, ws)
  {
    ReachesAlways(INIT, steps);
  }

  /** The exception is real: a publish that finds no open loop leaves an earlier socket without the event. */
  lemma DroppedEventIsLost()
    ensures var e, steps := Event("r", 0), [Connect(0, "r", 1), ReadCache(0), Publish("r"), Drop(Event("r", 0))];
            && Runs(INIT, steps) && Quiet(After(INIT, steps))
            && After(INIT, steps).last["r"] == e && 1 in Of(After(INIT, steps).conns, "r")
            && e !in Got(After(INIT, steps).received, "r", 1)
  {
    var steps := [Connect(0, "r", 1), ReadCache(0), Publish("r"), Drop(Event("r", 0))];
    Extend(INIT, steps, 0);
    Extend(INIT, steps, 1);
    Extend(INIT, steps, 2);
    Extend(INIT, steps, 3);
    assert steps[..4] == steps;
  }

  /** A run one step longer. */
  lemma {:induction false} Extend(s: State, steps: seq<Step>, n: nat)
    requires n < |steps| && Runs(s, steps[..n]) && Enabled(After(s, steps[..n]), steps[n])
    ensures Runs(s, steps[..n + 1])
    ensures After(s, steps[..n + 1]) == Apply(After(s, steps[..n]), steps[n])
    decreases n
  {
    if n > 0 {
      assert steps[..n][1..] == steps[1..][..n - 1] && steps[..n + 1][1..] == steps[1..][..n];
      Extend(Apply(s, steps[0]), steps[1..], n - 1);
    }
  }

  // ---------------------------------------------------------------------------
  // The final event is the last one received
  // ---------------------------------------------------------------------------

  /** One publisher per run; broadcasts start in the order scheduled, one at a time per run. */
  ghost predicate OneAtATime(s: State, step: Step) {
    match step
    case Publish(run) => forall e :: e in s.cached ==> e.run != run
    case Begin(e) =>
      && (forall x :: x in s.scheduled && x.run == e.run ==> e.id <= x.id)
      && (forall x :: x in s.active ==> x.run != e.run)
    case _ => true
  }

  /** And no broadcast starts while a replay of its run has been read but not sent. */
  ghost predicate Orderly(s: State, step: Step) {
    && OneAtATime(s, step)
    && (step.Begin? ==>
          forall t :: t in s.connects && s.connects[t].run == step.event.run ==> s.connects[t].Registered?)
  }

  ghost predicate RunsOrderly(s: State, steps: seq<Step>)
    requires Runs(s, steps)
    decreases |steps|
  {
    steps == [] || (Orderly(s, steps[0]) && RunsOrderly(Apply(s, steps[0]), steps[1..]))
  }

  ghost predicate NotBegun(s: State, run: Run) {
    run in s.last && (s.last[run] in s.cached || s.last[run] in s.scheduled || s.last[run] in s.dropped)
  }

  ghost predicate LastFresh(s: State) {
    forall r :: r in s.last ==> s.last[r].run == r && s.last[r].id < s.nextId
  }

  ghost predicate CachedNewest(s: State) {
    forall e :: e in s.cached ==> e.run in s.last && e == s.last[e.run]
  }

  ghost predicate ScheduledInOrder(s: State) {
    forall e :: e in s.scheduled ==>
      e.run in s.last && e.id <= s.last[e.run].id && (e == s.last[e.run] || NotBegun(s, e.run))
  }

  ghost predicate ActiveInOrder(s: State) {
    forall e :: e in s.active ==> e.run in s.last && (e == s.last[e.run] || NotBegun(s, e.run))
  }

  ghost predicate ReplaysInOrder(s: State) {
    forall t :: t in s.connects && s.connects[t].Replaying? ==>
      var c := s.connects[t];
      c.event.run == c.run && c.run in s.last && (c.event == s.last[c.run] || NotBegun(s, c.run))
  }

  /** Older events are only broadcast while the newest has not begun. */
  ghost predicate InLine(s: State) {
    LastFresh(s) && CachedNewest(s) && ScheduledInOrder(s) && ActiveInOrder(s)
  }

  ghost predicate InOrder(s: State) {
    InLine(s) && ReplaysInOrder(s)
  }

  ghost predicate EndsWithLast(s: State) {
    forall r, ws :: r in s.last && ws in Of(s.conns, r) && s.last[r] !in s.dropped ==>
      Newest(Got(s.received, r, ws), s.last[r]) || Coming(s, s.last[r], ws)
  }

  lemma InOrderStep(s: State, step: Step)
    requires InOrder(s) && Enabled(s, step) && Orderly(s, step)
    ensures InOrder(Apply(s, step))
  {
    InLineStep(s, step);
    ReplaysStep(s, step);
  }

  lemma InLineStep(s: State, step: Step)
    requires InLine(s) && Enabled(s, step) && OneAtATime(s, step)
    ensures InLine(Apply(s, step))
  {
    hide Apply, OneAtATime, LastFresh, CachedNewest, ScheduledInOrder, ActiveInOrder;
    CacheStep(s, step);
    ScheduledStep(s, step);
    ActiveStep(s, step);
  }

  lemma CacheStep(s: State, step: Step)
    requires LastFresh(s) && CachedNewest(s) && Enabled(s, step) && OneAtATime(s, step)
    ensures LastFresh(Apply(s, step)) && CachedNewest(Apply(s, step))
  {
  }

  lemma ScheduledStep(s: State, step: Step)
    requires InLine(s) && Enabled(s, step) && OneAtATime(s, step)
    ensures ScheduledInOrder(Apply(s, step))
  {
    forall e | e in Apply(s, step).scheduled
      ensures var s' := Apply(s, step);
              e.run in s'.last && e.id <= s'.last[e.run].id && (e == s'.last[e.run] || NotBegun(s', e.run))
    {
      NotBegunStep(s, step, e.run);
    }
  }

  lemma ActiveStep(s: State, step: Step)
    requires InLine(s) && Enabled(s, step) && OneAtATime(s, step)
    ensures ActiveInOrder(Apply(s, step))
  {
    forall e | e in Apply(s, step).active
      ensures var s' := Apply(s, step);
              e.run in s'.last && (e == s'.last[e.run] || NotBegun(s', e.run))
    {
      NotBegunStep(s, step, e.run);
    }
  }

  lemma ReplaysStep(s: State, step: Step)
    requires InOrder(s) && Enabled(s, step) && Orderly(s, step)
    ensures ReplaysInOrder(Apply(s, step))
  {
    hide Apply;
    var s' := Apply(s, step);
    forall t | t in s'.connects && s'.connects[t].Replaying?
      ensures var c := s'.connects[t];
              c.event.run == c.run && c.run in s'.last && (c.event == s'.last[c.run] || NotBegun(s', c.run))
    {
      ReplayOrigin(s, step, t);
      NotBegunStep(s, step, s'.connects[t].run);
    }
  }

  /** A pending replay was pending before, or was just read from the cache. */
  lemma ReplayOrigin(s: State, step: Step, t: nat)
    requires Enabled(s, step) && t in Apply(s, step).connects && Apply(s, step).connects[t].Replaying?
    ensures var c, s' := Apply(s, step).connects[t], Apply(s, step);
            || (t in s.connects && c == s.connects[t])
            || (step == ReadCache(t) && c.run in s.last && c.event == s.last[c.run])
    ensures Apply(s, step).last
         == if step.Publish? then s.last[step.run := Event(step.run, s.nextId)] else s.last
  {
  }

  /** The newest event of a run begins only when nothing older of that run is under way. */
  lemma NotBegunStep(s: State, step: Step, run: Run)
    requires InLine(s) && Enabled(s, step) && OneAtATime(s, step)
    ensures NotBegun(s, run) && !(step.Begin? && step.event == s.last[run]) ==> NotBegun(Apply(s, step), run)
    ensures step.Publish? && step.run == run ==> NotBegun(Apply(s, step), run)
  {
  }

  lemma EndsWithLastStep(s: State, step: Step)
    requires InOrder(s) && EndsWithLast(s) && Enabled(s, step) && Orderly(s, step)
    ensures EndsWithLast(Apply(s, step))
  {
    var s' := Apply(s, step);
    forall r, ws | r in s'.last && ws in Of(s'.conns, r) && s'.last[r] !in s'.dropped
      ensures Newest(Got(s'.received, r, ws), s'.last[r]) || Coming(s', s'.last[r], ws)
    {
      if step.Publish? && step.run == r {
        assert s'.last[r] in s'.cached;
      } else if step.Connect? && step.run == r && step.ws == ws {
        assert Awaits(s'.connects[step.task], r, ws, s'.last[r]);
      } else {
        assert ws in Of(s.conns, r);
        NewestStep(s, step, s.last[r], ws);
      }
    }
  }

  lemma NewestStep(s: State, step: Step, e: Event, ws: Socket)
    requires InOrder(s) && Enabled(s, step) && Orderly(s, step) && e.run in s.last && e == s.last[e.run]
    requires ws in Of(s.conns, e.run) && ws in Of(Apply(s, step).conns, e.run)
    requires Newest(Got(s.received, e.run, ws), e) || Coming(s, e, ws)
    ensures var s' := Apply(s, step);
            e in s'.dropped || Newest(Got(s'.received, e.run, ws), e) || Coming(s', e, ws)
  {
    hide Apply, CachedNewest;
    if Newest(Got(s.received, e.run, ws), e) {
      NewestKept(s, step, e, ws);
    } else {
      if !Coming(Apply(s, step), e, ws) && e !in Apply(s, step).dropped {
        ComingStep(s, step, e, ws);
      }
    }
  }

  /** Only an older event could be sent after the newest, and then the newest has not begun. */
  lemma NewestKept(s: State, step: Step, e: Event, ws: Socket)
    requires InOrder(s) && Enabled(s, step) && e.run in s.last && e == s.last[e.run]
    requires Newest(Got(s.received, e.run, ws), e)
    ensures var s' := Apply(s, step);
            Newest(Got(s'.received, e.run, ws), e) || e in s'.cached || e in s'.scheduled || e in s'.dropped
  {
    hide LastFresh, CachedNewest, ScheduledInOrder;
  }

  lemma {:induction false} EndsWithLastAlways(s: State, steps: seq<Step>)
    requires InOrder(s) && EndsWithLast(s) && Runs(s, steps) && RunsOrderly(s, steps)
    ensures InOrder(After(s, steps)) && EndsWithLast(After(s, steps))
    decreases |steps|
  {
    if steps != [] {
      InOrderStep(s, steps[0]);
      EndsWithLastStep(s, steps[0]);
      EndsWithLastAlways(Apply(s, steps[0]), steps[1..]);
    }
  }

  /** In an orderly run the final event is also the last one each registered socket received, however often it
      connected. */
  lemma FinalEventReceivedLast(steps: seq<Step>)
    requires Runs(INIT, steps) && RunsOrderly(INIT, steps) && Quiet(After(INIT, steps))
    ensures var s := After(INIT, steps);
            forall r, ws :: r in s.last && ws in Of(s.conns, r) && s.last[r] !in s.dropped ==>
              Newest(Got(s.received, r, ws), s.last[r])
  {
    EndsWithLastAlways(INIT, steps);
  }

  /** Were the read and the send separated by a broadcast, one publisher and no two broadcasts at once would not
      be enough: here the replay of event 0 is sent after event 1. */
  lemma LateReplayComesLast()
    ensures var steps := OPENING + (JOINING + (UPDATE + [ReplayOk(0)]));
            && Runs(INIT, steps) && Quiet(After(INIT, steps)) && After(INIT, steps).dropped == {}
            && Of(After(INIT, steps).conns, "r") == {7} && "r" in After(INIT, steps).last
            && After(INIT, steps).last["r"] == Event("r", 1)
            && Got(After(INIT, steps).received, "r", 7) == [Event("r", 1), Event("r", 0)]
  {
    OpeningRuns();
    JoiningRuns();
    UpdateRuns();
    ClosingRuns();
    hide Apply, Enabled;
    RunsConcat(REPLAY_0, UPDATE, [ReplayOk(0)]);
    RunsConcat(IDLE, JOINING, UPDATE + [ReplayOk(0)]);
    RunsConcat(INIT, OPENING, JOINING + (UPDATE + [ReplayOk(0)]));
  }

  const OPENING :=
    [SetLoop(true), Publish("r"), Schedule(Event("r", 0)), Begin(Event("r", 0)), Finish(Event("r", 0))]
  const JOINING := [Connect(0, "r", 7), ReadCache(0)]
  const UPDATE :=
    [Publish("r"), Schedule(Event("r", 1)), Begin(Event("r", 1)), SendOk(Event("r", 1), 7), Finish(Event("r", 1))]
  const IDLE := INIT.(loopOpen := true, last := map["r" := Event("r", 0)], nextId := 1)
  const REPLAY_0 := IDLE.(conns := map["r" := {7}], connects := map[0 := Replaying("r", 7, Event("r", 0))])
  const UPDATED :=
    REPLAY_0.(last := map["r" := Event("r", 1)], nextId := 2, received := map[("r", 7) := [Event("r", 1)]])

  lemma OpeningRuns()
    ensures Runs(INIT, OPENING) && After(INIT, OPENING) == IDLE
  {
    Extend(INIT, OPENING, 0);
    Extend(INIT, OPENING, 1);
    Extend(INIT, OPENING, 2);
    Extend(INIT, OPENING, 3);
    Extend(INIT, OPENING, 4);
    assert OPENING[..5] == OPENING;
  }

  lemma JoiningRuns()
    ensures Runs(IDLE, JOINING) && After(IDLE, JOINING) == REPLAY_0
  {
    Extend(IDLE, JOINING, 0);
    Extend(IDLE, JOINING, 1);
    assert Of(IDLE.conns, "r") + {7} == {7};
    assert After(IDLE, JOINING[..2]).conns["r"] == {7};
    assert After(IDLE, JOINING[..2]).conns == REPLAY_0.conns;
    assert After(IDLE, JOINING[..2]).connects == REPLAY_0.connects;
    assert JOINING[..2] == JOINING;
  }

  lemma UpdateRuns()
    ensures Runs(REPLAY_0, UPDATE) && After(REPLAY_0, UPDATE) == UPDATED
  {
    Extend(REPLAY_0, UPDATE, 0);
    Extend(REPLAY_0, UPDATE, 1);
    Extend(REPLAY_0, UPDATE, 2);
    Extend(REPLAY_0, UPDATE, 3);
    Extend(REPLAY_0, UPDATE, 4);
    assert After(REPLAY_0, UPDATE[..5]).active == UPDATED.active;
    assert After(REPLAY_0, UPDATE[..5]).last == UPDATED.last;
    assert [] + [Event("r", 1)] == [Event("r", 1)];
    assert After(REPLAY_0, UPDATE[..5]).received == UPDATED.received;
    assert After(REPLAY_0, UPDATE[..5]).cached == {} == After(REPLAY_0, UPDATE[..5]).scheduled;
    assert UPDATE[..5] == UPDATE;
  }

  lemma ClosingRuns()
    ensures Runs(UPDATED, [ReplayOk(0)])
    ensures After(UPDATED, [ReplayOk(0)]).cached == UPDATED.cached
    ensures After(UPDATED, [ReplayOk(0)]).connects == map[]
    ensures After(UPDATED, [ReplayOk(0)]).received == map[("r", 7) := [Event("r", 1), Event("r", 0)]]
    ensures After(UPDATED, [ReplayOk(0)])
         == UPDATED.(connects := map[], received := After(UPDATED, [ReplayOk(0)]).received)
  {
    assert [Event("r", 1)] + [Event("r", 0)] == [Event("r", 1), Event("r", 0)];
    assert UPDATED.received == map[("r", 7) := [Event("r", 1)]];
  }

  lemma {:induction false} RunsConcat(s: State, a: seq<Step>, b: seq<Step>)
    requires Runs(s, a) && Runs(After(s, a), b)
    ensures Runs(s, a + b) && After(s, a + b) == After(After(s, a), b)
    decreases |a|
  {
    if a == [] {
      assert a + b == b;
    } else {
      RunsConcat(Apply(s, a[0]), a[1..], b);
      assert (a + b)[1..] == a[1..] + b;
    }
  }
}
