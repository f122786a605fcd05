/**
  Exactly which sockets receive a run's final event, and exactly when it is the last one they receive
  (`api/app/ws.py`, over every interleaving of the protocol of `ProgressHub`).
 */
module FinalEvent {
  import opened ProgressHub

  // ---------------------------------------------------------------------------
  // Where an event can be
  // ---------------------------------------------------------------------------

  /** Every event is old enough to have been published, and is in one place at a time. */
  ghost predicate Placed(s: State) {
    && LastFresh(s)
    && (forall x :: x in s.cached || x in s.scheduled || x in s.active || x in s.dropped ==> x.id < s.nextId)
    && (forall x :: x in s.cached ==> x !in s.scheduled && x !in s.active && x !in s.dropped)
    && (forall x :: x in s.scheduled ==> x !in s.active && x !in s.dropped)
    && (forall x :: x in s.active ==> x !in s.dropped)
  }

  lemma PlacedStep(s: State, step: Step)
    requires Placed(s) && Enabled(s, step)
    ensures Placed(Apply(s, step))
  {
    hide Apply, Enabled, LastFresh;
    NewestStep(s, step);
    AgesStep(s, step);
    CachedStep(s, step);
    ScheduledApart(s, step);
    ActiveApart(s, step);
  }

  lemma NewestStep(s: State, step: Step)
    requires LastFresh(s) && Enabled(s, step)
    ensures LastFresh(Apply(s, step))
  {
  }

  lemma AgesStep(s: State, step: Step)
    requires Placed(s) && Enabled(s, step)
    ensures var s' := Apply(s, step);
            forall x :: x in s'.cached || x in s'.scheduled || x in s'.active || x in s'.dropped ==> x.id < s'.nextId
  {
    hide LastFresh;
  }

  lemma CachedStep(s: State, step: Step)
    requires Placed(s) && Enabled(s, step)
    ensures var s' := Apply(s, step);
            forall x :: x in s'.cached ==> x !in s'.scheduled && x !in s'.active && x !in s'.dropped
  {
    hide LastFresh;
  }

  lemma ScheduledApart(s: State, step: Step)
    requires Placed(s) && Enabled(s, step)
    ensures var s' := Apply(s, step);
            forall x :: x in s'.scheduled ==> x !in s'.active && x !in s'.dropped
  {
    hide LastFresh;
  }

  lemma ActiveApart(s: State, step: Step)
    requires Placed(s) && Enabled(s, step)
    ensures var s' := Apply(s, step);
            forall x :: x in s'.active ==> x !in s'.dropped
  {
    hide LastFresh;
  }

  /** An event that is neither cached nor scheduled any more never is again; what was never published is nowhere. */
  lemma NoReturn(s: State, step: Step, e: Event)
    requires Placed(s) && Enabled(s, step)
    ensures var s' := Apply(s, step);
            && (e.id < s.nextId && e !in s.cached && e !in s.scheduled ==> e !in s'.cached && e !in s'.scheduled)
            && (e.id < s.nextId && e !in s.cached && e !in s.dropped ==> e !in s'.dropped)
            && (e.id < s.nextId && e.run in s'.last && s'.last[e.run] == e ==> e.run in s.last && s.last[e.run] == e)
            && s.nextId <= s'.nextId && s.dropped <= s'.dropped
  {
  }

  // ---------------------------------------------------------------------------
  // Who receives the final event
  // ---------------------------------------------------------------------------

  /** The socket's `connect` finds the event in the cache. */
  predicate Reads(s: State, step: Step, e: Event, ws: Socket) {
    && step.ReadCache? && step.task in s.connects && s.connects[step.task] == Registered(e.run, ws)
    && e.run in s.last && s.last[e.run] == e
  }

  /** At some step of the run, after `e` was published, the socket's `connect` read it from the cache. */
  ghost predicate HasRead(s: State, steps: seq<Step>, e: Event, ws: Socket)
    requires Runs(s, steps)
    decreases |steps|
  {
    steps != [] && (Reads(s, steps[0], e, ws) || HasRead(Apply(s, steps[0]), steps[1..], e, ws))
  }

  ghost predicate Awaited(s: State, e: Event, ws: Socket) {
    exists t :: t in s.connects && Awaits(s.connects[t], e.run, ws, e)
  }

  ghost predicate ReplayUnderWay(s: State, e: Event, ws: Socket) {
    exists t :: t in s.connects && s.connects[t] == Replaying(e.run, ws, e)
  }

  predicate IsLast(s: State, e: Event) {
    e.run in s.last && s.last[e.run] == e
  }

  /** What `read` (the socket's `connect` has read `e`) says about where `e` is. */
  ghost predicate Tracked(s: State, e: Event, ws: Socket, read: bool) {
    && (e.id >= s.nextId ==> !read && e !in Got(s.received, e.run, ws))
    && (!read ==> !ReplayUnderWay(s, e, ws))
    && (!read && e in Got(s.received, e.run, ws) ==> e !in s.cached && e !in s.scheduled && e !in s.dropped)
    && (read && IsLast(s, e) && ws in Of(s.conns, e.run) ==> e in Got(s.received, e.run, ws) || Awaited(s, e, ws))
  }

  lemma TrackedStep(s: State, step: Step, e: Event, ws: Socket, read: bool)
    requires Placed(s) && Tracked(s, e, ws, read) && Enabled(s, step)
    ensures Tracked(Apply(s, step), e, ws, read || Reads(s, step, e, ws))
  {
    ReceiptStep(s, step, e, ws, read);
    UnreadStep(s, step, e, ws, read);
    ReadStep(s, step, e, ws, read);
  }

  lemma UnreadStep(s: State, step: Step, e: Event, ws: Socket, read: bool)
    requires Placed(s) && Tracked(s, e, ws, read) && Enabled(s, step)
    ensures !read && !Reads(s, step, e, ws) ==> !ReplayUnderWay(Apply(s, step), e, ws)
    ensures e.id >= Apply(s, step).nextId ==> !read && !Reads(s, step, e, ws)
  {
    var s' := Apply(s, step);
    if !read && !Reads(s, step, e, ws) && ReplayUnderWay(s', e, ws) {
      var t :| t in s'.connects && s'.connects[t] == Replaying(e.run, ws, e);
      ReplayOrigin(s, step, t);
    }
  }

  /** Without having been read, an event is only received when it is broadcast. */
  lemma ReceiptStep(s: State, step: Step, e: Event, ws: Socket, read: bool)
    requires Placed(s) && Tracked(s, e, ws, read) && Enabled(s, step)
    ensures var s' := Apply(s, step);
            && (e.id >= s'.nextId ==> e !in Got(s'.received, e.run, ws))
            && (!read && e in Got(s'.received, e.run, ws) ==> e !in s'.cached && e !in s'.scheduled && e !in s'.dropped)
  {
    NoReturn(s, step, e);
    GotStep(s, step, e, ws);
  }

  /** How a socket comes to receive an event. */
  lemma GotStep(s: State, step: Step, e: Event, ws: Socket)
    requires Enabled(s, step)
    ensures var s' := Apply(s, step);
            e in Got(s'.received, e.run, ws) <==>
              || e in Got(s.received, e.run, ws)
              || step == SendOk(e, ws)
              || (step.ReplayOk? && s.connects[step.task] == Replaying(e.run, ws, e))
  {
  }

  lemma ReadStep(s: State, step: Step, e: Event, ws: Socket, read: bool)
    requires Placed(s) && Tracked(s, e, ws, read) && Enabled(s, step)
    ensures var s' := Apply(s, step);
            (read || Reads(s, step, e, ws)) && IsLast(s', e) && ws in Of(s'.conns, e.run) ==>
              e in Got(s'.received, e.run, ws) || Awaited(s', e, ws)
  {
    NoReturn(s, step, e);
    GotStep(s, step, e, ws);
    var s' := Apply(s, step);
    if Reads(s, step, e, ws) {
      assert Awaits(s'.connects[step.task], e.run, ws, e);
    } else if read && IsLast(s', e) && ws in Of(s'.conns, e.run) {
      if step.Connect? && step.run == e.run && step.ws == ws {
        assert Awaits(s'.connects[step.task], e.run, ws, e);
      } else if e !in Got(s.received, e.run, ws) {
        assert ws in Of(s.conns, e.run);
        var t :| t in s.connects && Awaits(s.connects[t], e.run, ws, e);
        AwaitingStep(s, step, e, ws, t);
      }
    }
  }

  /** A `connect` that is to deliver the last event does so, or takes the socket off the run. */
  lemma AwaitingStep(s: State, step: Step, e: Event, ws: Socket, t: nat)
    requires Enabled(s, step) && IsLast(s, e) && t in s.connects && Awaits(s.connects[t], e.run, ws, e)
    requires s.connects[t].Replaying? ==> s.connects[t].event.run == s.connects[t].run
    requires ws in Of(Apply(s, step).conns, e.run)
    ensures var s' := Apply(s, step);
            (t in s'.connects && Awaits(s'.connects[t], e.run, ws, e)) || e in Got(s'.received, e.run, ws)
  {
  }

  lemma {:induction false} TrackedAlways(s: State, steps: seq<Step>, e: Event, ws: Socket, read: bool)
    requires Placed(s) && Tracked(s, e, ws, read) && Runs(s, steps)
    ensures Placed(After(s, steps)) && Tracked(After(s, steps), e, ws, read || HasRead(s, steps, e, ws))
    decreases |steps|
  {
    hide Placed, Tracked, Apply, Reads;
    if steps != [] {
      PlacedStep(s, steps[0]);
      TrackedStep(s, steps[0], e, ws, read);
      TrackedAlways(Apply(s, steps[0]), steps[1..], e, ws, read || Reads(s, steps[0], e, ws));
    }
  }

  /**
    In every interleaving: once all is quiet, a socket registered for a run has been sent the run's final event
    exactly when the event could be scheduled, or the socket's own `connect` read it from the cache.
   */
  lemma ReceivedExactly(steps: seq<Step>, run: Run, ws: Socket)
    requires Runs(INIT, steps) && Quiet(After(INIT, steps))
    requires run in After(INIT, steps).last && ws in Of(After(INIT, steps).conns, run)
    ensures var s := After(INIT, steps);
            var e := s.last[run];
            e in Got(s.received, run, ws) <==> e !in s.dropped || HasRead(INIT, steps, e, ws)
  {
    hide Apply, Enabled, HasRead;
    var s := After(INIT, steps);
    var e := s.last[run];
    TrackedAlways(INIT, steps, e, ws, false);
    NoLostFinalEvent(steps);
  }

  // ---------------------------------------------------------------------------
  // When it is the last one received
  // ---------------------------------------------------------------------------

  ghost predicate RunsOneAtATime(s: State, steps: seq<Step>)
    requires Runs(s, steps)
    decreases |steps|
  {
    steps == [] || (OneAtATime(s, steps[0]) && RunsOneAtATime(Apply(s, steps[0]), steps[1..]))
  }

  predicate Joins(step: Step, run: Run, ws: Socket) {
    step.Connect? && step.run == run && step.ws == ws
  }

  /** The socket connects to the run once at most. */
  predicate JoinsOnce(steps: seq<Step>, run: Run, ws: Socket) {
    forall i, j :: 0 <= i < j < |steps| ==> !(Joins(steps[i], run, ws) && Joins(steps[j], run, ws))
  }

  predicate Serves(c: Connecting, run: Run, ws: Socket) {
    c.run == run && c.ws == ws
  }

  /** The socket's `connect` has read an older event and has not sent it. */
  ghost predicate OldReplay(s: State, e: Event, ws: Socket) {
    exists t :: IsOldReplay(s, e, ws, t)
  }

  predicate IsOldReplay(s: State, e: Event, ws: Socket, t: nat) {
    && t in s.connects && Serves(s.connects[t], e.run, ws)
    && s.connects[t].Replaying? && s.connects[t].event != e
  }

  /** At some step of the run `e` was sent to the socket while the replay of an older event to it was pending. */
  ghost predicate SentBeforeOldReplay(s: State, steps: seq<Step>, e: Event, ws: Socket)
    requires Runs(s, steps)
    decreases |steps|
  {
    steps != []
    && (|| (steps[0] == SendOk(e, ws) && OldReplay(s, e, ws))
        || SentBeforeOldReplay(Apply(s, steps[0]), steps[1..], e, ws))
  }

  /** A socket that has not joined the run yet is nowhere. */
  ghost predicate Absent(s: State, run: Run, ws: Socket) {
    && ws !in Of(s.conns, run) && Got(s.received, run, ws) == []
    && (forall t :: t in s.connects ==> !Serves(s.connects[t], run, ws))
    && (forall x :: x in s.active && x.run == run ==> ws !in s.active[x].todo)
  }

  /** One `connect` at most serves the socket. */
  ghost predicate OneConnect(s: State, run: Run, ws: Socket) {
    forall t, u :: t in s.connects && u in s.connects ==>
      Serves(s.connects[t], run, ws) && Serves(s.connects[u], run, ws) ==> t == u
  }

  ghost predicate Alone(s: State, run: Run, ws: Socket, joined: bool) {
    (!joined ==> Absent(s, run, ws)) && OneConnect(s, run, ws)
  }

  lemma AloneStep(s: State, step: Step, run: Run, ws: Socket, joined: bool)
    requires Alone(s, run, ws, joined) && Enabled(s, step)
    requires joined ==> !Joins(step, run, ws)
    ensures Alone(Apply(s, step), run, ws, joined || Joins(step, run, ws))
  {
    hide Apply, Enabled, Absent, OneConnect, Joins;
    if Joins(step, run, ws) {
      FirstConnect(s, step, run, ws);
    } else {
      if !joined { AbsentStep(s, step, run, ws); }
      OneConnectStep(s, step, run, ws);
    }
  }

  lemma FirstConnect(s: State, step: Step, run: Run, ws: Socket)
    requires Absent(s, run, ws) && Enabled(s, step) && Joins(step, run, ws)
    ensures OneConnect(Apply(s, step), run, ws)
  {
  }

  lemma AbsentStep(s: State, step: Step, run: Run, ws: Socket)
    requires Absent(s, run, ws) && Enabled(s, step) && !Joins(step, run, ws)
    ensures Absent(Apply(s, step), run, ws)
  {
  }

  lemma OneConnectStep(s: State, step: Step, run: Run, ws: Socket)
    requires OneConnect(s, run, ws) && Enabled(s, step) && !Joins(step, run, ws)
    ensures OneConnect(Apply(s, step), run, ws)
  {
    ConnectsStep(s, step, run, ws);
    hide Apply, Enabled, Serves, Joins;
  }

  lemma ConnectsStep(s: State, step: Step, run: Run, ws: Socket)
    requires Enabled(s, step) && !Joins(step, run, ws)
    ensures forall t :: t in Apply(s, step).connects && Serves(Apply(s, step).connects[t], run, ws) ==>
              t in s.connects && Serves(s.connects[t], run, ws)
  {
  }

  /** The last event is the newest the socket received, or is still to come. */
  ghost predicate Arriving(s: State, e: Event, ws: Socket) {
    (Newest(Got(s.received, e.run, ws), e) && !OldReplay(s, e, ws)) || Coming(s, e, ws)
  }

  /** The last event was sent, nothing delivers it again, and an older one is sent after it. */
  ghost predicate Overtaken(s: State, e: Event, ws: Socket) {
    && e !in s.cached && e !in s.scheduled && (e in s.active ==> ws !in s.active[e].todo)
    && !Awaited(s, e, ws)
    && (OldReplay(s, e, ws) || !Newest(Got(s.received, e.run, ws), e))
  }

  ghost predicate Story(s: State, e: Event, ws: Socket, late: bool) {
    && (e.id >= s.nextId ==> !late)
    && (IsLast(s, e) && e !in s.dropped && ws in Of(s.conns, e.run) ==>
          if late then Overtaken(s, e, ws) else Arriving(s, e, ws))
  }

  /** All that is kept in an orderly run. */
  ghost predicate Orderliness(s: State) {
    Placed(s) && InLine(s) && LastFits(s)
  }

  lemma OrderlinessStep(s: State, step: Step)
    requires Orderliness(s) && Enabled(s, step) && OneAtATime(s, step)
    ensures Orderliness(Apply(s, step))
  {
    hide Placed, InLine, LastFits, Apply, OneAtATime;
    PlacedStep(s, step);
    InLineStep(s, step);
    LastFitsStep(s, step);
  }

  /** What a socket receives next comes from a broadcast of the run or from its own replay. */
  lemma NextReceived(s: State, step: Step, run: Run, ws: Socket)
    requires Enabled(s, step)
    ensures var got, got' := Got(s.received, run, ws), Got(Apply(s, step).received, run, ws);
            || got' == got
            || (step.SendOk? && step.event.run == run && step.ws == ws && got' == got + [step.event])
            || (step.ReplayOk? && Serves(s.connects[step.task], run, ws) && got' == got + [s.connects[step.task].event])
  {
  }

  /** Which replays of older events are pending after a step. */
  lemma OldReplayStep(s: State, step: Step, e: Event, ws: Socket)
    requires Enabled(s, step) && IsLast(s, e)
    ensures OldReplay(Apply(s, step), e, ws) ==> OldReplay(s, e, ws)
  {
    var s' := Apply(s, step);
    if OldReplay(s', e, ws) {
      var t :| IsOldReplay(s', e, ws, t);
      ReplayOrigin(s, step, t);
      assert IsOldReplay(s, e, ws, t);
    }
  }

  /** What is on its way stays so until it is broadcast or replayed to the socket. */
  lemma ComingEnds(s: State, step: Step, e: Event, ws: Socket)
    requires LastFits(s) && Enabled(s, step) && IsLast(s, e) && Coming(s, e, ws)
    requires ws in Of(Apply(s, step).conns, e.run) && e !in Apply(s, step).dropped
    ensures || Coming(Apply(s, step), e, ws)
            || step == SendOk(e, ws)
            || (step.ReplayOk? && s.connects[step.task] == Replaying(e.run, ws, e))
  {
    if e in s.cached || e in s.scheduled {
      QueuedStep(s, step, e, ws);
    } else if e in s.active && (ws in s.active[e].todo || ws in s.active[e].dead) {
      SendingEnds(s, step, e, ws);
    } else {
      var t :| t in s.connects && Awaits(s.connects[t], e.run, ws, e);
      AwaitingEnds(s, step, e, ws, t);
    }
  }

  lemma SendingEnds(s: State, step: Step, e: Event, ws: Socket)
    requires Enabled(s, step) && e in s.active && (ws in s.active[e].todo || ws in s.active[e].dead)
    requires ws in Of(Apply(s, step).conns, e.run)
    ensures Coming(Apply(s, step), e, ws) || step == SendOk(e, ws)
  {
  }

  lemma AwaitingEnds(s: State, step: Step, e: Event, ws: Socket, t: nat)
    requires LastFits(s) && Enabled(s, step) && IsLast(s, e) && t in s.connects && Awaits(s.connects[t], e.run, ws, e)
    requires ws in Of(Apply(s, step).conns, e.run)
    ensures Coming(Apply(s, step), e, ws) || (step == ReplayOk(t) && s.connects[t] == Replaying(e.run, ws, e))
  {
    assert t in Apply(s, step).connects ==> Awaits(Apply(s, step).connects[t], e.run, ws, e);
  }

  /** While the newest event neither was sent nor is queued, only it is broadcast. */
  lemma OnlyNewestSent(s: State, step: Step, e: Event)
    requires InLine(s) && Enabled(s, step) && IsLast(s, e) && e !in s.cached && e !in s.scheduled && e !in s.dropped
    ensures step.SendOk? && step.event.run == e.run ==> step.event == e
  {
  }

  lemma ArrivingStep(s: State, step: Step, e: Event, ws: Socket, joined: bool)
    requires Orderliness(s) && Enabled(s, step) && Alone(s, e.run, ws, joined) && Story(s, e, ws, false)
    requires !(step == SendOk(e, ws) && OldReplay(s, e, ws))
    ensures Story(Apply(s, step), e, ws, false)
  {
    hide Apply, Alone, InLine, Placed, Enabled, LastFits;
    var s' := Apply(s, step);
    if IsLast(s', e) && e !in s'.dropped && ws in Of(s'.conns, e.run) {
      if step.Publish? && step.run == e.run {
        JustPublished(s, step, e);
      } else if Joins(step, e.run, ws) {
        JustJoined(s, step, e, ws);
      } else {
        StillThere(s, step, e, ws);
        ArrivingKept(s, step, e, ws, joined);
      }
    }
  }

  lemma JustPublished(s: State, step: Step, e: Event)
    requires Enabled(s, step) && step.Publish? && step.run == e.run && IsLast(Apply(s, step), e)
    ensures e in Apply(s, step).cached
  {
  }

  lemma JustJoined(s: State, step: Step, e: Event, ws: Socket)
    requires Enabled(s, step) && Joins(step, e.run, ws)
    ensures Coming(Apply(s, step), e, ws)
  {
    assert Awaits(Apply(s, step).connects[step.task], e.run, ws, e);
  }

  lemma StillThere(s: State, step: Step, e: Event, ws: Socket)
    requires Enabled(s, step) && !(step.Publish? && step.run == e.run) && !Joins(step, e.run, ws)
    requires IsLast(Apply(s, step), e) && e !in Apply(s, step).dropped && ws in Of(Apply(s, step).conns, e.run)
    ensures IsLast(s, e) && e !in s.dropped && ws in Of(s.conns, e.run)
  {
  }

  lemma ArrivingKept(s: State, step: Step, e: Event, ws: Socket, joined: bool)
    requires Orderliness(s) && Enabled(s, step) && Alone(s, e.run, ws, joined)
    requires IsLast(s, e) && e !in s.dropped && Arriving(s, e, ws)
    requires ws in Of(Apply(s, step).conns, e.run) && e !in Apply(s, step).dropped
    requires !(step == SendOk(e, ws) && OldReplay(s, e, ws))
    ensures Arriving(Apply(s, step), e, ws)
  {
    hide Apply, Alone, InLine, Placed, LastFits;
    NextReceived(s, step, e.run, ws);
    OldReplayStep(s, step, e, ws);
    if Coming(s, e, ws) {
      ComingEnds(s, step, e, ws);
      if step.ReplayOk? && s.connects[step.task] == Replaying(e.run, ws, e) {
        Replayed(s, step, e, ws, joined);
      } else if step == SendOk(e, ws) {
        Sent(s, e, ws);
      }
    } else {
      OnlyNewestSent(s, step, e);
      assert step.ReplayOk? ==> !IsOldReplay(s, e, ws, step.task);
    }
  }

  lemma Replayed(s: State, step: Step, e: Event, ws: Socket, joined: bool)
    requires Enabled(s, step) && Alone(s, e.run, ws, joined)
    requires step.ReplayOk? && s.connects[step.task] == Replaying(e.run, ws, e)
    ensures Newest(Got(Apply(s, step).received, e.run, ws), e) && !OldReplay(Apply(s, step), e, ws)
  {
  }

  lemma Sent(s: State, e: Event, ws: Socket)
    requires Enabled(s, SendOk(e, ws))
    ensures Newest(Got(Apply(s, SendOk(e, ws)).received, e.run, ws), e)
  {
  }

  /** The last event is sent while an older replay is pending: from then on it is overtaken. */
  lemma OvertakenStart(s: State, e: Event, ws: Socket, joined: bool)
    requires Orderliness(s) && Enabled(s, SendOk(e, ws)) && Alone(s, e.run, ws, joined) && OldReplay(s, e, ws)
    ensures Overtaken(Apply(s, SendOk(e, ws)), e, ws)
  {
    hide InLine, LastFits;
    var s' := Apply(s, SendOk(e, ws));
    var t :| IsOldReplay(s, e, ws, t);
    assert s'.connects == s.connects && IsOldReplay(s', e, ws, t);
    assert forall u :: u in s'.connects && Awaits(s'.connects[u], e.run, ws, e) ==>
        Serves(s'.connects[u], e.run, ws) && u == t;
  }

  lemma OvertakenStep(s: State, step: Step, e: Event, ws: Socket)
    requires Orderliness(s) && Enabled(s, step) && !Joins(step, e.run, ws)
    requires IsLast(s, e) && e.id < s.nextId && e !in s.dropped && ws in Of(s.conns, e.run) && Overtaken(s, e, ws)
    requires IsLast(Apply(s, step), e) && ws in Of(Apply(s, step).conns, e.run)
    ensures Overtaken(Apply(s, step), e, ws)
  {
    hide Apply, InLine, LastFits, Awaits, Newest, Enabled;
    NoReturn(s, step, e);
    OnlyNewestSent(s, step, e);
    NextReceived(s, step, e.run, ws);
    NotSentAgain(s, step, e, ws);
    NotAwaitedAgain(s, step, e, ws);
    OvertakenReplay(s, step, e, ws);
  }

  lemma NotSentAgain(s: State, step: Step, e: Event, ws: Socket)
    requires Enabled(s, step) && e !in s.scheduled && (e in s.active ==> ws !in s.active[e].todo)
    ensures var s' := Apply(s, step); e in s'.active ==> ws !in s'.active[e].todo
    ensures step != SendOk(e, ws)
  {
  }

  lemma NotAwaitedAgain(s: State, step: Step, e: Event, ws: Socket)
    requires Enabled(s, step) && !Joins(step, e.run, ws) && !Awaited(s, e, ws)
    ensures !Awaited(Apply(s, step), e, ws)
  {
    forall t | t in Apply(s, step).connects
      ensures t in s.connects && Awaits(Apply(s, step).connects[t], e.run, ws, e) ==>
                Awaits(s.connects[t], e.run, ws, e)
    {
    }
  }

  /** The older replay stays pending until it is sent, which makes it the newest received. */
  lemma OvertakenReplay(s: State, step: Step, e: Event, ws: Socket)
    requires Enabled(s, step) && !Awaited(s, e, ws) && !(step.SendOk? && step.event.run == e.run && step.ws == ws)
    requires OldReplay(s, e, ws) || !Newest(Got(s.received, e.run, ws), e)
    requires ws in Of(Apply(s, step).conns, e.run)
    ensures OldReplay(Apply(s, step), e, ws) || !Newest(Got(Apply(s, step).received, e.run, ws), e)
  {
    var s' := Apply(s, step);
    NextReceived(s, step, e.run, ws);
    if step.ReplayOk? && Serves(s.connects[step.task], e.run, ws) {
      assert !Awaits(s.connects[step.task], e.run, ws, e);
    } else if OldReplay(s, e, ws) {
      var t :| IsOldReplay(s, e, ws, t);
      assert t in s'.connects ==> IsOldReplay(s', e, ws, t);
    }
  }

  lemma StoryStep(s: State, step: Step, e: Event, ws: Socket, late: bool, joined: bool)
    requires Orderliness(s) && Enabled(s, step) && Alone(s, e.run, ws, joined) && Story(s, e, ws, late)
    requires (joined ==> !Joins(step, e.run, ws)) && (late ==> joined)
    ensures var late' := late || (step == SendOk(e, ws) && OldReplay(s, e, ws));
            Story(Apply(s, step), e, ws, late') && (late' ==> joined)
  {
    hide Apply, InLine, LastFits, Overtaken, Arriving, OldReplay, Enabled;
    var s' := Apply(s, step);
    NoReturn(s, step, e);
    if late {
      if IsLast(s', e) && e !in s'.dropped && ws in Of(s'.conns, e.run) {
        StaysRegistered(s, step, e, ws);
        OvertakenStep(s, step, e, ws);
      }
    } else if step == SendOk(e, ws) && OldReplay(s, e, ws) {
      SentToJoined(s, e, ws, joined);
      OvertakenStart(s, e, ws, joined);
    } else {
      ArrivingStep(s, step, e, ws, joined);
    }
  }

  lemma StaysRegistered(s: State, step: Step, e: Event, ws: Socket)
    requires Enabled(s, step) && !Joins(step, e.run, ws) && ws in Of(Apply(s, step).conns, e.run)
    ensures ws in Of(s.conns, e.run)
  {
  }

  lemma SentToJoined(s: State, e: Event, ws: Socket, joined: bool)
    requires Placed(s) && Enabled(s, SendOk(e, ws)) && Alone(s, e.run, ws, joined)
    ensures joined && e.id < Apply(s, SendOk(e, ws)).nextId
  {
  }

  lemma {:induction false} StoryAlways(s: State, steps: seq<Step>, e: Event, ws: Socket, late: bool, joined: bool)
    requires Orderliness(s) && Alone(s, e.run, ws, joined) && Story(s, e, ws, late)
    requires Runs(s, steps) && RunsOneAtATime(s, steps) && JoinsOnce(steps, e.run, ws)
    requires (joined ==> forall i :: 0 <= i < |steps| ==> !Joins(steps[i], e.run, ws)) && (late ==> joined)
    ensures Story(After(s, steps), e, ws, late || SentBeforeOldReplay(s, steps, e, ws))
    decreases |steps|
  {
    hide Apply, Orderliness, Alone, Story, Joins, OldReplay, OneAtATime, Enabled;
    if steps != [] {
      var step, rest := steps[0], steps[1..];
      assert forall i :: 0 <= i < |rest| ==> rest[i] == steps[i + 1];
      OrderlinessStep(s, step);
      AloneStep(s, step, e.run, ws, joined);
      StoryStep(s, step, e, ws, late, joined);
      StoryAlways(Apply(s, step), rest, e, ws, late || (step == SendOk(e, ws) && OldReplay(s, e, ws)),
                  joined || Joins(step, e.run, ws));
    }
  }

  /**
    With one publisher per run, broadcasts begun in order and one at a time, and a socket that connects once: the
    final event, once it could be scheduled, is the last one the socket receives exactly when no replay of an
    older event to it was pending when the final event was sent to it.
   */
  lemma ReceivedLastExactly(steps: seq<Step>, run: Run, ws: Socket)
    requires Runs(INIT, steps) && RunsOneAtATime(INIT, steps) && JoinsOnce(steps, run, ws) && Quiet(After(INIT, steps))
    requires var s := After(INIT, steps); run in s.last && ws in Of(s.conns, run) && s.last[run] !in s.dropped
    ensures var s := After(INIT, steps);
            Newest(Got(s.received, run, ws), s.last[run]) <==> !SentBeforeOldReplay(INIT, steps, s.last[run], ws)
  {
    hide Apply, Enabled, OneAtATime, SentBeforeOldReplay, RunsOneAtATime, JoinsOnce;
    var s := After(INIT, steps);
    EventsKeepRun(INIT, steps);
    StoryAlways(INIT, steps, s.last[run], ws, false, false);
  }

  lemma {:induction false} EventsKeepRun(s: State, steps: seq<Step>)
    requires LastFits(s) && Runs(s, steps)
    ensures LastFits(After(s, steps))
    decreases |steps|
  {
    hide Apply, Enabled, LastFits;
    if steps != [] {
      LastFitsStep(s, steps[0]);
      EventsKeepRun(Apply(s, steps[0]), steps[1..]);
    }
  }

  // ---------------------------------------------------------------------------
  // A send that does not suspend before its frame is written
  // ---------------------------------------------------------------------------

  /** While a replay that was read is not sent, only other threads do anything: they publish and schedule. */
  ghost predicate AtOnce(s: State, step: Step) {
    (exists t :: t in s.connects && s.connects[t].Replaying?) ==>
      step.ReplayOk? || step.ReplayFail? || step.Publish? || step.Schedule? || step.Drop? || step.SetLoop?
  }

  ghost predicate RunsAtOnce(s: State, steps: seq<Step>)
    requires Runs(s, steps)
    decreases |steps|
  {
    steps == [] || (AtOnce(s, steps[0]) && RunsAtOnce(Apply(s, steps[0]), steps[1..]))
  }

  lemma {:induction false} AtOnceIsOrderly(s: State, steps: seq<Step>)
    requires Runs(s, steps) && RunsOneAtATime(s, steps) && RunsAtOnce(s, steps)
    ensures RunsOrderly(s, steps)
    decreases |steps|
  {
    hide Apply, Enabled;
    if steps != [] { AtOnceIsOrderly(Apply(s, steps[0]), steps[1..]); }
  }

  /**
    When reading the cache and sending what was read are one step of the event loop, the final event is always
    the last one received, by every registered socket and however often it connected.
   */
  lemma ReadAndSentAtOnce(steps: seq<Step>, run: Run, ws: Socket)
    requires Runs(INIT, steps) && RunsOneAtATime(INIT, steps) && RunsAtOnce(INIT, steps) && Quiet(After(INIT, steps))
    requires var s := After(INIT, steps); run in s.last && ws in Of(s.conns, run) && s.last[run] !in s.dropped
    ensures Newest(Got(After(INIT, steps).received, run, ws), After(INIT, steps).last[run])
  {
    AtOnceIsOrderly(INIT, steps);
    FinalEventReceivedLast(steps);
  }
}
