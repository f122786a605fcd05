/**
  Who is registered for a run (`api/app/ws.py`, over every interleaving of the protocol of `ProgressHub`): the
  statements here look at the members of a run's set only, and at what happened to one socket.
 */
module Registration {
  import opened ProgressHub
  import opened FinalEvent

  /** The socket leaves the run, or a send to it raises. */
  predicate Lost(s: State, step: Step, run: Run, ws: Socket) {
    || step == Leave(run, ws)
    || (step.SendFail? && step.event.run == run && step.ws == ws)
    || (step.ReplayFail? && step.task in s.connects && Serves(s.connects[step.task], run, ws))
  }

  ghost predicate NeverLost(s: State, steps: seq<Step>, run: Run, ws: Socket)
    requires Runs(s, steps)
    decreases |steps|
  {
    steps == [] || (!Lost(s, steps[0], run, ws) && NeverLost(Apply(s, steps[0]), steps[1..], run, ws))
  }

  /** A broadcast that is under way could not send to the socket, and will take it off the run. */
  ghost predicate Doomed(s: State, run: Run, ws: Socket) {
    exists x :: x in s.active && x.run == run && ws in s.active[x].dead
  }

  ghost predicate Safe(s: State, run: Run, ws: Socket) {
    ws in Of(s.conns, run) && !Doomed(s, run, ws)
  }

  /** At some step the socket connects, no failed send from before is pending, and it is not lost from then on. */
  ghost predicate JoinsToStay(s: State, steps: seq<Step>, run: Run, ws: Socket)
    requires Runs(s, steps)
    decreases |steps|
  {
    && steps != []
    && var s', rest := Apply(s, steps[0]), steps[1..];
       || (Joins(steps[0], run, ws) && !Doomed(s', run, ws) && NeverLost(s', rest, run, ws))
       || JoinsToStay(s', rest, run, ws)
  }

  lemma SafeStep(s: State, step: Step, run: Run, ws: Socket)
    requires Enabled(s, step)
    ensures Safe(Apply(s, step), run, ws) ==> Joins(step, run, ws) || (Safe(s, run, ws) && !Lost(s, step, run, ws))
    ensures Safe(s, run, ws) && !Lost(s, step, run, ws) ==> Safe(Apply(s, step), run, ws)
    ensures Joins(step, run, ws) ==> ws in Of(Apply(s, step).conns, run)
  {
    hide Apply, Enabled, Doomed, Lost, Of;
    MembersStep(s, step, run, ws);
    DoomedStep(s, step, run, ws);
    DoomedBy(s, step, run, ws);
  }

  /** Who is registered after a step. */
  lemma MembersStep(s: State, step: Step, run: Run, ws: Socket)
    requires Enabled(s, step)
    ensures var s' := Apply(s, step);
            && (Joins(step, run, ws) ==> ws in Of(s'.conns, run))
            && (ws in Of(s'.conns, run) ==> ws in Of(s.conns, run) || Joins(step, run, ws))
            && (ws in Of(s.conns, run) && !Lost(s, step, run, ws) && !Doomed(s, run, ws) ==> ws in Of(s'.conns, run))
            && (ws in Of(s'.conns, run) && Lost(s, step, run, ws) ==> step.SendFail?)
  {
  }

  /** A failed send stays pending until its broadcast ends, which takes the socket off the run. */
  lemma DoomedStep(s: State, step: Step, run: Run, ws: Socket)
    requires Enabled(s, step)
    ensures Doomed(s, run, ws) ==>
              Doomed(Apply(s, step), run, ws) || ws !in Of(Apply(s, step).conns, run)
  {
    var s' := Apply(s, step);
    if x :| x in s.active && x.run == run && ws in s.active[x].dead {
      assert step != Finish(x) ==> x in s'.active && ws in s'.active[x].dead;
    }
  }

  /** Only a failed send dooms a socket. */
  lemma DoomedBy(s: State, step: Step, run: Run, ws: Socket)
    requires Enabled(s, step)
    ensures Doomed(Apply(s, step), run, ws) ==> Doomed(s, run, ws) || Lost(s, step, run, ws)
    ensures Lost(s, step, run, ws) && step.SendFail? ==> Doomed(Apply(s, step), run, ws)
  {
    var s' := Apply(s, step);
    if step.SendFail? && step.event.run == run && step.ws == ws {
      assert step.event in s'.active && ws in s'.active[step.event].dead;
    }
  }

  lemma {:induction false} NeverLostStays(s: State, steps: seq<Step>, run: Run, ws: Socket)
    requires Runs(s, steps) && Safe(s, run, ws) && NeverLost(s, steps, run, ws)
    ensures Safe(After(s, steps), run, ws)
    decreases |steps|
  {
    hide Apply, Enabled, Safe, Lost;
    if steps != [] {
      SafeStep(s, steps[0], run, ws);
      NeverLostStays(Apply(s, steps[0]), steps[1..], run, ws);
    }
  }

  lemma {:induction false} JoinedStays(s: State, steps: seq<Step>, run: Run, ws: Socket)
    requires Runs(s, steps) && JoinsToStay(s, steps, run, ws)
    ensures Safe(After(s, steps), run, ws)
    decreases |steps|
  {
    hide Apply, Enabled, Doomed, Joins;
    var s', rest := Apply(s, steps[0]), steps[1..];
    SafeStep(s, steps[0], run, ws);
    if Joins(steps[0], run, ws) && !Doomed(s', run, ws) && NeverLost(s', rest, run, ws) {
      NeverLostStays(s', rest, run, ws);
    } else {
      JoinedStays(s', rest, run, ws);
    }
  }

  lemma {:induction false} SafeHasJoined(s: State, steps: seq<Step>, run: Run, ws: Socket)
    requires Runs(s, steps) && Safe(After(s, steps), run, ws)
    ensures (Safe(s, run, ws) && NeverLost(s, steps, run, ws)) || JoinsToStay(s, steps, run, ws)
    decreases |steps|
  {
    hide Apply, Enabled, Doomed, Joins, Lost;
    if steps != [] {
      SafeStep(s, steps[0], run, ws);
      SafeHasJoined(Apply(s, steps[0]), steps[1..], run, ws);
    }
  }

  /**
    In every interleaving: once all is quiet, a socket is registered for a run exactly when at some step it
    connected, with no failed send to it pending, and since then neither left nor had a send or a replay fail.
   */
  lemma RegisteredExactly(steps: seq<Step>, run: Run, ws: Socket)
    requires Runs(INIT, steps) && Quiet(After(INIT, steps))
    ensures ws in Of(After(INIT, steps).conns, run) <==> JoinsToStay(INIT, steps, run, ws)
  {
    hide Apply, Enabled, JoinsToStay, NeverLost;
    var s := After(INIT, steps);
    assert !Doomed(s, run, ws);
    if ws in Of(s.conns, run) {
      SafeHasJoined(INIT, steps, run, ws);
    }
    if JoinsToStay(INIT, steps, run, ws) {
      JoinedStays(INIT, steps, run, ws);
    }
  }

  /** So such a socket has been sent the final event exactly when it was scheduled or read from the cache. */
  lemma StayingSocketReceives(steps: seq<Step>, run: Run, ws: Socket)
    requires Runs(INIT, steps) && Quiet(After(INIT, steps)) && run in After(INIT, steps).last
    requires JoinsToStay(INIT, steps, run, ws)
    ensures var s := After(INIT, steps);
            var e := s.last[run];
            e in Got(s.received, run, ws) <==> e !in s.dropped || HasRead(INIT, steps, e, ws)
  {
    hide Apply, Enabled, HasRead, JoinsToStay;
    RegisteredExactly(steps, run, ws);
    ReceivedExactly(steps, run, ws);
  }

  lemma {:induction false} StaysAbsent(s: State, steps: seq<Step>, run: Run, ws: Socket)
    requires Runs(s, steps) && Absent(s, run, ws)
    requires forall i :: 0 <= i < |steps| ==> !Joins(steps[i], run, ws)
    ensures Absent(After(s, steps), run, ws)
    decreases |steps|
  {
    hide Apply, Enabled, Absent, Joins;
    if steps != [] {
      assert forall i :: 0 <= i < |steps[1..]| ==> steps[1..][i] == steps[i + 1];
      AbsentStep(s, steps[0], run, ws);
      StaysAbsent(Apply(s, steps[0]), steps[1..], run, ws);
    }
  }

  /** A socket that never connects to a run is never registered for it and receives nothing of it. */
  lemma NeverJoined(steps: seq<Step>, run: Run, ws: Socket)
    requires Runs(INIT, steps) && forall i :: 0 <= i < |steps| ==> !Joins(steps[i], run, ws)
    ensures ws !in Of(After(INIT, steps).conns, run) && Got(After(INIT, steps).received, run, ws) == []
  {
    hide Apply, Enabled, Joins;
    StaysAbsent(INIT, steps, run, ws);
  }
}
