/**
  What an exploration sends, logs and reports (`agent/src/runner.ts`, `runExplorationLoop`), read off its effects
  and from the answers of the world.
 */
module ExplorationTrace {
  import opened Wrappers
  import opened Exploration

  // ---------------------------------------------------------------------------
  // What is sent to the driver
  // ---------------------------------------------------------------------------

  /** The actions among the effects. */
  function ActsIn(es: seq<Effect>): seq<Effect> {
    if es == [] then [] else ActsIn(es[..|es| - 1]) + if es[|es| - 1].Act? then [es[|es| - 1]] else []
  }

  /** A decision neither ends the session nor is a click or a fill that is not allowed. */
  predicate ToBeSent(cfg: Config, d: Decision) {
    && !d.stop && d.action != "done"
    && (d.action == "click" || d.action == "fill" ==> cfg.allowStateChanging)
  }

  function ActsFor(cfg: Config, ds: seq<Decision>): seq<Effect> {
    if ds == [] then []
    else
      var d := ds[|ds| - 1];
      ActsFor(cfg, ds[..|ds| - 1]) + if ToBeSent(cfg, d) then [Act(d.action, d.args)] else []
  }

  lemma {:induction false} ActsConcat(a: seq<Effect>, b: seq<Effect>)
    ensures ActsIn(a + b) == ActsIn(a) + ActsIn(b)
  {
    if b == [] {
      assert a + b == a;
    } else {
      ActsConcat(a, b[..|b| - 1]);
      assert (a + b)[..|a + b| - 1] == a + b[..|b| - 1];
    }
  }

  lemma ActsForSnoc(cfg: Config, ds: seq<Decision>, d: Decision)
    ensures ActsFor(cfg, ds + [d]) == ActsFor(cfg, ds) + if ToBeSent(cfg, d) then [Act(d.action, d.args)] else []
  {
    assert (ds + [d])[..|ds|] == ds;
  }

  /** A step's effects hold one action at most, the third. */
  lemma ActsOfFew(es: seq<Effect>)
    requires |es| <= 4 && forall i :: 0 <= i < |es| && i != 2 ==> !es[i].Act?
    ensures ActsIn(es) == if |es| > 2 && es[2].Act? then [es[2]] else []
  {
    if |es| > 2 {
      assert es[..|es| - 1][..2] == es[..2];
      ActsOfPair(es[..2]);
    } else {
      ActsOfPair(es);
    }
  }

  lemma ActsOfPair(es: seq<Effect>)
    requires |es| <= 2 && forall i :: 0 <= i < |es| ==> !es[i].Act?
    ensures ActsIn(es) == []
  {
  }

  lemma RoundSends(cfg: Config, w: World, before: seq<Round>, r: Round)
    requires RoundAfter(cfg, w, before, r)
    ensures ActsIn(StepEffects(Decisions(before), |before|, r))
         == if ToBeSent(cfg, r.decision) then [Act(r.decision.action, r.decision.args)] else []
  {
    hide Unseen, Decisions, ActsIn, StepEffects;
    StepSends(Decisions(before), |before|, r);
  }

  lemma StepSends(history: seq<Decision>, n: nat, r: Round)
    ensures ActsIn(StepEffects(history, n, r))
         == if r.result.Some? then [Act(r.decision.action, r.decision.args)] else []
  {
    hide ActsIn;
    var es := StepEffects(history, n, r);
    assert |es| == if r.result.Some? then 4 else 3;
    ActsOfFew(es);
  }

  lemma {:induction false} RoundsSend(cfg: Config, w: World, rounds: seq<Round>)
    requires Rounds(cfg, w, rounds)
    ensures ActsIn(RoundEffects(rounds)) == ActsFor(cfg, Decisions(rounds))
  {
    if rounds == [] {
      NoActs(cfg);
    } else {
      hide *;
      var n := |rounds| - 1;
      LastRound(cfg, w, rounds);
      RoundsSend(cfg, w, rounds[..n]);
      RoundSends(cfg, w, rounds[..n], rounds[n]);
      ActsConcat(RoundEffects(rounds[..n]), StepEffects(Decisions(rounds[..n]), n, rounds[n]));
      DecisionsSnoc(rounds);
      ActsForSnoc(cfg, Decisions(rounds[..n]), rounds[n].decision);
    }
  }

  lemma LastRound(cfg: Config, w: World, rounds: seq<Round>)
    requires Rounds(cfg, w, rounds) && rounds != []
    ensures var n := |rounds| - 1;
            && Rounds(cfg, w, rounds[..n]) && RoundAfter(cfg, w, rounds[..n], rounds[n])
            && RoundEffects(rounds) == RoundEffects(rounds[..n]) + StepEffects(Decisions(rounds[..n]), n, rounds[n])
  {
    hide RoundAfter, StepEffects, Decisions;
    var n := |rounds| - 1;
    assert forall i :: 0 <= i < n ==> rounds[..n][..i] == rounds[..i];
  }

  lemma DecisionsSnoc(rounds: seq<Round>)
    requires rounds != []
    ensures Decisions(rounds) == Decisions(rounds[..|rounds| - 1]) + [rounds[|rounds| - 1].decision]
  {
  }

  lemma EndSends(cfg: Config, w: World, rounds: seq<Round>, end: End)
    requires EndsAfter(cfg, w, rounds, end)
    ensures ActsIn(EndEffects(rounds, end)) == ActsFor(cfg, EndDecisions(end))
  {
    hide Unseen, Decisions, ActsIn, ActsFor;
    ActsOfFew(EndEffects(rounds, end));
    NoActs(cfg);
    if end.Stopped? || end.ActCrash? {
      ActsForSnoc(cfg, [], end.decision);
      assert [] + [end.decision] == [end.decision];
    }
  }

  lemma NoActs(cfg: Config)
    ensures ActsFor(cfg, []) == []
  {
  }

  lemma {:induction false} ActsForConcat(cfg: Config, a: seq<Decision>, b: seq<Decision>)
    ensures ActsFor(cfg, a + b) == ActsFor(cfg, a) + ActsFor(cfg, b)
  {
    hide ToBeSent;
    if b == [] {
      assert a + b == a;
    } else {
      ActsForConcat(cfg, a, b[..|b| - 1]);
      assert (a + b)[..|a + b| - 1] == a + b[..|b| - 1];
    }
  }

  /**
    What the driver is asked to do is exactly what the server decided, in order: every decision that does not end
    the session, except clicks and fills when state changes are not allowed.
   */
  lemma DecidedIsSent(cfg: Config, w: World, run: Run)
    requires Follows(cfg, w, run)
    ensures ActsIn(Effects(run)) == ActsFor(cfg, History(run))
  {
    hide Rounds, EndsAfter, ReportOf, RoundEffects, EndEffects, Decisions, EndDecisions, ActsIn, ActsFor;
    var last := [Close, Finalize(ReportOf(run))];
    RoundsSend(cfg, w, run.rounds);
    EndSends(cfg, w, run.rounds, run.end);
    ActsOfFew(last);
    ActsConcat(RoundEffects(run.rounds), EndEffects(run.rounds, run.end));
    ActsConcat(RoundEffects(run.rounds) + EndEffects(run.rounds, run.end), last);
    ActsForConcat(cfg, Decisions(run.rounds), EndDecisions(run.end));
    assert ActsIn(last) == [];
  }

  // ---------------------------------------------------------------------------
  // What the report says
  // ---------------------------------------------------------------------------

  /** What the driver made of an action; one that throws has failed. */
  predicate ResultLogged(acted: Acted, logged: Acted) {
    if acted.ActThrew? then logged == Result(false) else logged == acted
  }

  lemma {:induction false} EntryAt(rounds: seq<Round>, k: nat)
    requires k < |rounds|
    ensures RoundEntries(rounds)[k] == RoundEntry(k, rounds[k])
  {
    hide RoundEntry;
    if k < |rounds| - 1 {
      EntryAt(rounds[..|rounds| - 1], k);
    }
  }

  /** Entry `k` of the log is about step `k`: a forbidden action was skipped, any other one had its result. */
  lemma LogTells(cfg: Config, w: World, run: Run, k: nat)
    requires Follows(cfg, w, run) && k < ReportOf(run).stepsTaken
    ensures k < |History(run)| && k < |ReportOf(run).log|
    ensures var d, e := History(run)[k], ReportOf(run).log[k];
            if ToBeSent(cfg, d) then
              && e.ActEntry? && e.step == k && e.action == d.action && e.args == d.args
              && ResultLogged(w.act(k, d.action, d.args), e.result)
            else e == SkipEntry(k, d.action, d.args)
  {
    hide Unseen, Decisions, RoundEntries, EndsAfter;
    EntryAt(run.rounds, k);
    DecisionAt(run.rounds, k);
    assert RoundAfter(cfg, w, run.rounds[..k], run.rounds[k]);
  }

  lemma {:induction false} DecisionAt(rounds: seq<Round>, k: nat)
    requires k < |rounds|
    ensures Decisions(rounds)[k] == rounds[k].decision
  {
    if k < |rounds| - 1 {
      DecisionAt(rounds[..|rounds| - 1], k);
    }
  }

  /** A page with the signature of step `n` was already decided on. */
  ghost predicate SeenBefore(w: World, n: nat, o: Obs) {
    exists i: nat :: i < n && w.observe(i).Observation? && Signature(w.observe(i).obs) == Signature(o)
  }

  /** What the world answers after `n` steps, and the reason it is reported as. */
  ghost predicate EndsWith(cfg: Config, w: World, n: nat, history: seq<Decision>, reason: string) {
    var seen, decided := w.observe(n), w.decide(n, history);
    if n > 0 && w.emitThrows(n - 1) then reason == "error"
    else if n >= cfg.maxSteps then reason == "maxSteps"
    else if seen.ObserveThrew? then reason == "error"
    else if seen.NoObservation? || !seen.obs.ok then reason == "observe-error"
    else if SeenBefore(w, n, seen.obs) then reason == "repeat"
    else if decided.DecideThrew? then reason == "decide-error"
    else if decided.NoDecision? then reason == "error"
    else
      var d := decided.decision;
      && (d.action == "done" ==> reason == "done")
      && (d.action != "done" && d.stop && d.stopReason != "" ==> reason == d.stopReason)
      && (d.action != "done" && d.stop && d.stopReason == "" ==> reason == "stop")
      && (d.action != "done" && !d.stop ==>
            reason == "error" && ToBeSent(cfg, d) && w.act(n, d.action, d.args).NoResult?)
  }

  lemma SeenInRounds(cfg: Config, w: World, rounds: seq<Round>, o: Obs)
    requires Rounds(cfg, w, rounds)
    ensures Unseen(o, rounds) <==> !SeenBefore(w, |rounds|, o)
  {
    hide Signature, Stops, Gated, Decisions, Unseen;
    forall i: nat | i < |rounds|
      ensures w.observe(i) == Observation(rounds[i].obs)
    {
      assert RoundAfter(cfg, w, rounds[..i], rounds[i]);
    }
    UnseenExactly(o, rounds);
  }

  lemma UnseenExactly(o: Obs, rounds: seq<Round>)
    ensures Unseen(o, rounds) <==> forall i :: 0 <= i < |rounds| ==> Signature(rounds[i].obs) != Signature(o)
  {
    hide Signature;
    assert forall i :: 0 <= i < |rounds| ==> rounds[i] in rounds;
  }

  /** The reported reason is the one of the answer that ended the session. */
  lemma StopReasonTells(cfg: Config, w: World, run: Run)
    requires Follows(cfg, w, run)
    ensures var n := ReportOf(run).stepsTaken;
            n <= |History(run)| && EndsWith(cfg, w, n, History(run)[..n], ReportOf(run).stopReason)
  {
    hide Unseen, Rounds, RoundEntries, Discoveries, Decisions, SeenBefore;
    var rounds := run.rounds;
    assert History(run)[..|rounds|] == Decisions(rounds);
    if w.observe(|rounds|).Observation? {
      SeenInRounds(cfg, w, rounds, w.observe(|rounds|).obs);
    }
  }

  /** Pages with addresses of one length have the same signature only if they show the same. */
  lemma SignatureTells(o: Obs, p: Obs)
    requires |o.url| == |p.url|
    ensures Signature(o) == Signature(p) <==> o.url == p.url && o.a11y == p.a11y
  {
    var s, t := Signature(o), Signature(p);
    assert s[..|o.url|] == o.url && t[..|p.url|] == p.url;
    assert s[|o.url| + 2..] == o.a11y && t[|p.url| + 2..] == p.a11y;
  }
}
