/**
  The exploration loop of the Local Agent (`agent/src/runner.ts`, `runExplorationLoop`): observe the page,
  let the server decide, act. Driver, server and event sink are a `World` that may answer anything or throw.
 */
module Exploration {
  import opened Wrappers

  /** Fields of a decision's arguments; "" when absent. */
  datatype Args = Args(url: string, testId: string, role: string, name: string, selector: string)

  datatype Obs = Obs(ok: bool, url: string, path: string, a11y: string)

  datatype Decision = Decision(action: string, args: Args, reasoning: string, stop: bool, stopReason: string)

  datatype Observed = ObserveThrew | NoObservation | Observation(obs: Obs)

  /** `NoDecision` and `NoResult` are answers that are not objects, such as a JSON `null`. */
  datatype Decided = DecideThrew | NoDecision | Chosen(decision: Decision)

  datatype Acted = ActThrew | NoResult | Result(ok: bool)

  datatype World = World(
    observe: nat -> Observed,
    decide: (nat, seq<Decision>) -> Decided,
    act: (nat, string, Args) -> Acted,
    emitThrows: nat -> bool)

  datatype Config = Config(maxSteps: int, allowStateChanging: bool)

  datatype Selector = Selector(action: string, strategy: string, value: string, name: string)

  datatype Discovered = Discovered(routes: seq<string>, selectors: seq<Selector>)

  datatype Entry =
    | ObserveFailed(step: nat)
    | Repeated(step: nat, url: string)
    | DecideFailed(step: nat)
    | StopEntry(step: nat, action: string, reason: string)
    | SkipEntry(step: nat, action: string, args: Args)
    | ActEntry(step: nat, action: string, args: Args, result: Acted)
    | LoopFailed

  datatype Report = Report(discovered: Discovered, log: seq<Entry>, stopReason: string, stepsTaken: nat)

  /** What the loop asks of the world, in order. */
  datatype Effect =
    | Observe
    | Decide(history: seq<Decision>, stepsTaken: nat)
    | Act(action: string, args: Args)
    | Progress(stepsTaken: nat)
    | Close
    | Finalize(report: Report)

  // ---------------------------------------------------------------------------
  // Decisions
  // ---------------------------------------------------------------------------

  function Signature(o: Obs): string {
    o.url + "::" + o.a11y
  }

  predicate Gated(cfg: Config, d: Decision) {
    (d.action == "click" || d.action == "fill") && !cfg.allowStateChanging
  }

  predicate Stops(d: Decision) {
    d.stop || d.action == "done"
  }

  function StopReason(d: Decision): string {
    if d.action == "done" then "done" else if d.stopReason != "" then d.stopReason else "stop"
  }

  function DescribeSelector(action: string, a: Args): Option<Selector> {
    if a.testId != "" then Some(Selector(action, "testId", a.testId, ""))
    else if a.role != "" then Some(Selector(action, "role", a.role, a.name))
    else if a.selector != "" then Some(Selector(action, "selector", a.selector, ""))
    else None
  }

  function Route(d: Decision, o: Obs): string {
    if d.args.url != "" then d.args.url else if o.path != "" then o.path else o.url
  }

  // ---------------------------------------------------------------------------
  // What a run is allowed to be
  // ---------------------------------------------------------------------------

  /** A completed step: `result` is `None` when the action was gated. */
  datatype Round = Round(obs: Obs, decision: Decision, result: Option<Acted>)

  datatype End =
    | MaxSteps
    | EmitFailed
    | ObserveError
    | ObserveCrash
    | Repeat(obs: Obs)
    | DecideError
    | DecideCrash
    | Stopped(decision: Decision)
    | ActCrash(decision: Decision)

  datatype Run = Run(rounds: seq<Round>, end: End)

  function Decisions(rounds: seq<Round>): (r: seq<Decision>)
    ensures |r| == |rounds|
  {
    if rounds == [] then [] else Decisions(rounds[..|rounds| - 1]) + [rounds[|rounds| - 1].decision]
  }

  /** The pages that the steps so far asked a decision for. */
  function Signatures(rounds: seq<Round>): set<string> {
    set r <- rounds :: Signature(r.obs)
  }

  predicate Unseen(o: Obs, rounds: seq<Round>) {
    Signature(o) !in Signatures(rounds)
  }

  /** The world showed a new page at step `n` and the server chose `d` there. */
  predicate Offered(w: World, before: seq<Round>, o: Obs, d: Decision) {
    var n := |before|;
    && w.observe(n) == Observation(o) && o.ok && Unseen(o, before)
    && w.decide(n, Decisions(before)) == Chosen(d)
  }

  predicate RoundAfter(cfg: Config, w: World, before: seq<Round>, r: Round) {
    && |before| < cfg.maxSteps
    && (before != [] ==> !w.emitThrows(|before| - 1))
    && Offered(w, before, r.obs, r.decision) && !Stops(r.decision)
    && (if Gated(cfg, r.decision) then r.result.None?
        else r.result == Some(w.act(|before|, r.decision.action, r.decision.args)) && r.result != Some(NoResult))
  }

  predicate EndsAfter(cfg: Config, w: World, rounds: seq<Round>, end: End) {
    var n := |rounds|;
    if rounds != [] && w.emitThrows(n - 1) then end == EmitFailed
    else if n >= cfg.maxSteps then end == MaxSteps
    else
      match w.observe(n)
      case ObserveThrew => end == ObserveCrash
      case NoObservation => end == ObserveError
      case Observation(o) =>
        if !o.ok then end == ObserveError
        else if !Unseen(o, rounds) then end == Repeat(o)
        else
          match w.decide(n, Decisions(rounds))
          case DecideThrew => end == DecideError
          case NoDecision => end == DecideCrash
          case Chosen(d) =>
            if Stops(d) then end == Stopped(d)
            else !Gated(cfg, d) && w.act(n, d.action, d.args) == NoResult && end == ActCrash(d)
  }

  ghost predicate Rounds(cfg: Config, w: World, rounds: seq<Round>) {
    forall i :: 0 <= i < |rounds| ==> RoundAfter(cfg, w, rounds[..i], rounds[i])
  }

  ghost predicate Follows(cfg: Config, w: World, run: Run) {
    Rounds(cfg, w, run.rounds) && EndsAfter(cfg, w, run.rounds, run.end)
  }

  // ---------------------------------------------------------------------------
  // What a run leaves behind
  // ---------------------------------------------------------------------------

  /** What a step adds: the route or selector of an action that was executed and reported ok. */
  function Found(d: Decision, o: Obs, result: Option<Acted>, f: Discovered): Discovered {
    if result != Some(Result(true)) then f
    else if d.action == "goto" then
      (if Route(d, o) != "" then f.(routes := f.routes + [Route(d, o)]) else f)
    else
      match DescribeSelector(d.action, d.args)
      case None => f
      case Some(sel) => f.(selectors := f.selectors + [sel])
  }

  function Discoveries(rounds: seq<Round>): Discovered {
    if rounds == [] then Discovered([], [])
    else
      var r := rounds[|rounds| - 1];
      Found(r.decision, r.obs, r.result, Discoveries(rounds[..|rounds| - 1]))
  }

  /** A driver that throws is an action that failed. */
  function Settle(a: Acted): Acted {
    if a == ActThrew then Result(false) else a
  }

  function RoundEntry(step: nat, r: Round): Entry {
    if r.result.None? then SkipEntry(step, r.decision.action, r.decision.args)
    else ActEntry(step, r.decision.action, r.decision.args, Settle(r.result.value))
  }

  function RoundEntries(rounds: seq<Round>): (l: seq<Entry>)
    ensures |l| == |rounds|
  {
    if rounds == [] then []
    else RoundEntries(rounds[..|rounds| - 1]) + [RoundEntry(|rounds| - 1, rounds[|rounds| - 1])]
  }

  function EndEntries(step: nat, end: End): seq<Entry> {
    match end
    case MaxSteps => []
    case ObserveError => [ObserveFailed(step)]
    case Repeat(o) => [Repeated(step, o.url)]
    case DecideError => [DecideFailed(step)]
    case Stopped(d) => [StopEntry(step, d.action, StopReason(d))]
    case ActCrash(d) => [ActEntry(step, d.action, d.args, NoResult), LoopFailed]
    case _ => [LoopFailed]
  }

  function EndReason(end: End): string {
    match end
    case MaxSteps => "maxSteps"
    case ObserveError => "observe-error"
    case Repeat(_) => "repeat"
    case DecideError => "decide-error"
    case Stopped(d) => StopReason(d)
    case _ => "error"
  }

  /** Decisions that reached the history without their step being completed. */
  function EndDecisions(end: End): seq<Decision> {
    if end.Stopped? || end.ActCrash? then [end.decision] else []
  }

  function ReportOf(run: Run): Report {
    Report(Discoveries(run.rounds), RoundEntries(run.rounds) + EndEntries(|run.rounds|, run.end), EndReason(run.end),
           |run.rounds|)
  }

  /** What step `n` asks until its action is done: nothing is sent to the driver for a gated one. */
  function Sent(history: seq<Decision>, n: nat, d: Decision, acted: bool): seq<Effect> {
    if acted then [Observe, Decide(history, n), Act(d.action, d.args)] else [Observe, Decide(history, n)]
  }

  function StepEffects(history: seq<Decision>, n: nat, r: Round): seq<Effect> {
    Sent(history, n, r.decision, r.result.Some?) + [Progress(n + 1)]
  }

  function RoundEffects(rounds: seq<Round>): seq<Effect> {
    if rounds == [] then []
    else
      var before, n := rounds[..|rounds| - 1], |rounds| - 1;
      RoundEffects(before) + StepEffects(Decisions(before), n, rounds[n])
  }

  function EndEffects(rounds: seq<Round>, end: End): seq<Effect> {
    match end
    case MaxSteps => []
    case EmitFailed => []
    case ObserveError => [Observe]
    case ObserveCrash => [Observe]
    case Repeat(_) => [Observe]
    case ActCrash(d) => Sent(Decisions(rounds), |rounds|, d, true)
    case _ => [Observe, Decide(Decisions(rounds), |rounds|)]
  }

  // ---------------------------------------------------------------------------
  // The loop
  // ---------------------------------------------------------------------------

  lemma NoRounds(cfg: Config, w: World)
    ensures Rounds(cfg, w, []) && Signatures([]) == {} && Decisions([]) == []
    ensures Discoveries([]) == Discovered([], []) && RoundEntries([]) == [] && RoundEffects([]) == []
  {
  }

  lemma CompletedRound(cfg: Config, w: World, before: seq<Round>, r: Round)
    requires |before| < cfg.maxSteps && (before != [] ==> !w.emitThrows(|before| - 1))
    requires Offered(w, before, r.obs, r.decision) && !Stops(r.decision)
    requires r.result == if Gated(cfg, r.decision) then None
                         else Some(w.act(|before|, r.decision.action, r.decision.args))
    requires r.result != Some(NoResult)
    ensures RoundAfter(cfg, w, before, r)
  {
    hide Offered, Stops, Gated;
  }

  /** What one more step adds to everything that is accumulated. */
  lemma AddRound(cfg: Config, w: World, before: seq<Round>, r: Round)
    requires Rounds(cfg, w, before) && RoundAfter(cfg, w, before, r)
    ensures var after := before + [r];
            && Rounds(cfg, w, after)
            && Signatures(after) == Signatures(before) + {Signature(r.obs)}
            && Decisions(after) == Decisions(before) + [r.decision]
            && Discoveries(after) == Found(r.decision, r.obs, r.result, Discoveries(before))
            && RoundEntries(after) == RoundEntries(before) + [RoundEntry(|before|, r)]
            && RoundEffects(after) == RoundEffects(before) + StepEffects(Decisions(before), |before|, r)
  {
    hide *;
    RoundsExtended(cfg, w, before, r);
    SignaturesAccumulated(before, r);
    Accumulated(before, r);
    EntriesAccumulated(before, r);
    EffectsAccumulated(before, r);
  }

  lemma RoundsExtended(cfg: Config, w: World, before: seq<Round>, r: Round)
    requires Rounds(cfg, w, before) && RoundAfter(cfg, w, before, r)
    ensures Rounds(cfg, w, before + [r])
  {
    hide RoundAfter;
    var after := before + [r];
    forall i | 0 <= i < |after|
      ensures RoundAfter(cfg, w, after[..i], after[i])
    {
      assert after[..|before|] == before;
      if i < |before| {
        assert RoundAfter(cfg, w, before[..i], before[i]);
        assert after[..i] == before[..i];
      }
    }
  }

  lemma Accumulated(before: seq<Round>, r: Round)
    ensures Decisions(before + [r]) == Decisions(before) + [r.decision]
    ensures Discoveries(before + [r]) == Found(r.decision, r.obs, r.result, Discoveries(before))
  {
    hide Route, DescribeSelector;
    assert (before + [r])[..|before|] == before;
  }

  lemma EntriesAccumulated(before: seq<Round>, r: Round)
    ensures RoundEntries(before + [r]) == RoundEntries(before) + [RoundEntry(|before|, r)]
  {
    hide RoundEntry;
    assert (before + [r])[..|before|] == before;
  }

  lemma EffectsAccumulated(before: seq<Round>, r: Round)
    ensures RoundEffects(before + [r]) == RoundEffects(before) + StepEffects(Decisions(before), |before|, r)
  {
    hide Decisions, StepEffects;
    assert (before + [r])[..|before|] == before;
  }

  lemma SignaturesAccumulated(before: seq<Round>, r: Round)
    ensures Signatures(before + [r]) == Signatures(before) + {Signature(r.obs)}
  {
    hide Signature;
    assert forall x :: x in before + [r] <==> x in before || x == r;
  }

  /** A gated action is recorded as skipped; any other one is sent to the driver. */
  method Perform(cfg: Config, w: World, step: nat, d: Decision) returns (result: Option<Acted>, entry: Entry)
    ensures result == if Gated(cfg, d) then None else Some(w.act(step, d.action, d.args))
    ensures forall o :: entry == RoundEntry(step, Round(o, d, result))
    ensures result == Some(NoResult) ==> entry == ActEntry(step, d.action, d.args, NoResult)
  {
    result, entry := None, SkipEntry(step, d.action, d.args);
    if !Gated(cfg, d) {
      var acted := w.act(step, d.action, d.args);
      result, entry := Some(acted), ActEntry(step, d.action, d.args, Settle(acted));
    }
  }

  method Explore(cfg: Config, w: World) returns (history: seq<Decision>, effects: seq<Effect>, run: Run)
    ensures Follows(cfg, w, run)
    ensures history == Decisions(run.rounds) + EndDecisions(run.end)
    ensures effects == RoundEffects(run.rounds) + EndEffects(run.rounds, run.end) + [Close, Finalize(ReportOf(run))]
  {
    hide Signatures, Gated, Stops, StopReason, Found, RoundEntry, Settle, Signature, Rounds;
    hide EndReason, Sent, Decisions, Discoveries, RoundEntries, RoundEffects, RoundAfter;
    NoRounds(cfg, w);
    history, effects := [], [];
    var log: seq<Entry>, discovered := [], Discovered([], []);
    var seen: set<string> := {};
    var end, stepsTaken := MaxSteps, 0;
    var sent: seq<Effect>, last: seq<Entry> := [], [];
    var rounds: seq<Round> := [];
    var step: nat := 0;
    while step < cfg.maxSteps
      invariant step == stepsTaken == |rounds| && Rounds(cfg, w, rounds)
      invariant rounds != [] ==> !w.emitThrows(|rounds| - 1)
      invariant history == Decisions(rounds) && discovered == Discoveries(rounds) && log == RoundEntries(rounds)
      invariant effects == RoundEffects(rounds) && seen == Signatures(rounds)
      invariant end == MaxSteps && sent == [] && last == []
      decreases cfg.maxSteps - step
    {
      sent := [Observe];
      var observed := w.observe(step);
      if observed.ObserveThrew? {
        last, end := [LoopFailed], ObserveCrash;
        break;
      }
      if observed.NoObservation? || !observed.obs.ok {
        last, end := [ObserveFailed(step)], ObserveError;
        break;
      }
      var obs := observed.obs;
      if Signature(obs) in seen {
        last, end := [Repeated(step, obs.url)], Repeat(obs);
        break;
      }
      seen := seen + {Signature(obs)};
      sent := [Observe, Decide(history, stepsTaken)];
      var decided := w.decide(step, history);
      if decided.DecideThrew? {
        last, end := [DecideFailed(step)], DecideError;
        break;
      }
      if decided.NoDecision? {
        last, end := [LoopFailed], DecideCrash;
        break;
      }
      var d := decided.decision;
      var asked := history;
      history := history + [d];
      if Stops(d) {
        last, end := [StopEntry(step, d.action, StopReason(d))], Stopped(d);
        break;
      }
      var result, entry := Perform(cfg, w, step, d);
      sent := Sent(asked, step, d, result.Some?);
      if result == Some(NoResult) {
        last, end := [entry, LoopFailed], ActCrash(d);
        break;
      }
      discovered := Found(d, obs, result, discovered);
      stepsTaken := stepsTaken + 1;
      effects, log, sent := effects + (sent + [Progress(stepsTaken)]), log + [entry], [];
      var r := Round(obs, d, result);
      AddRound(cfg, w, rounds, r) by { assert RoundAfter(cfg, w, rounds, r) by { CompletedRound(cfg, w, rounds, r); } }
      rounds := rounds + [r];
      if w.emitThrows(step) {
        last, end := [LoopFailed], EmitFailed;
        break;
      }
      step := step + 1;
    }
    run := Run(rounds, end);
    var report := Report(discovered, log + last, EndReason(end), stepsTaken);
    effects := effects + sent + [Close, Finalize(report)];
  }

  // ---------------------------------------------------------------------------
  // What every run keeps
  // ---------------------------------------------------------------------------

  function History(run: Run): seq<Decision> {
    Decisions(run.rounds) + EndDecisions(run.end)
  }

  function Effects(run: Run): seq<Effect> {
    RoundEffects(run.rounds) + EndEffects(run.rounds, run.end) + [Close, Finalize(ReportOf(run))]
  }

  /** The world's answers leave the loop no choice. */
  lemma OneRun(cfg: Config, w: World, r1: Run, r2: Run)
    requires Follows(cfg, w, r1) && Follows(cfg, w, r2)
    ensures r1 == r2
  {
    hide RoundAfter, EndsAfter;
    var n := if |r1.rounds| <= |r2.rounds| then |r1.rounds| else |r2.rounds|;
    SameRounds(cfg, w, r1.rounds, r2.rounds, n);
    assert r1.rounds[..|r1.rounds|] == r1.rounds && r2.rounds[..|r2.rounds|] == r2.rounds;
    if |r1.rounds| < |r2.rounds| {
      EndOrRound(cfg, w, r1.rounds, r1.end, r2.rounds[n]);
    } else if |r2.rounds| < |r1.rounds| {
      EndOrRound(cfg, w, r2.rounds, r2.end, r1.rounds[n]);
    } else {
      OneEnd(cfg, w, r1.rounds, r1.end, r2.end);
    }
  }

  lemma EndOrRound(cfg: Config, w: World, rounds: seq<Round>, end: End, r: Round)
    ensures !(EndsAfter(cfg, w, rounds, end) && RoundAfter(cfg, w, rounds, r))
  {
    hide Unseen, Decisions, Gated, Stops;
  }

  lemma OneEnd(cfg: Config, w: World, rounds: seq<Round>, e1: End, e2: End)
    requires EndsAfter(cfg, w, rounds, e1) && EndsAfter(cfg, w, rounds, e2)
    ensures e1 == e2
  {
    hide Unseen, Decisions, Gated, Stops;
  }

  lemma {:induction false} SameRounds(cfg: Config, w: World, r1: seq<Round>, r2: seq<Round>, n: nat)
    requires Rounds(cfg, w, r1) && Rounds(cfg, w, r2) && n <= |r1| && n <= |r2|
    ensures r1[..n] == r2[..n]
  {
    hide Unseen, Decisions, Gated, Stops;
    if n > 0 {
      SameRounds(cfg, w, r1, r2, n - 1);
      assert RoundAfter(cfg, w, r1[..n - 1], r1[n - 1]) && RoundAfter(cfg, w, r2[..n - 1], r2[n - 1]);
      assert r1[..n] == r1[..n - 1] + [r1[n - 1]] && r2[..n] == r2[..n - 1] + [r2[n - 1]];
    }
  }

  /** No click and no fill reaches the driver when state changes are not allowed. */
  lemma NothingForbiddenSent(cfg: Config, w: World, run: Run, e: Effect)
    requires Follows(cfg, w, run) && !cfg.allowStateChanging
    requires e in Effects(run) && e.Act?
    ensures e.action != "click" && e.action != "fill"
  {
    hide Unseen, Decisions, Stops, Signatures, RoundEffects;
    if e in RoundEffects(run.rounds) { ActsAllowed(cfg, w, run.rounds, e); }
  }

  lemma {:induction false} ActsAllowed(cfg: Config, w: World, rounds: seq<Round>, e: Effect)
    requires Rounds(cfg, w, rounds) && e in RoundEffects(rounds) && e.Act?
    ensures exists d :: !Gated(cfg, d) && e == Act(d.action, d.args)
  {
    hide Unseen, Decisions, Stops, Signatures, Gated;
    if rounds != [] {
      var n := |rounds| - 1;
      assert RoundAfter(cfg, w, rounds[..n], rounds[n]);
      if e in RoundEffects(rounds[..n]) {
        assert forall i :: 0 <= i < n ==> rounds[..n][..i] == rounds[..i];
        ActsAllowed(cfg, w, rounds[..n], e);
      }
    }
  }

  /** How many decisions the server was asked for. */
  function Asked(run: Run): nat {
    var last := run.end.DecideError? || run.end.DecideCrash? || run.end.Stopped? || run.end.ActCrash?;
    |run.rounds| + if last then 1 else 0
  }

  /** At most `maxSteps` decisions, each for a page whose signature no other decision was asked for. */
  lemma NoPageTwice(cfg: Config, w: World, run: Run)
    requires Follows(cfg, w, run)
    ensures Asked(run) <= if cfg.maxSteps > 0 then cfg.maxSteps else 0
    ensures forall j: nat :: j < Asked(run) ==> w.observe(j).Observation?
    ensures forall i: nat, j: nat :: i < j < Asked(run) ==> Signature(w.observe(i).obs) != Signature(w.observe(j).obs)
  {
    hide Decisions, Gated, Stops, Signature;
    var rounds := run.rounds;
    assert rounds != [] ==> RoundAfter(cfg, w, rounds[..|rounds| - 1], rounds[|rounds| - 1]);
    forall j: nat | j < Asked(run)
      ensures w.observe(j).Observation? && Unseen(w.observe(j).obs, rounds[..j])
      ensures j < |rounds| ==> w.observe(j).obs == rounds[j].obs
    {
      if j < |rounds| {
        assert RoundAfter(cfg, w, rounds[..j], rounds[j]);
      } else {
        assert rounds[..j] == rounds;
      }
    }
    forall i: nat, j: nat | i < j < Asked(run)
      ensures Signature(w.observe(i).obs) != Signature(w.observe(j).obs)
    {
      assert rounds[..j][i] == rounds[i];
      assert Signature(rounds[i].obs) in Signatures(rounds[..j]);
    }
  }

  /** The k-th request is made once and carries exactly the k decisions made before it; there are no others. */
  lemma EachAskCarriesHistory(run: Run, e: Effect)
    requires e.Decide?
    ensures Asked(run) <= |History(run)| + 1
    ensures Times(Effects(run), e)
         == if e.stepsTaken < Asked(run) && e.history == History(run)[..e.stepsTaken] then 1 else 0
  {
    hide RoundEffects, ReportOf, Decisions, Times;
    var rounds, last := run.rounds, [Close, Finalize(ReportOf(run))];
    AskedInRounds(rounds, e);
    if e.stepsTaken <= |rounds| { DecisionsPrefix(rounds, e.stepsTaken); }
    assert rounds[..|rounds|] == rounds;
    CountAsks(last, e);
    CountConcat(RoundEffects(rounds), EndEffects(rounds, run.end), e);
    CountConcat(RoundEffects(rounds) + EndEffects(rounds, run.end), last, e);
    AskedAtEnd(run, e);
    assert e.stepsTaken <= |rounds| ==> History(run)[..e.stepsTaken] == Decisions(rounds)[..e.stepsTaken];
  }

  lemma AskedAtEnd(run: Run, e: Effect)
    requires e.Decide?
    ensures Times(EndEffects(run.rounds, run.end), e)
         == if Asked(run) > |run.rounds| && e == Decide(Decisions(run.rounds), |run.rounds|) then 1 else 0
  {
    hide Decisions, Times;
    CountAsks(EndEffects(run.rounds, run.end), e);
  }

  lemma {:induction false} DecisionsPrefix(rounds: seq<Round>, k: nat)
    requires k <= |rounds|
    ensures Decisions(rounds[..k]) == Decisions(rounds)[..k]
  {
    if k < |rounds| {
      var before := rounds[..|rounds| - 1];
      DecisionsPrefix(before, k);
      assert before[..k] == rounds[..k];
    } else {
      assert rounds[..k] == rounds;
    }
  }

  lemma {:induction false} AskedInRounds(rounds: seq<Round>, e: Effect)
    requires e.Decide?
    ensures Times(RoundEffects(rounds), e)
         == if e.stepsTaken < |rounds| && e.history == Decisions(rounds[..e.stepsTaken]) then 1 else 0
  {
    hide Decisions;
    if rounds != [] {
      hide RoundEffects, Times;
      var n := |rounds| - 1;
      AskedInRounds(rounds[..n], e);
      assert e.stepsTaken < n ==> rounds[..n][..e.stepsTaken] == rounds[..e.stepsTaken];
      RoundAsksOnce(rounds, e);
    }
  }

  /** How often `e` occurs. */
  function Times(es: seq<Effect>, e: Effect): nat {
    if es == [] then 0 else Times(es[..|es| - 1], e) + if es[|es| - 1] == e then 1 else 0
  }

  lemma {:induction false} CountConcat(a: seq<Effect>, b: seq<Effect>, e: Effect)
    ensures Times(a + b, e) == Times(a, e) + Times(b, e)
  {
    if b == [] {
      assert a + b == a;
    } else {
      CountConcat(a, b[..|b| - 1], e);
      assert (a + b)[..|a + b| - 1] == a + b[..|b| - 1];
    }
  }

  lemma CountAsks(es: seq<Effect>, e: Effect)
    requires e.Decide? && |es| <= 4 && forall i :: 0 <= i < |es| && i != 1 ==> !es[i].Decide?
    ensures Times(es, e) == if |es| > 1 && es[1] == e then 1 else 0
  {
  }

  lemma RoundAsksOnce(rounds: seq<Round>, e: Effect)
    requires rounds != [] && e.Decide?
    ensures var n := |rounds| - 1;
            Times(RoundEffects(rounds), e)
            == Times(RoundEffects(rounds[..n]), e) + if e == Decide(Decisions(rounds[..n]), n) then 1 else 0
  {
    hide Decisions, Times;
    var n := |rounds| - 1;
    var step := StepEffects(Decisions(rounds[..n]), n, rounds[n]);
    CountConcat(RoundEffects(rounds[..n]), step, e);
    CountAsks(step, e);
  }

  /** What the world answered after `n` steps: a decision that stops, or one whose action got no object back. */
  predicate DecisionLeftOver(cfg: Config, w: World, n: nat, history: seq<Decision>) {
    var decided := w.decide(n, history);
    && decided.Chosen?
    && (Stops(decided.decision)
        || (!Gated(cfg, decided.decision) && w.act(n, decided.decision.action, decided.decision.args) == NoResult))
  }

  /**
    The history is as long as the steps taken, or one longer: exactly when the server was asked once more, and
    answered with a decision that stops, or with an action that the driver answered with something that is not
    an object.
   */
  lemma HistoryLength(cfg: Config, w: World, run: Run)
    requires Follows(cfg, w, run)
    ensures var n := ReportOf(run).stepsTaken;
            var leftOver := Asked(run) == n + 1 && DecisionLeftOver(cfg, w, n, History(run)[..n]);
            |History(run)| == if leftOver then n + 1 else n
  {
    hide Unseen, Gated, Stops, Rounds;
    var rounds := run.rounds;
    assert History(run)[..|rounds|] == Decisions(rounds);
  }

  /** How a decision's element was found: by its test id, else by its role and name, else by a selector. */
  predicate Locates(d: Decision, sel: Selector) {
    var a := d.args;
    || (a.testId != "" && sel == Selector(d.action, "testId", a.testId, ""))
    || (a.testId == "" && a.role != "" && sel == Selector(d.action, "role", a.role, a.name))
    || (a.testId == "" && a.role == "" && a.selector != "" && sel == Selector(d.action, "selector", a.selector, ""))
  }

  /** Where a `goto` led: its URL, else the path that was shown, else the address that was shown. */
  predicate LedTo(d: Decision, o: Obs, route: string) {
    route != "" && (|| route == d.args.url
                    || (d.args.url == "" && route == o.path)
                    || (d.args.url == "" && o.path == "" && route == o.url))
  }

  /** The report lists the routes and selectors of executed actions that reported ok, and no others. */
  lemma {:induction false} DiscoveredExactly(rounds: seq<Round>, sel: Selector, route: string)
    ensures sel in Discoveries(rounds).selectors <==>
              exists r <- rounds :: r.result == Some(Result(true)) && r.decision.action != "goto"
                                 && Locates(r.decision, sel)
    ensures route in Discoveries(rounds).routes <==>
              exists r <- rounds :: r.result == Some(Result(true)) && r.decision.action == "goto"
                                 && LedTo(r.decision, r.obs, route)
  {
    if rounds != [] {
      var before, r := rounds[..|rounds| - 1], rounds[|rounds| - 1];
      DiscoveredExactly(before, sel, route);
      assert rounds == before + [r];
      FoundOne(r, Discoveries(before), sel, route);
      hide Found, Locates, LedTo;
    }
  }

  lemma FoundOne(r: Round, f: Discovered, sel: Selector, route: string)
    ensures var g, ok := Found(r.decision, r.obs, r.result, f), r.result == Some(Result(true));
            && (sel in g.selectors <==>
                  sel in f.selectors || (ok && r.decision.action != "goto" && Locates(r.decision, sel)))
            && (route in g.routes <==>
                  route in f.routes || (ok && r.decision.action == "goto" && LedTo(r.decision, r.obs, route)))
  {
  }

  /** They are listed in the order of the steps. */
  lemma {:induction false} DiscoveredInOrder(a: seq<Round>, b: seq<Round>)
    ensures Discoveries(a + b).routes == Discoveries(a).routes + Discoveries(b).routes
    ensures Discoveries(a + b).selectors == Discoveries(a).selectors + Discoveries(b).selectors
  {
    hide Route, DescribeSelector;
    if b == [] {
      assert a + b == a;
    } else {
      var init := b[..|b| - 1];
      DiscoveredInOrder(a, init);
      assert (a + b)[..|a + b| - 1] == a + init;
    }
  }

  /** The driver is closed once and the report sent once, in that order, after everything else. */
  lemma FinalizedOnce(run: Run)
    ensures var es := Effects(run);
            forall i :: 0 <= i < |es| ==> (es[i].Close? <==> i == |es| - 2) && (es[i].Finalize? <==> i == |es| - 1)
  {
    hide ReportOf, RoundEffects;
    NoEarlyEnd(run.rounds);
    var early := RoundEffects(run.rounds) + EndEffects(run.rounds, run.end);
    assert forall e <- EndEffects(run.rounds, run.end) :: !e.Close? && !e.Finalize?;
    assert forall e <- early :: !e.Close? && !e.Finalize?;
    assert forall i :: 0 <= i < |early| ==> Effects(run)[i] == early[i] && early[i] in early;
  }

  lemma {:induction false} NoEarlyEnd(rounds: seq<Round>)
    ensures forall e <- RoundEffects(rounds) :: !e.Close? && !e.Finalize?
  {
    hide Decisions;
    if rounds != [] { NoEarlyEnd(rounds[..|rounds| - 1]); }
  }
}
