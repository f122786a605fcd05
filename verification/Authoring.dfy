/**
  A live-authoring session of the Local Agent (`agent/src/runner.ts`, `processAuthoringJob`): Claude passes
  that the user can pause and continue, then a bounded loop that runs the authored spec and hands Claude its
  own failure. Claude, the server and Playwright are a `World` that answers as it likes.
 */
module Authoring {
  import opened Strings
  import opened Wrappers

  const VERIFY_ATTEMPTS := 2

  datatype Job = Job(maxBudgetUsd: real, projectStaged: bool)

  /** The server's answer to a parked session; every answer other than `resume` ends the pause. */
  datatype Directive = Directive(resume: bool, remainingBudgetUsd: real, guidance: seq<string>,
                                 guidanceHistory: seq<string>)

  /** What a pass is asked to do. */
  datatype Prompt =
    | Task
    | Continue(turns: seq<string>)
    | StartOver(turns: seq<string>, remainingBudgetUsd: real)
    | Fix(run: nat)

  datatype Args = Args(prompt: Prompt, budgetUsd: real, session: Option<string>)

  /**
    What one pass did: the cost its result envelope reported (0 when it was killed before that), what it
    really spent, the session id it announced, whether a pause or a stop was asked for, and the spec file
    it left ("" when there is none).
   */
  datatype Outcome = Outcome(reported: real, spent: real, sid: Option<string>, paused: bool, aborted: bool,
                             file: string)

  datatype Pass = Pass(args: Args, outcome: Outcome)

  /** The n-th wait is answered by `directives[n]`, or by an abort once they are used up. */
  datatype World = World(
    pass: (nat, Args) -> Outcome,
    directives: seq<Directive>,
    transcript: (nat, string) -> bool,
    run: (nat, string) -> bool,
    abortedBeforeVerify: bool)

  // ---------------------------------------------------------------------------
  // Decisions
  // ---------------------------------------------------------------------------

  function NonBlank(turns: seq<string>): seq<string> {
    if turns == [] then []
    else (if Trim(turns[0]) != "" then [turns[0]] else []) + NonBlank(turns[1..])
  }

  lemma {:induction false} NonBlankMembers(turns: seq<string>)
    ensures forall t :: t in NonBlank(turns) <==> t in turns && Trim(t) != ""
  {
    hide Trim;
    if turns != [] {
      NonBlankMembers(turns[1..]);
      assert turns == [turns[0]] + turns[1..];
    }
  }

  datatype Plan = Plan(prompt: Prompt, session: Option<string>)

  /** Resume the same Claude session when its id and its transcript are there, else start afresh. */
  function PlanPass(sid: string, transcriptPresent: bool, d: Directive): Plan {
    var guidance, history := NonBlank(d.guidance), NonBlank(d.guidanceHistory);
    if sid != "" && transcriptPresent then
      var turns := if guidance != [] then guidance else history[if |history| > 0 then |history| - 1 else 0..];
      Plan(Continue(turns), Some(sid))
    else Plan(StartOver(if history != [] then history else guidance, d.remainingBudgetUsd), None)
  }

  function Verdict(hasCode: bool, verified: Option<bool>): bool {
    hasCode && verified != Some(false)
  }

  // ---------------------------------------------------------------------------
  // What a session is allowed to be
  // ---------------------------------------------------------------------------

  /** The costs reported by a number of passes. */
  function Reported(ps: seq<Pass>): real {
    if ps == [] then 0.0 else Reported(ps[..|ps| - 1]) + ps[|ps| - 1].outcome.reported
  }

  function Spent(ps: seq<Pass>): real {
    if ps == [] then 0.0 else Spent(ps[..|ps| - 1]) + ps[|ps| - 1].outcome.spent
  }

  /** The last session id announced. */
  function LastSid(ps: seq<Pass>): string {
    if ps == [] then ""
    else if ps[|ps| - 1].outcome.sid.Some? then ps[|ps| - 1].outcome.sid.value
    else LastSid(ps[..|ps| - 1])
  }

  /** The code to report: what the first of these passes left, replaced by every later file that is not blank. */
  function CodeAfter(ps: seq<Pass>): string
    requires ps != []
  {
    var last := ps[|ps| - 1].outcome.file;
    if |ps| == 1 || Trim(last) != "" then last else CodeAfter(ps[..|ps| - 1])
  }

  predicate Parked(p: Pass) {
    p.outcome.paused && !p.outcome.aborted
  }

  predicate Exhausted(job: Job, cost: real) {
    job.maxBudgetUsd > 0.0 && cost >= job.maxBudgetUsd
  }

  function FirstArgs(job: Job): Args {
    Args(Task, job.maxBudgetUsd, None)
  }

  function ResumedArgs(w: World, before: seq<Pass>, d: Directive): Args {
    var plan := PlanPass(LastSid(before), w.transcript(|before|, LastSid(before)), d);
    Args(plan.prompt, d.remainingBudgetUsd, plan.session)
  }

  function FixArgs(job: Job, w: World, before: seq<Pass>, run: nat): Args {
    var sid := LastSid(before);
    var left := job.maxBudgetUsd - Reported(before);
    Args(Fix(run), if left > 0.0 then left else 0.0,
         if sid != "" && w.transcript(|before|, sid) then Some(sid) else None)
  }

  /** All a session did: its passes, how many of them continued a pause, and its verification runs. */
  datatype Session = Session(passes: seq<Pass>, resumes: nat, runs: seq<bool>)

  predicate Made(w: World, s: Session, i: nat, args: Args)
    requires i < |s.passes|
  {
    s.passes[i] == Pass(args, w.pass(i, args))
  }

  /** Pass `i` continued the pause that pass `i - 1` was killed for. */
  predicate ResumedAt(w: World, s: Session, i: nat)
    requires 0 < i < |s.passes|
  {
    && Parked(s.passes[i - 1]) && i <= |w.directives| && w.directives[i - 1].resume
    && Made(w, s, i, ResumedArgs(w, s.passes[..i], w.directives[i - 1]))
  }

  /** Run `j`, not the first, was made after a failed one, of the file that a fix pass left. */
  predicate FixedAt(job: Job, w: World, s: Session, j: nat)
    requires 0 < j < |s.runs| && s.resumes + j < |s.passes|
  {
    var before := s.passes[..s.resumes + j];
    && !s.runs[j - 1] && !Exhausted(job, Reported(before))
    && Made(w, s, s.resumes + j, FixArgs(job, w, before, j - 1))
  }

  predicate VerifyDue(job: Job, w: World, s: Session)
    requires s.resumes < |s.passes|
  {
    Trim(s.passes[s.resumes].outcome.file) != "" && job.projectStaged && !w.abortedBeforeVerify
  }

  ghost predicate PauseLoop(job: Job, w: World, s: Session)
    requires s.resumes < |s.passes|
  {
    && Made(w, s, 0, FirstArgs(job))
    && (forall i :: 0 < i <= s.resumes ==> ResumedAt(w, s, i))
  }

  ghost predicate VerifyLoop(job: Job, w: World, s: Session)
    requires s.resumes + |s.runs| <= |s.passes|
  {
    && (forall j :: 0 <= j < |s.runs| ==> s.runs[j] == w.run(j, s.passes[s.resumes + j].outcome.file))
    && (forall j :: 0 < j < |s.runs| ==> FixedAt(job, w, s, j))
  }

  /** The pause loop is over, and so is the loop of verification runs. */
  predicate Finished(job: Job, w: World, s: Session)
    requires s.resumes < |s.passes|
  {
    && !(Parked(s.passes[s.resumes]) && s.resumes < |w.directives| && w.directives[s.resumes].resume)
    && (s.runs != [] <==> VerifyDue(job, w, s))
    && (s.runs != [] ==>
          || s.runs[|s.runs| - 1]
          || |s.runs| == VERIFY_ATTEMPTS + 1
          || Exhausted(job, Reported(s.passes)))
  }

  ghost predicate Follows(job: Job, w: World, s: Session) {
    && |s.runs| <= VERIFY_ATTEMPTS + 1
    && |s.passes| == s.resumes + (if |s.runs| == 0 then 1 else |s.runs|)
    && PauseLoop(job, w, s)
    && VerifyLoop(job, w, s)
    && Finished(job, w, s)
  }

  // ---------------------------------------------------------------------------
  // The engine
  // ---------------------------------------------------------------------------

  datatype Result = Result(code: string, verified: Option<bool>, ok: bool, costUsd: real)

  class Engine {
    const job: Job
    const world: World
    var passes: seq<Pass>
    var costUsd: real
    var claudeSessionId: string
    var pauseAsked: bool

    constructor (job: Job, world: World)
      ensures this.job == job && this.world == world
      ensures Valid() && passes == []
    {
      this.job, this.world := job, world;
      passes, costUsd, claudeSessionId, pauseAsked := [], 0.0, "", false;
    }

    ghost predicate Valid()
      reads this
    {
      && costUsd == Reported(passes)
      && claudeSessionId == LastSid(passes)
      && pauseAsked == (passes != [] && passes[|passes| - 1].outcome.paused)
    }

    method RunPass(args: Args) returns (o: Outcome)
      requires Valid()
      modifies this
      ensures Valid()
      ensures o == world.pass(old(|passes|), args)
      ensures passes == old(passes) + [Pass(args, o)]
    {
      o := world.pass(|passes|, args);
      ghost var before := passes;
      passes := passes + [Pass(args, o)];
      assert passes[..|passes| - 1] == before;
      pauseAsked := o.paused;
      if o.sid.Some? {
        claudeSessionId := o.sid.value;
      }
      costUsd := costUsd + o.reported;
    }

    /** The first pass and the passes that continue it; `resumes` of them continue a pause. */
    method RunPasses() returns (resumes: nat)
      requires Valid() && passes == []
      modifies this
      ensures Valid()
      ensures |passes| == resumes + 1 && PauseLoop(job, world, Session(passes, resumes, []))
      ensures !(Parked(passes[resumes]) && resumes < |world.directives| && world.directives[resumes].resume)
    {
      hide PlanPass, LastSid, Reported;
      var o := RunPass(FirstArgs(job));
      resumes := 0;
      while pauseAsked && !o.aborted
        invariant Valid() && |passes| == resumes + 1 && o == passes[resumes].outcome
        invariant resumes <= |world.directives|
        invariant PauseLoop(job, world, Session(passes, resumes, []))
        decreases |world.directives| - resumes
      {
        if resumes == |world.directives| || !world.directives[resumes].resume {
          return;
        }
        var d := world.directives[resumes];
        var plan := PlanPass(claudeSessionId, world.transcript(|passes|, claudeSessionId), d);
        ghost var before := Session(passes, resumes, []);
        o := RunPass(Args(plan.prompt, d.remainingBudgetUsd, plan.session));
        resumes := resumes + 1;
        ghost var after := Session(passes, resumes, []);
        assert after.passes[..resumes] == before.passes;
        assert ResumedAt(world, after, resumes);
        PauseLoopKept(before, after);
      }
    }

    lemma PauseLoopKept(before: Session, after: Session)
      requires before.resumes < |before.passes| && before.passes <= after.passes && before.runs <= after.runs
      requires before.resumes <= after.resumes <= before.resumes + 1 && after.resumes < |after.passes|
      requires PauseLoop(job, world, before)
      requires before.resumes < after.resumes ==> ResumedAt(world, after, after.resumes)
      ensures PauseLoop(job, world, after)
    {
      hide ResumedArgs, Parked;
      assert after.passes[0] == before.passes[0];
      forall i | 0 < i <= before.resumes
        ensures ResumedAt(world, after, i)
      {
        assert ResumedAt(world, before, i);
        assert after.passes[..i] == before.passes[..i];
      }
    }

    /** A failed run of the newest file is behind it; a fix pass may follow. */
    ghost predicate HasRun(s: Session) {
      && 0 < |s.runs| && |s.passes| == s.resumes + |s.runs|
      && PauseLoop(job, world, s) && VerifyLoop(job, world, s)
    }

    /** The newest pass left a file that has not been run; a fix pass was made for the last failure. */
    ghost predicate RunDue(s: Session) {
      && |s.passes| == s.resumes + |s.runs| + 1
      && PauseLoop(job, world, s) && VerifyLoop(job, world, s)
      && (s.runs != [] ==>
            var before := s.passes[..s.resumes + |s.runs|];
            && !s.runs[|s.runs| - 1] && !Exhausted(job, Reported(before))
            && Made(world, s, s.resumes + |s.runs|, FixArgs(job, world, before, |s.runs| - 1)))
    }

    lemma NothingRun(s: Session)
      requires s.runs == [] && s.resumes < |s.passes|
      ensures VerifyLoop(job, world, s)
    {
    }

    lemma RunKept(s: Session, passed: bool)
      requires RunDue(s)
      requires passed == world.run(|s.runs|, s.passes[s.resumes + |s.runs|].outcome.file)
      ensures HasRun(s.(runs := s.runs + [passed]))
    {
      hide FixArgs, Exhausted, Reported;
      var after := s.(runs := s.runs + [passed]);
      PauseLoopKept(s, after);
      forall j | 0 < j < |after.runs|
        ensures FixedAt(job, world, after, j)
      {
        if j < |s.runs| { assert FixedAt(job, world, s, j); }
      }
    }

    lemma FixKept(s: Session, p: Pass)
      requires HasRun(s) && !s.runs[|s.runs| - 1] && !Exhausted(job, Reported(s.passes))
      requires var args := FixArgs(job, world, s.passes, |s.runs| - 1);
               p == Pass(args, world.pass(|s.passes|, args))
      ensures RunDue(s.(passes := s.passes + [p]))
    {
      hide FixArgs, Exhausted, Reported;
      var after := s.(passes := s.passes + [p]);
      PauseLoopKept(s, after);
      assert after.passes[..|s.passes|] == s.passes;
      forall j | 0 < j < |s.runs|
        ensures FixedAt(job, world, after, j)
      {
        assert FixedAt(job, world, s, j);
        assert after.passes[..s.resumes + j] == s.passes[..s.resumes + j];
      }
    }

    /**
      Hand Claude the failure of run `run`, in the same session when its transcript is still there; a blank
      file does not replace the code.
     */
    method RunFix(run: nat, resumes: nat, code: string) returns (refreshed: string)
      requires Valid() && resumes < |passes| && code == CodeAfter(passes[resumes..])
      modifies this
      ensures Valid()
      ensures |passes| == old(|passes|) + 1 && passes[..|passes| - 1] == old(passes)
      ensures passes == old(passes) + [passes[|passes| - 1]]
      ensures var args := FixArgs(job, world, old(passes), run);
              passes[|passes| - 1] == Pass(args, world.pass(old(|passes|), args))
      ensures refreshed == CodeAfter(passes[resumes..])
    {
      hide CodeAfter, LastSid, Reported;
      var session := if claudeSessionId != "" && world.transcript(|passes|,
                                                                  claudeSessionId) then Some(claudeSessionId) else None;
      var left := job.maxBudgetUsd - costUsd;
      ghost var before := passes;
      var o := RunPass(Args(Fix(run), if left > 0.0 then left else 0.0, session));
      CodeStep(before[resumes..], passes[|passes| - 1]);
      assert passes[resumes..] == before[resumes..] + [passes[|passes| - 1]];
      refreshed := if Trim(o.file) != "" then o.file else code;
    }

    /** Run the spec, and hand Claude its failure while attempts and budget last. */
    method Verify(resumes: nat) returns (code: string, verified: Option<bool>, runs: seq<bool>)
      requires Valid() && |passes| == resumes + 1 && PauseLoop(job, world, Session(passes, resumes, []))
      requires !(Parked(passes[resumes]) && resumes < |world.directives| && world.directives[resumes].resume)
      modifies this
      ensures Valid()
      ensures Follows(job, world, Session(passes, resumes, runs))
      ensures code == CodeAfter(passes[resumes..])
      ensures verified == if runs == [] then None else Some(runs[|runs| - 1])
    {
      hide FixArgs, LastSid, Parked, CodeAfter, Reported, PauseLoop, VerifyLoop, Made;
      NothingRun(Session(passes, resumes, []));
      code := passes[resumes].outcome.file;
      verified, runs := None, [];
      ghost var first := passes;
      CodeOfOne(passes[resumes..]);
      if Trim(code) == "" || !job.projectStaged || world.abortedBeforeVerify {
        return;
      }
      for attempt := 0 to VERIFY_ATTEMPTS + 1
        invariant Valid() && |runs| == attempt <= VERIFY_ATTEMPTS
        invariant RunDue(Session(passes, resumes, runs))
        invariant passes[resumes] == first[resumes] && code == CodeAfter(passes[resumes..])
      {
        ghost var due := Session(passes, resumes, runs);
        var passed := world.run(attempt, passes[resumes + attempt].outcome.file);
        RunKept(due, passed);
        runs := runs + [passed];
        verified := Some(passed);
        if passed || attempt == VERIFY_ATTEMPTS || (job.maxBudgetUsd > 0.0 && costUsd >= job.maxBudgetUsd) {
          return;
        }
        ghost var before := passes;
        code := RunFix(attempt, resumes, code);
        FixKept(Session(before, resumes, runs), passes[|passes| - 1]);
      }
    }

    method Process() returns (r: Result, s: Session)
      requires Valid() && passes == []
      modifies this
      ensures Follows(job, world, s)
      ensures r.costUsd == Reported(s.passes)
      ensures r.code == CodeAfter(s.passes[s.resumes..])
      ensures r.verified == if s.runs == [] then None else Some(s.runs[|s.runs| - 1])
      ensures r.ok <==> Trim(r.code) != "" && r.verified != Some(false)
    {
      var resumes := RunPasses();
      var code, verified, runs := Verify(resumes);
      s := Session(passes, resumes, runs);
      r := Result(code, verified, Verdict(Trim(code) != "", verified), costUsd);
    }
  }

  lemma CodeOfOne(ps: seq<Pass>)
    requires |ps| == 1
    ensures CodeAfter(ps) == ps[0].outcome.file
  {
  }

  lemma CodeStep(ps: seq<Pass>, p: Pass)
    requires ps != []
    ensures CodeAfter(ps + [p]) == if Trim(p.outcome.file) != "" then p.outcome.file else CodeAfter(ps)
  {
    assert (ps + [p])[..|ps|] == ps;
  }

  // ---------------------------------------------------------------------------
  // What every session keeps
  // ---------------------------------------------------------------------------

  /** The world's answers leave the engine no choice: there is one session that follows them. */
  lemma OneSession(job: Job, w: World, s: Session, t: Session)
    requires Follows(job, w, s) && Follows(job, w, t)
    ensures s == t
  {
    hide FixArgs, ResumedArgs, Exhausted, FirstArgs, VerifyDue, VerifyLoop, PauseLoop;
    SamePauses(job, w, s, t, s.resumes);
    SamePauses(job, w, t, s, t.resumes);
    assert s.passes[..s.resumes + 1][s.resumes] == t.passes[..s.resumes + 1][s.resumes];
    SameLength(job, w, s, t);
    SameLength(job, w, t, s);
    SameRuns(job, w, s, t, |s.runs|);
    assert s.passes == s.passes[..|s.passes|] && t.passes == t.passes[..|t.passes|];
    assert s.runs == s.runs[..|s.runs|] && t.runs == t.runs[..|t.runs|];
  }

  lemma SameLength(job: Job, w: World, s: Session, t: Session)
    requires Follows(job, w, s) && Follows(job, w, t) && s.resumes == t.resumes
    ensures |s.runs| <= |t.runs|
  {
    hide FixArgs, PauseLoop, Exhausted, Parked, Made;
    var n := if |s.runs| <= |t.runs| then |s.runs| else |t.runs|;
    SameRuns(job, w, s, t, 0);
    SameRuns(job, w, s, t, n);
    assert s.passes[..s.resumes + 1][s.resumes] == t.passes[..s.resumes + 1][s.resumes];
    assert 0 < n < |s.runs| ==> FixedAt(job, w, s, n);
    assert n > 0 ==> s.runs[n - 1] == s.runs[..n][n - 1] == t.runs[..n][n - 1] == t.runs[n - 1];
    assert t.passes == t.passes[..|t.passes|];
  }

  lemma {:induction false} SamePauses(job: Job, w: World, s: Session, t: Session, i: nat)
    requires Follows(job, w, s) && Follows(job, w, t) && i <= s.resumes
    ensures i <= t.resumes && s.passes[..i + 1] == t.passes[..i + 1]
  {
    hide FixArgs, ResumedArgs, Exhausted, VerifyLoop, VerifyDue, FirstArgs;
    if i > 0 {
      SamePauses(job, w, s, t, i - 1);
      assert ResumedAt(w, s, i);
      assert s.passes[i - 1] == s.passes[..i][i - 1] == t.passes[..i][i - 1];
      if i <= t.resumes { assert ResumedAt(w, t, i); }
      assert s.passes[..i + 1] == s.passes[..i] + [s.passes[i]];
      assert t.passes[..i + 1] == t.passes[..i] + [t.passes[i]];
    }
  }

  lemma {:induction false} SameRuns(job: Job, w: World, s: Session, t: Session, n: nat)
    requires Follows(job, w, s) && Follows(job, w, t) && s.resumes == t.resumes && n <= |s.runs| && n <= |t.runs|
    ensures s.runs[..n] == t.runs[..n]
    ensures s.passes[..s.resumes + (if n == 0 then 1 else n)] == t.passes[..s.resumes + (if n == 0 then 1 else n)]
  {
    hide FixArgs, ResumedArgs, Exhausted, PauseLoop, VerifyDue, Parked, Reported;
    SamePauses(job, w, s, t, s.resumes);
    if n > 0 {
      SameRuns(job, w, s, t, n - 1);
      var i := s.resumes + n - 1;
      if n > 1 {
        assert FixedAt(job, w, s, n - 1) && FixedAt(job, w, t, n - 1);
        assert s.passes[..i + 1] == s.passes[..i] + [s.passes[i]];
        assert t.passes[..i + 1] == t.passes[..i] + [t.passes[i]];
      }
      assert s.passes[i] == s.passes[..i + 1][i] == t.passes[..i + 1][i];
      assert s.runs[..n] == s.runs[..n - 1] + [s.runs[n - 1]];
      assert t.runs[..n] == t.runs[..n - 1] + [t.runs[n - 1]];
    }
  }

  /**
    At most three runs and two fix passes; the fix passes are the last ones, and each is followed by a run of
    what it left.
   */
  lemma FixesAreRun(job: Job, w: World, s: Session)
    requires Follows(job, w, s)
    ensures |s.runs| <= 3 && |s.passes| - s.resumes - 1 <= 2
    ensures forall i :: 0 <= i < |s.passes| ==> (s.passes[i].args.prompt.Fix? <==> s.resumes < i)
    ensures forall i :: s.resumes < i < |s.passes| ==>
              && i - s.resumes < |s.runs|
              && s.runs[i - s.resumes] == w.run(i - s.resumes, s.passes[i].outcome.file)
              && s.passes[i].args.prompt == Fix(i - s.resumes - 1) && !s.runs[i - s.resumes - 1]
  {
    hide Reported, LastSid, PlanPass, Exhausted, Parked;
    forall i | 0 <= i < |s.passes|
      ensures s.passes[i].args.prompt.Fix? <==> s.resumes < i
      ensures s.resumes < i ==> s.passes[i].args.prompt == Fix(i - s.resumes - 1) && !s.runs[i - s.resumes - 1]
    {
      if s.resumes < i {
        assert FixedAt(job, w, s, i - s.resumes);
      } else if i > 0 {
        assert ResumedAt(w, s, i);
        PlanIsNoFix(LastSid(s.passes[..i]), w.transcript(i, LastSid(s.passes[..i])), w.directives[i - 1]);
      }
    }
  }

  lemma PlanIsNoFix(sid: string, present: bool, d: Directive)
    ensures !PlanPass(sid, present, d).prompt.Fix?
  {
  }

  /**
    The file the last verification ran is the code that is reported exactly when the last fix pass did not
    leave the spec blank: after a blank one the verdict is about the blank file, the code is an older one.
   */
  lemma VerdictIsAboutReportedCode(job: Job, w: World, s: Session)
    requires Follows(job, w, s) && s.runs != []
    ensures var file := s.passes[|s.passes| - 1].outcome.file;
            && s.runs[|s.runs| - 1] == w.run(|s.runs| - 1, file)
            && (CodeAfter(s.passes[s.resumes..]) == file <==> Trim(file) != "")
            && Trim(CodeAfter(s.passes[s.resumes..])) != ""
  {
    hide PauseLoop;
    CodeNotBlank(s.passes[s.resumes..]);
  }

  lemma {:induction false} CodeNotBlank(ps: seq<Pass>)
    requires ps != [] && Trim(ps[0].outcome.file) != ""
    ensures Trim(CodeAfter(ps)) != ""
  {
    if |ps| > 1 { CodeNotBlank(ps[..|ps| - 1]); }
  }

  // ---------------------------------------------------------------------------
  // The budget
  // ---------------------------------------------------------------------------

  function AtLeastZero(x: real): real {
    if x > 0.0 then x else 0.0
  }

  /** Every pass spends within the budget it was given, and reports no more than it spent. */
  predicate KeepsBudget(ps: seq<Pass>) {
    forall i :: 0 <= i < |ps| ==>
      ps[i].outcome.spent <= AtLeastZero(ps[i].args.budgetUsd) && 0.0 <= ps[i].outcome.reported <= ps[i].outcome.spent
  }

  /** The remainder the server hands to a continued pass is at most the ceiling less what was reported before. */
  predicate ServerKeepsCeiling(job: Job, w: World, s: Session)
    requires s.resumes < |s.passes| && s.resumes <= |w.directives|
  {
    forall i :: 0 < i <= s.resumes ==>
      w.directives[i - 1].remainingBudgetUsd <= job.maxBudgetUsd - Reported(s.passes[..i])
  }

  /** What the passes spent beyond what they reported. */
  function Unreported(ps: seq<Pass>): real {
    Spent(ps) - Reported(ps)
  }

  /** No pass is given more than the ceiling leaves over what was reported before it. */
  lemma {:induction false} SpentSoFar(job: Job, w: World, s: Session, n: nat)
    requires Follows(job, w, s) && s.resumes <= |w.directives| && n <= |s.passes|
    requires job.maxBudgetUsd >= 0.0 && KeepsBudget(s.passes) && ServerKeepsCeiling(job, w, s)
    ensures Reported(s.passes[..n]) <= job.maxBudgetUsd
    ensures n < |s.passes| ==> AtLeastZero(s.passes[n].args.budgetUsd) <= job.maxBudgetUsd - Reported(s.passes[..n])
    ensures n > 0 ==> Spent(s.passes[..n]) <= job.maxBudgetUsd + Unreported(s.passes[..n - 1])
  {
    hide PlanPass, LastSid, Parked, VerifyDue, Finished;
    if n > 0 {
      SpentSoFar(job, w, s, n - 1);
      assert s.passes[..n][..n - 1] == s.passes[..n - 1];
    }
    if n > s.resumes {
      if n < |s.passes| { assert FixedAt(job, w, s, n - s.resumes); }
    } else if n > 0 {
      assert ResumedAt(w, s, n);
    }
  }

  /** Over any number of pauses the session exceeds its ceiling by no more than earlier passes left unreported. */
  lemma BudgetKept(job: Job, w: World, s: Session)
    requires Follows(job, w, s) && s.resumes <= |w.directives|
    requires job.maxBudgetUsd >= 0.0 && KeepsBudget(s.passes) && ServerKeepsCeiling(job, w, s)
    ensures Reported(s.passes) <= job.maxBudgetUsd
    ensures Spent(s.passes) <= job.maxBudgetUsd + Unreported(s.passes[..|s.passes| - 1])
  {
    SpentSoFar(job, w, s, |s.passes|);
    assert s.passes == s.passes[..|s.passes|];
  }

  /** The passes with the last one spending `x` instead. */
  function WithLastSpent(ps: seq<Pass>, x: real): seq<Pass>
    requires ps != []
  {
    var last := ps[|ps| - 1];
    ps[..|ps| - 1] + [last.(outcome := last.outcome.(spent := x))]
  }

  /**
    Whatever the last pass spends within its budget, the ceiling holds: exactly when what the earlier passes left
    unreported fits into what the ceiling leaves above that budget. When the last pass is given the whole
    remainder, that is exactly when every earlier pass reported all it spent.
   */
  lemma CeilingHoldsExactly(job: Job, w: World, s: Session)
    requires Follows(job, w, s) && s.resumes <= |w.directives|
    requires job.maxBudgetUsd >= 0.0 && KeepsBudget(s.passes) && ServerKeepsCeiling(job, w, s)
    ensures var before, budget := s.passes[..|s.passes| - 1], AtLeastZero(s.passes[|s.passes| - 1].args.budgetUsd);
            var slack := job.maxBudgetUsd - Reported(before) - budget;
            && ((forall x :: 0.0 <= x <= budget ==> Spent(WithLastSpent(s.passes, x)) <= job.maxBudgetUsd)
                  <==> Unreported(before) <= slack)
            && slack >= 0.0
            && (slack == 0.0 ==>
                  (Unreported(before) <= slack <==> forall p <- before :: p.outcome.reported == p.outcome.spent))
  {
    assert |s.passes| > 0;
    hide Follows, ServerKeepsCeiling, Spent, Reported;
    var n := |s.passes| - 1;
    var before, budget := s.passes[..n], AtLeastZero(s.passes[n].args.budgetUsd);
    SpentSoFar(job, w, s, n);
    AllReported(before);
    forall x
      ensures Spent(WithLastSpent(s.passes, x)) == Spent(before) + x
    {
      LastSpent(s.passes, x);
    }
    assert Spent(WithLastSpent(s.passes, budget)) == Spent(before) + budget;
  }

  lemma LastSpent(ps: seq<Pass>, x: real)
    requires ps != []
    ensures Spent(WithLastSpent(ps, x)) == Spent(ps[..|ps| - 1]) + x
  {
    assert WithLastSpent(ps, x)[..|ps| - 1] == ps[..|ps| - 1];
  }

  lemma {:induction false} AllReported(ps: seq<Pass>)
    requires KeepsBudget(ps)
    ensures Unreported(ps) >= 0.0
    ensures Unreported(ps) == 0.0 <==> forall p <- ps :: p.outcome.reported == p.outcome.spent
  {
    hide AtLeastZero;
    if ps != [] {
      var before, last := ps[..|ps| - 1], ps[|ps| - 1];
      AllReported(before);
      assert ps == before + [last];
    }
  }

  /** A pass that is killed may report nothing: then it and the next one can each spend the whole ceiling. */
  lemma UnreportedSpendEscapes(ceiling: real)
    requires ceiling > 0.0
    ensures exists w: World, s: Session ::
              && Follows(Job(ceiling, false), w, s) && s.resumes == 1 && |w.directives| == 1
              && KeepsBudget(s.passes) && ServerKeepsCeiling(Job(ceiling, false), w, s)
              && s.passes[1].outcome.reported == s.passes[1].outcome.spent
              && Spent(s.passes) == 2.0 * ceiling
  {
    var job := Job(ceiling, false);
    var d := Directive(true, ceiling, [], []);
    var killed := Outcome(0.0, ceiling, None, true, false, "");
    var done := Outcome(ceiling, ceiling, None, false, false, "");
    var w := World((n, args) => if n == 0 then killed else done, [d], (n, sid) => false, (n, file) => false, false);
    var first := Pass(FirstArgs(job), killed);
    var second := Pass(ResumedArgs(w, [first], d), done);
    var s := Session([first, second], 1, []);
    assert s.passes[..1] == [first] && [first][..0] == [];
    assert Spent(s.passes) == Spent([first]) + ceiling;
    assert Spent([first]) == ceiling;
    assert Reported([first]) == 0.0;
    assert ResumedAt(w, s, 1);
    assert Follows(job, w, s);
    assert ServerKeepsCeiling(job, w, s);
  }

  // ---------------------------------------------------------------------------
  // Continuing
  // ---------------------------------------------------------------------------

  /**
    The same session is resumed exactly when it can be, and is handed all that is pending. A fresh one is handed
    all of the history; what is pending is handed over too exactly when the history holds it already, or is blank.
   */
  lemma HandedOver(sid: string, present: bool, d: Directive)
    ensures var plan := PlanPass(sid, present, d);
            && (plan.session == Some(sid) <==> sid != "" && present)
            && (plan.session.None? <==> plan.prompt.StartOver?)
            && (plan.prompt.Continue? ==> forall t <- d.guidance :: Trim(t) != "" ==> t in plan.prompt.turns)
            && (plan.prompt.StartOver? ==>
                  && (forall t <- d.guidanceHistory :: Trim(t) != "" ==> t in plan.prompt.turns)
                  && ((forall t <- d.guidance :: Trim(t) != "" ==> t in plan.prompt.turns)
                      <==> (NonBlank(d.guidanceHistory) == []
                            || forall t <- d.guidance :: Trim(t) != "" ==> t in d.guidanceHistory)))
  {
    hide Trim;
    var guidance, history := NonBlank(d.guidance), NonBlank(d.guidanceHistory);
    NonBlankMembers(d.guidance);
    NonBlankMembers(d.guidanceHistory);
    assert forall t <- d.guidance :: Trim(t) != "" ==> t in guidance;
    assert history != [] ==> forall t <- guidance :: t in history <==> t in d.guidanceHistory;
  }

  /** Of several turns the blank ones are left out, and the others keep their order. */
  lemma {:induction false} NonBlankInOrder(a: seq<string>, b: seq<string>)
    ensures NonBlank(a + b) == NonBlank(a) + NonBlank(b)
  {
    if a == [] {
      assert a + b == b;
    } else {
      hide *;
      NonBlankInOrder(a[1..], b);
      NonBlankStep(a[0], a[1..], b);
      assert a == [a[0]] + a[1..];
      assert a + b == [a[0]] + (a[1..] + b);
    }
  }

  lemma NonBlankStep(t: string, turns: seq<string>, b: seq<string>)
    requires NonBlank(turns + b) == NonBlank(turns) + NonBlank(b)
    ensures NonBlank([t] + (turns + b)) == NonBlank([t] + turns) + NonBlank(b)
  {
    hide *;
    NonBlankCons(t, turns);
    NonBlankCons(t, turns + b);
  }

  lemma NonBlankCons(t: string, turns: seq<string>)
    ensures NonBlank([t] + turns) == (if Trim(t) != "" then [t] else []) + NonBlank(turns)
  {
    hide Trim;
    assert ([t] + turns)[1..] == turns;
  }

  lemma {:induction false} NonBlankAll(turns: seq<string>)
    requires forall t <- turns :: Trim(t) != ""
    ensures NonBlank(turns) == turns
  {
    hide Trim;
    if turns != [] {
      NonBlankAll(turns[1..]);
    }
  }

  lemma {:induction false} AllBlank(turns: seq<string>)
    requires forall t <- turns :: Trim(t) == ""
    ensures NonBlank(turns) == []
  {
    hide Trim;
    if turns != [] {
      AllBlank(turns[1..]);
    }
  }

  /** With nothing pending, a session that is resumed is reminded of the newest turn that is not blank. */
  lemma RemindedOfNewest(sid: string, d: Directive, before: seq<string>, turn: string, after: seq<string>)
    requires sid != "" && forall t <- d.guidance :: Trim(t) == ""
    requires d.guidanceHistory == before + [turn] + after && Trim(turn) != "" && forall t <- after :: Trim(t) == ""
    ensures PlanPass(sid, true, d).prompt == Continue([turn])
  {
    hide Trim;
    AllBlank(d.guidance);
    AllBlank(after);
    NonBlankInOrder(before + [turn], after);
    NonBlankInOrder(before, [turn]);
    NonBlankAll([turn]);
    var history := NonBlank(before) + [turn];
    assert NonBlank(d.guidanceHistory) == history + [] == history;
    assert history[|history| - 1..] == [turn];
  }

  // ---------------------------------------------------------------------------
  // What every pass is given
  // ---------------------------------------------------------------------------

  /** Of the session ids that the passes announced, the newest. */
  ghost predicate Newest(ps: seq<Pass>, sid: string) {
    exists k: nat :: AnnouncedLast(ps, sid, k)
  }

  predicate AnnouncedLast(ps: seq<Pass>, sid: string, k: nat) {
    && k < |ps| && ps[k].outcome.sid == Some(sid)
    && forall j :: k < j < |ps| ==> ps[j].outcome.sid.None?
  }

  lemma {:induction false} LastSidIsNewest(ps: seq<Pass>, sid: string)
    requires sid != ""
    ensures LastSid(ps) == sid <==> Newest(ps, sid)
  {
    if ps != [] {
      var n := |ps| - 1;
      var before := ps[..n];
      LastSidIsNewest(before, sid);
      if ps[n].outcome.sid.Some? {
        assert ps[n].outcome.sid == Some(sid) ==> AnnouncedLast(ps, sid, n);
      } else {
        assert forall k: nat :: AnnouncedLast(before, sid, k) <==> AnnouncedLast(ps, sid, k) by {
          AnnouncedEarlier(ps, sid);
        }
      }
    }
  }

  lemma AnnouncedEarlier(ps: seq<Pass>, sid: string)
    requires ps != [] && ps[|ps| - 1].outcome.sid.None?
    ensures forall k: nat :: AnnouncedLast(ps[..|ps| - 1], sid, k) <==> AnnouncedLast(ps, sid, k)
  {
  }

  /** A pass that is not the first resumes the newest announced session when its transcript is there. */
  ghost predicate ResumesNewest(w: World, s: Session, i: nat)
    requires i < |s.passes|
  {
    forall sid :: s.passes[i].args.session == Some(sid) <==>
                    sid != "" && Newest(s.passes[..i], sid) && w.transcript(i, sid)
  }

  /**
    The first pass gets the job's prompt and the ceiling; a pass that continues a pause gets the remainder the server
    named; a fix pass gets exactly what the passes before it did not report of the ceiling, at least nothing.
   */
  lemma EachPassArgs(job: Job, w: World, s: Session, i: nat)
    requires Follows(job, w, s) && i < |s.passes|
    ensures var args := s.passes[i].args;
            && (i == 0 ==> args == Args(Task, job.maxBudgetUsd, None))
            && (0 < i <= s.resumes ==>
                  && i <= |w.directives| && args.budgetUsd == w.directives[i - 1].remainingBudgetUsd
                  && (args.prompt.Continue? <==> args.session.Some?)
                  && (args.prompt.StartOver? <==> args.session.None?))
            && (s.resumes < i ==>
                  && args.prompt == Fix(i - s.resumes - 1)
                  && (Reported(s.passes[..i]) <= job.maxBudgetUsd ==>
                        args.budgetUsd == job.maxBudgetUsd - Reported(s.passes[..i]))
                  && (Reported(s.passes[..i]) >= job.maxBudgetUsd ==> args.budgetUsd == 0.0))
            && (i > 0 ==> ResumesNewest(w, s, i))
  {
    hide LastSid, Reported, NonBlank, Newest, Exhausted, Parked;
    var before := s.passes[..i];
    forall sid | sid != ""
      ensures LastSid(before) == sid <==> Newest(before, sid)
    {
      LastSidIsNewest(before, sid);
    }
    if s.resumes < i {
      assert FixedAt(job, w, s, i - s.resumes);
    } else if i > 0 {
      assert ResumedAt(w, s, i);
    }
  }

  /** The reported costs add up, pass by pass. */
  lemma {:induction false} CostsAddUp(a: seq<Pass>, b: seq<Pass>)
    ensures Reported(a + b) == Reported(a) + Reported(b) && Spent(a + b) == Spent(a) + Spent(b)
  {
    if b == [] {
      assert a + b == a;
    } else {
      CostsAddUp(a, b[..|b| - 1]);
      assert (a + b)[..|a + b| - 1] == a + b[..|b| - 1];
    }
  }
}
