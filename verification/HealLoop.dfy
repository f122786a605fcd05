/**
  The self-heal loop (`agent/src/runner.ts`, `processHealJob`): stage, run, read `report.json`, ask the server
  for a fix, and try again in the same work directory. Every run of Playwright and every answer of the server
  is an input; the report file stays where it is between attempts.
 */
module HealLoop {
  import opened Wrappers
  import opened ProjectBundle
  import opened LiveResults

  /** The server's answer to a fix request. */
  datatype Fix =
    | RequestFailed
    | ProductDefect
    | Blocked
    | Rejected
    | Fixed(code: string, library: seq<File>)

  /** What one attempt meets: how the run went, what it wrote to `report.json`, and the answer if asked. */
  datatype Attempt = Attempt(timedOut: bool, report: Option<string>, fix: Fix)

  datatype HealStatus = HealPass | HealFail | HealBlocked | HealProductDefect

  /** One staging of the work directory, one run in it, and one record sent to the server. */
  datatype Stage = Stage(code: string, project: Option<seq<File>>)
  datatype Run = Run(tree: Tree, wrote: bool, entry: Option<Entry>)
  datatype Record = Record(attempt: nat, pass: bool)

  datatype Healing = Healing(
    status: HealStatus,
    finalCode: string,
    lastFixBefore: Option<string>,
    lastFixAfter: Option<string>,
    stages: seq<Stage>,
    runs: seq<Run>,
    requests: nat,
    records: seq<Record>)

  type Reader = string -> Option<seq<Entry>>

  const REPORT := "report.json"

  predicate Passed(r: Run) {
    r.entry.Some? && r.entry.value.status.Pass?
  }

  /** The entry an attempt finds: none after a timeout, without a file, or in an unreadable one. */
  function ReadReport(tree: Tree, timedOut: bool, read: Reader, spec: string): Option<Entry> {
    if timedOut || REPORT !in tree then None
    else
      match read(tree[REPORT])
      case None => None
      case Some(entries) => EntryFor(entries, spec)
  }

  /** A run in a staged tree: it may write the report, which is then read unless the run timed out. */
  function RunOf(staged: Tree, met: Attempt, read: Reader, spec: string): Run {
    var tree := if met.report.Some? then staged[REPORT := met.report.value] else staged;
    Run(tree, met.report.Some?, ReadReport(tree, met.timedOut, read, spec))
  }

  /** An answer without code keeps the spec as it is. */
  function Adopt(code: string, fix: Fix): string
    requires fix.Fixed?
  {
    if fix.code == "" then code else fix.code
  }

  function WithLibrary(project: Option<seq<File>>, fix: Fix): Option<seq<File>>
    requires fix.Fixed?
  {
    if project.Some? && fix.library != [] then Some(MergeLibrary(project.value, fix.library)) else project
  }

  // ---------------------------------------------------------------------------
  // Which fixes reach the work directory
  // ---------------------------------------------------------------------------

  /** Each staging after the first carries the fix the attempt before it was given. */
  ghost predicate Chained(stages: seq<Stage>, spec: File, project: Option<seq<File>>, env: nat -> Attempt) {
    && (stages != [] ==> stages[0] == Stage(spec.code, project))
    && forall k :: 0 < k < |stages| ==>
         && env(k).fix.Fixed?
         && stages[k].code == Adopt(stages[k - 1].code, env(k).fix)
         && stages[k].project == WithLibrary(stages[k - 1].project, env(k).fix)
  }

  function StageIn(before: Tree, s: Stage, spec: string): JobTree {
    StageJobTree(before, s.project, [File(spec, s.code)])
  }

  /** What the work directory holds before attempt `k` (counting from 0). */
  function TreeBefore(runs: seq<Run>, k: nat): Tree
    requires k <= |runs|
  {
    if k == 0 then map[] else runs[k - 1].tree
  }

  predicate RanAt(before: Tree, s: Stage, met: Attempt, read: Reader, spec: string, run: Run) {
    var staged := StageIn(before, s, spec);
    staged.Ready? && run == RunOf(staged.tree, met, read, spec)
  }

  /** Every run ran in the tree staged for it, over what the run before it left. */
  ghost predicate RanAsStaged(runs: seq<Run>, stages: seq<Stage>, env: nat -> Attempt, read: Reader, spec: string) {
    && |runs| <= |stages|
    && forall k :: 0 <= k < |runs| ==> RanAt(TreeBefore(runs, k), stages[k], env(k + 1), read, spec, runs[k])
  }

  lemma TreeKept(runs: seq<Run>, run: Run, k: nat)
    requires k <= |runs|
    ensures TreeBefore(runs + [run], k) == TreeBefore(runs, k)
  {
  }

  lemma RanAsStagedNext(runs: seq<Run>, stages: seq<Stage>, env: nat -> Attempt, read: Reader, spec: string, run: Run)
    requires RanAsStaged(runs, stages, env, read, spec) && |stages| == |runs| + 1
    requires RanAt(TreeBefore(runs, |runs|), stages[|runs|], env(|runs| + 1), read, spec, run)
    ensures RanAsStaged(runs + [run], stages, env, read, spec)
  {
    hide RanAt, TreeBefore;
    var all := runs + [run];
    forall k | 0 <= k < |all|
      ensures RanAt(TreeBefore(all, k), stages[k], env(k + 1), read, spec, all[k])
    {
      TreeKept(runs, run, k);
      if k < |runs| {
        assert RanAt(TreeBefore(runs, k), stages[k], env(k + 1), read, spec, runs[k]);
      }
    }
  }

  lemma RanAsStagedMore(runs: seq<Run>, stages: seq<Stage>, env: nat -> Attempt, read: Reader, spec: string, s: Stage)
    requires RanAsStaged(runs, stages, env, read, spec)
    ensures RanAsStaged(runs, stages + [s], env, read, spec)
  {
    hide RanAt;
    assert forall k :: 0 <= k < |stages| ==> (stages + [s])[k] == stages[k];
  }

  /** How the job must end, from what its last attempt met. */
  function Verdict(runs: seq<Run>, stages: nat, maxAttempts: int, env: nat -> Attempt): HealStatus {
    if runs == [] then HealFail
    else if Passed(runs[|runs| - 1]) then HealPass
    else if stages > |runs| || |runs| >= maxAttempts then HealFail
    else
      match env(|runs|).fix
      case ProductDefect => HealProductDefect
      case Blocked => HealBlocked
      case _ => HealFail
  }

  // ---------------------------------------------------------------------------
  // What the server's answers come to
  // ---------------------------------------------------------------------------

  predicate GivesCode(fix: Fix) {
    fix.Fixed? && fix.code != ""
  }

  /** The newest code that the answers to the first `k` attempts gave, else the job's own. */
  function NewestCode(first: string, env: nat -> Attempt, k: nat): string {
    if k == 0 then first
    else if GivesCode(env(k).fix) then env(k).fix.code
    else NewestCode(first, env, k - 1)
  }

  /** The newest source that the answers to the first `k` attempts gave for a library path, else the bundle's. */
  function NewestSource(first: seq<File>, env: nat -> Attempt, k: nat, path: string): Option<string> {
    if k == 0 then LastRaw(first, path)
    else if env(k).fix.Fixed? && LastRaw(env(k).fix.library, path).Some? then LastRaw(env(k).fix.library, path)
    else NewestSource(first, env, k - 1, path)
  }

  /** The project of a stage: none if the job brought none, else every path with its newest source. */
  ghost predicate BringsNewest(staged: Option<seq<File>>, project: Option<seq<File>>, env: nat -> Attempt, k: nat) {
    && (staged.Some? <==> project.Some?)
    && (project.Some? ==>
          forall path :: LastRaw(staged.value, path) == NewestSource(project.value, env, k, path))
  }

  ghost predicate StagedNewest(stages: seq<Stage>, spec: File, project: Option<seq<File>>, env: nat -> Attempt) {
    forall k :: 0 <= k < |stages| ==>
      stages[k].code == NewestCode(spec.code, env, k) && BringsNewest(stages[k].project, project, env, k)
  }

  lemma LibraryNewest(before: Option<seq<File>>, project: Option<seq<File>>, env: nat -> Attempt, k: nat)
    requires k > 0 && env(k).fix.Fixed? && BringsNewest(before, project, env, k - 1)
    ensures BringsNewest(WithLibrary(before, env(k).fix), project, env, k)
  {
    hide MergeLibrary, LastRaw;
    var library := env(k).fix.library;
    if project.Some? {
      forall path
        ensures LastRaw(WithLibrary(before, env(k).fix).value, path) == NewestSource(project.value, env, k, path)
      {
        MergeLookup(before.value, library, path);
        LastRawNone(path);
      }
    }
  }

  lemma LastRawNone(path: string)
    ensures LastRaw([], path) == None
  {
  }

  /** Stages that follow from each other by the answers hold the newest code and the newest library. */
  lemma {:induction false} ChainedNewest(stages: seq<Stage>, spec: File, project: Option<seq<File>>,
                                         env: nat -> Attempt, k: nat)
    requires Chained(stages, spec, project, env) && k < |stages|
    ensures stages[k].code == NewestCode(spec.code, env, k) && BringsNewest(stages[k].project, project, env, k)
  {
    hide BringsNewest, WithLibrary;
    if k == 0 {
      FirstNewest(project, env);
    } else {
      ChainedNewest(stages, spec, project, env, k - 1);
      LibraryNewest(stages[k - 1].project, project, env, k);
    }
  }

  lemma FirstNewest(project: Option<seq<File>>, env: nat -> Attempt)
    ensures BringsNewest(project, project, env, 0)
  {
  }

  lemma AllNewest(stages: seq<Stage>, spec: File, project: Option<seq<File>>, env: nat -> Attempt)
    requires Chained(stages, spec, project, env)
    ensures StagedNewest(stages, spec, project, env) && NewestCode(spec.code, env, 0) == spec.code
    ensures stages != [] ==> stages[|stages| - 1].code == NewestCode(spec.code, env, |stages| - 1)
  {
    hide Chained, BringsNewest;
    forall k | 0 <= k < |stages|
      ensures stages[k].code == NewestCode(spec.code, env, k) && BringsNewest(stages[k].project, project, env, k)
    {
      ChainedNewest(stages, spec, project, env, k);
    }
  }

  // ---------------------------------------------------------------------------
  // Stale reports
  // ---------------------------------------------------------------------------

  ghost predicate NoReportIn(files: seq<File>) {
    forall k :: 0 <= k < |files| ==> Slashed(files[k].path) != REPORT
  }

  /** Nothing but a run that finished in time writes `report.json`. */
  ghost predicate OnlyRunsReport(spec: File, project: Option<seq<File>>, env: nat -> Attempt) {
    && NoReportIn([spec])
    && (project.Some? ==> NoReportIn(project.value))
    && (forall k :: env(k).fix.Fixed? ==> NoReportIn(env(k).fix.library))
    && (forall k :: env(k).timedOut ==> env(k).report.None?)
  }

  ghost predicate SameReport(t: Tree, u: Tree) {
    (REPORT in t <==> REPORT in u) && (REPORT in t ==> t[REPORT] == u[REPORT])
  }

  lemma {:induction false} WriteAllKeepsReport(tree: Tree, files: seq<File>)
    requires NoReportIn(files) && WriteAll(tree, files).Some?
    ensures SameReport(tree, WriteAll(tree, files).value)
  {
    if files != [] {
      WriteAllKeepsReport(tree, files[..|files| - 1]);
    }
  }

  lemma StagingKeepsReport(tree: Tree, project: Option<seq<File>>, spec: File)
    requires NoReportIn([spec]) && (project.Some? ==> NoReportIn(project.value))
    requires StageJobTree(tree, project, [spec]).Ready?
    ensures SameReport(tree, StageJobTree(tree, project, [spec]).tree)
  {
    hide Slashed, IsSafeRelativePath, Clash, WriteAll;
    if project.Some? {
      WriteAllKeepsReport(tree, project.value);
    }
    StageOneKeepsReport(if project.Some? then WriteAll(tree, project.value).value else tree, spec);
  }

  lemma StageOneKeepsReport(tree: Tree, spec: File)
    requires NoReportIn([spec]) && StageSpecs(tree, [spec]).Ready?
    ensures SameReport(tree, StageSpecs(tree, [spec]).tree)
  {
    assert [spec][0] == spec && [spec][1..] == [];
    assert Slashed([spec][0].path) != REPORT;
  }

  lemma MergeKeepsClean(bundle: seq<File>, library: seq<File>)
    requires NoReportIn(bundle) && NoReportIn(library)
    ensures NoReportIn(MergeLibrary(bundle, library))
  {
    hide Slashed, MergeLibrary;
    var merged := MergeLibrary(bundle, library);
    MergeLookup(bundle, library, "");
    forall k | 0 <= k < |merged|
      ensures Slashed(merged[k].path) != REPORT
    {
      assert merged[k].path in Names(merged);
    }
  }

  /** The report left in the directory, if any, does not pass the spec. */
  ghost predicate LeftoverFails(tree: Tree, read: Reader, spec: string) {
    var e := ReadReport(tree, false, read, spec);
    e.Some? ==> !e.value.status.Pass?
  }

  ghost predicate CleanStage(spec: string, project: Option<seq<File>>) {
    Slashed(spec) != REPORT && (project.Some? ==> NoReportIn(project.value))
  }

  lemma CleanStart(spec: File, project: Option<seq<File>>, env: nat -> Attempt, read: Reader)
    ensures OnlyRunsReport(spec, project, env) ==> CleanStage(spec.path, project)
    ensures LeftoverFails(map[], read, spec.path)
  {
    assert [spec][0] == spec;
  }

  lemma CleanNext(spec: File, project: Option<seq<File>>, env: nat -> Attempt, bundle: Option<seq<File>>, k: nat)
    requires OnlyRunsReport(spec, project, env) && CleanStage(spec.path, bundle)
    ensures env(k).timedOut ==> env(k).report.None?
    ensures env(k).fix.Fixed? ==> CleanStage(spec.path, WithLibrary(bundle, env(k).fix))
  {
    hide MergeLibrary, Slashed;
    if env(k).fix.Fixed? && bundle.Some? {
      MergeKeepsClean(bundle.value, env(k).fix.library);
    }
  }

  lemma ChainedNext(stages: seq<Stage>, spec: File, project: Option<seq<File>>, env: nat -> Attempt, s: Stage)
    requires stages != [] && Chained(stages, spec, project, env) && env(|stages|).fix.Fixed?
    requires s == Stage(Adopt(stages[|stages| - 1].code, env(|stages|).fix),
                        WithLibrary(stages[|stages| - 1].project, env(|stages|).fix))
    ensures Chained(stages + [s], spec, project, env)
  {
    var all := stages + [s];
    assert forall k :: 0 <= k < |stages| ==> all[k] == stages[k];
  }

  // ---------------------------------------------------------------------------
  // One attempt
  // ---------------------------------------------------------------------------

  /** A clean attempt passes only on its own report, and leaves no passing report behind when it fails. */
  lemma CleanRun(before: Tree, s: Stage, spec: string, met: Attempt, read: Reader)
    requires StageIn(before, s, spec).Ready? && CleanStage(spec, s.project) && LeftoverFails(before, read, spec)
    requires met.timedOut ==> met.report.None?
    ensures var run := RunOf(StageIn(before, s, spec).tree, met, read, spec);
            (Passed(run) ==> run.wrote) && (!Passed(run) ==> LeftoverFails(run.tree, read, spec))
  {
    hide EntryFor, Slashed, StageJobTree;
    assert NoReportIn([File(spec, s.code)]);
    StagingKeepsReport(before, s.project, File(spec, s.code));
  }

  /** A run in time that writes no report passes exactly when the file left by an earlier attempt does: this is
      what a timed-out run that did write its report would bring about. */
  lemma StalePassExactly(before: Tree, s: Stage, spec: string, met: Attempt, read: Reader)
    requires StageIn(before, s, spec).Ready? && CleanStage(spec, s.project)
    requires !met.timedOut && met.report.None?
    ensures Passed(RunOf(StageIn(before, s, spec).tree, met, read, spec)) <==> !LeftoverFails(before, read, spec)
  {
    hide EntryFor, Slashed, StageJobTree;
    assert NoReportIn([File(spec, s.code)]);
    StagingKeepsReport(before, s.project, File(spec, s.code));
  }

  /** The first attempt is cut off after its report was written, the second one writes none. */
  function LateReport(text: string): nat -> Attempt {
    k => if k == 1 then Attempt(true, Some(text), Fixed("", [])) else Attempt(false, None, RequestFailed)
  }

  /**
    And it does come about: the first attempt times out after writing a report that passes the spec, the second
    one is in time and writes none, and passes.
   */
  lemma TimedOutReportPassesLater(spec: File, text: string, read: Reader)
    requires IsSafeRelativePath(spec.path) && Slashed(spec.path) != REPORT && !Clash(Slashed(spec.path), REPORT)
    requires read(text) == Some([Entry(spec.path, Pass)])
    ensures var env := LateReport(text);
            var stage := Stage(spec.code, None);
            exists first, second ::
              && RanAsStaged([first, second], [stage, stage], env, read, spec.path)
              && Chained([stage, stage], spec, None, env)
              && !Passed(first) && first.wrote && Passed(second) && !second.wrote
  {
    hide IsSafeRelativePath, Slashed, Clash;
    var env, stage := LateReport(text), Stage(spec.code, None);
    StagedAlone(map[], spec);
    var staged := map[Slashed(spec.path) := spec.code];
    var first := RunOf(staged, env(1), read, spec.path);
    NoSelfClash(Slashed(spec.path));
    StagedAlone(first.tree, spec);
    var second := RunOf(first.tree[Slashed(spec.path) := spec.code], env(2), read, spec.path);
    assert [Entry(spec.path, Pass)][0] == Entry(spec.path, Pass);
    assert RanAt(map[], stage, env(1), read, spec.path, first);
    assert RanAt(first.tree, stage, env(2), read, spec.path, second);
    assert RanAsStaged([first, second], [stage, stage], env, read, spec.path);
  }

  lemma NoSelfClash(p: string)
    ensures !Clash(p, p)
  {
  }

  lemma StagedAlone(tree: Tree, spec: File)
    requires IsSafeRelativePath(spec.path) && forall q :: q in tree ==> !Clash(Slashed(spec.path), q)
    ensures StageIn(tree, Stage(spec.code, None), spec.path) == Ready(tree[Slashed(spec.path) := spec.code])
  {
    hide IsSafeRelativePath, Slashed, Clash;
    var specs, after := [File(spec.path, spec.code)], tree[Slashed(spec.path) := spec.code];
    assert WriteProjectFile(tree, specs[0].path, specs[0].code) == Written(after);
    assert specs[1..] == [] && StageSpecs(after, []) == Ready(after);
  }

  lemma CleanAttempt(spec: File, project: Option<seq<File>>, env: nat -> Attempt, s: Stage, k: nat, before: Tree,
                     read: Reader)
    requires StageIn(before, s, spec.path).Ready?
    ensures OnlyRunsReport(spec, project, env) && CleanStage(spec.path, s.project)
            && LeftoverFails(before, read, spec.path) ==>
              var run := RunOf(StageIn(before, s, spec.path).tree, env(k), read, spec.path);
              && (Passed(run) ==> run.wrote)
              && (!Passed(run) ==> LeftoverFails(run.tree, read, spec.path))
              && (env(k).fix.Fixed? ==> CleanStage(spec.path, WithLibrary(s.project, env(k).fix)))
  {
    if OnlyRunsReport(spec, project, env) && CleanStage(spec.path, s.project)
       && LeftoverFails(before, read, spec.path) {
      CleanNext(spec, project, env, s.project, k);
      CleanRun(before, s, spec.path, env(k), read);
    }
  }

  /** The bookkeeping of one attempt: its stage is recorded first, its run once the staging succeeded. */
  lemma AttemptKept(runs: seq<Run>, stages: seq<Stage>, spec: File, project: Option<seq<File>>, env: nat -> Attempt,
                    read: Reader, s: Stage)
    requires RanAsStaged(runs, stages, env, read, spec.path) && |runs| == |stages|
    ensures RanAsStaged(runs, stages + [s], env, read, spec.path)
    ensures var before, k := TreeBefore(runs, |runs|), |runs| + 1;
            var staged := StageIn(before, s, spec.path);
            staged.Ready? ==>
              var run := RunOf(staged.tree, env(k), read, spec.path);
              && RanAsStaged(runs + [run], stages + [s], env, read, spec.path)
              && run.tree == TreeBefore(runs + [run], k)
              && (OnlyRunsReport(spec, project, env) && CleanStage(spec.path, s.project)
                  && LeftoverFails(before, read, spec.path) ==>
                    && (Passed(run) ==> run.wrote)
                    && (!Passed(run) ==> LeftoverFails(run.tree, read, spec.path))
                    && (env(k).fix.Fixed? ==> CleanStage(spec.path, WithLibrary(s.project, env(k).fix))))
  {
    hide StageIn, RunOf, Passed, WithLibrary, RanAsStaged, OnlyRunsReport, CleanStage, LeftoverFails;
    var before, k := TreeBefore(runs, |runs|), |runs| + 1;
    RanAsStagedMore(runs, stages, env, read, spec.path, s);
    var staged := StageIn(before, s, spec.path);
    if staged.Ready? {
      RanAsStagedNext(runs, stages + [s], env, read, spec.path, RunOf(staged.tree, env(k), read, spec.path));
      CleanAttempt(spec, project, env, s, k, before, read);
    }
  }

  /** The entry is the first of its basename, and it passed. */
  predicate FirstPasses(entries: seq<Entry>, spec: string, j: nat) {
    && j < |entries| && entries[j].status == Pass && Basename(entries[j].file) == Basename(spec)
    && forall i :: 0 <= i < j ==> Basename(entries[i].file) != Basename(spec)
  }

  lemma {:induction false} EntryPasses(entries: seq<Entry>, spec: string)
    ensures EntryFor(entries, spec).Some? && EntryFor(entries, spec).value.status.Pass?
       <==> exists j: nat :: FirstPasses(entries, spec, j)
  {
    hide Basename;
    if entries != [] {
      EntryPasses(entries[1..], spec);
      if Basename(entries[0].file) == Basename(spec) {
        assert entries[0].status == Pass ==> FirstPasses(entries, spec, 0);
      } else {
        forall j: nat
          ensures FirstPasses(entries[1..], spec, j) <==> FirstPasses(entries, spec, j + 1)
        {
          PassesLater(entries, spec, j);
        }
        assert forall j: nat :: FirstPasses(entries, spec, j) ==> j > 0 && FirstPasses(entries[1..], spec, j - 1);
      }
    }
  }

  lemma PassesLater(entries: seq<Entry>, spec: string, j: nat)
    requires entries != [] && Basename(entries[0].file) != Basename(spec)
    ensures FirstPasses(entries[1..], spec, j) <==> FirstPasses(entries, spec, j + 1)
  {
    hide Basename;
    assert forall i :: 0 < i < |entries| ==> entries[1..][i - 1] == entries[i];
  }

  /**
    A run passes exactly when it is in time and the report that is then in the directory (the one it wrote, or
    an older one) reads as entries of which the first with the spec's basename passed.
   */
  lemma PassesExactly(staged: Tree, met: Attempt, read: Reader, spec: string)
    ensures Passed(RunOf(staged, met, read, spec)) <==>
              && !met.timedOut
              && (met.report.Some? || REPORT in staged)
              && var entries := read(if met.report.Some? then met.report.value else staged[REPORT]);
                 entries.Some? && exists j: nat :: FirstPasses(entries.value, spec, j)
    ensures RunOf(staged, met, read, spec).tree
         == if met.report.Some? then staged[REPORT := met.report.value] else staged
  {
    hide EntryFor, FirstPasses;
    if met.report.Some? || REPORT in staged {
      var entries := read(if met.report.Some? then met.report.value else staged[REPORT]);
      if entries.Some? { EntryPasses(entries.value, spec); }
    }
  }

  // ---------------------------------------------------------------------------
  // The loop
  // ---------------------------------------------------------------------------

  /** `finished` is false when staging throws: then nothing is reported. */
  method ProcessHealJob(spec: File, project: Option<seq<File>>, maxAttempts: int, authorised: bool,
                        env: nat -> Attempt, read: Reader)
    returns (finished: bool, h: Healing)
    // bounded work, one numbered record per run, in order
    ensures |h.runs| <= maxAttempts || h.runs == []
    ensures |h.records| == |h.runs|
    // the server is asked after every failed run but the last one allowed
    ensures h.requests == if h.runs == [] then 0
                          else if Passed(h.runs[|h.runs| - 1]) || |h.runs| >= maxAttempts then |h.runs| - 1
                          else |h.runs|
    ensures forall k :: 0 <= k < |h.records| ==> h.records[k] == Record(k + 1, Passed(h.runs[k]))
    ensures forall k :: 0 <= k < |h.runs| - 1 ==> !Passed(h.runs[k])
    // every staging holds the newest code and library the server gave, and the code reported is the one staged last
    ensures Chained(h.stages, spec, project, env)
    ensures StagedNewest(h.stages, spec, project, env)
    ensures finished ==> h.finalCode == NewestCode(spec.code, env, if h.stages == [] then 0 else |h.stages| - 1)
    ensures |h.runs| <= |h.stages| <= |h.runs| + 1
    ensures !authorised || maxAttempts <= 0 <==> h.stages == []
    ensures |h.stages| == |h.runs| ==> finished
    ensures finished && |h.stages| == |h.runs| > 0 && !Passed(h.runs[|h.runs| - 1]) && |h.runs| < maxAttempts ==>
              !env(|h.runs|).fix.Fixed?
    ensures finished ==> h.finalCode == if h.stages == [] then spec.code else h.stages[|h.stages| - 1].code
    ensures h.lastFixAfter.Some? <==> |h.stages| > 1
    ensures h.lastFixAfter.Some? ==>
              h.lastFixAfter == Some(h.finalCode) && h.lastFixBefore == Some(h.stages[|h.stages| - 2].code)
    // each run is of the tree staged for it; only a staging that fails is not followed by its run
    ensures RanAsStaged(h.runs, h.stages, env, read, spec.path)
    ensures |h.stages| > |h.runs| ==>
              var staged := StageIn(TreeBefore(h.runs, |h.runs|), h.stages[|h.runs|], spec.path);
              !staged.Ready? && (finished <==> !staged.Crashed?)
    // the verdict follows the last attempt; a pass is never read from an earlier attempt's file
    ensures finished ==> h.status == Verdict(h.runs, |h.stages|, maxAttempts, env)
    ensures OnlyRunsReport(spec, project, env) ==>
              forall k :: 0 <= k < |h.runs| && Passed(h.runs[k]) ==> h.runs[k].wrote
  {
    hide StageIn, RunOf, Passed, WithLibrary, Adopt, Chained, RanAsStaged, OnlyRunsReport, CleanStage,
         LeftoverFails, BringsNewest, NewestCode, StagedNewest;
    var current, bundle, tree := spec.code, project, map[];
    var status, fixBefore, fixAfter := HealFail, None, None;
    var stages: seq<Stage>, runs: seq<Run>, records: seq<Record>, requests := [], [], [], 0;
    finished := true;
    NothingRun(spec, project, env, read);
    CleanStart(spec, project, env, read);
    var attempt := 1;
    while authorised && attempt <= maxAttempts
      invariant 1 <= attempt && (attempt <= maxAttempts || attempt == 1)
      invariant |runs| == |records| == |stages| == requests == attempt - 1
      invariant forall k :: 0 <= k < |records| ==> records[k] == Record(k + 1, false)
      invariant forall k :: 0 <= k < |runs| ==> !Passed(runs[k])
      invariant tree == TreeBefore(runs, attempt - 1) && RanAsStaged(runs, stages, env, read, spec.path)
      invariant Chained(stages, spec, project, env)
      invariant Chained(stages + [Stage(current, bundle)], spec, project, env)
      invariant if attempt == 1 then current == spec.code else authorised
      invariant fixAfter.Some? <==> attempt > 1
      invariant attempt > 1 ==> fixAfter == Some(current) && fixBefore == Some(stages[attempt - 2].code)
      invariant status == HealFail && finished
      invariant OnlyRunsReport(spec, project, env) ==>
                  LeftoverFails(tree, read, spec.path) && CleanStage(spec.path, bundle)
    {
      var stage, met := Stage(current, bundle), env(attempt);
      AttemptKept(runs, stages, spec, project, env, read, stage);
      stages := stages + [stage];
      var staged := StageIn(tree, stage, spec.path);
      if !staged.Ready? {
        finished := !staged.Crashed?;
        break;
      }
      var run := RunOf(staged.tree, met, read, spec.path);
      tree := run.tree;
      runs, records := runs + [run], records + [Record(attempt, Passed(run))];
      if Passed(run) {
        status := HealPass;
        break;
      }
      if attempt >= maxAttempts {
        break;
      }
      requests := requests + 1;
      if !met.fix.Fixed? {
        status := match met.fix
          case ProductDefect => HealProductDefect
          case Blocked => HealBlocked
          case _ => HealFail;
        break;
      }
      var adopted := Adopt(current, met.fix);
      fixBefore, fixAfter := Some(current), Some(adopted);
      current, bundle := adopted, WithLibrary(bundle, met.fix);
      ChainedNext(stages, spec, project, env, Stage(current, bundle));
      attempt := attempt + 1;
    }
    AllNewest(stages, spec, project, env);
    h := Healing(status, current, fixBefore, fixAfter, stages, runs, requests, records);
  }

  lemma NothingRun(spec: File, project: Option<seq<File>>, env: nat -> Attempt, read: Reader)
    ensures Chained([], spec, project, env) && RanAsStaged([], [], env, read, spec.path)
    ensures Chained([] + [Stage(spec.code, project)], spec, project, env)
  {
  }
}
