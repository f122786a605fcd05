/**
  Reading a Playwright report (`agent/src/report.ts`, `parsePlaywrightReport`): nested suites are flattened
  to one result per test.
 */
module Report {
  import opened LiveResults
  import opened Wrappers

  /** One attempt at a test; duration in milliseconds. */
  datatype Attempt = Attempt(status: string, duration: real, error: string)

  datatype Test = Test(results: seq<Attempt>)

  /** A missing name is "". */
  datatype Spec = Spec(file: string, title: string, tests: seq<Test>)

  datatype Suite = Suite(file: string, specs: seq<Spec>, suites: seq<Suite>)

  datatype ParsedResult = ParsedResult(file: string, title: string, status: Status, duration: int, error: string)

  /** `Math.trunc`. */
  function Trunc(x: real): int {
    if x >= 0.0 then x.Floor else -(-x).Floor
  }

  function Last(t: Test): Attempt {
    if t.results == [] then Attempt("", 0.0, "") else t.results[|t.results| - 1]
  }

  function ResultOf(file: string, title: string, t: Test): ParsedResult {
    ParsedResult(file, title, Normalize(Last(t).status), Trunc(Last(t).duration), Last(t).error)
  }

  function OrHint(file: string, hint: string): string {
    if file != "" then file else hint
  }

  // ---------------------------------------------------------------------------
  // The walk
  // ---------------------------------------------------------------------------

  function TestResults(file: string, title: string, tests: seq<Test>): (r: seq<ParsedResult>)
    ensures |r| == |tests|
  {
    seq(|tests|, i requires 0 <= i < |tests| => ResultOf(file, title, tests[i]))
  }

  function SpecResults(specs: seq<Spec>, fileName: string): seq<ParsedResult> {
    if specs == [] then []
    else
      TestResults(OrHint(specs[0].file, fileName), specs[0].title, specs[0].tests)
      + SpecResults(specs[1..], fileName)
  }

  function SuiteResults(s: Suite, hint: string): seq<ParsedResult>
    decreases s, 0
  {
    SpecResults(s.specs, OrHint(s.file, hint)) + SuitesResults(s.suites, OrHint(s.file, hint))
  }

  function SuitesResults(ss: seq<Suite>, hint: string): seq<ParsedResult>
    decreases ss, 0
  {
    if ss == [] then [] else SuiteResults(ss[0], hint) + SuitesResults(ss[1..], hint)
  }

  class Flattener {
    var out: seq<ParsedResult>

    constructor ()
      ensures out == []
    {
      out := [];
    }

    method WalkTests(file: string, spec: Spec)
      modifies this
      ensures out == old(out) + TestResults(file, spec.title, spec.tests)
    {
      for i := 0 to |spec.tests|
        invariant out == old(out) + TestResults(file, spec.title, spec.tests)[..i]
      {
        out := out + [ResultOf(file, spec.title, spec.tests[i])];
      }
    }

    method Walk(suite: Suite, fileHint: string)
      modifies this
      ensures out == old(out) + SuiteResults(suite, fileHint)
      decreases suite, 1
    {
      hide TestResults, ResultOf, OrHint;
      var fileName := OrHint(suite.file, fileHint);
      ghost var specs := SpecResults(suite.specs, fileName);
      var i := 0;
      while i < |suite.specs|
        invariant 0 <= i <= |suite.specs|
        invariant out + SpecResults(suite.specs[i..], fileName) == old(out) + specs
      {
        var spec := suite.specs[i];
        ghost var was := out;
        WalkTests(OrHint(spec.file, fileName), spec);
        Reassociate(was, TestResults(OrHint(spec.file, fileName), spec.title, spec.tests),
                    SpecResults(suite.specs[i + 1..], fileName));
        assert suite.specs[i..][1..] == suite.specs[i + 1..];
        i := i + 1;
      }
      assert out == old(out) + specs;
      WalkAll(suite.suites, fileName);
      Reassociate(old(out), specs, SuitesResults(suite.suites, fileName));
    }

    method WalkAll(suites: seq<Suite>, hint: string)
      modifies this
      ensures out == old(out) + SuitesResults(suites, hint)
      decreases suites, 0
    {
      hide SuiteResults;
      var i := 0;
      while i < |suites|
        invariant 0 <= i <= |suites|
        invariant out + SuitesResults(suites[i..], hint) == old(out) + SuitesResults(suites, hint)
      {
        ghost var was := out;
        Walk(suites[i], hint);
        Reassociate(was, SuiteResults(suites[i], hint), SuitesResults(suites[i + 1..], hint));
        assert suites[i..][1..] == suites[i + 1..];
        i := i + 1;
      }
    }

    /** `parsePlaywrightReport` on the report's top-level suites. */
    method Parse(suites: seq<Suite>)
      requires out == []
      modifies this
      ensures out == SuitesResults(suites, "")
    {
      var i := 0;
      while i < |suites|
        invariant 0 <= i <= |suites|
        invariant out + SuitesResults(suites[i..], "") == SuitesResults(suites, "")
      {
        ghost var was := out;
        TopHint(suites[i]);
        Walk(suites[i], suites[i].file);
        Reassociate(was, SuiteResults(suites[i], ""), SuitesResults(suites[i + 1..], ""));
        assert suites[i..][1..] == suites[i + 1..];
        i := i + 1;
      }
    }
  }

  lemma Reassociate<T>(a: seq<T>, b: seq<T>, c: seq<T>)
    ensures (a + b) + c == a + (b + c)
  {
  }

  lemma TopHint(s: Suite)
    ensures SuiteResults(s, s.file) == SuiteResults(s, "")
  {
  }

  // ---------------------------------------------------------------------------
  // What the walk means
  // ---------------------------------------------------------------------------

  /** A test with everything above it: the file names of its suites from the outermost in, then its spec's. */
  datatype Located = Located(files: seq<string>, title: string, test: Test)

  /** The innermost name that is not empty. */
  function Nearest(files: seq<string>): string {
    if files == [] then ""
    else if files[|files| - 1] != "" then files[|files| - 1]
    else Nearest(files[..|files| - 1])
  }

  function LocatedTests(above: seq<string>, title: string, tests: seq<Test>): (r: seq<Located>)
    ensures |r| == |tests|
  {
    seq(|tests|, i requires 0 <= i < |tests| => Located(above, title, tests[i]))
  }

  function LocatedSpecs(above: seq<string>, specs: seq<Spec>): seq<Located> {
    if specs == [] then []
    else LocatedTests(above + [specs[0].file], specs[0].title, specs[0].tests) + LocatedSpecs(above, specs[1..])
  }

  /** The tests of some suites in document order: a suite's own specs before those of its nested suites. */
  function LocatedSuites(above: seq<string>, ss: seq<Suite>): seq<Located>
    decreases ss
  {
    if ss == [] then []
    else
      var inner := above + [ss[0].file];
      LocatedSpecs(inner, ss[0].specs) + LocatedSuites(inner, ss[0].suites) + LocatedSuites(above, ss[1..])
  }

  /** `n` is `x` without its fraction. */
  predicate Truncates(x: real, n: int) {
    && (x >= 0.0 ==> n >= 0 && n as real <= x < n as real + 1.0)
    && (x <= 0.0 ==> n <= 0 && n as real - 1.0 < x <= n as real)
  }

  /** The result of a test: that of its last attempt, and a failure when there was none. */
  predicate Tells(r: ParsedResult, file: string, title: string, t: Test) {
    && r.file == file && r.title == title
    && if t.results == [] then r.status == Fail && r.duration == 0 && r.error == ""
       else
         var a := t.results[|t.results| - 1];
         StatusReads(a.status, r.status) && Truncates(a.duration, r.duration) && r.error == a.error
  }

  lemma ResultTells(file: string, title: string, t: Test)
    ensures Tells(ResultOf(file, title, t), file, title, t)
  {
    if t.results != [] {
      TruncTruncates(t.results[|t.results| - 1].duration);
    }
  }

  lemma TruncTruncates(x: real)
    ensures Truncates(x, Trunc(x))
  {
  }

  predicate Explains(ls: seq<Located>, rs: seq<ParsedResult>) {
    && |ls| == |rs|
    && forall i :: 0 <= i < |ls| ==> Tells(rs[i], Nearest(ls[i].files), ls[i].title, ls[i].test)
  }

  lemma NearestOrHint(above: seq<string>, file: string)
    ensures Nearest(above + [file]) == OrHint(file, Nearest(above))
  {
    assert (above + [file])[..|above|] == above;
  }

  lemma {:induction false} SpecsExplained(above: seq<string>, specs: seq<Spec>)
    ensures Explains(LocatedSpecs(above, specs), SpecResults(specs, Nearest(above)))
  {
    hide ResultOf, Nearest, OrHint, Tells;
    if specs != [] {
      var file := OrHint(specs[0].file, Nearest(above));
      SpecsExplained(above, specs[1..]);
      forall t <- specs[0].tests ensures Tells(ResultOf(file, specs[0].title, t), file, specs[0].title, t) {
        ResultTells(file, specs[0].title, t);
      }
      NearestOrHint(above, specs[0].file);
    }
  }

  /**
    One result per test, in document order, each with the file of the nearest level that names one and the
    status, the whole milliseconds and the error of the test's last attempt, whatever the earlier ones were.
   */
  lemma {:induction false} ResultsExplained(above: seq<string>, ss: seq<Suite>)
    ensures Explains(LocatedSuites(above, ss), SuitesResults(ss, Nearest(above)))
    decreases ss
  {
    hide ResultOf, Nearest, OrHint, LocatedSpecs, SpecResults, Tells;
    if ss != [] {
      var inner := above + [ss[0].file];
      NearestOrHint(above, ss[0].file);
      SpecsExplained(inner, ss[0].specs);
      ResultsExplained(inner, ss[0].suites);
      ResultsExplained(above, ss[1..]);
    }
  }

  // ---------------------------------------------------------------------------
  // What the agent makes of it
  // ---------------------------------------------------------------------------

  /** The entries that the reconcile pass looks through. */
  function Entries(rs: seq<ParsedResult>): (r: seq<Entry>)
    ensures |r| == |rs|
  {
    seq(|rs|, i requires 0 <= i < |rs| => Entry(rs[i].file, rs[i].status))
  }

  /** The first test in document order whose nearest file name has the spec's basename. */
  function FirstTestOf(ls: seq<Located>, spec: string): Option<Located> {
    if ls == [] then None
    else if Basename(Nearest(ls[0].files)) == Basename(spec) then Some(ls[0])
    else FirstTestOf(ls[1..], spec)
  }

  /** The status that a test stands for: what its last attempt says, a failure without one. */
  predicate Decides(l: Option<Located>, status: Status) {
    if l.None? || l.value.test.results == [] then status == Fail
    else StatusReads(l.value.test.results[|l.value.test.results| - 1].status, status)
  }

  /**
    Of a spec with several tests the reconcile pass reports the first one, by its last attempt: whatever the
    others did, and a spec without a test in the report has failed.
   */
  lemma FirstTestDecides(ss: seq<Suite>, spec: string)
    ensures Decides(FirstTestOf(LocatedSuites([], ss), spec), Reconciled(Entries(SuitesResults(ss, "")), spec))
  {
    hide Entries, Nearest, Basename, EntryFor, Decides, Tells;
    ResultsExplained([], ss);
    NoName();
    FirstExplained(LocatedSuites([], ss), SuitesResults(ss, ""), spec);
  }

  lemma NoName()
    ensures Nearest([]) == ""
  {
  }

  lemma {:induction false} FirstExplained(ls: seq<Located>, rs: seq<ParsedResult>, spec: string)
    requires Explains(ls, rs)
    ensures Decides(FirstTestOf(ls, spec), Reconciled(Entries(rs), spec))
  {
    hide Nearest, Basename, StatusReads, Truncates;
    if ls != [] {
      FirstExplained(ls[1..], rs[1..], spec);
      assert Entries(rs)[1..] == Entries(rs[1..]);
      assert Entries(rs)[0] == Entry(rs[0].file, rs[0].status);
    }
  }
}
