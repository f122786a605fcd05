/**
  How the agent reports a job's results (`agent/src/runner.ts`, `processJob`): lines streamed by the live
  reporter race the reconcile pass over the finished report. JavaScript runs each stretch between two awaits
  whole, so a run is a sequence of line deliveries and reconciled specs; lines may arrive before each spec is
  reconciled and after all of them.
 */
module LiveResults {
  import opened Wrappers

  datatype Status = Pass | Fail | Skipped

  /** `normalizeStatus`: everything but `passed` and `skipped` is a failure. */
  function Normalize(raw: string): Status {
    if raw == "passed" then Pass else if raw == "skipped" then Skipped else Fail
  }

  /** The status says what the raw text says. */
  predicate StatusReads(raw: string, status: Status) {
    (status.Pass? <==> raw == "passed") && (status.Skipped? <==> raw == "skipped")
  }

  /** A result the live reporter streams, and one read from `report.json`. */
  datatype Line = Line(file: string, raw: string)
  datatype Entry = Entry(file: string, status: Status)

  /** How the Playwright run ended; only a run in time with a readable report gives entries. */
  datatype Outcome = TimedOut | NoReport | Unreadable | Reported(entries: seq<Entry>)

  function Parsed(o: Outcome): seq<Entry> {
    if o.Reported? then o.entries else []
  }

  // ---------------------------------------------------------------------------
  // File names
  // ---------------------------------------------------------------------------

  function StripSlashes(p: string): string {
    if p != "" && p[|p| - 1] == '/' then StripSlashes(p[..|p| - 1]) else p
  }

  function AfterLastSlash(p: string): string {
    if p == "" || p[|p| - 1] == '/' then "" else AfterLastSlash(p[..|p| - 1]) + [p[|p| - 1]]
  }

  /** `path.basename` on POSIX. */
  function Basename(p: string): string {
    AfterLastSlash(StripSlashes(p))
  }

  /** The spec a streamed file name joins to: of several with one basename the map keeps the last. */
  function SpecFor(specs: seq<string>, base: string): Option<string> {
    if specs == [] then None
    else if Basename(specs[|specs| - 1]) == base then Some(specs[|specs| - 1])
    else SpecFor(specs[..|specs| - 1], base)
  }

  /** The first report entry with the spec's basename. */
  function EntryFor(entries: seq<Entry>, spec: string): Option<Entry> {
    if entries == [] then None
    else if Basename(entries[0].file) == Basename(spec) then Some(entries[0])
    else EntryFor(entries[1..], spec)
  }

  // ---------------------------------------------------------------------------
  // Posting
  // ---------------------------------------------------------------------------

  datatype Post = Post(file: string, status: Status, progress: nat)

  /** `handled`, the two counters, and what was sent to the server so far. */
  datatype Results = Results(handled: set<string>, passed: nat, failed: nat, posts: seq<Post>)

  const NOTHING := Results({}, 0, 0, [])

  function Progress(done: nat, total: nat): nat {
    if total == 0 then 100 else 100 * done / total
  }

  function PostCase(total: nat, r: Results, file: string, status: Status): Results {
    if file in r.handled then r
    else
      var handled := r.handled + {file};
      Results(handled,
              if status.Pass? then r.passed + 1 else r.passed,
              if status.Fail? then r.failed + 1 else r.failed,
              r.posts + [Post(file, status, Progress(|handled|, total))])
  }

  function OnLine(specs: seq<string>, r: Results, line: Line): Results {
    match SpecFor(specs, Basename(line.file))
    case None => r
    case Some(spec) => PostCase(|specs|, r, spec, Normalize(line.raw))
  }

  function OnLines(specs: seq<string>, r: Results, lines: seq<Line>): Results {
    if lines == [] then r else OnLine(specs, OnLines(specs, r, lines[..|lines| - 1]), lines[|lines| - 1])
  }

  /** What the reconcile pass has for a spec: its report entry, else a failure. */
  function Reconciled(entries: seq<Entry>, spec: string): Status {
    match EntryFor(entries, spec)
    case None => Fail
    case Some(e) => e.status
  }

  /** The first `n` specs reconciled, `live[k]` having arrived before spec `k`. */
  function Rounds(specs: seq<string>, entries: seq<Entry>, live: seq<seq<Line>>, n: nat): Results
    requires n <= |specs| && n <= |live|
  {
    if n == 0 then NOTHING
    else
      var before := OnLines(specs, Rounds(specs, entries, live, n - 1), live[n - 1]);
      PostCase(|specs|, before, specs[n - 1], Reconciled(entries, specs[n - 1]))
  }

  /** The object behind the callbacks: `postCaseResult` guards and counts, `onLine` feeds it. */
  class Reporter {
    const specs: seq<string>
    var handled: set<string>
    var passed: nat
    var failed: nat
    var posts: seq<Post>

    ghost function Abs(): Results
      reads this
    {
      Results(handled, passed, failed, posts)
    }

    constructor (specs: seq<string>)
      ensures this.specs == specs && Abs() == NOTHING
    {
      this.specs := specs;
      handled, passed, failed, posts := {}, 0, 0, [];
    }

    method PostCaseResult(file: string, status: Status)
      modifies this
      ensures Abs() == PostCase(|specs|, old(Abs()), file, status)
    {
      if file in handled {
        return;
      }
      handled := handled + {file};
      if status.Pass? {
        passed := passed + 1;
      } else if status.Fail? {
        failed := failed + 1;
      }
      posts := posts + [Post(file, status, Progress(|handled|, |specs|))];
    }

    method Lines(lines: seq<Line>)
      modifies this
      ensures Abs() == OnLines(specs, old(Abs()), lines)
    {
      var i := 0;
      while i < |lines|
        invariant 0 <= i <= |lines|
        invariant Abs() == OnLines(specs, old(Abs()), lines[..i])
      {
        var spec := SpecFor(specs, Basename(lines[i].file));
        assert lines[..i + 1][..i] == lines[..i];
        if spec.Some? {
          PostCaseResult(spec.value, Normalize(lines[i].raw));
        }
        i := i + 1;
      }
      assert lines[..i] == lines;
    }

    /** The run and its reconcile pass; returns the counts of `postComplete`. */
    method Process(outcome: Outcome, live: seq<seq<Line>>) returns (counts: (nat, nat))
      requires |live| == |specs| && Abs() == NOTHING
      modifies this
      ensures Abs() == Rounds(specs, if outcome.Reported? then outcome.entries else [], live, |specs|)
      ensures counts == (passed, failed)
    {
      hide PostCase;
      var k := 0;
      while k < |specs|
        invariant 0 <= k <= |specs|
        invariant Abs() == Rounds(specs, Parsed(outcome), live, k)
      {
        Lines(live[k]);
        var entry := EntryFor(Parsed(outcome), specs[k]);
        if entry.Some? {
          PostCaseResult(specs[k], entry.value.status);
        } else {
          PostCaseResult(specs[k], Fail);
        }
        k := k + 1;
      }
      counts := (passed, failed);
    }
  }

  // ---------------------------------------------------------------------------
  // What every step keeps
  // ---------------------------------------------------------------------------

  function CountStatus(posts: seq<Post>, s: Status): nat {
    if posts == [] then 0
    else CountStatus(posts[..|posts| - 1], s) + if posts[|posts| - 1].status == s then 1 else 0
  }

  function PostedFiles(posts: seq<Post>): set<string> {
    set k | 0 <= k < |posts| :: posts[k].file
  }

  ghost predicate PostedOnce(posts: seq<Post>) {
    forall j, k :: 0 <= j < k < |posts| ==> posts[j].file != posts[k].file
  }

  ghost predicate ProgressFollows(total: nat, posts: seq<Post>) {
    forall k :: 0 <= k < |posts| ==> posts[k].progress == Progress(k + 1, total)
  }

  /** Every handled file was posted once; the counters match the posted statuses; progress follows the posts. */
  ghost predicate Consistent(total: nat, r: Results) {
    && |r.handled| == |r.posts|
    && r.handled == PostedFiles(r.posts)
    && PostedOnce(r.posts)
    && r.passed == CountStatus(r.posts, Pass)
    && r.failed == CountStatus(r.posts, Fail)
    && ProgressFollows(total, r.posts)
  }

  lemma FilesAfterPost(posts: seq<Post>, p: Post)
    ensures PostedFiles(posts + [p]) == PostedFiles(posts) + {p.file}
  {
    var all := posts + [p];
    assert all[|posts|].file in PostedFiles(all);
    forall f | f in PostedFiles(posts)
      ensures f in PostedFiles(all)
    {
      var k :| 0 <= k < |posts| && posts[k].file == f;
      assert all[k].file == f;
    }
  }

  lemma OnceAfterPost(posts: seq<Post>, p: Post)
    requires PostedOnce(posts) && p.file !in PostedFiles(posts)
    ensures PostedOnce(posts + [p])
  {
    assert forall k :: 0 <= k < |posts| ==> posts[k].file in PostedFiles(posts);
  }

  lemma ProgressAfterPost(total: nat, posts: seq<Post>, p: Post)
    requires ProgressFollows(total, posts) && p.progress == Progress(|posts| + 1, total)
    ensures ProgressFollows(total, posts + [p])
  {
    hide Progress;
  }

  lemma CountAfterPost(posts: seq<Post>, p: Post, s: Status)
    ensures CountStatus(posts + [p], s) == CountStatus(posts, s) + if p.status == s then 1 else 0
  {
    assert (posts + [p])[..|posts|] == posts;
  }

  lemma PostCaseConsistent(total: nat, r: Results, file: string, status: Status)
    requires Consistent(total, r)
    ensures Consistent(total, PostCase(total, r, file, status))
    ensures PostCase(total, r, file, status).handled == r.handled + {file}
  {
    hide PostedFiles, PostedOnce, ProgressFollows, Progress, CountStatus;
    if file in r.handled {
      assert r.handled == r.handled + {file};
    } else {
      var p := Post(file, status, Progress(|r.handled + {file}|, total));
      FilesAfterPost(r.posts, p);
      OnceAfterPost(r.posts, p);
      ProgressAfterPost(total, r.posts, p);
      CountAfterPost(r.posts, p, Pass);
      CountAfterPost(r.posts, p, Fail);
    }
  }

  lemma {:induction false} SpecForMember(specs: seq<string>, base: string)
    ensures SpecFor(specs, base).Some? ==> SpecFor(specs, base).value in specs
  {
    if specs != [] {
      SpecForMember(specs[..|specs| - 1], base);
    }
  }

  ghost function Files(specs: seq<string>): set<string> {
    set f | f in specs
  }

  lemma {:induction false} OnLinesConsistent(specs: seq<string>, r: Results, lines: seq<Line>)
    requires Consistent(|specs|, r) && r.handled <= Files(specs)
    ensures Consistent(|specs|, OnLines(specs, r, lines))
    ensures r.handled <= OnLines(specs, r, lines).handled <= Files(specs)
  {
    if lines != [] {
      OnLinesConsistent(specs, r, lines[..|lines| - 1]);
      var base := Basename(lines[|lines| - 1].file);
      SpecForMember(specs, base);
      if SpecFor(specs, base).Some? {
        PostCaseConsistent(|specs|, OnLines(specs, r, lines[..|lines| - 1]), SpecFor(specs, base).value,
                           Normalize(lines[|lines| - 1].raw));
      }
    }
  }

  lemma NothingConsistent(total: nat)
    ensures Consistent(total, NOTHING)
  {
  }

  lemma FilesSnoc(specs: seq<string>, f: string)
    ensures Files(specs + [f]) == Files(specs) + {f}
  {
  }

  lemma {:induction false} RoundsConsistent(specs: seq<string>, entries: seq<Entry>, live: seq<seq<Line>>, n: nat)
    requires n <= |specs| && n <= |live|
    ensures var r := Rounds(specs, entries, live, n);
            Consistent(|specs|, r) && Files(specs[..n]) <= r.handled <= Files(specs)
  {
    hide Consistent, Reconciled, PostCase;
    if n > 0 {
      RoundsConsistent(specs, entries, live, n - 1);
      var r := Rounds(specs, entries, live, n - 1);
      OnLinesConsistent(specs, r, live[n - 1]);
      PostCaseConsistent(|specs|, OnLines(specs, r, live[n - 1]), specs[n - 1], Reconciled(entries, specs[n - 1]));
      FilesSnoc(specs[..n - 1], specs[n - 1]);
      assert specs[..n] == specs[..n - 1] + [specs[n - 1]];
      assert specs[n - 1] in Files(specs);
    } else {
      NothingConsistent(|specs|);
    }
  }

  /** For every job and every interleaving: each spec file is posted exactly once and nothing else is, the
      counters are those of the posted statuses, and progress never decreases. */
  lemma EachSpecPostedOnce(specs: seq<string>, entries: seq<Entry>, live: seq<seq<Line>>)
    requires |live| == |specs|
    ensures var r := Rounds(specs, entries, live, |specs|);
            && (forall f :: f in specs <==> exists k :: 0 <= k < |r.posts| && r.posts[k].file == f)
            && (forall j, k :: 0 <= j < k < |r.posts| ==> r.posts[j].file != r.posts[k].file)
            && r.passed == CountStatus(r.posts, Pass) && r.failed == CountStatus(r.posts, Fail)
            && (forall j, k :: 0 <= j < k < |r.posts| ==> r.posts[j].progress <= r.posts[k].progress)
  {
    RoundsConsistent(specs, entries, live, |specs|);
    assert specs[..|specs|] == specs;
    var r := Rounds(specs, entries, live, |specs|);
    assert forall f :: f in r.handled <==> f in specs;
    forall j, k | 0 <= j < k < |r.posts|
      ensures r.posts[j].progress <= r.posts[k].progress
    {
      ProgressGrows(j + 1, k + 1, |specs|);
    }
  }

  lemma ProgressGrows(a: nat, b: nat, total: nat)
    requires a <= b
    ensures Progress(a, total) <= Progress(b, total)
  {
    if total > 0 {
      DivMonotone(100 * a, 100 * b, total);
    }
  }

  lemma DivMonotone(a: nat, b: nat, d: nat)
    requires a <= b && d > 0
    ensures a / d <= b / d
  {
    var x, y := a / d, b / d;
    assert a == d * x + a % d && b == d * y + b % d;
    if y + 1 <= x {
      MulMonotone(d, y + 1, x);
    }
  }

  lemma MulMonotone(d: nat, a: int, b: int)
    requires a <= b
    ensures d * a <= d * b
  {
  }

  ghost predicate Distinct(names: seq<string>) {
    forall j, k :: 0 <= j < k < |names| ==> names[j] != names[k]
  }

  lemma {:induction false} FilesCount(specs: seq<string>)
    ensures |Files(specs)| <= |specs|
    ensures |Files(specs)| == |specs| <==> Distinct(specs)
  {
    if specs != [] {
      var init, last := specs[..|specs| - 1], specs[|specs| - 1];
      FilesCount(init);
      assert specs == init + [last];
      assert Files(specs) == Files(init) + {last};
      if last !in init && Distinct(init) {
        assert Distinct(specs);
      }
    }
  }

  lemma HundredOnlyAtTheEnd(n: nat, total: nat)
    requires 0 < n <= total
    ensures Progress(n, total) == 100 <==> n == total
  {
    var q := 100 * n / total;
    assert 100 * n == total * q + 100 * n % total;
    if q == 100 {
      assert 100 * n >= total * 100;
    }
    if n == total {
      DivExact(100, total);
    }
  }

  lemma DivExact(q: nat, d: nat)
    requires d > 0
    ensures q * d / d == q
  {
    var x := q * d / d;
    assert q * d == d * x + q * d % d;
    if x + 1 <= q {
      MulMonotone(d, x + 1, q);
    } else if q + 1 <= x {
      MulMonotone(d, q + 1, x);
    }
  }

  /** The last progress posted is 100 exactly when no two specs share a file name. */
  lemma ProgressEndsAt100(specs: seq<string>, entries: seq<Entry>, live: seq<seq<Line>>)
    requires |live| == |specs| > 0
    ensures var posts := Rounds(specs, entries, live, |specs|).posts;
            && |posts| > 0
            && (posts[|posts| - 1].progress == 100 <==> Distinct(specs))
  {
    RoundsConsistent(specs, entries, live, |specs|);
    assert specs[..|specs|] == specs;
    FilesCount(specs);
    var r := Rounds(specs, entries, live, |specs|);
    assert r.handled == Files(specs);
    assert specs[0] in r.handled;
    var n, total := |r.posts|, |specs|;
    assert r.posts[n - 1].progress == Progress(n, total);
    HundredOnlyAtTheEnd(n, total);
  }

  /** Lines that arrive after the pass change nothing, so the counts of `postComplete` are final. */
  lemma LateLinesIgnored(specs: seq<string>, entries: seq<Entry>, live: seq<seq<Line>>, late: seq<Line>)
    requires |live| == |specs|
    ensures OnLines(specs, Rounds(specs, entries, live, |specs|), late) == Rounds(specs, entries, live, |specs|)
  {
    RoundsConsistent(specs, entries, live, |specs|);
    assert specs[..|specs|] == specs;
    HandledLinesIgnored(specs, Rounds(specs, entries, live, |specs|), late);
  }

  lemma {:induction false} HandledLinesIgnored(specs: seq<string>, r: Results, late: seq<Line>)
    requires Files(specs) <= r.handled
    ensures OnLines(specs, r, late) == r
  {
    if late != [] {
      HandledLinesIgnored(specs, r, late[..|late| - 1]);
      SpecForMember(specs, Basename(late[|late| - 1].file));
    }
  }

  // ---------------------------------------------------------------------------
  // Which status is posted
  // ---------------------------------------------------------------------------

  function Basenames(specs: seq<string>): seq<string> {
    seq(|specs|, k requires 0 <= k < |specs| => Basename(specs[k]))
  }

  /** The status posted for a file. */
  function StatusOf(posts: seq<Post>, file: string): Option<Status> {
    if posts == [] then None
    else if StatusOf(posts[..|posts| - 1], file).Some? then StatusOf(posts[..|posts| - 1], file)
    else if posts[|posts| - 1].file == file then Some(posts[|posts| - 1].status)
    else None
  }

  /** The status of the first line for a spec. */
  function FirstLine(lines: seq<Line>, spec: string): Option<Status> {
    if lines == [] then None
    else if Basename(lines[0].file) == Basename(spec) then Some(Normalize(lines[0].raw))
    else FirstLine(lines[1..], spec)
  }

  function OrElse<T>(a: Option<T>, b: Option<T>): Option<T> {
    if a.Some? then a else b
  }

  lemma {:induction false} FirstLineConcat(a: seq<Line>, b: seq<Line>, spec: string)
    ensures FirstLine(a + b, spec) == OrElse(FirstLine(a, spec), FirstLine(b, spec))
  {
    if a == [] {
      assert a + b == b;
    } else {
      FirstLineConcat(a[1..], b, spec);
      assert (a + b)[1..] == a[1..] + b;
    }
  }

  lemma {:induction false} StatusKnown(posts: seq<Post>, file: string)
    ensures StatusOf(posts, file).Some? <==> exists k :: 0 <= k < |posts| && posts[k].file == file
  {
    if posts != [] {
      StatusKnown(posts[..|posts| - 1], file);
    }
  }

  /** A post decides a file's status only if it is the file's first. */
  lemma PostCaseStatus(total: nat, r: Results, file: string, status: Status, f: string)
    requires Consistent(total, r)
    ensures StatusOf(PostCase(total, r, file, status).posts, f)
         == OrElse(StatusOf(r.posts, f), if file == f then Some(status) else None)
  {
    StatusKnown(r.posts, f);
    if file !in r.handled {
      var r' := PostCase(total, r, file, status);
      assert r'.posts[..|r'.posts| - 1] == r.posts;
    }
  }

  lemma {:induction false} SpecForDistinct(specs: seq<string>, k: nat, base: string)
    requires k < |specs| && Distinct(Basenames(specs))
    ensures SpecFor(specs, base) == Some(specs[k]) <==> base == Basename(specs[k])
  {
    var n := |specs| - 1;
    assert forall j :: 0 <= j < |specs| ==> Basenames(specs)[j] == Basename(specs[j]);
    SpecForMember(specs[..n], base);
    if k < n {
      assert forall j :: 0 <= j < n ==> Basenames(specs[..n])[j] == Basenames(specs)[j];
      SpecForDistinct(specs[..n], k, base);
    } else if SpecFor(specs[..n], base).Some? {
      SpecForBase(specs[..n], base);
    }
  }

  lemma {:induction false} SpecForBase(specs: seq<string>, base: string)
    ensures SpecFor(specs, base).Some? ==> Basename(SpecFor(specs, base).value) == base
  {
    if specs != [] {
      SpecForBase(specs[..|specs| - 1], base);
    }
  }

  lemma {:induction false} OnLinesStatus(specs: seq<string>, r: Results, lines: seq<Line>, k: nat)
    requires k < |specs| && Distinct(Basenames(specs))
    requires Consistent(|specs|, r) && r.handled <= Files(specs)
    ensures StatusOf(OnLines(specs, r, lines).posts, specs[k])
         == OrElse(StatusOf(r.posts, specs[k]), FirstLine(lines, specs[k]))
  {
    if lines != [] {
      var init, last := lines[..|lines| - 1], lines[|lines| - 1];
      OnLinesStatus(specs, r, init, k);
      OnLinesConsistent(specs, r, init);
      assert lines == init + [last];
      FirstLineConcat(init, [last], specs[k]);
      var base := Basename(last.file);
      SpecForDistinct(specs, k, base);
      if SpecFor(specs, base).Some? {
        PostCaseStatus(|specs|, OnLines(specs, r, init), SpecFor(specs, base).value, Normalize(last.raw), specs[k]);
      }
    }
  }

  function Flat(live: seq<seq<Line>>): seq<Line> {
    if live == [] then [] else Flat(live[..|live| - 1]) + live[|live| - 1]
  }

  lemma {:induction false} RoundsStatus(specs: seq<string>, entries: seq<Entry>, live: seq<seq<Line>>, n: nat, k: nat)
    requires n <= |specs| && n <= |live| && k < |specs| && Distinct(Basenames(specs))
    ensures StatusOf(Rounds(specs, entries, live, n).posts, specs[k])
         == if k < n then Some(Expected(specs, entries, live, k)) else FirstLine(Flat(live[..n]), specs[k])
  {
    hide Consistent, Reconciled, PostCase, StatusOf, FirstLine, OnLines, Basename, Flat;
    if n == 0 {
      EmptyStatus(specs[k]);
    } else {
      RoundsStatus(specs, entries, live, n - 1, k);
      RoundsConsistent(specs, entries, live, n - 1);
      var r := Rounds(specs, entries, live, n - 1);
      var before := OnLines(specs, r, live[n - 1]);
      OnLinesStatus(specs, r, live[n - 1], k);
      OnLinesConsistent(specs, r, live[n - 1]);
      PostCaseStatus(|specs|, before, specs[n - 1], Reconciled(entries, specs[n - 1]), specs[k]);
      FlatSnoc(live, n);
      FirstLineConcat(Flat(live[..n - 1]), live[n - 1], specs[k]);
      DistinctSpecs(specs);
    }
  }

  lemma EmptyStatus(spec: string)
    ensures StatusOf(NOTHING.posts, spec) == None == FirstLine(Flat([]), spec)
  {
  }

  lemma FlatSnoc(live: seq<seq<Line>>, n: nat)
    requires 0 < n <= |live|
    ensures Flat(live[..n]) == Flat(live[..n - 1]) + live[n - 1]
  {
    assert live[..n][..n - 1] == live[..n - 1];
  }

  lemma DistinctSpecs(specs: seq<string>)
    requires Distinct(Basenames(specs))
    ensures Distinct(specs)
  {
    forall j, k | 0 <= j < k < |specs|
      ensures specs[j] != specs[k]
    {
      assert Basenames(specs)[j] != Basenames(specs)[k];
    }
  }

  /** First live line that arrived before the spec's turn, else its report entry, else a failure. */
  function Expected(specs: seq<string>, entries: seq<Entry>, live: seq<seq<Line>>, k: nat): Status
    requires k < |specs| && k < |live|
  {
    match FirstLine(Flat(live[..k + 1]), specs[k])
    case Some(s) => s
    case None => Reconciled(entries, specs[k])
  }

  /** The lines that were streamed for the spec's basename, as far as they arrived before the spec's turn. */
  function LinesFor(lines: seq<Line>, spec: string): seq<Line> {
    if lines == [] then []
    else (if Basename(lines[0].file) == Basename(spec) then [lines[0]] else []) + LinesFor(lines[1..], spec)
  }

  function EntriesFor(entries: seq<Entry>, spec: string): seq<Entry> {
    if entries == [] then []
    else (if Basename(entries[0].file) == Basename(spec) then [entries[0]] else []) + EntriesFor(entries[1..], spec)
  }

  lemma {:induction false} FirstLineReads(lines: seq<Line>, spec: string)
    ensures LinesFor(lines, spec) == [] <==> FirstLine(lines, spec).None?
    ensures LinesFor(lines, spec) != [] ==> StatusReads(LinesFor(lines, spec)[0].raw, FirstLine(lines, spec).value)
  {
    hide Basename;
    if lines != [] { FirstLineReads(lines[1..], spec); }
  }

  lemma {:induction false} FirstEntryReads(entries: seq<Entry>, spec: string)
    ensures EntriesFor(entries, spec) == [] ==> EntryFor(entries, spec).None?
    ensures EntriesFor(entries, spec) != [] ==> EntryFor(entries, spec) == Some(EntriesFor(entries, spec)[0])
  {
    hide Basename;
    if entries != [] { FirstEntryReads(entries[1..], spec); }
  }

  /**
    With distinct basenames, in every interleaving: a spec is posted as its first line said if one arrived before
    its turn, else as its first report entry says, else as failed. A line says pass for `passed`, skipped for
    `skipped`, and failed for anything else.
   */
  lemma PostedStatus(specs: seq<string>, entries: seq<Entry>, live: seq<seq<Line>>, k: nat)
    requires |live| == |specs| && k < |specs| && Distinct(Basenames(specs))
    ensures var posted := StatusOf(Rounds(specs, entries, live, |specs|).posts, specs[k]);
            var said, found := LinesFor(Flat(live[..k + 1]), specs[k]), EntriesFor(entries, specs[k]);
            && posted.Some?
            && (said != [] ==> StatusReads(said[0].raw, posted.value))
            && (said == [] && found != [] ==> posted.value == found[0].status)
            && (said == [] && found == [] ==> posted.value == Fail)
  {
    hide Rounds, Basename, Flat, EntryFor, FirstLine, StatusReads, StatusOf, LinesFor, EntriesFor;
    RoundsStatus(specs, entries, live, |specs|, k);
    FirstLineReads(Flat(live[..k + 1]), specs[k]);
    FirstEntryReads(entries, specs[k]);
  }

  /** A basename is what follows the last slash; slashes at the end do not count. */
  lemma {:induction false} BasenameIs(dir: string, name: string, slashes: string)
    requires name != "" && forall i :: 0 <= i < |name| ==> name[i] != '/'
    requires dir == "" || dir[|dir| - 1] == '/'
    requires forall i :: 0 <= i < |slashes| ==> slashes[i] == '/'
    ensures Basename(dir + name + slashes) == name
    decreases |slashes|
  {
    hide AfterLastSlash;
    if slashes == "" {
      assert dir + name + slashes == dir + name;
      AfterSlash(dir, name);
    } else {
      var cut := slashes[..|slashes| - 1];
      assert (dir + name + slashes)[..|dir + name + slashes| - 1] == dir + name + cut;
      BasenameIs(dir, name, cut);
    }
  }

  lemma {:induction false} AfterSlash(dir: string, name: string)
    requires forall i :: 0 <= i < |name| ==> name[i] != '/'
    requires dir == "" || dir[|dir| - 1] == '/'
    ensures AfterLastSlash(dir + name) == name
    decreases |name|
  {
    if name == "" {
      assert dir + name == dir;
    } else {
      assert (dir + name)[..|dir + name| - 1] == dir + name[..|name| - 1];
      AfterSlash(dir, name[..|name| - 1]);
    }
  }

  /** Every post carries the share of specs that are posted, in whole percent rounded down. */
  lemma ProgressIsShare(specs: seq<string>, entries: seq<Entry>, live: seq<seq<Line>>, k: nat)
    requires |live| == |specs|
    requires k < |Rounds(specs, entries, live, |specs|).posts|
    ensures var p := Rounds(specs, entries, live, |specs|).posts[k].progress;
            |specs| > 0 && p * |specs| <= 100 * (k + 1) < (p + 1) * |specs|
  {
    hide Rounds;
    var posts := Rounds(specs, entries, live, |specs|).posts;
    RoundsConsistent(specs, entries, live, |specs|);
    hide Progress;
    assert posts[k].progress == Progress(k + 1, |specs|);
    PostedInSpecs(specs, entries, live);
    ProgressFloor(k + 1, |specs|);
  }

  lemma PostedInSpecs(specs: seq<string>, entries: seq<Entry>, live: seq<seq<Line>>)
    requires |live| == |specs|
    ensures Rounds(specs, entries, live, |specs|).posts != [] ==> specs != []
  {
  }

  lemma ProgressFloor(n: nat, total: nat)
    requires total > 0
    ensures Progress(n, total) * total <= 100 * n < (Progress(n, total) + 1) * total
  {
    var q := 100 * n / total;
    assert 100 * n == total * q + 100 * n % total;
    assert (q + 1) * total == total * q + total;
  }

  /** A streamed result reaches the spec it names exactly when no later spec has the same basename under
      another path; otherwise it is posted for that later spec. */
  lemma {:induction false} StreamedResultJoins(specs: seq<string>, k: nat)
    requires k < |specs|
    ensures SpecFor(specs, Basename(specs[k])) == Some(specs[k]) <==> exists i: nat :: JoinsAt(specs, k, i)
  {
    hide Basename, LastOfBasename;
    var n := |specs| - 1;
    if Basename(specs[n]) == Basename(specs[k]) {
      LastOfAll(specs);
      assert specs[n] == specs[k] ==> JoinsAt(specs, k, n);
      forall i: nat | JoinsAt(specs, k, i)
        ensures i == n
      {
        NotBeforeLast(specs, i);
      }
    } else {
      var init := specs[..n];
      StreamedResultJoins(init, k);
      forall i: nat
        ensures JoinsAt(init, k, i) <==> JoinsAt(specs, k, i)
      {
        if k <= i < n && specs[i] == specs[k] { LastInPrefix(specs, i); }
      }
    }
  }

  /** Position `i`, not before `k`, holds the same spec as `k`, and its basename does not occur any more after it. */
  ghost predicate JoinsAt(specs: seq<string>, k: nat, i: nat) {
    k <= i < |specs| && specs[i] == specs[k] && LastOfBasename(specs, i)
  }

  lemma LastOfAll(specs: seq<string>)
    requires specs != []
    ensures LastOfBasename(specs, |specs| - 1)
  {
  }

  lemma NotBeforeLast(specs: seq<string>, i: nat)
    requires i < |specs| && LastOfBasename(specs, i) && Basename(specs[i]) == Basename(specs[|specs| - 1])
    ensures i == |specs| - 1
  {
    hide Basename;
  }

  lemma LastInPrefix(specs: seq<string>, i: nat)
    requires i < |specs| - 1 && Basename(specs[i]) != Basename(specs[|specs| - 1])
    ensures LastOfBasename(specs[..|specs| - 1], i) <==> LastOfBasename(specs, i)
  {
    hide Basename;
    var init := specs[..|specs| - 1];
    assert forall j :: 0 <= j < |init| ==> init[j] == specs[j];
  }

  ghost predicate LastOfBasename(specs: seq<string>, i: nat)
    requires i < |specs|
  {
    forall j :: i < j < |specs| ==> Basename(specs[j]) != Basename(specs[i])
  }
}
