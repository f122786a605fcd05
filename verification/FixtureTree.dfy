/**
  The tree half of `applyFixtures` (`agent/src/playwrightConfig.ts`): which files are rewritten, to which
  specifier, and what the work directory holds afterwards.
 */
module FixtureTree {
  import opened Paths
  import opened FixtureRewrite
  import ProjectBundle

  /** A directory as it is read: an unreadable one has no visible entries. */
  datatype Node = File(name: string) | Dir(name: string, entries: seq<Node>)

  const MODULE := "@playwright/test"
  const SHIM := "fixtures.ts"

  predicate EndsWith(s: string, suffix: string) {
    |suffix| <= |s| && s[|s| - |suffix|..] == suffix
  }

  predicate SkippedDir(name: string) {
    name == "node_modules" || name == "test-results" || name == "playwright-report" || name == "blob-report"
    || name == ".git"
  }

  predicate Rewritable(name: string) {
    EndsWith(name, ".ts") && !EndsWith(name, ".d.ts") && !EndsWith(name, ".config.ts")
  }

  // ---------------------------------------------------------------------------
  // The walk
  // ---------------------------------------------------------------------------

  function Child(relative: string, name: string): string {
    if relative == "" then name else relative + "/" + name
  }

  function Targets(entries: seq<Node>, relative: string): seq<string>
    decreases entries, 1
  {
    if entries == [] then []
    else TargetsOf(entries[0], relative) + Targets(entries[1..], relative)
  }

  function TargetsOf(n: Node, relative: string): seq<string>
    decreases n, 0
  {
    match n
    case Dir(name, entries) => if SkippedDir(name) then [] else Targets(entries, Child(relative, name))
    case File(name) => if Rewritable(name) && !(relative == "" && name == SHIM) then [Child(relative, name)] else []
  }

  lemma TargetsStep(entries: seq<Node>, i: nat, relative: string)
    requires i <= |entries|
    ensures Targets(entries[i..], relative)
         == if i == |entries| then [] else TargetsOf(entries[i], relative) + Targets(entries[i + 1..], relative)
  {
    hide TargetsOf;
    assert i < |entries| ==> entries[i..][1..] == entries[i + 1..];
  }

  method FixtureTargets(entries: seq<Node>, relative: string) returns (out: seq<string>)
    ensures out == Targets(entries, relative)
    decreases entries
  {
    hide EndsWith, SkippedDir, Child, Targets;
    out := [];
    var i := 0;
    assert entries[0..] == entries;
    while i < |entries|
      invariant 0 <= i <= |entries|
      invariant out + Targets(entries[i..], relative) == Targets(entries, relative)
    {
      var entry := entries[i];
      ghost var before, rest := out, Targets(entries[i + 1..], relative);
      TargetsStep(entries, i, relative);
      Associate(before, TargetsOf(entry, relative), rest);
      var child := Child(relative, entry.name);
      if entry.Dir? {
        if !SkippedDir(entry.name) {
          var inner := FixtureTargets(entry.entries, child);
          out := out + inner;
        }
      } else if EndsWith(entry.name, ".ts") && !EndsWith(entry.name, ".d.ts") {
        if !EndsWith(entry.name, ".config.ts") && !(relative == "" && entry.name == SHIM) {
          out := out + [child];
        }
      }
      i := i + 1;
    }
    TargetsStep(entries, i, relative);
  }

  // ---------------------------------------------------------------------------
  // The flat rule
  // ---------------------------------------------------------------------------

  /** Names a file system allows, and no two alike in one directory. */
  ghost predicate WellNamed(entries: seq<Node>) {
    && (forall i :: 0 <= i < |entries| ==> Proper(entries[i].name))
    && (forall i, j :: 0 <= i < j < |entries| ==> entries[i].name != entries[j].name)
    && (forall i :: 0 <= i < |entries| && entries[i].Dir? ==> WellNamed(entries[i].entries))
  }

  /** The paths of all files, segment by segment. */
  ghost function FilePaths(entries: seq<Node>): seq<seq<string>>
    decreases entries, 1
  {
    if entries == [] then [] else PathsOf(entries[0]) + FilePaths(entries[1..])
  }

  ghost function PathsOf(n: Node): seq<seq<string>>
    decreases n, 0
  {
    match n
    case File(name) => [[name]]
    case Dir(name, entries) => Under(name, FilePaths(entries))
  }

  ghost function Under(name: string, paths: seq<seq<string>>): seq<seq<string>> {
    if paths == [] then [] else [[name] + paths[0]] + Under(name, paths[1..])
  }

  /** Which files are rewritten, judged by the path alone. */
  predicate Selected(path: seq<string>) {
    && path != []
    && Rewritable(path[|path| - 1])
    && (forall i :: 0 <= i < |path| - 1 ==> !SkippedDir(path[i]))
    && path != [SHIM]
  }

  /** Some stem followed by the suffix. */
  ghost predicate Suffixed(s: string, suffix: string) {
    exists stem :: s == stem + suffix
  }

  lemma EndsExactly(s: string, suffix: string)
    ensures EndsWith(s, suffix) <==> Suffixed(s, suffix)
  {
    if EndsWith(s, suffix) {
      assert s == s[..|s| - |suffix|] + suffix;
    }
  }

  /** TypeScript sources but declarations and configurations, outside the directories of tools, and not the shim. */
  lemma SelectedExactly(path: seq<string>)
    ensures Selected(path) <==>
              && path != [] && path != ["fixtures.ts"]
              && var name, dirs := path[|path| - 1], path[..|path| - 1];
                 && Suffixed(name, ".ts") && !Suffixed(name, ".d.ts") && !Suffixed(name, ".config.ts")
                 && "node_modules" !in dirs && "test-results" !in dirs && "playwright-report" !in dirs
                 && "blob-report" !in dirs && ".git" !in dirs
  {
    hide EndsWith, Suffixed;
    if path != [] {
      var name, dirs := path[|path| - 1], path[..|path| - 1];
      EndsExactly(name, ".ts");
      EndsExactly(name, ".d.ts");
      EndsExactly(name, ".config.ts");
      assert forall i :: 0 <= i < |dirs| ==> path[i] == dirs[i] && dirs[i] in dirs;
    }
  }

  ghost function Picked(paths: seq<seq<string>>, prefix: seq<string>): seq<string> {
    if paths == [] then []
    else
      (if Selected(prefix + paths[0]) then [Join(prefix + paths[0], '/')] else []) + Picked(paths[1..], prefix)
  }

  lemma {:induction false} PickedConcat(a: seq<seq<string>>, b: seq<seq<string>>, prefix: seq<string>)
    ensures Picked(a + b, prefix) == Picked(a, prefix) + Picked(b, prefix)
  {
    if a == [] {
      assert a + b == b;
    } else {
      hide Selected, Join;
      PickedConcat(a[1..], b, prefix);
      assert (a + b)[1..] == a[1..] + b;
      var first := if Selected(prefix + a[0]) then [Join(prefix + a[0], '/')] else [];
      Associate(first, Picked(a[1..], prefix), Picked(b, prefix));
    }
  }

  lemma {:induction false} PickedUnder(name: string, paths: seq<seq<string>>, prefix: seq<string>)
    requires forall i :: 0 <= i < |paths| ==> paths[i] != []
    ensures Picked(Under(name, paths), prefix)
         == if SkippedDir(name) then [] else Picked(paths, prefix + [name])
  {
    if paths != [] {
      PickedUnder(name, paths[1..], prefix);
      var path := prefix + ([name] + paths[0]);
      assert path == prefix + [name] + paths[0];
      assert path[|prefix|] == name;
      assert ([[name] + paths[0]] + Under(name, paths[1..]))[1..] == Under(name, paths[1..]);
    }
  }

  lemma {:induction false} PathsNonEmpty(entries: seq<Node>)
    ensures forall i :: 0 <= i < |FilePaths(entries)| ==> FilePaths(entries)[i] != []
    decreases entries
  {
    if entries != [] {
      PathsNonEmpty(entries[1..]);
      if entries[0].Dir? {
        UnderAt(entries[0].name, FilePaths(entries[0].entries));
      }
    }
  }

  lemma {:induction false} UnderAt(name: string, paths: seq<seq<string>>)
    ensures |Under(name, paths)| == |paths|
    ensures forall i :: 0 <= i < |paths| ==> Under(name, paths)[i] == [name] + paths[i]
  {
    if paths != [] {
      UnderAt(name, paths[1..]);
    }
  }

  lemma JoinChild(prefix: seq<string>, name: string)
    requires AllProper(prefix)
    ensures Child(Join(prefix, '/'), name) == Join(prefix + [name], '/')
    ensures Join(prefix, '/') == "" <==> prefix == []
  {
    if prefix == [] {
      assert prefix + [name] == [name];
    } else {
      ProjectBundle.JoinConcat(prefix, [name]);
      assert |Join(prefix, '/')| >= |prefix[0]|;
    }
  }

  /** The walk from any directory selects as the flat rule does. */
  lemma {:induction false} TargetsFlat(entries: seq<Node>, prefix: seq<string>)
    requires WellNamed(entries) && AllProper(prefix)
    requires forall i :: 0 <= i < |prefix| ==> !SkippedDir(prefix[i])
    ensures Targets(entries, Join(prefix, '/')) == Picked(FilePaths(entries), prefix)
    decreases entries
  {
    if entries != [] {
      var n := entries[0];
      TargetsFlat(entries[1..], prefix);
      PickedConcat(PathsOf(n), FilePaths(entries[1..]), prefix);
      JoinChild(prefix, n.name);
      match n
      case File(name) =>
        assert (prefix + [name])[|prefix|] == name;
        assert Picked([[name]], prefix) == (if Selected(prefix + [name]) then [Join(prefix + [name], '/')] else []) by {
          assert [[name]][1..] == [];
        }
        assert prefix + [name] == [SHIM] <==> prefix == [] && name == SHIM;
      case Dir(name, inner) =>
        PathsNonEmpty(inner);
        PickedUnder(name, FilePaths(inner), prefix);
        if !SkippedDir(name) {
          TargetsFlat(inner, prefix + [name]);
        }
    }
  }

  // ---------------------------------------------------------------------------
  // Each file once
  // ---------------------------------------------------------------------------

  ghost predicate NoRepeats<T(!new)>(s: seq<T>) {
    forall i, j :: 0 <= i < j < |s| ==> s[i] != s[j]
  }

  lemma {:induction false} PathsDistinct(entries: seq<Node>)
    requires WellNamed(entries)
    ensures NoRepeats(FilePaths(entries))
    ensures forall i :: 0 <= i < |FilePaths(entries)| ==>
              && FilePaths(entries)[i] != [] && AllProper(FilePaths(entries)[i])
              && exists k :: 0 <= k < |entries| && entries[k].name == FilePaths(entries)[i][0]
    decreases entries
  {
    if entries != [] {
      var n, rest := entries[0], entries[1..];
      PathsDistinct(rest);
      PathsOfDistinct(n);
      var a, b := PathsOf(n), FilePaths(rest);
      forall i, j | 0 <= i < |a| && 0 <= j < |b|
        ensures a[i] != b[j]
      {
        var k :| 0 <= k < |rest| && rest[k].name == b[j][0];
        assert entries[k + 1] == rest[k];
      }
      forall i | 0 <= i < |b|
        ensures exists k :: 0 <= k < |entries| && entries[k].name == b[i][0]
      {
        var k :| 0 <= k < |rest| && rest[k].name == b[i][0];
        assert entries[k + 1] == rest[k];
      }
    }
  }

  lemma {:induction false} PathsOfDistinct(n: Node)
    requires Proper(n.name) && (n.Dir? ==> WellNamed(n.entries))
    ensures NoRepeats(PathsOf(n))
    ensures forall i :: 0 <= i < |PathsOf(n)| ==>
              PathsOf(n)[i] != [] && AllProper(PathsOf(n)[i]) && PathsOf(n)[i][0] == n.name
    decreases n
  {
    if n.Dir? {
      PathsDistinct(n.entries);
      var paths := FilePaths(n.entries);
      UnderAt(n.name, paths);
      forall i, j | 0 <= i < j < |paths|
        ensures [n.name] + paths[i] != [n.name] + paths[j]
      {
        assert ([n.name] + paths[i])[1..] == paths[i] && ([n.name] + paths[j])[1..] == paths[j];
      }
    }
  }

  lemma {:induction false} PickedMembers(paths: seq<seq<string>>)
    requires NoRepeats(paths) && forall i :: 0 <= i < |paths| ==> paths[i] != [] && AllProper(paths[i])
    ensures NoRepeats(Picked(paths, []))
    ensures forall p :: p in Picked(paths, []) <==>
              exists i :: 0 <= i < |paths| && Selected(paths[i]) && Join(paths[i], '/') == p
  {
    if paths != [] {
      var rest := paths[1..];
      PickedMembers(rest);
      assert [] + paths[0] == paths[0];
      forall i | 0 <= i < |rest|
        ensures Join(rest[i], '/') != Join(paths[0], '/')
      {
        SplitJoin(rest[i], '/');
        SplitJoin(paths[0], '/');
        assert rest[i] == paths[i + 1];
      }
      forall p
        ensures p in Picked(paths, []) <==>
                  exists i :: 0 <= i < |paths| && Selected(paths[i]) && Join(paths[i], '/') == p
      {
        if i :| 0 <= i < |rest| && Selected(rest[i]) && Join(rest[i], '/') == p {
          assert paths[i + 1] == rest[i];
        }
      }
      NoRepeatsCons(Join(paths[0], '/'), Picked(rest, []));
    }
  }

  lemma NoRepeatsCons<T(!new)>(x: T, s: seq<T>)
    requires NoRepeats(s) && x !in s
    ensures NoRepeats([x] + s)
  {
  }

  /** For every directory tree the walk returns, once each, exactly the files the flat rule selects. */
  lemma TargetsExact(entries: seq<Node>)
    requires WellNamed(entries)
    ensures NoRepeats(Targets(entries, ""))
    ensures forall p :: p in Targets(entries, "") <==>
              var paths := FilePaths(entries);
              exists i :: 0 <= i < |paths| && Selected(paths[i]) && Join(paths[i], '/') == p
  {
    TargetsFlat(entries, []);
    PathsDistinct(entries);
    PickedMembers(FilePaths(entries));
  }

  // ---------------------------------------------------------------------------
  // The specifier
  // ---------------------------------------------------------------------------

  function Repeat(s: string, n: nat): string {
    if n == 0 then "" else s + Repeat(s, n - 1)
  }

  function FixturesSpecifier(relative: string): string {
    SpecifierAt(|Split(ProjectBundle.Slashed(relative), '/')| - 1)
  }

  function SpecifierAt(depth: nat): string {
    if depth == 0 then "./fixtures" else Repeat("../", depth) + "fixtures"
  }

  /** The module a specifier names, seen from the directory of the file that imports it. */
  function ResolveFrom(path: seq<string>, specifier: string): seq<string>
    requires path != []
  {
    Walk(false, path[..|path| - 1], Split(specifier, '/'))
  }

  function Ups(n: nat): seq<string> {
    if n == 0 then [] else [".."] + Ups(n - 1)
  }

  lemma {:induction false} SplitUps(n: nat)
    ensures Split(Repeat("../", n) + "fixtures", '/') == Ups(n) + ["fixtures"]
  {
    if n == 0 {
      SplitNone("fixtures", '/');
      assert Repeat("../", 0) + "fixtures" == "fixtures";
    } else {
      SplitUps(n - 1);
      var rest := Repeat("../", n - 1) + "fixtures";
      assert Repeat("../", n) + "fixtures" == ".." + "/" + rest;
      SplitConcat("..", rest, '/');
      SplitNone("..", '/');
    }
  }

  lemma {:induction false} WalkUps(dir: seq<string>, n: nat)
    requires AllProper(dir)
    ensures n <= |dir| ==> Walk(false, dir, Ups(n) + ["fixtures"]) == dir[..|dir| - n] + ["fixtures"]
    ensures n > |dir| ==> Walk(false, dir, Ups(n) + ["fixtures"]) == Ups(n - |dir|) + ["fixtures"]
    decreases n
  {
    if n == 0 {
      assert Ups(0) + ["fixtures"] == ["fixtures"];
      assert Walk(false, dir, ["fixtures"]) == dir + ["fixtures"] by { assert ["fixtures"][1..] == []; }
    } else {
      assert (Ups(n) + ["fixtures"])[1..] == Ups(n - 1) + ["fixtures"];
      if dir != [] {
        WalkUps(dir[..|dir| - 1], n - 1);
      } else {
        WalkAbove(1, n - 1);
        assert [] + [".."] == Ups(1) by { assert Ups(0) == []; }
      }
    }
  }

  lemma {:induction false} WalkAbove(k: nat, n: nat)
    requires k > 0
    ensures Walk(false, Ups(k), Ups(n) + ["fixtures"]) == Ups(k + n) + ["fixtures"]
    decreases n
  {
    UpsAll(k);
    if n == 0 {
      assert Ups(0) + ["fixtures"] == ["fixtures"];
      assert ["fixtures"][1..] == [];
    } else {
      assert (Ups(n) + ["fixtures"])[1..] == Ups(n - 1) + ["fixtures"];
      WalkAbove(k + 1, n - 1);
    }
  }

  lemma {:induction false} UpsAll(k: nat)
    ensures |Ups(k)| == k && forall i :: 0 <= i < k ==> Ups(k)[i] == ".."
    ensures Ups(k) + [".."] == Ups(k + 1)
  {
    if k > 0 {
      UpsAll(k - 1);
    }
  }

  /** Reading backslashes as slashes adds a segment for each. */
  lemma {:induction false} SlashedSegments(s: string)
    ensures |Split(ProjectBundle.Slashed(s), '/')| >= |Split(s, '/')|
    ensures |Split(ProjectBundle.Slashed(s), '/')| == |Split(s, '/')| <==> '\\' !in s
  {
    if s != "" {
      SlashedSegments(s[1..]);
      assert ProjectBundle.Slashed(s)[1..] == ProjectBundle.Slashed(s[1..]);
      assert s == [s[0]] + s[1..];
    }
  }

  /** For a file of the tree the specifier reaches the root `fixtures` module exactly when no name on its path
      holds a backslash. */
  lemma SpecifierReachesRoot(path: seq<string>)
    requires path != [] && AllProper(path)
    ensures ResolveFrom(path, FixturesSpecifier(Join(path, '/'))) == ["fixtures"] <==> '\\' !in Join(path, '/')
  {
    hide Walk, Split, Join, SpecifierAt, ProjectBundle.Slashed;
    var relative, dir := Join(path, '/'), path[..|path| - 1];
    SplitJoin(path, '/');
    SlashedSegments(relative);
    var depth := |Split(ProjectBundle.Slashed(relative), '/')| - 1;
    SpecifierWalk(dir, depth);
  }

  lemma SpecifierWalk(dir: seq<string>, depth: nat)
    requires AllProper(dir) && depth >= |dir|
    ensures Walk(false, dir, Split(SpecifierAt(depth), '/')) == ["fixtures"] <==> depth == |dir|
  {
    hide Walk, Split;
    if depth == 0 {
      RootSplit();
      RootWalk();
    } else {
      SplitUps(depth);
      WalkUps(dir, depth);
      if depth > |dir| {
        UpsAll(depth - |dir|);
        assert (Ups(depth - |dir|) + ["fixtures"])[0] == "..";
      }
    }
  }

  lemma RootSplit()
    ensures Split("./fixtures", '/') == [".", "fixtures"]
  {
    hide Split;
    SplitConcat(".", "fixtures", '/');
    SplitNone(".", '/');
    SplitNone("fixtures", '/');
    assert "." + "/" + "fixtures" == "./fixtures";
  }

  lemma RootWalk()
    ensures Walk(false, [], [".", "fixtures"]) == ["fixtures"]
  {
    assert [".", "fixtures"][1..] == ["fixtures"] && ["fixtures"][1..] == [];
  }

  // ---------------------------------------------------------------------------
  // The whole work directory
  // ---------------------------------------------------------------------------

  /** Readable file contents by relative path. */
  type Contents = map<string, string>

  function Rewritten(text: string, path: string): string {
    Rewrite(text, MODULE, FixturesSpecifier(path))
  }

  /** The contents after rewriting the listed files. */
  function RewriteAll(c: Contents, targets: seq<string>): Contents {
    map p | p in c :: if p in targets then Rewritten(c[p], p) else c[p]
  }

  /** The listed readable files that the rewrite changes. */
  function Changed(c: Contents, targets: seq<string>): seq<string> {
    if targets == [] then []
    else
      var p := targets[|targets| - 1];
      Changed(c, targets[..|targets| - 1]) + if p in c && Rewritten(c[p], p) != c[p] then [p] else []
  }

  lemma NothingRewritten(c: Contents)
    ensures RewriteAll(c, []) == c && Changed(c, []) == []
  {
  }

  lemma RewriteNext(c: Contents, targets: seq<string>, p: string)
    requires p !in targets
    ensures RewriteAll(c, targets).Keys == c.Keys
    ensures p in c ==> RewriteAll(c, targets)[p] == c[p]
    ensures RewriteAll(c, targets + [p])
         == if p in c then RewriteAll(c, targets)[p := Rewritten(c[p], p)] else RewriteAll(c, targets)
    ensures p in c && Rewritten(c[p], p) == c[p] ==> RewriteAll(c, targets + [p]) == RewriteAll(c, targets)
    ensures Changed(c, targets + [p])
         == Changed(c, targets) + if p in c && Rewritten(c[p], p) != c[p] then [p] else []
  {
    hide Rewritten;
    var all := targets + [p];
    assert all[..|targets|] == targets;
    assert forall q :: q in all <==> q in targets || q == p;
    if p in c {
      assert RewriteAll(c, all) == RewriteAll(c, targets)[p := Rewritten(c[p], p)];
    } else {
      assert RewriteAll(c, all) == RewriteAll(c, targets);
    }
  }

  method ApplyFixtures(entries: seq<Node>, contents: Contents, shim: string)
    returns (after: Contents, rewritten: seq<string>)
    requires WellNamed(entries)
    ensures after == RewriteAll(contents[SHIM := shim], Targets(entries, ""))
    ensures rewritten == Changed(contents[SHIM := shim], Targets(entries, ""))
  {
    hide Rewritten, RewriteAll, Changed, Targets, WellNamed;
    TargetsExact(entries);
    ghost var start := contents[SHIM := shim];
    after := contents[SHIM := shim];
    rewritten := [];
    NothingRewritten(start);
    var targets := FixtureTargets(entries, "");
    var i := 0;
    while i < |targets|
      invariant 0 <= i <= |targets|
      invariant after == RewriteAll(start, targets[..i])
      invariant rewritten == Changed(start, targets[..i])
    {
      var p := targets[i];
      assert targets[..i + 1] == targets[..i] + [p];
      assert p !in targets[..i];
      RewriteNext(start, targets[..i], p);
      if p in after {
        var text := Rewritten(after[p], p);
        if text != after[p] {
          after := after[p := text];
          rewritten := rewritten + [p];
        }
      }
      i := i + 1;
    }
    assert targets[..i] == targets;
  }

  lemma ModuleName()
    ensures NoQuotes(MODULE)
  {
  }

  lemma {:induction false} RepeatUp(n: nat)
    ensures NoQuotes(Repeat("../", n) + "fixtures")
    ensures n > 0 ==> (Repeat("../", n) + "fixtures")[0] == '.'
  {
    if n > 0 {
      RepeatUp(n - 1);
      assert Repeat("../", n) + "fixtures" == "../" + (Repeat("../", n - 1) + "fixtures");
    }
  }

  lemma SpecifierPlain(path: string)
    ensures NoQuotes(FixturesSpecifier(path)) && FixturesSpecifier(path) != MODULE
  {
    RepeatUp(|Split(ProjectBundle.Slashed(path), '/')| - 1);
    hide Split, ProjectBundle.Slashed;
  }

  /** No two quoted module names in the file share a quote. */
  ghost predicate Separated(c: Contents, targets: seq<string>) {
    forall p :: p in targets && p in c ==> !SharesQuote(c[p], MODULE)
  }

  /** Over the whole directory: the shim and the files the walk does not return stay as they are; after the pass
      no returned file names the package, and a second pass changes nothing, exactly when in none of them two
      quoted names share a quote. */
  lemma FixturesApplied(entries: seq<Node>, c: Contents)
    requires WellNamed(entries)
    ensures var targets := Targets(entries, "");
            var after := RewriteAll(c, targets);
            && after.Keys == c.Keys
            && (forall p :: p in c && p !in targets ==> after[p] == c[p])
            && SHIM !in targets
            && ((forall p :: p in targets && p in c ==> !Remains(after[p], MODULE)) <==> Separated(c, targets))
            && (RewriteAll(after, targets) == after <==> Separated(c, targets))
  {
    hide Targets, SharesQuote, Remains, Rewrite, FixturesSpecifier;
    var targets := Targets(entries, "");
    var after := RewriteAll(c, targets);
    ModuleName();
    ShimSkipped(entries);
    forall p | p in targets && p in c
      ensures !Remains(after[p], MODULE) <==> !SharesQuote(c[p], MODULE)
      ensures Rewritten(after[p], p) == after[p] <==> !SharesQuote(c[p], MODULE)
    {
      SpecifierPlain(p);
      RewriteComplete(c[p], MODULE, FixturesSpecifier(p));
    }
    var again := RewriteAll(after, targets);
    assert forall p :: p in again ==> again[p] == if p in targets then Rewritten(after[p], p) else after[p];
    if Separated(c, targets) {
      assert again == after;
    }
  }

  lemma ShimSkipped(entries: seq<Node>)
    requires WellNamed(entries)
    ensures SHIM !in Targets(entries, "")
  {
    TargetsExact(entries);
    PathsDistinct(entries);
    forall i | 0 <= i < |FilePaths(entries)| && Join(FilePaths(entries)[i], '/') == SHIM
      ensures !Selected(FilePaths(entries)[i])
    {
      SplitJoin(FilePaths(entries)[i], '/');
      SplitNone(SHIM, '/');
    }
  }
}
