/**
  Staging a shipped project into a job's work directory (`agent/src/projectBundle.ts`), and the merge of
  repaired library files into the bundle (`agent/src/runner.ts`, `processHealJob`).
 */
module ProjectBundle {
  import opened Wrappers
  import opened Strings
  import opened Paths

  datatype File = File(path: string, code: string)

  const BUNDLE_MAX_BYTES := 5 * 1024 * 1024

  // ---------------------------------------------------------------------------
  // Which paths are accepted
  // ---------------------------------------------------------------------------

  /** Backslashes read as slashes. */
  function Slashed(p: string): (r: string)
    ensures |r| == |p|
    ensures forall i :: 0 <= i < |p| ==> r[i] == if p[i] == '\\' then '/' else p[i]
  {
    if p == "" then "" else [if p[0] == '\\' then '/' else p[0]] + Slashed(p[1..])
  }

  predicate HasDrive(p: string) {
    |p| >= 2 && (IsLower(p[0]) || IsUpper(p[0])) && p[1] == ':'
  }

  predicate IsSafeRelativePath(relative: string) {
    && relative != "" && Trim(relative) == relative
    && var p := Slashed(relative);
       && p[0] != '/' && !HasDrive(p)
       && forall i :: 0 <= i < |Split(p, '/')| ==>
            var s := Split(p, '/')[i]; s != "" && s != "." && s != ".."
  }

  /** Proper segments joined by slashes or backslashes, with no blank at either end and no drive letter. */
  ghost predicate PlainRelative(p: string, segments: seq<string>) {
    && segments != [] && AllProper(segments) && Slashed(p) == Join(segments, '/')
    && !IsSpace(p[0]) && !IsSpace(p[|p| - 1])
    && !(|p| >= 2 && (IsLower(p[0]) || IsUpper(p[0])) && p[1] == ':')
  }

  /** Exactly those paths are accepted. */
  lemma SafePathExactly(p: string)
    ensures IsSafeRelativePath(p) <==> exists segments :: p != "" && PlainRelative(p, segments)
  {
    hide IsSafeRelativePath, PlainRelative;
    if IsSafeRelativePath(p) {
      SafeIsPlain(p);
    }
    if segments :| p != "" && PlainRelative(p, segments) {
      PlainIsSafe(p, segments);
    }
  }

  lemma SafeIsPlain(p: string)
    requires IsSafeRelativePath(p)
    ensures p != "" && PlainRelative(p, Split(Slashed(p), '/'))
  {
    hide Split, Join, IsSpace, Trim;
    JoinSplit(Slashed(p), '/');
    assert Slashed(p)[0] == if p[0] == '\\' then '/' else p[0];
  }

  lemma PlainIsSafe(p: string, segments: seq<string>)
    requires p != "" && PlainRelative(p, segments)
    ensures IsSafeRelativePath(p)
  {
    hide Split, Join, IsSpace, Trim;
    SplitJoin(segments, '/');
    TrimPadded("", p, "");
    assert "" + p + "" == p;
    FirstOfJoin(segments);
    assert Slashed(p)[0] != '/';
  }

  lemma FirstOfJoin(segments: seq<string>)
    requires segments != [] && segments[0] != ""
    ensures Join(segments, '/') != "" && Join(segments, '/')[0] == segments[0][0]
  {
  }

  /** A work directory: absolute, below the root, and in normal form. */
  ghost predicate WorkDir(dir: string) {
    exists w :: w != [] && AllProper(w) && dir == "/" + Join(w, '/')
  }

  /** An accepted path stays strictly inside the work directory: normalising the joined path changes nothing. */
  lemma SafePathConfined(dir: string, relative: string)
    requires WorkDir(dir) && IsSafeRelativePath(relative)
    ensures PathJoin(dir, Slashed(relative)) == dir + "/" + Slashed(relative)
    ensures dir + "/" < PathJoin(dir, Slashed(relative))
    ensures ".." !in Split(PathJoin(dir, Slashed(relative)), '/')
  {
    hide IsSafeRelativePath, Slashed, Walk, Join, Split;
    var p := Slashed(relative);
    var w :| w != [] && AllProper(w) && dir == "/" + Join(w, '/');
    SafeSegments(relative);
    SplitUnder(dir, w, p);
    WalkProper(true, [], w + Split(p, '/'));
    assert [] + (w + Split(p, '/')) == w + Split(p, '/');
    JoinConcat(w, Split(p, '/'));
    JoinSplit(p, '/');
    LastSegment(p);
    assert "/" + (Join(w, '/') + "/" + p) + "" == dir + "/" + p;
    var q := dir + "/" + p;
    assert q[|q| - 1] == p[|p| - 1];
  }

  lemma SafeSegments(relative: string)
    requires IsSafeRelativePath(relative)
    ensures Slashed(relative) != ""
    ensures forall i :: 0 <= i < |Split(Slashed(relative), '/')| ==>
              var s := Split(Slashed(relative), '/')[i]; s != "" && s != "." && s != ".."
  {
  }

  /** The segments of a path below a directory. */
  lemma SplitUnder(dir: string, w: seq<string>, p: string)
    requires w != [] && AllProper(w) && dir == "/" + Join(w, '/')
    ensures Split(dir + "/" + p, '/') == [""] + (w + Split(p, '/'))
    ensures Walk(true, [], Split(dir + "/" + p, '/')) == Walk(true, [], w + Split(p, '/'))
  {
    SplitConcat("", Join(w, '/'), '/');
    assert "" + "/" + Join(w, '/') == dir;
    SplitJoin(w, '/');
    SplitConcat(dir, p, '/');
    Associate([""], w, Split(p, '/'));
    assert ([""] + (w + Split(p, '/')))[1..] == w + Split(p, '/');
  }

  lemma {:induction false} JoinConcat(a: seq<string>, b: seq<string>)
    requires a != [] && b != []
    ensures Join(a + b, '/') == Join(a, '/') + "/" + Join(b, '/')
  {
    if |a| == 1 {
      assert (a + b)[1..] == b;
    } else {
      JoinConcat(a[1..], b);
      assert (a + b)[1..] == a[1..] + b;
      assert Join(a + b, '/') == a[0] + "/" + (Join(a[1..], '/') + "/" + Join(b, '/'));
    }
  }

  /** A path that ends in a slash has an empty last segment. */
  lemma LastSegment(p: string)
    requires p != ""
    ensures p[|p| - 1] == '/' ==> Split(p, '/')[|Split(p, '/')| - 1] == ""
  {
    if p[|p| - 1] == '/' {
      SplitConcat(p[..|p| - 1], "", '/');
      assert p[..|p| - 1] + "/" + "" == p;
    }
  }

  // ---------------------------------------------------------------------------
  // Writing files
  // ---------------------------------------------------------------------------

  /** The files below the work directory, by slash-form relative path. */
  type Tree = map<string, string>

  /** One path runs through the other: a file would have to be a directory. */
  predicate Clash(p: string, q: string) {
    p + "/" <= q || q + "/" <= p
  }

  datatype WriteResult = Written(tree: Tree) | Refused | Threw

  function WriteProjectFile(tree: Tree, relative: string, code: string): WriteResult {
    if !IsSafeRelativePath(relative) then Refused
    else if exists q :: q in tree && Clash(Slashed(relative), q) then Threw
    else Written(tree[Slashed(relative) := code])
  }

  function Utf8Length(s: string): nat {
    if s == "" then 0
    else
      var c := s[0] as int;
      (if c < 0x80 then 1 else if c < 0x800 then 2 else if c < 0x1_0000 then 3 else 4) + Utf8Length(s[1..])
  }

  function TotalBytes(files: seq<File>): nat {
    if files == [] then 0 else TotalBytes(files[..|files| - 1]) + Utf8Length(files[|files| - 1].code)
  }

  datatype Staging =
    | Staged(tree: Tree, files: nat, skipped: seq<string>)
    | OverCap(bytes: nat)
    | Failed

  method MaterializeProject(tree: Tree, files: seq<File>) returns (r: Staging)
    ensures r == Materialized(tree, files)
  {
    hide IsSafeRelativePath, Slashed, Clash, Utf8Length;
    var bytes := 0;
    var k := 0;
    while k < |files|
      invariant 0 <= k <= |files| && bytes == TotalBytes(files[..k])
    {
      assert files[..k + 1][..k] == files[..k];
      bytes := bytes + Utf8Length(files[k].code);
      k := k + 1;
    }
    assert files[..k] == files;
    if bytes > BUNDLE_MAX_BYTES {
      return OverCap(bytes);
    }
    var now, written, skipped := tree, 0, [];
    k := 0;
    while k < |files|
      invariant 0 <= k <= |files|
      invariant WriteAll(tree, files[..k]) == Some(now)
      invariant written == |Accepted(files[..k])| && skipped == Rejected(files[..k])
    {
      assert files[..k + 1][..k] == files[..k];
      match WriteProjectFile(now, files[k].path, files[k].code) {
        case Written(t) => now, written := t, written + 1;
        case Refused => skipped := skipped + [files[k].path];
        case Threw =>
          WriteAllStops(tree, files, k);
          return Failed;
      }
      k := k + 1;
    }
    assert files[..k] == files;
    return Staged(now, written, skipped);
  }

  /** The tree after writing the files in order; none when a write throws. */
  function WriteAll(tree: Tree, files: seq<File>): Option<Tree> {
    if files == [] then Some(tree)
    else
      var f := files[|files| - 1];
      match WriteAll(tree, files[..|files| - 1])
      case None => None
      case Some(t) =>
        match WriteProjectFile(t, f.path, f.code)
        case Written(t') => Some(t')
        case Refused => Some(t)
        case Threw => None
  }

  function Accepted(files: seq<File>): seq<File> {
    if files == [] then []
    else if IsSafeRelativePath(files[|files| - 1].path) then Accepted(files[..|files| - 1]) + [files[|files| - 1]]
    else Accepted(files[..|files| - 1])
  }

  function Rejected(files: seq<File>): seq<string> {
    if files == [] then []
    else if IsSafeRelativePath(files[|files| - 1].path) then Rejected(files[..|files| - 1])
    else Rejected(files[..|files| - 1]) + [files[|files| - 1].path]
  }

  function Materialized(tree: Tree, files: seq<File>): Staging {
    if TotalBytes(files) > BUNDLE_MAX_BYTES then OverCap(TotalBytes(files))
    else
      match WriteAll(tree, files)
      case None => Failed
      case Some(t) => Staged(t, |Accepted(files)|, Rejected(files))
  }

  lemma {:induction false} WriteAllStops(tree: Tree, files: seq<File>, k: nat)
    requires k < |files| && WriteAll(tree, files[..k]).Some?
    requires WriteProjectFile(WriteAll(tree, files[..k]).value, files[k].path, files[k].code).Threw?
    ensures WriteAll(tree, files).None?
    decreases |files|
  {
    if |files| > k + 1 {
      assert files[..|files| - 1][..k] == files[..k];
      WriteAllStops(tree, files[..|files| - 1], k);
    }
  }

  // ---------------------------------------------------------------------------
  // What staging leaves behind
  // ---------------------------------------------------------------------------

  /** No accepted path runs through another one or through an existing file. */
  ghost predicate PrefixFree(tree: Tree, files: seq<File>) {
    forall p, q :: p in Targets(files) && (q in Targets(files) || q in tree) ==> !Clash(p, q)
  }

  ghost function Targets(files: seq<File>): set<string> {
    set k | 0 <= k < |files| && IsSafeRelativePath(files[k].path) :: Slashed(files[k].path)
  }

  /** The last accepted source for a target. */
  function LastCode(files: seq<File>, target: string): Option<string> {
    if files == [] then None
    else
      var f := files[|files| - 1];
      if IsSafeRelativePath(f.path) && Slashed(f.path) == target then Some(f.code)
      else LastCode(files[..|files| - 1], target)
  }

  /** The tree after overwriting `tree` with the last source of every target. */
  ghost predicate Overwritten(tree: Tree, files: seq<File>, t: Tree) {
    && t.Keys == tree.Keys + Targets(files)
    && (forall p :: p in Targets(files) ==> Some(t[p]) == LastCode(files, p))
    && (forall p :: p in tree && p !in Targets(files) ==> t[p] == tree[p])
  }

  lemma {:induction false} WriteAllPrefixFree(tree: Tree, files: seq<File>)
    requires PrefixFree(tree, files)
    ensures WriteAll(tree, files).Some? && Overwritten(tree, files, WriteAll(tree, files).value)
  {
    hide IsSafeRelativePath, Slashed, Clash;
    if files != [] {
      var init, f := files[..|files| - 1], files[|files| - 1];
      TargetsSnoc(init, f);
      assert files == init + [f];
      WriteAllPrefixFree(tree, init);
      var t := WriteAll(tree, init).value;
      if IsSafeRelativePath(f.path) {
        assert Slashed(f.path) in Targets(files);
        assert forall q :: q in t ==> !Clash(Slashed(f.path), q);
        assert WriteAll(tree, files) == Some(t[Slashed(f.path) := f.code]);
      }
    }
  }

  lemma TargetsSnoc(files: seq<File>, f: File)
    ensures Targets(files + [f])
         == Targets(files) + if IsSafeRelativePath(f.path) then {Slashed(f.path)} else {}
  {
    var all := files + [f];
    assert all[|files|] == f;
    forall p | p in Targets(files)
      ensures p in Targets(all)
    {
      var k :| 0 <= k < |files| && IsSafeRelativePath(files[k].path) && Slashed(files[k].path) == p;
      assert all[k] == files[k];
    }
    assert IsSafeRelativePath(f.path) ==> Slashed(all[|files|].path) in Targets(all);
  }

  lemma {:induction false} AcceptedOrRejected(files: seq<File>)
    ensures |Accepted(files)| + |Rejected(files)| == |files|
  {
    if files != [] {
      AcceptedOrRejected(files[..|files| - 1]);
    }
  }

  /** The paths of a bundle that are not accepted, from the first file on. */
  function Refusals(files: seq<File>): seq<string> {
    if files == [] then []
    else (if IsSafeRelativePath(files[0].path) then [] else [files[0].path]) + Refusals(files[1..])
  }

  lemma {:induction false} RefusalsSnoc(files: seq<File>, f: File)
    ensures Refusals(files + [f]) == Refusals(files) + if IsSafeRelativePath(f.path) then [] else [f.path]
  {
    hide IsSafeRelativePath;
    var all := files + [f];
    if files == [] {
      assert all[1..] == [];
    } else {
      RefusalsSnoc(files[1..], f);
      assert all[1..] == files[1..] + [f];
    }
  }

  lemma {:induction false} RejectedAre(files: seq<File>)
    ensures Rejected(files) == Refusals(files)
  {
    hide IsSafeRelativePath;
    if files != [] {
      var init, f := files[..|files| - 1], files[|files| - 1];
      RejectedAre(init);
      RefusalsSnoc(init, f);
      assert files == init + [f];
    }
  }

  /** How many characters of a text are at or above `least`. */
  function CountFrom(s: string, least: int): nat {
    if s == "" then 0 else CountFrom(s[..|s| - 1], least) + if s[|s| - 1] as int >= least then 1 else 0
  }

  lemma {:induction false} CountFromCons(c: char, s: string, least: int)
    ensures CountFrom([c] + s, least) == (if c as int >= least then 1 else 0) + CountFrom(s, least)
  {
    var all := [c] + s;
    if s == "" {
      assert all[..0] == "";
    } else {
      CountFromCons(c, s[..|s| - 1], least);
      assert all[..|all| - 1] == [c] + s[..|s| - 1];
    }
  }

  /** A character takes one byte more from each of the three limits of UTF-8 on (RFC 3629, section 3). */
  lemma {:induction false} BytesByLimits(s: string)
    ensures Utf8Length(s) == |s| + CountFrom(s, 128) + CountFrom(s, 2048) + CountFrom(s, 65536)
  {
    if s != "" {
      BytesByLimits(s[1..]);
      assert s == [s[0]] + s[1..];
      CountFromCons(s[0], s[1..], 128);
      CountFromCons(s[0], s[1..], 2048);
      CountFromCons(s[0], s[1..], 65536);
    }
  }

  /** For every bundle without clashing paths: over the cap nothing is written; otherwise every file is counted
      as written or skipped, every target holds the last source shipped for it, and nothing else changes. The
      skipped paths are those that are not accepted, in order. */
  lemma BundleStaged(tree: Tree, files: seq<File>)
    requires PrefixFree(tree, files)
    ensures var r := Materialized(tree, files);
            if TotalBytes(files) > BUNDLE_MAX_BYTES then r == OverCap(TotalBytes(files))
            else r.Staged? && r.skipped == Refusals(files) && r.files + |r.skipped| == |files|
                 && Overwritten(tree, files, r.tree)
  {
    WriteAllPrefixFree(tree, files);
    AcceptedOrRejected(files);
    RejectedAre(files);
  }

  // ---------------------------------------------------------------------------
  // Merging repaired library files
  // ---------------------------------------------------------------------------

  /** `Map.set` on an insertion-ordered map of files keyed by path. */
  function MapSet(files: seq<File>, f: File): seq<File> {
    if files == [] then [f]
    else if files[0].path == f.path then [f] + files[1..]
    else [files[0]] + MapSet(files[1..], f)
  }

  /** The values of `new Map(...)` filled with `more` after `files`. */
  function MapSetAll(files: seq<File>, more: seq<File>): seq<File> {
    if more == [] then files else MapSet(MapSetAll(files, more[..|more| - 1]), more[|more| - 1])
  }

  function MergeLibrary(bundle: seq<File>, library: seq<File>): seq<File> {
    MapSetAll(MapSetAll([], bundle), library)
  }

  ghost predicate UniquePaths(files: seq<File>) {
    forall j, k :: 0 <= j < k < |files| ==> files[j].path != files[k].path
  }

  /** The source kept for a path in a list without duplicate paths. */
  function Lookup(files: seq<File>, p: string): Option<string> {
    if files == [] then None
    else if files[0].path == p then Some(files[0].code)
    else Lookup(files[1..], p)
  }

  lemma {:induction false} MapSetKeeps(files: seq<File>, f: File)
    requires UniquePaths(files)
    ensures UniquePaths(MapSet(files, f))
    ensures forall p :: p in Names(MapSet(files, f)) <==> p in Names(files) || p == f.path
    ensures forall p :: Lookup(MapSet(files, f), p) == if p == f.path then Some(f.code) else Lookup(files, p)
  {
    if files != [] && files[0].path != f.path {
      MapSetKeeps(files[1..], f);
      var r := MapSet(files[1..], f);
      NamesCons(files[0], files[1..]);
      NamesCons(files[0], r);
      assert files == [files[0]] + files[1..];
      UniqueCons(files[0], r);
    } else if files != [] {
      NamesCons(files[0], files[1..]);
      NamesCons(f, files[1..]);
      assert files == [files[0]] + files[1..];
      UniqueCons(f, files[1..]);
    } else {
      NamesCons(f, []);
      assert [f] + [] == [f];
    }
  }

  ghost function Names(files: seq<File>): set<string> {
    set k | 0 <= k < |files| :: files[k].path
  }

  lemma NamesCons(f: File, files: seq<File>)
    ensures Names([f] + files) == {f.path} + Names(files)
  {
    var all := [f] + files;
    assert all[0] == f;
    forall p | p in Names(files)
      ensures p in Names(all)
    {
      var k :| 0 <= k < |files| && files[k].path == p;
      assert all[k + 1] == files[k];
    }
  }

  lemma UniqueCons(f: File, files: seq<File>)
    requires UniquePaths(files) && f.path !in Names(files)
    ensures UniquePaths([f] + files)
  {
    forall j, k | 0 <= j < k < |[f] + files|
      ensures ([f] + files)[j].path != ([f] + files)[k].path
    {
      assert files[k - 1].path in Names(files);
    }
  }

  /** The last source listed for a path, spelled exactly so. */
  function LastRaw(files: seq<File>, p: string): Option<string> {
    if files == [] then None
    else if files[|files| - 1].path == p then Some(files[|files| - 1].code)
    else LastRaw(files[..|files| - 1], p)
  }

  function OrElse<T>(a: Option<T>, b: Option<T>): Option<T> {
    if a.Some? then a else b
  }

  lemma {:induction false} MapSetAllLookup(files: seq<File>, more: seq<File>, p: string)
    requires UniquePaths(files)
    ensures UniquePaths(MapSetAll(files, more))
    ensures Names(MapSetAll(files, more)) == Names(files) + Names(more)
    ensures Lookup(MapSetAll(files, more), p) == OrElse(LastRaw(more, p), Lookup(files, p))
  {
    if more != [] {
      var init, f := more[..|more| - 1], more[|more| - 1];
      MapSetAllLookup(files, init, p);
      MapSetKeeps(MapSetAll(files, init), f);
      NamesSnoc(init, f);
      assert more == init + [f];
    }
  }

  lemma NamesSnoc(files: seq<File>, f: File)
    ensures Names(files + [f]) == Names(files) + {f.path}
  {
    var all := files + [f];
    assert all[|files|] == f;
    forall p | p in Names(files)
      ensures p in Names(all)
    {
      var k :| 0 <= k < |files| && files[k].path == p;
      assert all[k] == files[k];
    }
  }

  /** Without duplicates, the last entry for a path is the only one. */
  lemma {:induction false} LookupIsLast(files: seq<File>, p: string)
    requires UniquePaths(files)
    ensures Lookup(files, p) == LastRaw(files, p)
  {
    if files != [] {
      LookupIsLast(files[1..], p);
      assert files == [files[0]] + files[1..];
      LastRawCons(files[0], files[1..], p);
      if files[0].path == p && LastRaw(files[1..], p).Some? {
        LastRawNamed(files[1..], p);
      }
    }
  }

  lemma {:induction false} LastRawCons(f: File, files: seq<File>, p: string)
    ensures LastRaw([f] + files, p)
         == OrElse(LastRaw(files, p), if f.path == p then Some(f.code) else None)
  {
    var all := [f] + files;
    if files != [] {
      LastRawCons(f, files[..|files| - 1], p);
      assert all[..|all| - 1] == [f] + files[..|files| - 1];
    } else {
      assert all[..0] == [];
    }
  }

  lemma {:induction false} LastRawNamed(files: seq<File>, p: string)
    ensures LastRaw(files, p).Some? <==> exists k :: 0 <= k < |files| && files[k].path == p
  {
    if files != [] {
      LastRawNamed(files[..|files| - 1], p);
    }
  }

  lemma MergeLookup(bundle: seq<File>, library: seq<File>, p: string)
    ensures LastRaw(MergeLibrary(bundle, library), p) == OrElse(LastRaw(library, p), LastRaw(bundle, p))
    ensures Names(MergeLibrary(bundle, library)) == Names(bundle) + Names(library)
  {
    MapSetAllLookup([], bundle, p);
    MapSetAllLookup(MapSetAll([], bundle), library, p);
    LookupIsLast(MergeLibrary(bundle, library), p);
  }

  // ---------------------------------------------------------------------------
  // Which spelling of a target counts
  // ---------------------------------------------------------------------------

  /** The path is accepted and leads to the target; a target can be spelled with slashes and with backslashes. */
  predicate Spells(p: string, target: string) {
    IsSafeRelativePath(p) && Slashed(p) == target
  }

  function Listed(files: seq<File>): (r: seq<string>)
    ensures |r| == |files|
  {
    seq(|files|, i requires 0 <= i < |files| => files[i].path)
  }

  /** The paths in the order of their first occurrences, each once: the order a `Map` keeps. */
  function FirstSeen(paths: seq<string>): seq<string> {
    if paths == [] then []
    else
      var before, p := FirstSeen(paths[..|paths| - 1]), paths[|paths| - 1];
      if p in before then before else before + [p]
  }

  /** The last listed spelling of a target. */
  function LastFor(paths: seq<string>, target: string): Option<string> {
    if paths == [] then None
    else if Spells(paths[|paths| - 1], target) then Some(paths[|paths| - 1])
    else LastFor(paths[..|paths| - 1], target)
  }

  /** Of every target, the spelling that is listed last is also the one that turned up last. */
  ghost predicate LastIsNewest(paths: seq<string>) {
    forall t :: LastFor(FirstSeen(paths), t) == LastFor(paths, t)
  }

  lemma ListedSnoc(files: seq<File>, f: File)
    ensures Listed(files + [f]) == Listed(files) + [f.path]
  {
  }

  lemma {:induction false} MapSetListed(files: seq<File>, f: File)
    ensures Listed(MapSet(files, f)) == if f.path in Listed(files) then Listed(files) else Listed(files) + [f.path]
  {
    if files != [] {
      var rest := files[1..];
      assert Listed(files) == [files[0].path] + Listed(rest);
      if files[0].path == f.path {
        assert Listed([f] + rest) == [f.path] + Listed(rest);
      } else {
        MapSetListed(rest, f);
        assert Listed([files[0]] + MapSet(rest, f)) == [files[0].path] + Listed(MapSet(rest, f));
      }
    }
  }

  lemma FirstSeenSnoc(paths: seq<string>, p: string)
    ensures FirstSeen(paths + [p]) == if p in FirstSeen(paths) then FirstSeen(paths) else FirstSeen(paths) + [p]
  {
    assert (paths + [p])[..|paths|] == paths;
  }

  lemma MapSetAllSnoc(files: seq<File>, f: File)
    ensures MapSetAll([], files + [f]) == MapSet(MapSetAll([], files), f)
  {
    hide MapSet;
    assert (files + [f])[..|files|] == files;
  }

  lemma {:induction false} MergedListed(files: seq<File>)
    ensures Listed(MapSetAll([], files)) == FirstSeen(Listed(files))
  {
    if files == [] {
      assert Listed([]) == [];
    } else {
      hide *;
      var init, f := files[..|files| - 1], files[|files| - 1];
      MergedListed(init);
      MapSetAllSnoc(init, f);
      MapSetListed(MapSetAll([], init), f);
      ListedSnoc(init, f);
      FirstSeenSnoc(Listed(init), f.path);
      assert files == init + [f];
    }
  }

  lemma {:induction false} MergeIsOneMap(bundle: seq<File>, library: seq<File>)
    ensures MergeLibrary(bundle, library) == MapSetAll([], bundle + library)
  {
    if library == [] {
      assert bundle + library == bundle;
    } else {
      var init, all := library[..|library| - 1], bundle + library;
      MergeIsOneMap(bundle, init);
      assert all[..|all| - 1] == bundle + init && all[|all| - 1] == library[|library| - 1];
    }
  }

  /** The source a target ends up with is the last one listed under its last spelling. */
  lemma {:induction false} LastCodeBySpelling(files: seq<File>, t: string)
    ensures LastCode(files, t)
         == match LastFor(Listed(files), t) case None => None case Some(p) => LastRaw(files, p)
  {
    hide IsSafeRelativePath, Slashed;
    if files != [] {
      var init, f := files[..|files| - 1], files[|files| - 1];
      LastCodeBySpelling(init, t);
      ListedSnoc(init, f);
      assert files == init + [f];
      assert Listed(files)[..|files| - 1] == Listed(init);
      LastForSpells(Listed(init), t);
    }
  }

  lemma {:induction false} LastForSpells(paths: seq<string>, t: string)
    ensures LastFor(paths, t).Some? ==> LastFor(paths, t).value in paths && Spells(LastFor(paths, t).value, t)
    ensures LastFor(paths, t).None? ==> forall p <- paths :: !Spells(p, t)
  {
    hide Spells;
    if paths != [] {
      LastForSpells(paths[..|paths| - 1], t);
      assert paths == paths[..|paths| - 1] + [paths[|paths| - 1]];
    }
  }

  lemma {:induction false} FirstSeenMembers(paths: seq<string>)
    ensures forall p :: p in FirstSeen(paths) <==> p in paths
  {
    if paths != [] {
      FirstSeenMembers(paths[..|paths| - 1]);
      assert paths == paths[..|paths| - 1] + [paths[|paths| - 1]];
    }
  }

  /** What the merged list has for a target: the last source of the spelling that turned up last. */
  lemma MergedLastCode(bundle: seq<File>, library: seq<File>, t: string)
    ensures LastCode(MergeLibrary(bundle, library), t)
         == match LastFor(FirstSeen(Listed(bundle + library)), t)
            case None => None
            case Some(p) => LastRaw(bundle + library, p)
  {
    hide Spells, LastFor, LastCode;
    var all := bundle + library;
    MergeIsOneMap(bundle, library);
    MergedListed(all);
    LastCodeBySpelling(MapSetAll([], all), t);
    var last := LastFor(FirstSeen(Listed(all)), t);
    if last.Some? {
      MapSetAllLookup([], all, last.value);
      LookupIsLast(MapSetAll([], all), last.value);
    }
  }

  lemma TargetsOfNames(files: seq<File>)
    ensures Targets(files) == set p | p in Names(files) && IsSafeRelativePath(p) :: Slashed(p)
  {
    forall t | t in Targets(files)
      ensures exists p :: p in Names(files) && IsSafeRelativePath(p) && Slashed(p) == t
    {
      var k :| 0 <= k < |files| && IsSafeRelativePath(files[k].path) && Slashed(files[k].path) == t;
      assert files[k].path in Names(files);
    }
    forall p | p in Names(files) && IsSafeRelativePath(p)
      ensures Slashed(p) in Targets(files)
    {
      var k :| 0 <= k < |files| && files[k].path == p;
      assert Slashed(files[k].path) in Targets(files);
    }
  }

  /** Staging the merged bundle gives the tree of staging the old one and overwriting it with the library files. */
  ghost predicate SameTree(tree: Tree, bundle: seq<File>, library: seq<File>) {
    && WriteAll(tree, bundle).Some? && WriteAll(tree, MergeLibrary(bundle, library)).Some?
    && WriteAll(tree, MergeLibrary(bundle, library)) == WriteAll(WriteAll(tree, bundle).value, library)
  }

  /** The same paths with other sources. */
  function Recoded(files: seq<File>, codes: seq<string>): (r: seq<File>)
    requires |codes| == |files|
    ensures |r| == |files|
  {
    seq(|files|, i requires 0 <= i < |files| => File(files[i].path, codes[i]))
  }

  /**
    The merge overwrites as it should, whatever the sources are, exactly when of every target the spelling that
    occurs last in bundle and library is also the one that turned up last in them.
   */
  lemma MergeThenStage(tree: Tree, bundle: seq<File>, library: seq<File>)
    requires PrefixFree(tree, bundle + library)
    ensures LastIsNewest(Listed(bundle + library)) ==> SameTree(tree, bundle, library)
    ensures LastIsNewest(Listed(bundle + library)) <==>
              forall codes: seq<string> :: |codes| == |bundle + library| ==>
                SameTree(tree, Recoded(bundle, codes[..|bundle|]), Recoded(library, codes[|bundle|..]))
  {
    hide PrefixFree, LastIsNewest, SameTree, Listed, Recoded;
    var all := bundle + library;
    if LastIsNewest(Listed(all)) {
      NewestSuffices(tree, bundle, library);
      forall codes: seq<string> | |codes| == |all|
        ensures SameTree(tree, Recoded(bundle, codes[..|bundle|]), Recoded(library, codes[|bundle|..]))
      {
        RecodedParts(tree, bundle, library, codes);
        NewestSuffices(tree, Recoded(bundle, codes[..|bundle|]), Recoded(library, codes[|bundle|..]));
      }
    } else {
      var codes := NewestNeeded(tree, bundle, library);
      assert !SameTree(tree, Recoded(bundle, codes[..|bundle|]), Recoded(library, codes[|bundle|..]));
    }
  }

  lemma RecodedParts(tree: Tree, bundle: seq<File>, library: seq<File>, codes: seq<string>)
    requires |codes| == |bundle + library| && PrefixFree(tree, bundle + library)
    ensures var all := Recoded(bundle, codes[..|bundle|]) + Recoded(library, codes[|bundle|..]);
            && all == Recoded(bundle + library, codes)
            && Listed(all) == Listed(bundle + library) && PrefixFree(tree, all)
  {
    hide IsSafeRelativePath, Slashed, Clash;
    var all := Recoded(bundle, codes[..|bundle|]) + Recoded(library, codes[|bundle|..]);
    assert forall i :: 0 <= i < |all| ==> all[i].path == (bundle + library)[i].path && all[i].code == codes[i];
    assert Targets(all) == Targets(bundle + library);
  }

  lemma NewestSuffices(tree: Tree, bundle: seq<File>, library: seq<File>)
    requires PrefixFree(tree, bundle + library) && LastIsNewest(Listed(bundle + library))
    ensures SameTree(tree, bundle, library)
  {
    hide LastFor, LastRaw, LastCode, PrefixFree;
    forall t
      ensures LastCode(MergeLibrary(bundle, library), t) == LastCode(bundle + library, t)
    {
      MergedLastCode(bundle, library, t);
      LastCodeBySpelling(bundle + library, t);
    }
    TreesBySources(tree, bundle, library);
  }

  /** Two spellings of a target that come in the wrong order: sources that tell them apart end in different trees. */
  lemma NewestNeeded(tree: Tree, bundle: seq<File>, library: seq<File>) returns (codes: seq<string>)
    requires PrefixFree(tree, bundle + library) && !LastIsNewest(Listed(bundle + library))
    ensures |codes| == |bundle + library|
    ensures !SameTree(tree, Recoded(bundle, codes[..|bundle|]), Recoded(library, codes[|bundle|..]))
  {
    hide PrefixFree, SameTree, LastRaw, LastCode, Spells, LastFor, FirstSeen, Listed, Recoded, MergeLibrary;
    var paths := Listed(bundle + library);
    var t :| LastFor(FirstSeen(paths), t) != LastFor(paths, t);
    FirstSeenMembers(paths);
    LastForSpells(paths, t);
    LastForSpells(FirstSeen(paths), t);
    var newest, last := LastFor(FirstSeen(paths), t).value, LastFor(paths, t).value;
    codes := Marked(paths, last);
    var b, l := Recoded(bundle, codes[..|bundle|]), Recoded(library, codes[|bundle|..]);
    RecodedParts(tree, bundle, library, codes);
    MergedLastCode(b, l, t);
    LastCodeBySpelling(b + l, t);
    MarkedCodes(bundle + library, last);
    OneSource(b + l, newest, "0");
    OneSource(b + l, last, "1");
    TreesBySources(tree, b, l);
  }

  /** Sources that tell the files of one path from all others. */
  function Marked(paths: seq<string>, p: string): (r: seq<string>)
    ensures |r| == |paths|
  {
    seq(|paths|, i requires 0 <= i < |paths| => if paths[i] == p then "1" else "0")
  }

  lemma MarkedCodes(files: seq<File>, p: string)
    ensures forall f <- Recoded(files, Marked(Listed(files), p)) :: f.code == if f.path == p then "1" else "0"
  {
  }

  lemma {:induction false} OneSource(files: seq<File>, p: string, code: string)
    requires p in Listed(files) && forall f <- files :: f.path == p ==> f.code == code
    ensures LastRaw(files, p) == Some(code)
  {
    var init, f := files[..|files| - 1], files[|files| - 1];
    assert files == init + [f];
    ListedSnoc(init, f);
    if f.path != p { OneSource(init, p, code); }
  }

  lemma {:induction false} WriteAllConcat(tree: Tree, a: seq<File>, b: seq<File>)
    requires WriteAll(tree, a).Some?
    ensures WriteAll(tree, a + b) == WriteAll(WriteAll(tree, a).value, b)
  {
    hide WriteProjectFile;
    if b == [] {
      assert a + b == a;
    } else {
      assert (a + b)[..|a + b| - 1] == a + b[..|b| - 1];
      WriteAllConcat(tree, a, b[..|b| - 1]);
    }
  }

  ghost predicate SameSources(a: seq<File>, b: seq<File>) {
    forall t :: LastCode(a, t) == LastCode(b, t)
  }

  /** The two trees are equal exactly when every target has the same last source in both lists. */
  lemma TreesBySources(tree: Tree, bundle: seq<File>, library: seq<File>)
    requires PrefixFree(tree, bundle + library)
    ensures SameTree(tree, bundle, library)
       <==> SameSources(MergeLibrary(bundle, library), bundle + library)
  {
    hide IsSafeRelativePath, Slashed, Clash, Targets, LastCode, MergeLibrary, WriteAll;
    var merged, all := MergeLibrary(bundle, library), bundle + library;
    MergeTargets(bundle, library);
    WriteAllPrefixFree(tree, bundle);
    WriteAllPrefixFree(tree, merged);
    WriteAllPrefixFree(tree, all);
    WriteAllConcat(tree, bundle, library);
    var t, u := WriteAll(tree, merged).value, WriteAll(tree, all).value;
    assert t.Keys == u.Keys;
    assert SameTree(tree, bundle, library) <==> t == u;
    forall k
      ensures LastCode(merged, k).Some? <==> k in Targets(merged)
      ensures LastCode(all, k).Some? <==> k in Targets(merged)
    {
      LastCodeTarget(merged, k);
      LastCodeTarget(all, k);
    }
    forall k | k in t
      ensures t[k] == u[k] <==> LastCode(merged, k) == LastCode(all, k)
    {
    }
    assert t == u <==> forall k :: k in t ==> t[k] == u[k];
  }

  /** No two spellings (with slashes, with backslashes) of one target: then the order cannot matter. */
  ghost predicate OneSpelling(paths: seq<string>) {
    forall p <- paths, q <- paths, t :: Spells(p, t) && Spells(q, t) ==> p == q
  }

  lemma OneSpellingSuffices(paths: seq<string>)
    requires OneSpelling(paths)
    ensures LastIsNewest(paths)
  {
    hide Spells;
    FirstSeenMembers(paths);
    forall t
      ensures LastFor(FirstSeen(paths), t) == LastFor(paths, t)
    {
      LastForSpells(paths, t);
      LastForSpells(FirstSeen(paths), t);
    }
  }

  lemma MergeTargets(bundle: seq<File>, library: seq<File>)
    ensures Targets(MergeLibrary(bundle, library)) == Targets(bundle) + Targets(library)
         == Targets(bundle + library)
  {
    MergeLookup(bundle, library, "");
    TargetsOfNames(bundle);
    TargetsOfNames(library);
    TargetsOfNames(MergeLibrary(bundle, library));
    TargetsConcat(bundle, library);
  }

  lemma TargetsConcat(a: seq<File>, b: seq<File>)
    ensures Targets(a + b) == Targets(a) + Targets(b)
  {
    var all := a + b;
    forall k | 0 <= k < |b|
      ensures all[|a| + k] == b[k]
    {
    }
    forall t | t in Targets(b)
      ensures t in Targets(all)
    {
      var k :| 0 <= k < |b| && IsSafeRelativePath(b[k].path) && Slashed(b[k].path) == t;
      assert all[|a| + k] == b[k];
    }
    forall t | t in Targets(a)
      ensures t in Targets(all)
    {
      var k :| 0 <= k < |a| && IsSafeRelativePath(a[k].path) && Slashed(a[k].path) == t;
      assert all[k] == a[k];
    }
  }

  lemma {:induction false} LastCodeTarget(files: seq<File>, t: string)
    ensures LastCode(files, t).Some? <==> t in Targets(files)
  {
    if files != [] {
      var init, f := files[..|files| - 1], files[|files| - 1];
      TargetsSnoc(init, f);
      assert files == init + [f];
      LastCodeTarget(init, t);
    }
  }

  /** With two spellings of one target the merge can lose the repair: the old source under the other spelling
      is written after it. */
  lemma TwoSpellingsLoseTheRepair(p: string, q: string, x: string, y: string, repair: string)
    requires IsSafeRelativePath(p) && IsSafeRelativePath(q) && p != q && Slashed(p) == Slashed(q)
    ensures var bundle, library := [File(p, x), File(q, y)], [File(p, repair)];
            && LastCode(MergeLibrary(bundle, library), Slashed(p)) == Some(y)
            && LastCode(library, Slashed(p)) == Some(repair)
  {
    hide IsSafeRelativePath, Slashed;
    var bundle, library := [File(p, x), File(q, y)], [File(p, repair)];
    assert bundle[..1] == [File(p, x)] && bundle[..1][..0] == [] && library[..0] == [];
    assert MapSetAll([], bundle[..1]) == [File(p, x)];
    assert MapSetAll([], bundle) == MapSet([File(p, x)], File(q, y)) == bundle by {
      assert [File(p, x)][1..] == [];
    }
    var merged := [File(p, repair)] + bundle[1..];
    assert MapSetAll(bundle, library[..0]) == bundle;
    assert MapSetAll(bundle, library) == MapSet(bundle, library[0]) == merged;
    assert merged[1] == File(q, y);
  }

  // ---------------------------------------------------------------------------
  // A job's whole tree
  // ---------------------------------------------------------------------------

  datatype JobTree = Ready(tree: Tree) | TooLarge(bytes: nat) | UnsafeSpec(path: string) | Crashed

  /** `stageJobTree`: the project first, then the specs over it. */
  function StageJobTree(tree: Tree, project: Option<seq<File>>, specs: seq<File>): JobTree {
    match project
    case None => StageSpecs(tree, specs)
    case Some(files) =>
      match Materialized(tree, files)
      case OverCap(bytes) => TooLarge(bytes)
      case Failed => Crashed
      case Staged(t, _, _) => StageSpecs(t, specs)
  }

  function StageSpecs(tree: Tree, specs: seq<File>): JobTree
    decreases |specs|
  {
    if specs == [] then Ready(tree)
    else
      match WriteProjectFile(tree, specs[0].path, specs[0].code)
      case Written(t) => StageSpecs(t, specs[1..])
      case Refused => UnsafeSpec(specs[0].path)
      case Threw => Crashed
  }

  /** The first path that is not accepted. */
  function FirstRefused(files: seq<File>): Option<string> {
    if Refusals(files) == [] then None else Some(Refusals(files)[0])
  }

  lemma {:induction false} SpecsStaged(tree: Tree, specs: seq<File>)
    requires PrefixFree(tree, specs)
    ensures WriteAll(tree, specs).Some?
    ensures StageSpecs(tree, specs)
         == match FirstRefused(specs)
            case Some(path) => UnsafeSpec(path)
            case None => Ready(WriteAll(tree, specs).value)
    decreases |specs|
  {
    hide IsSafeRelativePath, Slashed, Clash, Overwritten;
    WriteAllPrefixFree(tree, specs);
    if specs != [] {
      var s, rest := specs[0], specs[1..];
      assert specs == [s] + rest;
      TargetsConcat([s], rest);
      TargetsSnoc([], s);
      assert [] + [s] == [s];
      if IsSafeRelativePath(s.path) {
        assert Slashed(s.path) in Targets(specs);
        var t := tree[Slashed(s.path) := s.code];
        assert WriteProjectFile(tree, s.path, s.code) == Written(t);
        OneWritten(tree, s, t);
        WriteAllConcat(tree, [s], rest);
        SpecsStaged(t, rest);
      }
    }
  }

  lemma OneWritten(tree: Tree, f: File, t: Tree)
    requires WriteProjectFile(tree, f.path, f.code) == Written(t)
    ensures WriteAll(tree, [f]) == Some(t)
  {
    hide WriteProjectFile;
    assert [f][..0] == [];
  }

  /**
    A job's tree, when no two paths clash: too large a project and an unsafe spec are reported; otherwise every
    target, of the project or of a spec, holds its last source, specs coming after the project.
   */
  lemma JobStaged(tree: Tree, project: seq<File>, specs: seq<File>)
    requires PrefixFree(tree, project + specs)
    ensures var r := StageJobTree(tree, Some(project), specs);
            if TotalBytes(project) > BUNDLE_MAX_BYTES then r == TooLarge(TotalBytes(project))
            else if Refusals(specs) != [] then r == UnsafeSpec(Refusals(specs)[0])
            else r.Ready? && Overwritten(tree, project + specs, r.tree)
  {
    hide IsSafeRelativePath, Slashed, Clash, Targets, WriteAll, TotalBytes, BUNDLE_MAX_BYTES, StageSpecs, Refusals;
    TargetsConcat(project, specs);
    WriteAllPrefixFree(tree, project);
    var t := WriteAll(tree, project).value;
    assert PrefixFree(t, specs);
    SpecsStaged(t, specs);
    WriteAllConcat(tree, project, specs);
    WriteAllPrefixFree(tree, project + specs);
  }

  /** A spec after others is staged over what they left; the first one that cannot be written ends the staging. */
  lemma {:induction false} SpecsInOrder(tree: Tree, before: seq<File>, s: File, after: seq<File>)
    ensures var first, r := StageSpecs(tree, before), StageSpecs(tree, before + ([s] + after));
            && (!first.Ready? ==> r == first)
            && (first.Ready? && !IsSafeRelativePath(s.path) ==> r == UnsafeSpec(s.path))
            && (first.Ready? && IsSafeRelativePath(s.path) ==>
                  if exists q <- first.tree :: Clash(Slashed(s.path), q) then r == Crashed
                  else r == StageSpecs(first.tree[Slashed(s.path) := s.code], after))
    decreases |before|
  {
    hide IsSafeRelativePath, Slashed, Clash;
    var all := before + ([s] + after);
    if before == [] {
      assert all == [s] + after && all[1..] == after;
    } else {
      assert all[0] == before[0] && all[1..] == before[1..] + ([s] + after);
      match WriteProjectFile(tree, before[0].path, before[0].code)
      case Written(t) => SpecsInOrder(t, before[1..], s, after);
      case _ =>
    }
  }

  /** Two paths clash when the segments of one are the first segments of the other. */
  predicate RunsThrough(p: seq<string>, q: seq<string>) {
    |p| < |q| && q[..|p|] == p
  }

  lemma ClashExactly(p: string, q: string)
    ensures Clash(p, q) <==>
              RunsThrough(Split(p, '/'), Split(q, '/')) || RunsThrough(Split(q, '/'), Split(p, '/'))
  {
    ThroughExactly(p, q);
    ThroughExactly(q, p);
  }

  lemma ThroughExactly(p: string, q: string)
    ensures p + "/" <= q <==> RunsThrough(Split(p, '/'), Split(q, '/'))
  {
    var a, b := Split(p, '/'), Split(q, '/');
    if p + "/" <= q {
      assert q == p + "/" + q[|p| + 1..];
      SplitConcat(p, q[|p| + 1..], '/');
      assert b[..|a|] == a;
    }
    if RunsThrough(a, b) {
      JoinSplit(p, '/');
      JoinSplit(q, '/');
      assert b == a + b[|a|..];
      JoinConcat(a, b[|a|..]);
      assert q == p + "/" + Join(b[|a|..], '/');
    }
  }
}
