/** Slash-separated paths: splitting, joining, and POSIX normalisation. */
module Paths {
  /** `s.split(c)`. */
  function Split(s: string, c: char): (r: seq<string>)
    ensures r != []
    ensures forall i :: 0 <= i < |r| ==> c !in r[i]
  {
    if s == "" then [""]
    else if s[0] == c then [""] + Split(s[1..], c)
    else
      var r := Split(s[1..], c);
      [[s[0]] + r[0]] + r[1..]
  }

  function Join(parts: seq<string>, c: char): string {
    if parts == [] then ""
    else if |parts| == 1 then parts[0]
    else parts[0] + [c] + Join(parts[1..], c)
  }

  lemma {:induction false} JoinSplit(s: string, c: char)
    ensures Join(Split(s, c), c) == s
  {
    if s != "" {
      JoinSplit(s[1..], c);
      var r := Split(s[1..], c);
      if s[0] == c {
        assert ([""] + r)[1..] == r;
      } else {
        assert ([[s[0]] + r[0]] + r[1..])[1..] == r[1..];
      }
    }
  }

  lemma {:induction false} SplitConcat(a: string, b: string, c: char)
    ensures Split(a + [c] + b, c) == Split(a, c) + Split(b, c)
  {
    if a == "" {
      assert a + [c] + b == [c] + b;
      assert ([c] + b)[1..] == b;
    } else {
      SplitConcat(a[1..], b, c);
      assert (a + [c] + b)[1..] == a[1..] + [c] + b;
      SplitCons(a, a[1..] + [c] + b, Split(b, c), c);
      assert a + [c] + b == [a[0]] + (a[1..] + [c] + b);
    }
  }

  lemma SplitCons(a: string, rest: string, tail: seq<string>, c: char)
    requires a != "" && Split(rest, c) == Split(a[1..], c) + tail
    ensures Split([a[0]] + rest, c) == Split(a, c) + tail
  {
    assert ([a[0]] + rest)[1..] == rest;
    var r := Split(a[1..], c);
    if a[0] == c {
      Associate([""], r, tail);
    } else {
      DropFirst(r, tail);
      Associate([[a[0]] + r[0]], r[1..], tail);
    }
  }

  lemma Associate<T>(x: seq<T>, y: seq<T>, z: seq<T>)
    ensures x + (y + z) == x + y + z
  {
  }

  lemma DropFirst<T>(x: seq<T>, y: seq<T>)
    requires x != []
    ensures (x + y)[1..] == x[1..] + y && (x + y)[0] == x[0]
  {
  }

  lemma {:induction false} SplitNone(s: string, c: char)
    requires c !in s
    ensures Split(s, c) == [s]
  {
    if s != "" {
      SplitNone(s[1..], c);
      assert s == [s[0]] + s[1..];
    }
  }

  lemma {:induction false} SplitJoin(parts: seq<string>, c: char)
    requires parts != [] && forall i :: 0 <= i < |parts| ==> c !in parts[i]
    ensures Split(Join(parts, c), c) == parts
  {
    SplitNone(parts[0], c);
    if |parts| > 1 {
      SplitJoin(parts[1..], c);
      SplitConcat(parts[0], Join(parts[1..], c), c);
    }
  }

  predicate Proper(segment: string) {
    segment != "" && segment != "." && segment != ".." && '/' !in segment
  }

  predicate AllProper(segments: seq<string>) {
    forall i :: 0 <= i < |segments| ==> Proper(segments[i])
  }

  /** Walks `segments` from the directory `at`. A relative walk may climb above its start. */
  function Walk(absolute: bool, at: seq<string>, segments: seq<string>): seq<string>
    decreases |segments|
  {
    if segments == [] then at
    else if segments[0] == "" || segments[0] == "." then Walk(absolute, at, segments[1..])
    else if segments[0] == ".." then
      if at != [] && at[|at| - 1] != ".." then Walk(absolute, at[..|at| - 1], segments[1..])
      else if absolute then Walk(absolute, at, segments[1..])
      else Walk(absolute, at + [".."], segments[1..])
    else Walk(absolute, at + [segments[0]], segments[1..])
  }

  lemma {:induction false} WalkProper(absolute: bool, at: seq<string>, segments: seq<string>)
    requires forall i :: 0 <= i < |segments| ==> segments[i] != "" && segments[i] != "." && segments[i] != ".."
    ensures Walk(absolute, at, segments) == at + segments
    decreases |segments|
  {
    if segments != [] {
      WalkProper(absolute, at + [segments[0]], segments[1..]);
      assert at + [segments[0]] + segments[1..] == at + segments;
    } else {
      assert at + segments == at;
    }
  }

  /** `path.posix.normalize` of an absolute path, trailing slash kept. */
  function NormalizeAbsolute(p: string): string {
    var segments := Walk(true, [], Split(p, '/'));
    "/" + Join(segments, '/') + (if segments != [] && p != "" && p[|p| - 1] == '/' then "/" else "")
  }

  /** `path.posix.join` on an absolute directory. */
  function PathJoin(dir: string, relative: string): string {
    NormalizeAbsolute(dir + "/" + relative)
  }
}
