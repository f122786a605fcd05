/**
  The one-time move of the flat artifact directories into `shared/` (`api/app/config.py`,
  `migrate_legacy_workspace_dirs`). The process may stop before any of its changes, and is then rerun.
 */
module Migration {
  import opened Wrappers

  /** The entries of a directory; what an entry holds is compared but never looked into. */
  type Dir = map<string, string>

  /** The two directories of one artifact kind, `workspace/<kind>` and `workspace/shared/<kind>`. */
  datatype Place = Place(legacy: Option<Dir>, shared: Option<Dir>)

  /** One place for each kind of `_SCOPED_KINDS`, in its order, and whether the sentinel file is there. */
  datatype Fs = Fs(places: seq<Place>, sentinel: bool)

  function Entries(d: Option<Dir>): Dir {
    if d.Some? then d.value else map[]
  }

  /** The legacy directory exists and is not empty. */
  predicate Busy(p: Place) {
    Entries(p.legacy) != map[]
  }

  predicate Movable(p: Place, n: string) {
    n in Entries(p.legacy) && n !in Entries(p.shared)
  }

  /** Nothing is left to move, and no directory to make. */
  ghost predicate Settled(p: Place) {
    (Busy(p) ==> p.shared.Some?) && forall n :: !Movable(p, n)
  }

  // ---------------------------------------------------------------------------
  // Single changes
  // ---------------------------------------------------------------------------

  datatype Change = MakeDir(kind: nat) | Move(kind: nat, name: string) | WriteSentinel

  ghost predicate Enabled(fs: Fs, c: Change) {
    && !fs.sentinel
    && match c
       case MakeDir(k) => k < |fs.places| && Busy(fs.places[k])
       case Move(k, n) => k < |fs.places| && fs.places[k].shared.Some? && Movable(fs.places[k], n)
       case WriteSentinel => forall p <- fs.places :: Settled(p)
  }

  function WithShared(p: Place): Place {
    p.(shared := Some(Entries(p.shared)))
  }

  function Moved(p: Place, n: string): Place
    requires Movable(p, n)
  {
    Place(Some(p.legacy.value - {n}), Some(Entries(p.shared)[n := p.legacy.value[n]]))
  }

  ghost function Apply(fs: Fs, c: Change): Fs
    requires Enabled(fs, c)
  {
    match c
    case MakeDir(k) => fs.(places := fs.places[k := WithShared(fs.places[k])])
    case Move(k, n) => fs.(places := fs.places[k := Moved(fs.places[k], n)])
    case WriteSentinel => fs.(sentinel := true)
  }

  // ---------------------------------------------------------------------------
  // The result of a whole migration
  // ---------------------------------------------------------------------------

  /** Entries whose name is taken stay behind; the shared directory keeps its own entries and gets the others. */
  function FinalPlace(p: Place): Place {
    var left, right := Entries(p.legacy), Entries(p.shared);
    Place(
      if p.legacy.None? then None else Some(map n | n in left && n in right :: left[n]),
      if p.shared.None? && !Busy(p) then None else Some(left + right))
  }

  function Final(fs: Fs): Fs {
    if fs.sentinel then fs
    else Fs(seq(|fs.places|, i requires 0 <= i < |fs.places| => FinalPlace(fs.places[i])), true)
  }

  lemma FinalWithShared(p: Place)
    requires Busy(p)
    ensures FinalPlace(WithShared(p)) == FinalPlace(p)
  {
  }

  lemma FinalMoved(p: Place, n: string)
    requires p.shared.Some? && Movable(p, n)
    ensures FinalPlace(Moved(p, n)) == FinalPlace(p)
  {
    var q := Moved(p, n);
    assert Entries(q.legacy) + Entries(q.shared) == Entries(p.legacy) + Entries(p.shared);
    assert FinalPlace(q).legacy.value == FinalPlace(p).legacy.value;
  }

  lemma FinalSettled(p: Place)
    requires Settled(p)
    ensures FinalPlace(p) == p
  {
    assert forall n :: n in Entries(p.legacy) ==> !Movable(p, n);
    assert p.legacy.Some? ==> FinalPlace(p).legacy.value == p.legacy.value;
    assert p.shared.Some? ==> FinalPlace(p).shared.value == p.shared.value;
  }

  /** No change alters where the migration ends: an interrupted run, continued by any later one, ends there. */
  lemma ChangeKeepsFinal(fs: Fs, c: Change)
    requires Enabled(fs, c)
    ensures Final(Apply(fs, c)) == Final(fs)
  {
    hide FinalPlace, Settled, WithShared, Moved, Movable, Busy;
    match c
    case MakeDir(k) => FinalWithShared(fs.places[k]);
    case Move(k, n) => FinalMoved(fs.places[k], n);
    case WriteSentinel =>
      forall i | 0 <= i < |fs.places|
        ensures FinalPlace(fs.places[i]) == fs.places[i]
      {
        FinalSettled(fs.places[i]);
      }
  }

  // ---------------------------------------------------------------------------
  // Nothing is lost
  // ---------------------------------------------------------------------------

  /**
    What became of the name `n`: its shared entry stays as it was; its legacy entry stays, or moves to the
    shared directory if the name is free there; nothing else appears.
   */
  predicate KeptName(p: Place, q: Place, n: string) {
    var (l, s, l', s') := (Entries(p.legacy), Entries(p.shared), Entries(q.legacy), Entries(q.shared));
    && (n in s ==> n in s' && s'[n] == s[n])
    && (n in l' ==> n in l && l'[n] == l[n])
    && (n in l && n !in l' ==> n !in s && n in s' && s'[n] == l[n])
    && (n in s' && n !in s ==> n in l && n !in l')
  }

  ghost predicate Kept(p: Place, q: Place) {
    p.legacy.Some? == q.legacy.Some? && forall n :: KeptName(p, q, n)
  }

  ghost predicate Conserves(before: Fs, after: Fs) {
    && |before.places| == |after.places|
    && forall i :: 0 <= i < |before.places| ==> Kept(before.places[i], after.places[i])
  }

  lemma ConservesSelf(fs: Fs)
    ensures Conserves(fs, fs)
  {
  }

  lemma KeptChain(p: Place, q: Place, r: Place)
    requires Kept(p, q) && Kept(q, r)
    ensures Kept(p, r)
  {
    assert forall n :: KeptName(p, q, n) && KeptName(q, r, n) ==> KeptName(p, r, n);
  }

  lemma ConservesChain(a: Fs, b: Fs, c: Fs)
    requires Conserves(a, b) && Conserves(b, c)
    ensures Conserves(a, c)
  {
    hide Kept;
    forall i | 0 <= i < |a.places|
      ensures Kept(a.places[i], c.places[i])
    {
      KeptChain(a.places[i], b.places[i], c.places[i]);
    }
  }

  lemma KeptByMoves(p: Place, n: string)
    ensures Kept(p, p) && Kept(p, WithShared(p))
    ensures Movable(p, n) ==> Kept(p, Moved(p, n))
  {
  }

  lemma ChangeConserves(fs: Fs, c: Change)
    requires Enabled(fs, c)
    ensures Conserves(fs, Apply(fs, c))
  {
    hide Settled, Kept, WithShared, Moved, Busy, Movable;
    forall i | 0 <= i < |fs.places|
      ensures Kept(fs.places[i], Apply(fs, c).places[i])
    {
      KeptByMoves(fs.places[i], if c.Move? then c.name else "");
    }
  }

  /** A whole migration moves exactly the entries whose name is free, and a second one has nothing to do. */
  lemma FinalConserves(fs: Fs)
    ensures Conserves(fs, Final(fs)) && Final(fs).sentinel && Final(Final(fs)) == Final(fs)
    ensures !fs.sentinel ==> forall p <- Final(fs).places, n :: !Movable(p, n)
  {
  }

  /** The runs of the migration: any number of changes, each one allowed where it is made. */
  ghost predicate Changes(fs: Fs, cs: seq<Change>)
    decreases |cs|
  {
    cs == [] || (Enabled(fs, cs[0]) && Changes(Apply(fs, cs[0]), cs[1..]))
  }

  ghost function After(fs: Fs, cs: seq<Change>): Fs
    requires Changes(fs, cs)
    decreases |cs|
  {
    if cs == [] then fs else After(Apply(fs, cs[0]), cs[1..])
  }

  /**
    However many times the migration was stopped, wherever it was stopped, and in whatever order the
    entries came: nothing is lost or replaced on the way, and once the sentinel is written the file system
    is the one that a single uninterrupted run leaves.
   */
  lemma {:induction false} ResumedEqualsUninterrupted(fs: Fs, cs: seq<Change>)
    requires Changes(fs, cs)
    ensures Conserves(fs, After(fs, cs)) && Final(After(fs, cs)) == Final(fs)
    ensures After(fs, cs).sentinel ==> After(fs, cs) == Final(fs)
    decreases |cs|
  {
    hide Conserves, Enabled, Apply;
    if cs == [] {
      ConservesSelf(fs);
    } else {
      ChangeKeepsFinal(fs, cs[0]);
      ChangeConserves(fs, cs[0]);
      ResumedEqualsUninterrupted(Apply(fs, cs[0]), cs[1..]);
      ConservesChain(fs, Apply(fs, cs[0]), After(fs, cs));
    }
  }

  // ---------------------------------------------------------------------------
  // The migration itself
  // ---------------------------------------------------------------------------

  /** How many legacy entries the first `n` kinds have. */
  function LegacyCount(fs: Fs, n: nat): nat
    requires n <= |fs.places|
  {
    if n == 0 then 0 else LegacyCount(fs, n - 1) + |Entries(fs.places[n - 1].legacy)|
  }

  /** What one run, or a number of interrupted runs, may make of `before`. */
  ghost predicate Reaches(before: Fs, after: Fs) {
    Conserves(before, after) && Final(after) == Final(before)
  }

  lemma ReachesStep(a: Fs, b: Fs, c: Change)
    requires Reaches(a, b) && Enabled(b, c)
    ensures Reaches(a, Apply(b, c))
  {
    hide Conserves, Final, Enabled, Apply;
    ChangeKeepsFinal(b, c);
    ChangeConserves(b, c);
    ConservesChain(a, b, Apply(b, c));
  }

  class Workspace {
    var fs: Fs

    constructor (fs: Fs)
      ensures this.fs == fs
    {
      this.fs := fs;
    }

    /** Move the entries of one kind, with at most `budget` changes. */
    method MigrateKind(k: nat, budget: nat) returns (used: nat, finished: bool)
      requires !fs.sentinel && k < |fs.places|
      modifies this
      ensures Reaches(old(fs), fs) && !fs.sentinel
      ensures |fs.places| == old(|fs.places|)
      ensures forall j :: 0 <= j < |fs.places| && j != k ==> fs.places[j] == old(fs).places[j]
      ensures finished ==> Settled(fs.places[k])
      ensures !finished ==> used == budget
      ensures used <= budget && used <= 1 + |Entries(old(fs).places[k].legacy)|
    {
      hide Final, Conserves;
      used, finished := 0, true;
      ConservesSelf(fs);
      if fs.places[k].legacy.None? || fs.places[k].legacy.value == map[] {
        return;
      }
      if budget == 0 {
        finished := false;
        return;
      }
      ReachesStep(old(fs), fs, MakeDir(k));
      fs := fs.(places := fs.places[k := WithShared(fs.places[k])]);
      used := 1;
      var entries := fs.places[k].legacy.value.Keys;
      while entries != {}
        invariant !fs.sentinel && Reaches(old(fs), fs) && |fs.places| == old(|fs.places|)
        invariant fs.places[k].shared.Some?
        invariant entries <= Entries(fs.places[k].legacy).Keys
        invariant forall n :: Movable(fs.places[k], n) ==> n in entries
        invariant forall j :: 0 <= j < |fs.places| && j != k ==> fs.places[j] == old(fs).places[j]
        invariant used <= budget && used + |entries| <= 1 + |Entries(old(fs).places[k].legacy)|
      {
        var entry :| entry in entries;
        if entry !in fs.places[k].shared.value {
          if used == budget {
            finished := false;
            return;
          }
          ReachesStep(old(fs), fs, Move(k, entry));
          fs := fs.(places := fs.places[k := Moved(fs.places[k], entry)]);
          used := used + 1;
        }
        entries := entries - {entry};
      }
    }

    /** One run, killed or failing after `budget` changes if it makes that many. */
    method Migrate(budget: nat) returns (finished: bool)
      modifies this
      ensures Reaches(old(fs), fs)
      ensures old(fs).sentinel ==> finished && fs == old(fs)
      ensures finished ==> fs == Final(old(fs)) && fs.sentinel
      ensures budget > |old(fs).places| + LegacyCount(old(fs), |old(fs).places|) ==> finished
    {
      hide Conserves, Settled;
      ConservesSelf(fs);
      finished := true;
      if fs.sentinel {
        return;
      }
      var left := budget;
      var i := 0;
      while i < |fs.places|
        invariant 0 <= i <= |fs.places| == |old(fs).places| && !fs.sentinel && Reaches(old(fs), fs)
        invariant forall j :: 0 <= j < i ==> Settled(fs.places[j])
        invariant forall j :: i <= j < |fs.places| ==> fs.places[j] == old(fs).places[j]
        invariant 0 <= left <= budget <= left + i + LegacyCount(old(fs), i)
        decreases |old(fs).places| - i
      {
        ghost var before := fs;
        var used;
        used, finished := MigrateKind(i, left);
        ReachesChain(old(fs), before, fs);
        left := left - used;
        CountMore(old(fs), i);
        if !finished {
          return;
        }
        i := i + 1;
      }
      if left == 0 {
        finished := false;
        return;
      }
      ReachesStep(old(fs), fs, WriteSentinel);
      fs := fs.(sentinel := true);
    }
  }

  lemma ReachesChain(a: Fs, b: Fs, c: Fs)
    requires Reaches(a, b) && Reaches(b, c)
    ensures Reaches(a, c)
  {
    hide Conserves, Final;
    ConservesChain(a, b, c);
  }

  lemma {:induction false} CountGrows(fs: Fs, i: nat, n: nat)
    requires i <= n <= |fs.places|
    ensures LegacyCount(fs, i) <= LegacyCount(fs, n)
    decreases n
  {
    if i < n { CountGrows(fs, i, n - 1); }
  }

  lemma CountMore(fs: Fs, i: nat)
    requires i < |fs.places|
    ensures LegacyCount(fs, i + 1) == LegacyCount(fs, i) + |Entries(fs.places[i].legacy)|
    ensures LegacyCount(fs, i + 1) <= LegacyCount(fs, |fs.places|)
  {
    CountGrows(fs, i + 1, |fs.places|);
  }
}
