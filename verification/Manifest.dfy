/** Installing edits and recovering a version from the manifest (LogAndApply, WriteSnapshot, Recover). */
module Manifest {
  import opened Levels
  import opened Versions
  import opened Inputs
  import opened Builder

  const EMPTY_VERSION: Version := Version(seq(NUM_LEVELS, _ => []))

  /** VersionSet::Builder: a base version and, per level, deleted numbers and added files. */
  class VersionBuilder {
    const base: Version
    var levels: seq<LevelState>

    constructor (base: Version)
      ensures this.base == base && levels == seq(NUM_LEVELS, _ => EMPTY_STATE)
    {
      this.base, levels := base, seq(NUM_LEVELS, _ => EMPTY_STATE);
    }

    method Apply(e: Edit)
      requires |levels| == NUM_LEVELS && EditOk(e)
      modifies this
      ensures |levels| == NUM_LEVELS
      ensures forall l :: 0 <= l < NUM_LEVELS ==> levels[l] == ApplyLevel(old(levels)[l], l, e)
    {
      for i := 0 to |e.deleted|
        invariant |levels| == NUM_LEVELS
        invariant forall l :: 0 <= l < NUM_LEVELS ==> levels[l] == DeleteAll(old(levels)[l], l, e.deleted[..i])
      {
        var (level, number) := e.deleted[i];
        assert e.deleted[i] in e.deleted && e.deleted[..i + 1][..i] == e.deleted[..i];
        levels := levels[level := Deleting(levels[level], number)];
      }
      assert e.deleted[..|e.deleted|] == e.deleted;
      for i := 0 to |e.added|
        invariant |levels| == NUM_LEVELS
        invariant forall l :: 0 <= l < NUM_LEVELS
                              ==> levels[l] == AddAll(DeleteAll(old(levels)[l], l, e.deleted), l, e.added[..i])
      {
        var (level, f) := e.added[i];
        assert e.added[i] in e.added && e.added[..i + 1][..i] == e.added[..i];
        levels := levels[level := Adding(levels[level], f)];
      }
      assert e.added[..|e.added|] == e.added;
    }

    method SaveTo() returns (v: Version)
      requires |levels| == NUM_LEVELS && |base.files| == NUM_LEVELS
      ensures |v.files| == NUM_LEVELS
      ensures forall l :: 0 <= l < NUM_LEVELS ==> v.files[l] == SaveLevel(levels[l], base.files[l], levels[l].added)
    {
      var files := [];
      for level := 0 to NUM_LEVELS
        invariant |files| == level
        invariant forall l :: 0 <= l < level ==> files[l] == SaveLevel(levels[l], base.files[l], levels[l].added)
      {
        var saved := SaveOne(levels[level], base.files[level]);
        files := files + [saved];
      }
      v := Version(files);
    }
  }

  lemma SaveRest(s: LevelState, base: seq<File>, added: seq<File>, b: nat, a: nat)
    requires b <= |base| && a < |added|
    ensures SaveLevel(s, base[b..], added[a..])
            == Kept(s, base[b..b + UpperBound(base[b..], added[a])]) + Maybe(s, added[a])
               + SaveLevel(s, base[b + UpperBound(base[b..], added[a])..], added[a + 1..])
  {
    var n := UpperBound(base[b..], added[a]);
    assert base[b..][..n] == base[b..b + n] && base[b..][n..] == base[b + n..];
    assert added[a..][0] == added[a] && added[a..][1..] == added[a + 1..];
  }

  lemma {:induction false} KeptSnoc(s: LevelState, fs: seq<File>, i: nat, j: nat)
    requires i <= j < |fs|
    ensures Kept(s, fs[i..j + 1]) == Kept(s, fs[i..j]) + Maybe(s, fs[j])
    decreases j - i
  {
    if i == j {
      assert fs[i..j + 1] == [fs[i]];
      assert Kept(s, [fs[i]]) == Maybe(s, fs[i]) + Kept(s, []);
    } else {
      assert fs[i..j + 1][1..] == fs[i + 1..j + 1] && fs[i..j][1..] == fs[i + 1..j];
      KeptSnoc(s, fs, i + 1, j);
    }
  }

  /** Base files from position b up to position e, through MaybeAddFile. */
  method KeepRange(s: LevelState, base: seq<File>, b: nat, e: nat) returns (r: seq<File>)
    requires b <= e <= |base|
    ensures r == Kept(s, base[b..e])
  {
    r := [];
    for i := b to e
      invariant r == Kept(s, base[b..i])
    {
      KeptSnoc(s, base, b, i);
      r := r + Maybe(s, base[i]);
    }
  }

  /** The merge of SaveTo on one level: base files up to each added file, the added file, the remaining base. */
  method SaveOne(s: LevelState, base: seq<File>) returns (r: seq<File>)
    ensures r == SaveLevel(s, base, s.added)
  {
    hide SaveLevel, Kept, UpperBound, Maybe;
    r := [];
    var b := 0;
    assert base[0..] == base && s.added[0..] == s.added;
    ghost var rest := SaveLevel(s, base, s.added);
    for a := 0 to |s.added|
      invariant b <= |base| && rest == SaveLevel(s, base[b..], s.added[a..])
      invariant r + rest == SaveLevel(s, base, s.added)
    {
      var bpos := b + UpperBound(base[b..], s.added[a]);
      SaveRest(s, base, s.added, b, a);
      rest := SaveLevel(s, base[bpos..], s.added[a + 1..]);
      var kept := KeepRange(s, base, b, bpos);
      Regroup(r, kept, Maybe(s, s.added[a]), rest);
      r := r + kept + Maybe(s, s.added[a]);
      b := bpos;
    }
    var kept := KeepRange(s, base, b, |base|);
    SaveEnd(s, base, b);
    r := r + kept;
  }

  lemma SaveEnd(s: LevelState, base: seq<File>, b: nat)
    requires b <= |base|
    ensures SaveLevel(s, base[b..], s.added[|s.added|..]) == Kept(s, base[b..|base|])
  {
    assert s.added[|s.added|..] == [] && base[b..|base|] == base[b..];
  }

  lemma Regroup(a: seq<File>, b: seq<File>, c: seq<File>, d: seq<File>)
    ensures a + (b + c + d) == a + b + c + d
  {
  }

  /** The data part of LogAndApply: the current version with one edit applied. */
  method LogAndApply(current: Version, e: Edit) returns (v: Version)
    requires |current.files| == NUM_LEVELS && EditOk(e)
    ensures |v.files| == NUM_LEVELS
    ensures forall l :: 0 <= l < NUM_LEVELS ==> v.files[l] == StepLevel(current.files[l], l, e)
  {
    var b := new VersionBuilder(current);
    b.Apply(e);
    v := b.SaveTo();
  }

  // ---- WriteSnapshot -----------------------------------------------------------------------------------------

  function AtLevel(level: nat, fs: seq<File>): seq<(nat, File)> {
    seq(|fs|, i requires 0 <= i < |fs| => (level, fs[i]))
  }

  function SnapshotFrom(v: Version, level: nat): seq<(nat, File)>
    requires |v.files| == NUM_LEVELS && level <= NUM_LEVELS
    decreases NUM_LEVELS - level
  {
    if level == NUM_LEVELS then [] else AtLevel(level, v.files[level]) + SnapshotFrom(v, level + 1)
  }

  /** The record WriteSnapshot puts first: every file of the current version. */
  function Snapshot(v: Version): Edit
    requires |v.files| == NUM_LEVELS
  {
    Edit([], SnapshotFrom(v, 0))
  }

  lemma AtLevelMembers(level: nat, fs: seq<File>)
    ensures forall a :: a in AtLevel(level, fs) <==> a.0 == level && a.1 in fs
  {
    forall f | f in fs ensures (level, f) in AtLevel(level, fs) {
      var i :| 0 <= i < |fs| && fs[i] == f;
      assert AtLevel(level, fs)[i] == (level, f);
    }
  }

  lemma {:induction false} SnapshotMembers(v: Version, from: nat)
    requires |v.files| == NUM_LEVELS && from <= NUM_LEVELS
    ensures forall a :: a in SnapshotFrom(v, from) <==> from <= a.0 < NUM_LEVELS && a.1 in v.files[a.0]
    decreases NUM_LEVELS - from
  {
    if from < NUM_LEVELS {
      SnapshotMembers(v, from + 1);
      AtLevelMembers(from, v.files[from]);
      hide AtLevel;
    }
  }

  /** Files of one level before files of later levels clash only if the files of that level do. */
  lemma FreshAppend(xs: seq<(nat, File)>, ys: seq<(nat, File)>, from: nat, level: nat)
    requires FreshAdds({}, xs, level) && FreshAdds({}, ys, level)
    requires (forall a :: a in xs ==> a.0 == from) && (forall a :: a in ys ==> a.0 > from)
    ensures FreshAdds({}, xs + ys, level)
  {
    var all := xs + ys;
    forall i | 0 <= i < |all|
      ensures if i < |xs| then all[i].0 == from else all[i].0 > from
    {
      if i < |xs| {
        assert all[i] == xs[i] && xs[i] in xs;
      } else {
        assert all[i] == ys[i - |xs|] && ys[i - |xs|] in ys;
      }
    }
    forall i, j | 0 <= i < j < |all| && all[i].0 == level && all[j].0 == level
      ensures all[i].1.number != all[j].1.number
    {
      if level == from {
        assert all[i] == xs[i] && all[j] == xs[j];
      } else {
        assert all[i] == ys[i - |xs|] && all[j] == ys[j - |xs|];
      }
    }
  }

  lemma {:induction false} SnapshotDistinct(v: Version, next: nat, from: nat, level: nat)
    requires VersionOk(v, next) && from <= NUM_LEVELS && level < NUM_LEVELS
    ensures FreshAdds({}, SnapshotFrom(v, from), level)
    decreases NUM_LEVELS - from
  {
    if from < NUM_LEVELS {
      SnapshotDistinct(v, next, from + 1, level);
      SnapshotMembers(v, from + 1);
      var xs := AtLevel(from, v.files[from]);
      AtLevelMembers(from, v.files[from]);
      forall i, j | 0 <= i < j < |xs|
        ensures xs[i].1.number != xs[j].1.number
      {
        LevelNumbers(v, next, from, i, j);
      }
      hide LevelsOk, InOrder, SnapshotFrom;
      FreshAppend(xs, SnapshotFrom(v, from + 1), from, level);
      SnapshotUnfold(v, from);
    }
  }

  lemma SnapshotUnfold(v: Version, from: nat)
    requires |v.files| == NUM_LEVELS && from < NUM_LEVELS
    ensures SnapshotFrom(v, from) == AtLevel(from, v.files[from]) + SnapshotFrom(v, from + 1)
  {
  }

  lemma LevelNumbers(v: Version, next: nat, level: nat, i: nat, j: nat)
    requires VersionOk(v, next) && level < NUM_LEVELS && i < j < |v.files[level]|
    ensures v.files[level][i].number != v.files[level][j].number
  {
    var ls := LevelsOf(v);
    assert v.files[level][i] in ls[level] && v.files[level][j] in ls[level];
    assert BySmallest(v.files[level][i], v.files[level][j]);
  }

  lemma SnapshotAdds(v: Version, next: nat, level: nat)
    requires VersionOk(v, next) && level < NUM_LEVELS
    ensures FreshAdds({}, Snapshot(v).added, level) && AddedAt(Snapshot(v).added, level) == FileSet(v.files[level])
  {
    SnapshotDistinct(v, next, 0, level);
    SnapshotMembers(v, 0);
    hide LevelsOk, InOrder, SnapshotFrom, FreshAdds;
    forall f | f in v.files[level] ensures f in AddedAt(Snapshot(v).added, level) {
      assert (level, f) in Snapshot(v).added;
    }
  }

  /** The snapshot record alone rebuilds the version it was taken from. */
  lemma SnapshotRebuilds(v: Version, next: nat, level: nat)
    requires VersionOk(v, next) && level < NUM_LEVELS
    ensures StepLevel([], level, Snapshot(v)) == v.files[level]
  {
    SnapshotAdds(v, next, level);
    assert InOrder(v.files[level]);
    hide LevelsOk, SnapshotFrom, StepLevel, InOrder, FreshAdds, AddedAt, DeletedAt;
    assert InOrder([]) by { EmptyInOrder(); }
    assert FileSet([]) == {};
    StepSet([], level, Snapshot(v));
    assert DeletedAt([], level) == {} by { NothingDeleted(level); }
    OrderedUnique(StepLevel([], level, Snapshot(v)), v.files[level]);
  }

  lemma EmptyInOrder()
    ensures InOrder([])
  {
  }

  lemma NothingDeleted(level: nat)
    ensures DeletedAt([], level) == {}
  {
  }

  lemma {:induction false} StepAllFrom(level: nat, first: Edit, es: seq<Edit>)
    ensures StepAll([], level, [first] + es) == StepAll(StepLevel([], level, first), level, es)
  {
    if es == [] {
      assert [first] + es == [first];
      assert StepAll([], level, [first][..0]) == [];
    } else {
      var n := |es| - 1;
      assert ([first] + es)[..n + 1] == [first] + es[..n];
      StepAllFrom(level, first, es[..n]);
    }
  }

  lemma SnapshotThenFresh(v: Version, next: nat, level: nat, es: seq<Edit>)
    requires VersionOk(v, next) && level < NUM_LEVELS && NeverReadds(v.files[level], level, es)
    ensures NeverReadds([], level, [Snapshot(v)] + es)
  {
    SnapshotAdds(v, next, level);
    var snap, all := Snapshot(v), [Snapshot(v)] + es;
    forall i | 0 <= i < |all|
      ensures FreshAdds(Known([], level, all[..i]), all[i].added, level)
    {
      if i > 0 {
        assert all[..i] == [snap] + es[..i - 1];
        KnownAfterSnapshot(v, level, snap, es[..i - 1]);
      } else {
        assert Known([], level, all[..0]) == {};
      }
    }
  }

  lemma KnownAfterSnapshot(v: Version, level: nat, snap: Edit, es: seq<Edit>)
    requires |v.files| == NUM_LEVELS && level < NUM_LEVELS
    requires AddedAt(snap.added, level) == FileSet(v.files[level])
    ensures Known([], level, [snap] + es) == Known(v.files[level], level, es)
  {
    var all := [snap] + es;
    forall f | f in Known(v.files[level], level, es)
      ensures f in Known([], level, all)
    {
      if f in v.files[level] {
        assert f in AddedAt(snap.added, level);
        var a :| a in snap.added && a.0 == level && a.1 == f;
        assert snap in all;
      } else {
        var e, a :| e in es && a in e.added && a.0 == level && a.1 == f;
        assert e in all;
      }
    }
    forall f | f in Known([], level, all)
      ensures f in Known(v.files[level], level, es)
    {
      var e, a :| e in all && a in e.added && a.0 == level && a.1 == f;
      if e == snap {
        assert f in AddedAt(snap.added, level);
      }
    }
  }

  /** Recovering from a manifest (a snapshot of some version, then the edits logged since) rebuilds, level by
      level and file by file, the version those edits led to one at a time. */
  lemma RecoverRebuilds(v: Version, next: nat, level: nat, es: seq<Edit>)
    requires VersionOk(v, next) && level < NUM_LEVELS && NeverReadds(v.files[level], level, es)
    ensures var records := [Snapshot(v)] + es;
            SaveLevel(BuildAll(level, records), [], BuildAll(level, records).added) == StepAll(v.files[level], level, es)
  {
    SnapshotRebuilds(v, next, level);
    SnapshotThenFresh(v, next, level, es);
    ReplayEqualsSteps([], level, [Snapshot(v)] + es);
    StepAllFrom(level, Snapshot(v), es);
  }
}
