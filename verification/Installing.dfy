/** Each edit the engine logs turns the current version into the one the state machine expects. */
module Installing {
  import opened Levels
  import opened Versions
  import opened Inputs
  import opened Builder

  /** v' is v with edit e installed. */
  ghost predicate Installed(v: Version, e: Edit, v': Version) {
    && |v.files| == NUM_LEVELS && |v'.files| == NUM_LEVELS
    && forall l :: 0 <= l < NUM_LEVELS ==> v'.files[l] == StepLevel(v.files[l], l, e)
  }

  lemma LevelFresh(v: Version, next: nat, level: nat, adds: seq<(nat, File)>)
    requires VersionOk(v, next) && level < NUM_LEVELS
    requires forall i, j :: 0 <= i < j < |adds| && adds[i].0 == level && adds[j].0 == level
                            ==> adds[i].1.number != adds[j].1.number
    requires forall a, f :: a in adds && a.0 == level && f in LevelsOf(v)[level] ==> a.1.number != f.number
    ensures FreshAdds(FileSet(v.files[level]), adds, level)
  {
  }

  /** One level after an edit with fresh additions: the files without the deleted ones, plus the additions. */
  lemma LevelAfter(v: Version, next: nat, level: nat, e: Edit, v': Version)
    requires VersionOk(v, next) && level < NUM_LEVELS && Installed(v, e, v')
    requires FreshAdds(FileSet(v.files[level]), e.added, level)
    ensures InOrder(v'.files[level])
    ensures LevelsOf(v')[level]
            == (set f | f in LevelsOf(v)[level] && f.number !in DeletedAt(e.deleted, level))
               + AddedAt(e.added, level)
  {
    assert InOrder(v.files[level]);
    StepSet(v.files[level], level, e);
    hide InOrder, StepLevel, LevelsOk, DeletedAt, AddedAt;
    var base, adds := FileSet(v.files[level]), AddedAt(e.added, level);
    forall f | f in base ensures f.number !in Numbers(adds) {
      FreshNumbers(base, e.added, level, f);
    }
    assert forall f :: f in adds ==> f.number in Numbers(adds);
    assert FileSet(v.files[level]) == LevelsOf(v)[level];
    assert FileSet(v'.files[level]) == LevelsOf(v')[level];
  }

  lemma FreshNumbers(base: set<File>, adds: seq<(nat, File)>, level: nat, f: File)
    requires FreshAdds(base, adds, level) && f in base
    ensures f.number !in Numbers(AddedAt(adds, level))
  {
    forall a | a in AddedAt(adds, level) ensures a.number != f.number {
      var p :| p in adds && p.0 == level && p.1 == a;
    }
  }

  /** Installing an edit that adds nothing to a level and deletes nothing from it leaves it alone. */
  lemma LevelUntouched(v: Version, next: nat, level: nat, e: Edit, v': Version)
    requires VersionOk(v, next) && level < NUM_LEVELS && Installed(v, e, v')
    requires (forall a :: a in e.added ==> a.0 != level) && (forall d :: d in e.deleted ==> d.0 != level)
    ensures InOrder(v'.files[level]) && LevelsOf(v')[level] == LevelsOf(v)[level]
  {
    LevelFresh(v, next, level, e.added);
    LevelAfter(v, next, level, e, v');
    assert AddedAt(e.added, level) == {} && DeletedAt(e.deleted, level) == {};
  }

  lemma VersionFacts(v: Version, next: nat)
    requires VersionOk(v, next)
    ensures |v.files| == NUM_LEVELS && LevelsOk(LevelsOf(v), next)
  {
  }

  lemma InstalledFacts(v: Version, e: Edit, v': Version)
    requires Installed(v, e, v')
    ensures |v.files| == NUM_LEVELS && |v'.files| == NUM_LEVELS
  {
  }

  lemma LevelsExt(a: Levels, b: Levels)
    requires forall l :: 0 <= l < NUM_LEVELS ==> a[l] == b[l]
    ensures a == b
  {
  }

  lemma MakeVersionOk(v: Version, next: nat)
    requires |v.files| == NUM_LEVELS && LevelsOk(LevelsOf(v), next)
    requires forall l :: 0 <= l < NUM_LEVELS ==> InOrder(v.files[l])
    ensures VersionOk(v, next)
  {
  }

  lemma OneAdded(level: nat, f: File, other: nat)
    ensures AddedAt([(level, f)], level) == {f}
    ensures other != level ==> AddedAt([(level, f)], other) == {}
  {
    assert (level, f) in [(level, f)];
  }

  lemma OneDeleted(level: nat, number: nat, other: nat)
    ensures DeletedAt([(level, number)], level) == {number} && DeletedAt([], level) == {}
    ensures other != level ==> DeletedAt([(level, number)], other) == {}
  {
    assert (level, number) in [(level, number)];
  }

  // ---- The three edits ---------------------------------------------------------------------------------------

  lemma FlushFacts(ls: Levels, next: nat, f: File, level: nat)
    requires FlushFits(ls, next, f, level)
    ensures level < NUM_LEVELS && f.number == next
  {
  }

  lemma FlushInstalled(v: Version, next: nat, f: File, level: nat, v': Version)
    requires VersionOk(v, next) && FlushFits(LevelsOf(v), next, f, level)
    requires Installed(v, Edit([], [(level, f)]), v')
    ensures VersionOk(v', next + 1) && LevelsOf(v') == Flushed(LevelsOf(v), f, level)
  {
    var e := Edit([], [(level, f)]);
    hide VersionOk, LevelsOk, FlushFits, Installed, InOrder, AddedAt, DeletedAt, FreshAdds, LevelsOf;
    VersionFacts(v, next);
    FlushFacts(LevelsOf(v), next, f, level);
    InstalledFacts(v, e, v');
    LevelNumbersDistinct(v, next, level);
    LevelFresh(v, next, level, e.added);
    LevelAfter(v, next, level, e, v');
    OneAdded(level, f, level);
    OneDeleted(level, 0, level);
    forall l | 0 <= l < NUM_LEVELS && l != level
      ensures InOrder(v'.files[l]) && LevelsOf(v')[l] == LevelsOf(v)[l]
    {
      LevelUntouched(v, next, l, e, v');
    }
    FlushKeepsLevels(LevelsOf(v), next, f, level);
    LevelsExt(LevelsOf(v'), Flushed(LevelsOf(v), f, level));
    MakeVersionOk(v', next + 1);
  }

  function Deletions(level: nat, fs: seq<File>): (ds: seq<(nat, nat)>)
    ensures forall d :: d in ds ==> d.0 == level
  {
    seq(|fs|, i requires 0 <= i < |fs| => (level, fs[i].number))
  }

  function Additions(level: nat, fs: seq<File>): (r: seq<(nat, File)>)
    ensures forall a :: a in r ==> a.0 == level
  {
    seq(|fs|, i requires 0 <= i < |fs| => (level, fs[i]))
  }

  lemma DeletionsAt(level: nat, fs: seq<File>)
    ensures DeletedAt(Deletions(level, fs), level) == Numbers(FileSet(fs))
  {
    var ds := Deletions(level, fs);
    forall n | n in Numbers(FileSet(fs)) ensures n in DeletedAt(ds, level) {
      var f :| f in fs && f.number == n;
      var i :| 0 <= i < |fs| && fs[i] == f;
      assert ds[i] == (level, n);
      assert ds[i] in ds;
    }
    forall n | n in DeletedAt(ds, level) ensures n in Numbers(FileSet(fs)) {
      var d :| d in ds && d.0 == level && d.1 == n;
      var i :| 0 <= i < |ds| && ds[i] == d;
      assert fs[i] in FileSet(fs);
    }
  }

  lemma AdditionsAt(level: nat, fs: seq<File>)
    ensures AddedAt(Additions(level, fs), level) == FileSet(fs)
  {
    var r := Additions(level, fs);
    forall f | f in fs ensures f in AddedAt(r, level) {
      var i :| 0 <= i < |fs| && fs[i] == f;
      assert r[i] == (level, f);
      assert r[i] in r;
    }
  }

  lemma DeletedOnlyAt(a: seq<(nat, nat)>, b: seq<(nat, nat)>, level: nat)
    requires forall d :: d in b ==> d.0 != level
    ensures DeletedAt(a + b, level) == DeletedAt(a, level) && DeletedAt(b + a, level) == DeletedAt(a, level)
  {
  }

  /** AddInputDeletions and the additions of InstallCompactionResults. */
  function CompactionEdit(level: nat, in0: seq<File>, in1: seq<File>, outs: seq<File>): Edit {
    Edit(Deletions(level, in0) + Deletions(level + 1, in1), Additions(level + 1, outs))
  }

  lemma WithoutNumbers(all: set<File>, some: set<File>)
    requires some <= all
    requires forall f, g :: f in all && g in all && f.number == g.number ==> f == g
    ensures (set f | f in all && f.number !in Numbers(some)) == all - some
  {
  }

  lemma LevelNumbersDistinct(v: Version, next: nat, level: nat)
    requires VersionOk(v, next) && level < NUM_LEVELS
    ensures forall f, g :: f in LevelsOf(v)[level] && g in LevelsOf(v)[level] && f.number == g.number ==> f == g
    ensures forall f :: f in LevelsOf(v)[level] ==> f.number < next
  {
  }

  /** What a compaction's edit says about each level. */
  lemma CompactionEditSets(level: nat, in0: seq<File>, in1: seq<File>, outs: seq<File>)
    ensures var e := CompactionEdit(level, in0, in1, outs);
            && DeletedAt(e.deleted, level) == Numbers(FileSet(in0)) && AddedAt(e.added, level) == {}
            && DeletedAt(e.deleted, level + 1) == Numbers(FileSet(in1)) && AddedAt(e.added, level + 1) == FileSet(outs)
            && (forall a :: a in e.added ==> a.0 == level + 1 && a.1 in outs)
            && (forall d :: d in e.deleted ==> d.0 == level || d.0 == level + 1)
  {
    DeletionsAt(level, in0);
    DeletionsAt(level + 1, in1);
    AdditionsAt(level + 1, outs);
    DeletedOnlyAt(Deletions(level, in0), Deletions(level + 1, in1), level);
    DeletedOnlyAt(Deletions(level + 1, in1), Deletions(level, in0), level + 1);
    hide Deletions, DeletedAt, Numbers, FileSet;
    var e := CompactionEdit(level, in0, in1, outs);
    assert forall a :: a in e.added ==> a.0 == level + 1 && a.1 in outs;
  }

  lemma CompactionFresh(v: Version, next: nat, level: nat, in0: seq<File>, in1: seq<File>, outs: seq<File>)
    requires VersionOk(v, next) && level + 1 < NUM_LEVELS
    requires forall i :: 0 <= i < |outs| ==> outs[i].number == next + i
    ensures FreshAdds(FileSet(v.files[level]), CompactionEdit(level, in0, in1, outs).added, level)
    ensures FreshAdds(FileSet(v.files[level + 1]), CompactionEdit(level, in0, in1, outs).added, level + 1)
  {
    hide VersionOk, LevelsOk, Deletions, FreshAdds, LevelsOf;
    VersionFacts(v, next);
    LevelNumbersDistinct(v, next, level);
    LevelNumbersDistinct(v, next, level + 1);
    var adds := CompactionEdit(level, in0, in1, outs).added;
    forall a | a in adds ensures a.0 == level + 1 && a.1.number >= next {
      var i :| 0 <= i < |adds| && adds[i] == a;
      assert adds[i] == (level + 1, outs[i]);
    }
    LevelFresh(v, next, level, adds);
    LevelFresh(v, next, level + 1, adds);
  }

  lemma CompactionLevelAt(v: Version, next: nat, level: nat, in0: seq<File>, in1: seq<File>, outs: seq<File>,
                          v': Version, l: nat)
    requires VersionOk(v, next) && level + 1 < NUM_LEVELS && l < NUM_LEVELS
    requires FileSet(in0) <= LevelsOf(v)[level] && FileSet(in1) <= LevelsOf(v)[level + 1]
    requires forall i :: 0 <= i < |outs| ==> outs[i].number == next + i
    requires Installed(v, CompactionEdit(level, in0, in1, outs), v')
    ensures InOrder(v'.files[l])
    ensures LevelsOf(v')[l] == Compacted(LevelsOf(v), level, FileSet(in0), FileSet(in1), FileSet(outs))[l]
  {
    hide VersionOk, LevelsOk, Installed, InOrder, AddedAt, DeletedAt, FreshAdds, CompactionEdit, FileSet, Numbers;
    hide LevelsOf;
    var e := CompactionEdit(level, in0, in1, outs);
    VersionFacts(v, next);
    InstalledFacts(v, e, v');
    LevelNumbersDistinct(v, next, l);
    CompactionEditSets(level, in0, in1, outs);
    CompactionFresh(v, next, level, in0, in1, outs);
    if l == level {
      LevelAfter(v, next, level, e, v');
      WithoutNumbers(LevelsOf(v)[level], FileSet(in0));
    } else if l == level + 1 {
      LevelAfter(v, next, level + 1, e, v');
      WithoutNumbers(LevelsOf(v)[level + 1], FileSet(in1));
    } else {
      LevelUntouched(v, next, l, e, v');
    }
  }

  lemma CompactionLevels(v: Version, next: nat, level: nat, in0: seq<File>, in1: seq<File>, outs: seq<File>,
                         v': Version)
    requires VersionOk(v, next) && level + 1 < NUM_LEVELS
    requires FileSet(in0) <= LevelsOf(v)[level] && FileSet(in1) <= LevelsOf(v)[level + 1]
    requires forall i :: 0 <= i < |outs| ==> outs[i].number == next + i
    requires Installed(v, CompactionEdit(level, in0, in1, outs), v')
    ensures forall l :: 0 <= l < NUM_LEVELS ==> InOrder(v'.files[l])
    ensures LevelsOf(v') == Compacted(LevelsOf(v), level, FileSet(in0), FileSet(in1), FileSet(outs))
  {
    hide VersionOk, Installed, InOrder, CompactionEdit, FileSet, LevelsOf, Compacted;
    VersionFacts(v, next);
    InstalledFacts(v, CompactionEdit(level, in0, in1, outs), v');
    forall l | 0 <= l < NUM_LEVELS
      ensures InOrder(v'.files[l])
      ensures LevelsOf(v')[l] == Compacted(LevelsOf(v), level, FileSet(in0), FileSet(in1), FileSet(outs))[l]
    {
      CompactionLevelAt(v, next, level, in0, in1, outs, v', l);
    }
    LevelsExt(LevelsOf(v'), Compacted(LevelsOf(v), level, FileSet(in0), FileSet(in1), FileSet(outs)));
  }

  /** A compaction's edit installs exactly the compaction. */
  lemma CompactionInstalled(v: Version, next: nat, level: nat, in0: seq<File>, in1: seq<File>, outs: seq<File>,
                            v': Version)
    requires VersionOk(v, next) && Selected(LevelsOf(v), level, FileSet(in0), FileSet(in1))
    requires OutputsFit(FileSet(outs), FileSet(in0) + FileSet(in1), next, next + |outs|)
    requires forall i :: 0 <= i < |outs| ==> outs[i].number == next + i
    requires Installed(v, CompactionEdit(level, in0, in1, outs), v')
    ensures VersionOk(v', next + |outs|)
    ensures LevelsOf(v') == Compacted(LevelsOf(v), level, FileSet(in0), FileSet(in1), FileSet(outs))
  {
    hide VersionOk, LevelsOk, Selected, OutputsFit, Installed, LevelsOf, FileSet, InOrder, Compacted, CompactionEdit;
    VersionFacts(v, next);
    var ls := LevelsOf(v);
    SelectedFacts(ls, level, FileSet(in0), FileSet(in1));
    InstalledFacts(v, CompactionEdit(level, in0, in1, outs), v');
    CompactionLevels(v, next, level, in0, in1, outs, v');
    CompactKeepsLevels(ls, next, level, FileSet(in0), FileSet(in1), FileSet(outs), next + |outs|);
    MakeVersionOk(v', next + |outs|);
  }

  /** A trivial move deletes the file at its level and adds it one below. */
  lemma MoveInstalled(v: Version, next: nat, level: nat, f: File, v': Version)
    requires VersionOk(v, next) && Selected(LevelsOf(v), level, {f}, {})
    requires Installed(v, Edit([(level, f.number)], [(level + 1, f)]), v')
    ensures VersionOk(v', next) && LevelsOf(v') == Compacted(LevelsOf(v), level, {f}, {}, {f})
  {
    hide VersionOk, LevelsOk, Selected, Installed, InOrder, AddedAt, DeletedAt, FreshAdds, Numbers, LevelsOf;
    VersionFacts(v, next);
    var e, ls := Edit([(level, f.number)], [(level + 1, f)]), LevelsOf(v);
    SelectedFacts(ls, level, {f}, {});
    InstalledFacts(v, e, v');
    MoveFresh(v, next, level, f);
    LevelNumbersDistinct(v, next, level);
    LevelAfter(v, next, level, e, v');
    LevelAfter(v, next, level + 1, e, v');
    OneAdded(level + 1, f, level);
    OneDeleted(level, f.number, level + 1);
    forall l | 0 <= l < NUM_LEVELS && l != level && l != level + 1
      ensures InOrder(v'.files[l]) && LevelsOf(v')[l] == LevelsOf(v)[l]
    {
      LevelUntouched(v, next, l, e, v');
    }
    MoveKeepsLevels(ls, next, level, f);
    LevelsExt(LevelsOf(v'), Compacted(ls, level, {f}, {}, {f}));
    MakeVersionOk(v', next);
  }

  lemma MoveFresh(v: Version, next: nat, level: nat, f: File)
    requires VersionOk(v, next) && level + 1 < NUM_LEVELS && f in LevelsOf(v)[level]
    ensures FreshAdds(FileSet(v.files[level]), [(level + 1, f)], level)
    ensures FreshAdds(FileSet(v.files[level + 1]), [(level + 1, f)], level + 1)
  {
    assert Numbered(LevelsOf(v), next);
    LevelFresh(v, next, level, [(level + 1, f)]);
    LevelFresh(v, next, level + 1, [(level + 1, f)]);
  }
}
