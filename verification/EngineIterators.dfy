/** The engine's own iterator (DBImpl::NewInternalIterator, Version::AddIterators): what the merged memtables and files
    list is everything the engine holds. */
module EngineIterators {
  import opened InternalKeys
  import opened Visibility
  import opened Levels
  import opened Versions
  import opened Inputs
  import opened Merging
  import opened CompactionOutputs
  import opened Runs
  import DbIterators

  /** From a level on, one concatenating iterator for each level that has files. */
  function LevelLists(v: Version, level: nat): seq<seq<Entry>>
    requires |v.files| == NUM_LEVELS && level <= NUM_LEVELS
    decreases NUM_LEVELS - level
  {
    if level == NUM_LEVELS then []
    else (if v.files[level] == [] then [] else [Concat(v.files[level])]) + LevelLists(v, level + 1)
  }

  /** AddIterators: the level-0 files one by one, the other levels concatenated. */
  function VersionLists(v: Version): seq<seq<Entry>>
    requires |v.files| == NUM_LEVELS
  {
    EachFile(v.files[0]) + LevelLists(v, 1)
  }

  /** The children of the internal iterator. */
  function InternalLists(mem: seq<Entry>, imm: Option<seq<Entry>>, v: Version): seq<seq<Entry>>
    requires |v.files| == NUM_LEVELS
  {
    [mem] + ((if imm.Some? then [imm.value] else []) + VersionLists(v))
  }

  /** The entries of the files from a level on. */
  ghost function ContentsFrom(v: Version, level: nat): set<Entry>
    requires |v.files| == NUM_LEVELS
  {
    set i, f, e | level <= i < NUM_LEVELS && f in v.files[i] && e in f.entries :: e
  }

  lemma SplitContents(v: Version, level: nat)
    requires |v.files| == NUM_LEVELS && level < NUM_LEVELS
    ensures ContentsFrom(v, level) == EntriesOf(FileSet(v.files[level])) + ContentsFrom(v, level + 1)
  {
    forall e | e in EntriesOf(FileSet(v.files[level])) ensures e in ContentsFrom(v, level) {
      var f :| f in FileSet(v.files[level]) && e in f.entries;
      assert f in v.files[level];
    }
    forall e | e in ContentsFrom(v, level) ensures e in EntriesOf(FileSet(v.files[level])) + ContentsFrom(v, level + 1) {
      var i, f :| level <= i < NUM_LEVELS && f in v.files[i] && e in f.entries;
      if i == level {
        assert f in FileSet(v.files[level]);
      }
    }
  }

  lemma AllContents(v: Version)
    requires |v.files| == NUM_LEVELS
    ensures ContentsFrom(v, 0) == Contents(LevelsOf(v))
  {
    forall e | e in Contents(LevelsOf(v)) ensures e in ContentsFrom(v, 0) {
      var i, f :| 0 <= i < NUM_LEVELS && f in LevelsOf(v)[i] && e in f.entries;
      assert f in v.files[i];
    }
    forall e | e in ContentsFrom(v, 0) ensures e in Contents(LevelsOf(v)) {
      var i: int, f :| 0 <= i < NUM_LEVELS && f in v.files[i] && e in f.entries;
      assert f in LevelsOf(v)[i];
    }
  }

  lemma NoContents(v: Version)
    requires |v.files| == NUM_LEVELS
    ensures ContentsFrom(v, NUM_LEVELS) == {}
  {
  }

  /** A level shares no internal key with deeper ones. */
  lemma LevelAboveRest(v: Version, next: nat, level: nat, x: Entry, y: Entry)
    requires VersionOk(v, next) && level < NUM_LEVELS
    requires x in EntriesOf(FileSet(v.files[level])) && y in ContentsFrom(v, level + 1)
    ensures x.key != y.key
  {
    var f :| f in FileSet(v.files[level]) && x in f.entries;
    var j, g :| level + 1 <= j < NUM_LEVELS && g in v.files[j] && y in g.entries;
    assert f in LevelsOf(v)[level] && g in LevelsOf(v)[j];
    assert Above(f, g);
  }

  lemma LevelContributes(v: Version, next: nat, level: nat)
    requires VersionOk(v, next) && 1 <= level < NUM_LEVELS
    ensures Contributes(if v.files[level] == [] then [] else [Concat(v.files[level])], v.files[level])
  {
    if v.files[level] != [] {
      LevelSortedApart(v, next, level);
      ConcatContributes(v.files[level]);
    }
  }

  lemma ZeroContributes(v: Version, next: nat)
    requires VersionOk(v, next)
    ensures Contributes(EachFile(v.files[0]), v.files[0])
  {
    var files := v.files[0];
    forall f | f in files ensures FileOk(f) {
      assert f in LevelsOf(v)[0];
    }
    forall i, j | 0 <= i < j < |files| ensures NoSharedKey(files[i].entries, files[j].entries) {
      assert InOrder(files) && BySmallest(files[i], files[j]);
      ZeroDistinct(v, next, files[i], files[j]);
    }
    EachContributes(files);
  }

  lemma {:induction false} LevelListsMerge(v: Version, next: nat, level: nat)
    requires VersionOk(v, next) && 1 <= level <= NUM_LEVELS
    ensures Mergeable(LevelLists(v, level)) && Union(LevelLists(v, level)) == ContentsFrom(v, level)
    decreases NUM_LEVELS - level
  {
    hide VersionOk, EntriesOf, ContentsFrom, Mergeable, Union, Concat;
    FilesThere(v, next);
    if level == NUM_LEVELS {
      NoContents(v);
      NoLists();
    } else {
      LevelListsMerge(v, next, level + 1);
      LevelContributes(v, next, level);
      SplitContents(v, level);
      forall x, y | x in EntriesOf(FileSet(v.files[level])) && y in ContentsFrom(v, level + 1) ensures x.key != y.key {
        LevelAboveRest(v, next, level, x, y);
      }
      MergeableAppend(if v.files[level] == [] then [] else [Concat(v.files[level])], LevelLists(v, level + 1));
    }
  }

  lemma FilesThere(v: Version, next: nat)
    requires VersionOk(v, next)
    ensures |v.files| == NUM_LEVELS
  {
  }

  lemma NoLists()
    ensures Mergeable([]) && Union([]) == {}
  {
  }

  lemma OneList(es: seq<Entry>)
    requires Sorted(es)
    ensures Mergeable([es]) && Union([es]) == ToSet(es)
  {
    var cs := [es];
    forall e | e in ToSet(es) ensures e in Union(cs) {
      assert e in cs[0];
    }
  }

  lemma VersionListsMerge(v: Version, next: nat)
    requires VersionOk(v, next)
    ensures Mergeable(VersionLists(v)) && Union(VersionLists(v)) == Contents(LevelsOf(v))
  {
    hide VersionOk, EntriesOf, ContentsFrom, Mergeable, Union, Concat, EachFile, LevelLists, LevelsOf, Contents;
    FilesThere(v, next);
    ZeroContributes(v, next);
    LevelListsMerge(v, next, 1);
    SplitContents(v, 0);
    AllContents(v);
    forall x, y | x in EntriesOf(FileSet(v.files[0])) && y in ContentsFrom(v, 1) ensures x.key != y.key {
      LevelAboveRest(v, next, 0, x, y);
    }
    MergeableAppend(EachFile(v.files[0]), LevelLists(v, 1));
  }

  /** The internal iterator lists exactly what the engine holds, in order. */
  lemma InternalListsMerge(mem: seq<Entry>, imm: Option<seq<Entry>>, v: Version, s: State)
    requires Inv(s) && VersionOk(v, s.next) && s.levels == LevelsOf(v) && Sorted(mem) && s.mem == ToSet(mem)
    requires imm.Some? <==> s.imm.Some?
    requires imm.Some? ==> Sorted(imm.value) && s.imm.value == ToSet(imm.value)
    ensures Mergeable(InternalLists(mem, imm, v))
    ensures Sorted(MergeAll(InternalLists(mem, imm, v))) && ToSet(MergeAll(InternalLists(mem, imm, v))) == Held(s)
  {
    hide VersionOk, Mergeable, Union, VersionLists, LevelsOf, Contents, Sorted, ToSet, Inv, MergeAll;
    FilesThere(v, s.next);
    VersionListsMerge(v, s.next);
    LayersDistinct(s);
    OneList(mem);
    NoLists();
    var frozen := if imm.Some? then [imm.value] else [];
    if imm.Some? {
      OneList(imm.value);
    }
    MergeableAppend(frozen, VersionLists(v));
    MergeableAppend([mem], frozen + VersionLists(v));
    MergeAllSorted(InternalLists(mem, imm, v));
  }

  lemma LayersDistinct(s: State)
    requires Inv(s)
    ensures forall x, y :: x in s.mem && y in Frozen(s) + Contents(s.levels) ==> x.key != y.key
    ensures forall x, y :: x in Frozen(s) && y in Contents(s.levels) ==> x.key != y.key
  {
    hide LevelsOk, Contents;
  }

  /** So a cursor over it at a sequence number lists what reads at that number return, and what the history says when
      reads are faithful there. */
  lemma IteratorIsReads(mem: seq<Entry>, imm: Option<seq<Entry>>, v: Version, s: State, q: nat)
    requires Inv(s) && VersionOk(v, s.next) && s.levels == LevelsOf(v) && Sorted(mem) && s.mem == ToSet(mem)
    requires imm.Some? <==> s.imm.Some?
    requires imm.Some? ==> Sorted(imm.value) && s.imm.value == ToSet(imm.value)
    ensures var view := DbIterators.View(MergeAll(InternalLists(mem, imm, v)), q);
            && DbIterators.Increasing(view)
            && (forall u, x :: (u, x) in view <==> Read(Held(s), u, q) == Some(x))
            && (Faithful(s) && SmallestSnapshot(s) <= q ==> forall u, x :: (u, x) in view <==> Read(s.history, u, q) == Some(x))
  {
    hide VersionOk, InternalLists, MergeAll, LevelsOf, Sorted, ToSet, Inv, Held, Read, DbIterators.View, DbIterators.Increasing;
    FilesThere(v, s.next);
    InternalListsMerge(mem, imm, v, s);
    HeldUnique(s);
    var es := MergeAll(InternalLists(mem, imm, v));
    forall u, x
      ensures DbIterators.Increasing(DbIterators.View(es, q))
      ensures (u, x) in DbIterators.View(es, q) <==> Read(Held(s), u, q) == Some(x)
    {
      DbIterators.ViewIsReads(es, q, u, x);
    }
    DbIterators.ViewIsReads(es, q, 0, "");
  }

  lemma HeldUnique(s: State)
    requires Inv(s)
    ensures Unique(Held(s))
  {
    hide LevelsOk, Contents;
    UniqueSubset(Held(s), s.history);
  }
}
