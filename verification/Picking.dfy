/** Picking a compaction and a flush level (VersionSet and Version in version_set.cc). */
module Picking {
  import opened InternalKeys
  import opened Visibility
  import opened Levels
  import opened Versions
  import opened Inputs

  /** max_file_size bounds the bytes a compaction may take on and the grandparent bytes it may meet. */
  datatype Options = Options(maxFileSize: nat)

  function MaxGrandParentOverlapBytes(o: Options): nat { 10 * o.maxFileSize }

  function ExpandedCompactionByteSizeLimit(o: Options): nat { 25 * o.maxFileSize }

  /** The config constant kMaxMemCompactLevel. */
  const MAX_MEM_COMPACT_LEVEL: nat := 2

  function TotalFileSize(files: seq<File>): nat {
    if files == [] then 0 else files[0].size + TotalFileSize(files[1..])
  }

  ghost predicate IsSlice(files: seq<File>, s: seq<File>, a: nat, b: nat) {
    a < b <= |files| && s == files[a..b]
  }

  ghost predicate Keeps(a: seq<File>, b: seq<File>) {
    forall f :: f in a ==> f in b
  }

  /** What may start a compaction: a run of consecutive files, or at level 0 all files meeting a closed range. */
  ghost predicate Startable(v: Version, level: nat, in0: seq<File>)
    requires |v.files| == NUM_LEVELS && level < NUM_LEVELS
  {
    && in0 != []
    && (level > 0 ==> exists a: nat, b: nat :: IsSlice(v.files[level], in0, a, b))
    && (level == 0 ==> exists lo, hi :: ClosedRange(v.files[0], lo, hi) && in0 == Meeting(v.files[0], lo, hi))
  }

  /** Startable, and extended to a boundary. */
  ghost predicate Closed(v: Version, level: nat, in0: seq<File>)
    requires |v.files| == NUM_LEVELS && level < NUM_LEVELS
  {
    && Startable(v, level, in0)
    && (level > 0 ==> exists a: nat, b: nat :: IsSlice(v.files[level], in0, a, b) && ClosedAt(v.files[level], b))
  }

  lemma LevelSpansOk(v: Version, next: nat, level: nat)
    requires VersionOk(v, next) && level < NUM_LEVELS
    ensures SpansOk(v.files[level])
  {
    forall f | f in v.files[level]
      ensures AtMost(f.smallest, f.largest)
    {
      assert f in LevelsOf(v)[level];
      FileSpan(f);
    }
  }

  /** Nothing outside a closed level-0 range shares a user key with it, so its boundary chain is empty. */
  lemma ZeroChainEmpty(v: Version, next: nat, in0: seq<File>)
    requires VersionOk(v, next) && Startable(v, 0, in0) && SpansOk(v.files[0])
    ensures BoundaryChain(v.files[0], LargestKey(in0)) == []
  {
    var files, k := v.files[0], LargestKey(in0);
    var lo, hi :| ClosedRange(files, lo, hi) && in0 == Meeting(files, lo, hi);
    MeetingMembers(files, lo, hi);
    RangeCovers(in0);
    var top :| top in in0 && top.largest == k;
    forall f | f in files
      ensures !IsBoundary(f, k)
    {
      ZeroOwnFileIsFine(v, next, in0, lo, hi, top, f);
    }
  }

  lemma ZeroOwnFileIsFine(v: Version, next: nat, in0: seq<File>, lo: Option<UserKey>, hi: Option<UserKey>,
                          top: File, f: File)
    requires VersionOk(v, next) && f in v.files[0] && top in v.files[0]
    requires ClosedRange(v.files[0], lo, hi) && Meets(top, lo, hi)
    requires Meets(f, lo, hi) ==> AtMost(f.largest, top.largest)
    ensures !IsBoundary(f, top.largest)
  {
    assert f in LevelsOf(v)[0] && top in LevelsOf(v)[0];
    FileSpan(f);
    FileSpan(top);
  }

  lemma BoundaryClosesSlice(files: seq<File>, in0: seq<File>, a: nat, b: nat, r: seq<File>) returns (b': nat)
    requires SortedApart(files) && SpansOk(files) && IsSlice(files, in0, a, b)
    requires r == in0 + BoundaryChain(files, LargestKey(in0))
    ensures IsSlice(files, r, a, b') && ClosedAt(files, b')
  {
    SliceEnds(files, a, b);
    b' := ChainExtendsSlice(files, b);
    Splice(files, a, b, b');
  }

  lemma Splice(files: seq<File>, a: nat, b: nat, c: nat)
    requires a <= b <= c <= |files|
    ensures files[a..b] + files[b..c] == files[a..c]
  {
  }

  /** AddBoundaryInputs turns what may start a compaction into something closed, and keeps what was there. */
  lemma BoundaryCloses(v: Version, next: nat, level: nat, in0: seq<File>, r: seq<File>)
    requires VersionOk(v, next) && level < NUM_LEVELS && Startable(v, level, in0) && SpansOk(v.files[level])
    requires r == in0 + BoundaryChain(v.files[level], LargestKey(in0))
    ensures Closed(v, level, r) && Keeps(in0, r) && |in0| <= |r|
  {
    if level == 0 {
      ZeroChainEmpty(v, next, in0);
      assert r == in0;
    } else {
      LevelSortedApart(v, next, level);
      var a: nat, b: nat :| IsSlice(v.files[level], in0, a, b);
      var b' := BoundaryClosesSlice(v.files[level], in0, a, b, r);
    }
  }

  // ---- Closed inputs are properly selected -------------------------------------------------------------------

  lemma StayersNewerZero(v: Version, next: nat, in0: seq<File>, g: File, f: File)
    requires VersionOk(v, next) && Startable(v, 0, in0)
    requires g in v.files[0] && g !in in0 && f in in0
    ensures Above(g, f)
  {
    var lo, hi :| ClosedRange(v.files[0], lo, hi) && in0 == Meeting(v.files[0], lo, hi);
    MeetingMembers(v.files[0], lo, hi);
    assert g in LevelsOf(v)[0] && f in LevelsOf(v)[0];
    NoOverlapAbove(g, f);
  }

  lemma EarlierAbove(es: set<Entry>, g: File, f: File)
    requires FileOk(g) && FileOk(f) && Less(g.largest, f.smallest)
    requires Unique(es) && ToSet(g.entries) <= es && ToSet(f.entries) <= es
    ensures Above(g, f)
  {
    forall x, y | x in g.entries && y in f.entries && x.key.user == y.key.user
      ensures x.key.seqno > y.key.seqno
    {
      FileBounds(g, x);
      FileBounds(f, y);
      assert x in ToSet(g.entries) && y in ToSet(f.entries);
    }
  }

  lemma FileInContents(ls: Levels, i: nat, f: File)
    requires i < NUM_LEVELS && f in ls[i]
    ensures ToSet(f.entries) <= Contents(ls)
  {
  }

  lemma StayersNewerAt(files: seq<File>, es: set<Entry>, i: nat, j: nat, b: nat)
    requires SortedApart(files) && Unique(es) && (forall f :: f in files ==> ToSet(f.entries) <= es)
    requires i < |files| && j < b <= |files| && ClosedAt(files, b) && (i < j || b <= i)
    ensures Above(files[i], files[j])
  {
    assert files[i] in files && files[j] in files;
    if i < j {
      EarlierAbove(es, files[i], files[j]);
    } else {
      PastBoundary(files, j, b, i);
      NoOverlapAbove(files[i], files[j]);
    }
  }

  lemma SliceHas(files: seq<File>, a: nat, b: nat, i: nat)
    requires a <= i < b <= |files|
    ensures files[i] in files[a..b]
  {
    assert files[a..b][i - a] == files[i];
  }

  lemma StayersNewer(files: seq<File>, es: set<Entry>, in0: seq<File>, a: nat, b: nat, g: File, f: File)
    requires SortedApart(files) && Unique(es) && (forall h :: h in files ==> ToSet(h.entries) <= es)
    requires IsSlice(files, in0, a, b) && ClosedAt(files, b)
    requires g in files && g !in in0 && f in in0
    ensures Above(g, f)
  {
    hide SortedApart, Above, Unique, ClosedAt;
    var i :| 0 <= i < |files| && files[i] == g;
    var j :| 0 <= j < |in0| && in0[j] == f;
    assert f == files[a + j];
    if a <= i < b {
      SliceHas(files, a, b, i);
    }
    StayersNewerAt(files, es, i, a + j, b);
  }

  lemma LevelWithin(v: Version, level: nat)
    requires |v.files| == NUM_LEVELS && level < NUM_LEVELS
    ensures forall h :: h in v.files[level] ==> ToSet(h.entries) <= Contents(LevelsOf(v))
  {
    forall h | h in v.files[level] ensures ToSet(h.entries) <= Contents(LevelsOf(v)) {
      assert h in LevelsOf(v)[level];
      FileInContents(LevelsOf(v), level, h);
    }
  }

  lemma AllStayersNewer(v: Version, next: nat, level: nat, in0: seq<File>)
    requires VersionOk(v, next) && level < NUM_LEVELS && Closed(v, level, in0)
    ensures forall g, f :: g in v.files[level] && g !in in0 && f in in0 ==> Above(g, f)
  {
    if level == 0 {
      forall g, f | g in v.files[0] && g !in in0 && f in in0 ensures Above(g, f) {
        StayersNewerZero(v, next, in0, g, f);
      }
    } else {
      LevelSortedApart(v, next, level);
      LevelWithin(v, level);
      var a: nat, b: nat :| IsSlice(v.files[level], in0, a, b) && ClosedAt(v.files[level], b);
      hide Above, LevelsOf, SortedApart, FilesOk, Disjoint, Recency, ZeroRecency, Numbered, Contents, IsSlice, ClosedAt;
      forall g, f | g in v.files[level] && g !in in0 && f in in0 ensures Above(g, f) {
        StayersNewer(v.files[level], Contents(LevelsOf(v)), in0, a, b, g, f);
      }
    }
  }

  lemma PastBoundary(files: seq<File>, j: nat, b: nat, i: nat)
    requires SortedApart(files) && j < b <= i < |files| && ClosedAt(files, b)
    ensures files[j].largest.user < files[i].smallest.user
  {
    assert Less(files[b - 1].largest, files[b].smallest);
    StartsBeforeEnds(files, b);
    StartsBeforeEnds(files, b - 1);
    assert j == b - 1 || Less(files[j].largest, files[b - 1].smallest);
    assert i == b || Less(files[b].largest, files[i].smallest);
  }

  lemma BesideOneSide(g: File, f: File, lo: UserKey, hi: UserKey)
    requires FileOk(g) && FileOk(f) && !Meets(g, Some(lo), Some(hi))
    requires (lo <= f.smallest.user && f.largest.user <= hi) || (Meets(f, Some(lo), Some(hi)) && Apart(g, f))
    ensures g.largest.user < lo ==> Less(g.largest, f.smallest)
    ensures g.largest.user >= lo ==> Less(f.largest, g.smallest)
  {
    FileSpan(g);
    FileSpan(f);
  }

  /** Closed inputs at a level with all files of the next level that meet their user key range are a proper
      selection. */
  lemma ClosedSelects(v: Version, next: nat, level: nat, in0: seq<File>, in1: seq<File>)
    requires VersionOk(v, next) && level + 1 < NUM_LEVELS && Closed(v, level, in0)
    requires in1 == Meeting(v.files[level + 1], Some(SmallestKey(in0).user), Some(LargestKey(in0).user))
    ensures Selected(LevelsOf(v), level, FileSet(in0), FileSet(in1))
  {
    MeetingMembers(v.files[level + 1], Some(SmallestKey(in0).user), Some(LargestKey(in0).user));
    ClosedMembers(v, level, in0);
    assert in0[0] in FileSet(in0);
    AllStayersNewer(v, next, level, in0);
    AllStayersBeside(v, next, level, in0, in1);
    hide Above, LevelsOk, Closed, OneSide, FileOk, Meeting, InOrder, SmallestKey, LargestKey;
  }

  lemma AllStayersBeside(v: Version, next: nat, level: nat, in0: seq<File>, in1: seq<File>)
    requires VersionOk(v, next) && level + 1 < NUM_LEVELS && in0 != [] && forall f :: f in in0 ==> f in v.files[level]
    requires in1 == Meeting(v.files[level + 1], Some(SmallestKey(in0).user), Some(LargestKey(in0).user))
    ensures forall g :: g in v.files[level + 1] && g !in in1 ==> OneSide(g, FileSet(in0) + FileSet(in1))
    ensures forall f :: f in in0 ==> NoOverlap(LevelsOf(v)[level + 1] - FileSet(in1), f)
  {
    hide Above, LevelsOk, OneSide, FileOk, Meeting, InOrder, SmallestKey, LargestKey;
    forall g | g in v.files[level + 1] && g !in in1
      ensures OneSide(g, FileSet(in0) + FileSet(in1))
      ensures forall f :: f in in0 ==> f.largest.user < g.smallest.user || g.largest.user < f.smallest.user
    {
      StayersBeside(v, next, level, in0, in1, g);
    }
  }

  lemma StayersBeside(v: Version, next: nat, level: nat, in0: seq<File>, in1: seq<File>, g: File)
    requires VersionOk(v, next) && level + 1 < NUM_LEVELS && in0 != [] && forall f :: f in in0 ==> f in v.files[level]
    requires in1 == Meeting(v.files[level + 1], Some(SmallestKey(in0).user), Some(LargestKey(in0).user))
    requires g in v.files[level + 1] && g !in in1
    ensures OneSide(g, FileSet(in0) + FileSet(in1))
    ensures forall f :: f in in0 ==> f.largest.user < g.smallest.user || g.largest.user < f.smallest.user
  {
    var ls := LevelsOf(v);
    var lo, hi := SmallestKey(in0).user, LargestKey(in0).user;
    MeetingMembers(v.files[level + 1], Some(lo), Some(hi));
    RangeCovers(in0);
    assert g in ls[level + 1] && !Meets(g, Some(lo), Some(hi));
    forall f | f in FileSet(in0) + FileSet(in1)
      ensures g.largest.user < lo ==> Less(g.largest, f.smallest)
      ensures g.largest.user >= lo ==> Less(f.largest, g.smallest)
    {
      assert f in in0 ==> f in ls[level];
      assert f in in1 ==> f in ls[level + 1];
      BesideOneSide(g, f, lo, hi);
    }
  }

  lemma ClosedMembers(v: Version, level: nat, in0: seq<File>)
    requires |v.files| == NUM_LEVELS && level < NUM_LEVELS && Startable(v, level, in0)
    ensures forall f :: f in in0 ==> f in v.files[level]
  {
    if level == 0 {
      var lo, hi :| ClosedRange(v.files[0], lo, hi) && in0 == Meeting(v.files[0], lo, hi);
      MeetingMembers(v.files[0], lo, hi);
    }
  }
}
