/** The merged input of a compaction and the files it leaves, as the state machine wants them. */
module CompactionOutputs {
  import opened InternalKeys
  import opened Visibility
  import opened Levels
  import opened Versions
  import opened Inputs
  import opened Picking
  import opened CompactionPicker
  import opened Dropping
  import opened CompactionReads
  import opened Merging
  import opened CompactionWork

  // ---- MakeInputIterator -------------------------------------------------------------------------------------

  function EachFile(files: seq<File>): seq<seq<Entry>> {
    if files == [] then [] else [files[0].entries] + EachFile(files[1..])
  }

  /** The children of the input iterator: level-0 files one by one, other levels concatenated. */
  function Children(level: nat, in0: seq<File>, in1: seq<File>): seq<seq<Entry>> {
    (if level == 0 then EachFile(in0) else [Concat(in0)]) + (if in1 == [] then [] else [Concat(in1)])
  }

  lemma {:induction false} EachFileIs(files: seq<File>)
    ensures |EachFile(files)| == |files| && forall i :: 0 <= i < |files| ==> EachFile(files)[i] == files[i].entries
  {
    if files != [] {
      EachFileIs(files[1..]);
    }
  }

  /** What the files of one level contribute: sorted lists without shared keys, holding exactly their entries. */
  ghost predicate Contributes(children: seq<seq<Entry>>, files: seq<File>) {
    Mergeable(children) && Union(children) == EntriesOf(FileSet(files))
  }

  lemma ConcatContributes(files: seq<File>)
    requires SortedApart(files)
    ensures Contributes([Concat(files)], files)
  {
    ConcatSorted(files);
    ConcatMembers(files);
    var cs := [Concat(files)];
    forall e | e in Union(cs) ensures e in ToSet(Concat(files)) {
      var i :| 0 <= i < |cs| && e in cs[i];
    }
    forall e | e in ToSet(Concat(files)) ensures e in Union(cs) {
      assert e in cs[0];
    }
  }

  ghost predicate PairwiseDistinct(files: seq<File>) {
    forall i, j :: 0 <= i < j < |files| ==> NoSharedKey(files[i].entries, files[j].entries)
  }

  lemma EachContributes(files: seq<File>)
    requires (forall f :: f in files ==> FileOk(f)) && PairwiseDistinct(files)
    ensures Contributes(EachFile(files), files)
  {
    EachFileIs(files);
    var cs := EachFile(files);
    forall i | 0 <= i < |cs| ensures Sorted(cs[i]) {
      assert files[i] in files;
    }
    forall e | e in Union(cs) ensures e in EntriesOf(FileSet(files)) {
      var i :| 0 <= i < |cs| && e in cs[i];
      assert files[i] in FileSet(files);
    }
    forall e | e in EntriesOf(FileSet(files)) ensures e in Union(cs) {
      var f :| f in FileSet(files) && e in f.entries;
      var i :| 0 <= i < |files| && files[i] == f;
      assert e in cs[i];
    }
  }

  lemma AboveNoSharedKey(f: File, g: File)
    requires Above(f, g) || Above(g, f)
    ensures NoSharedKey(f.entries, g.entries)
  {
  }

  lemma ZeroPairwiseDistinct(v: Version, next: nat, in0: seq<File>)
    requires VersionOk(v, next) && Startable(v, 0, in0)
    ensures (forall f :: f in in0 ==> FileOk(f)) && PairwiseDistinct(in0)
  {
    ClosedMembers(v, 0, in0);
    forall f | f in in0 ensures FileOk(f) { assert f in LevelsOf(v)[0]; }
    var lo, hi :| ClosedRange(v.files[0], lo, hi) && in0 == Meeting(v.files[0], lo, hi);
    MeetingDistinct(v.files[0], lo, hi);
    forall i, j | 0 <= i < j < |in0|
      ensures NoSharedKey(in0[i].entries, in0[j].entries)
    {
      assert in0[i] in in0 && in0[j] in in0;
      ZeroDistinct(v, next, in0[i], in0[j]);
    }
  }

  lemma ZeroDistinct(v: Version, next: nat, f: File, g: File)
    requires VersionOk(v, next) && f in v.files[0] && g in v.files[0] && f != g
    ensures NoSharedKey(f.entries, g.entries)
  {
    assert f in LevelsOf(v)[0] && g in LevelsOf(v)[0];
    AboveNoSharedKey(f, g);
  }

  lemma {:induction false} MeetingDistinct(files: seq<File>, lo: Option<UserKey>, hi: Option<UserKey>)
    requires InOrder(files)
    ensures forall i, j :: 0 <= i < j < |Meeting(files, lo, hi)|
                           ==> Meeting(files, lo, hi)[i] != Meeting(files, lo, hi)[j]
  {
    if files != [] {
      var n := |files| - 1;
      MeetingDistinct(files[..n], lo, hi);
      MeetingMembers(files[..n], lo, hi);
      var m := Meeting(files[..n], lo, hi);
      forall i | 0 <= i < |m| ensures m[i] != files[n] {
        assert m[i] in m;
        var k :| 0 <= k < n && files[k] == m[i];
        assert BySmallest(files[k], files[n]);
      }
    }
  }

  lemma LevelsNoSharedKey(v: Version, next: nat, level: nat, x: Entry, y: Entry, f: File, g: File)
    requires VersionOk(v, next) && level + 1 < NUM_LEVELS && f in v.files[level] && g in v.files[level + 1]
    requires x in f.entries && y in g.entries
    ensures x.key != y.key
  {
    assert f in LevelsOf(v)[level] && g in LevelsOf(v)[level + 1];
    assert Above(f, g);
  }

  lemma MergeableAppend(a: seq<seq<Entry>>, b: seq<seq<Entry>>)
    requires Mergeable(a) && Mergeable(b)
    requires forall x, y :: x in Union(a) && y in Union(b) ==> x.key != y.key
    ensures Mergeable(a + b) && Union(a + b) == Union(a) + Union(b)
  {
    var c := a + b;
    forall i, j | 0 <= i < j < |c|
      ensures NoSharedKey(c[i], c[j])
    {
      if i < |a| <= j {
        assert c[i] == a[i] && c[j] == b[j - |a|];
        forall x: Entry, y: Entry | x in c[i] && y in c[j] ensures x.key != y.key {
          assert x in Union(a) && y in Union(b);
        }
      } else if j < |a| {
        assert c[i] == a[i] && c[j] == a[j];
      } else {
        assert c[i] == b[i - |a|] && c[j] == b[j - |a|];
      }
    }
    forall e | e in Union(a) + Union(b) ensures e in Union(c) {
      if e in Union(a) {
        var i :| 0 <= i < |a| && e in a[i];
        assert e in c[i];
      } else {
        var i :| 0 <= i < |b| && e in b[i];
        assert e in c[i + |a|];
      }
    }
  }

  lemma SliceApart(files: seq<File>, a: nat, b: nat)
    requires SortedApart(files) && a <= b <= |files|
    ensures SortedApart(files[a..b])
  {
  }

  lemma Contribution0(v: Version, next: nat, level: nat, in0: seq<File>)
    requires VersionOk(v, next) && level < NUM_LEVELS && Startable(v, level, in0)
    ensures Contributes(if level == 0 then EachFile(in0) else [Concat(in0)], in0)
  {
    if level == 0 {
      ZeroPairwiseDistinct(v, next, in0);
      EachContributes(in0);
    } else {
      LevelSortedApart(v, next, level);
      var a: nat, b: nat :| IsSlice(v.files[level], in0, a, b);
      SliceApart(v.files[level], a, b);
      ConcatContributes(in0);
    }
  }

  lemma Contribution1(v: Version, next: nat, level: nat, lo: Option<UserKey>, hi: Option<UserKey>, in1: seq<File>)
    requires VersionOk(v, next) && 1 <= level < NUM_LEVELS && in1 == Meeting(v.files[level], lo, hi)
    ensures Contributes(if in1 == [] then [] else [Concat(in1)], in1)
  {
    if in1 != [] {
      LevelSortedApart(v, next, level);
      var a, b := MeetingIsSlice(v.files[level], lo, hi);
      SliceApart(v.files[level], a, b);
      ConcatContributes(in1);
    }
  }

  /** The input iterator yields every entry of the input files, sorted. */
  lemma InputMerges(v: Version, next: nat, level: nat, in0: seq<File>, in1: seq<File>)
    requires VersionOk(v, next) && Proper(v, level, in0, in1)
    ensures Merges(MergeAll(Children(level, in0, in1)), FileSet(in0) + FileSet(in1))
  {
    var lo, hi := Some(SmallestKey(in0).user), Some(LargestKey(in0).user);
    Contribution0(v, next, level, in0);
    Contribution1(v, next, level + 1, lo, hi, in1);
    var a := if level == 0 then EachFile(in0) else [Concat(in0)];
    var b := if in1 == [] then [] else [Concat(in1)];
    ClosedMembers(v, level, in0);
    MeetingMembers(v.files[level + 1], lo, hi);
    forall x, y | x in Union(a) && y in Union(b)
      ensures x.key != y.key
    {
      var f :| f in FileSet(in0) && x in f.entries;
      var g :| g in FileSet(in1) && y in g.entries;
      LevelsNoSharedKey(v, next, level, x, y, f, g);
    }
    JoinContributions(a, b, in0, in1);
  }

  lemma JoinContributions(a: seq<seq<Entry>>, b: seq<seq<Entry>>, in0: seq<File>, in1: seq<File>)
    requires Contributes(a, in0) && Contributes(b, in1)
    requires forall x, y :: x in Union(a) && y in Union(b) ==> x.key != y.key
    ensures Merges(MergeAll(a + b), FileSet(in0) + FileSet(in1))
  {
    MergeableAppend(a, b);
    MergeAllSorted(a + b);
    EntriesUnion(FileSet(in0), FileSet(in1));
  }

  lemma EntriesUnion(a: set<File>, b: set<File>)
    ensures EntriesOf(a + b) == EntriesOf(a) + EntriesOf(b)
  {
  }

  // ---- The outputs -------------------------------------------------------------------------------------------

  lemma {:induction false} SurvivorsSorted(input: seq<Entry>, n: nat, smallest: nat, deeper: set<File>)
    requires Sorted(input) && n <= |input|
    ensures Sorted(Survivors(input, n, smallest, deeper))
    ensures forall e :: e in Survivors(input, n, smallest, deeper) ==> exists k :: 0 <= k < n && input[k] == e
  {
    hide Dropped;
    if n > 0 {
      SurvivorsSorted(input, n - 1, smallest, deeper);
      var before := Survivors(input, n - 1, smallest, deeper);
      forall x | x in before ensures Less(x.key, input[n - 1].key) {
        var k :| 0 <= k < n - 1 && input[k] == x;
      }
      SortedAppend(before, [input[n - 1]]);
    }
  }

  lemma SortedParts(a: seq<Entry>, b: seq<Entry>)
    requires Sorted(a + b)
    ensures Sorted(a) && Sorted(b) && forall x, y :: x in a && y in b ==> Less(x.key, y.key)
  {
    var c := a + b;
    forall x, y | x in a && y in b ensures Less(x.key, y.key) {
      var i :| 0 <= i < |a| && a[i] == x;
      var j :| 0 <= j < |b| && b[j] == y;
      assert c[i] == x && c[|a| + j] == y;
    }
    assert forall i :: 0 <= i < |a| ==> c[i] == a[i];
    assert forall i :: 0 <= i < |b| ==> c[|a| + i] == b[i];
  }

  /** Cutting a sorted list into tables gives well-formed files in order, apart from each other. */
  lemma {:induction false} CutIsApart(outs: seq<File>)
    requires Sorted(Concat(outs)) && (forall f :: f in outs ==> Tabled(f))
    requires forall e :: e in Concat(outs) ==> e.key.seqno <= MAX_SEQUENCE
    ensures SortedApart(outs)
  {
    if outs != [] {
      var first, rest := outs[0], outs[1..];
      assert outs == [first] + rest && first in outs;
      SortedParts(first.entries, Concat(rest));
      CutIsApart(rest);
      ConcatMembers(rest);
      forall g | g in rest
        ensures Less(first.largest, g.smallest)
      {
        assert g in outs && Tabled(g) && g in (set f | f in rest);
        assert g.entries[0] in g.entries;
        assert g.entries[0] in EntriesOf(set f | f in rest);
        assert g.entries[0] in ToSet(Concat(rest));
      }
      assert FileOk(first);
      forall i, j | 0 <= i < j < |outs| ensures Less(outs[i].largest, outs[j].smallest) {
        if i == 0 {
          assert outs[j] == rest[j - 1] && rest[j - 1] in rest;
        } else {
          assert outs[i] == rest[i - 1] && outs[j] == rest[j - 1];
        }
      }
    }
  }

  lemma ApartOutputs(outs: seq<File>, first: nat, o: File, p: File)
    requires SortedApart(outs) && NumberedFrom(outs, first) && o in outs && p in outs && o != p
    ensures o.number != p.number && Apart(o, p)
  {
    var i :| 0 <= i < |outs| && outs[i] == o;
    var j :| 0 <= j < |outs| && outs[j] == p;
    assert i < j || j < i;
  }

  lemma NumberRange(outs: seq<File>, first: nat, o: File)
    requires NumberedFrom(outs, first) && o in outs
    ensures first <= o.number < first + |outs|
  {
  }

  lemma EntryBounded(fs: set<File>, e: Entry)
    requires (forall f :: f in fs ==> FileOk(f)) && e in EntriesOf(fs)
    ensures e.key.seqno <= MAX_SEQUENCE
  {
  }

  lemma WorkEntries(ls: Levels, level: nat, ins: set<File>, input: seq<Entry>, smallest: nat, outs: seq<File>)
    requires Merges(input, ins) && forall f :: f in ins ==> FileOk(f)
    requires Concat(outs) == Survivors(input, |input|, smallest, Deeper(ls, level))
    ensures Sorted(Concat(outs)) && EntriesOf(FileSet(outs)) == ToSet(Concat(outs))
    ensures EntriesOf(FileSet(outs)) <= EntriesOf(ins)
    ensures forall e :: e in Concat(outs) ==> e.key.seqno <= MAX_SEQUENCE
  {
    hide Dropped, Deeper, Survivors, FileOk, EntriesOf;
    SurvivorsSorted(input, |input|, smallest, Deeper(ls, level));
    ConcatMembers(outs);
    forall e | e in Concat(outs)
      ensures e in EntriesOf(ins) && e.key.seqno <= MAX_SEQUENCE
    {
      var k :| 0 <= k < |input| && input[k] == e;
      assert e in ToSet(input);
      EntryBounded(ins, e);
    }
  }

  lemma ApartOutputsFit(outs: seq<File>, ins: set<File>, first: nat)
    requires SortedApart(outs) && NumberedFrom(outs, first) && EntriesOf(FileSet(outs)) <= EntriesOf(ins)
    ensures OutputsFit(FileSet(outs), ins, first, first + |outs|)
  {
    hide FileOk, Apart, NumberedFrom, SortedApart, EntriesOf;
    SortedApartOk(outs);
    forall o | o in FileSet(outs) ensures first <= o.number < first + |outs| {
      NumberRange(outs, first, o);
    }
    forall o, p | o in FileSet(outs) && p in FileSet(outs) && o != p ensures o.number != p.number && Apart(o, p) {
      ApartOutputs(outs, first, o, p);
    }
  }

  /** What DoCompactionWork leaves is what the state machine calls the outputs of the compaction. */
  lemma WorkFits(ls: Levels, level: nat, in0: set<File>, in1: set<File>, input: seq<Entry>, smallest: nat,
                 outs: seq<File>, first: nat)
    requires Merges(input, in0 + in1) && forall f :: f in in0 + in1 ==> FileOk(f)
    requires Concat(outs) == Survivors(input, |input|, smallest, Deeper(ls, level))
    requires (forall f :: f in outs ==> Tabled(f)) && NumberedFrom(outs, first)
    ensures Writes(ls, level, in0, in1, input, smallest, FileSet(outs))
    ensures OutputsFit(FileSet(outs), in0 + in1, first, first + |outs|)
  {
    hide Dropped, Deeper, Survivors, FileOk, NumberedFrom, SortedApart, EntriesOf, OutputsFit, Sorted, Tabled;
    WorkEntries(ls, level, in0 + in1, input, smallest, outs);
    CutIsApart(outs);
    ApartOutputsFit(outs, in0 + in1, first);
  }

  lemma SortedApartOk(outs: seq<File>)
    requires SortedApart(outs)
    ensures forall f :: f in outs ==> FileOk(f)
  {
  }
}
