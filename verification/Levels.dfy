/** The files of a version as one set per level, the invariant every version keeps, and the two shapes of edit
    (a flush and a compaction) that keep it. */
module Levels {
  import opened InternalKeys
  import opened Visibility

  const NUM_LEVELS: nat := 7

  /** A table file: its metadata and the entries its table holds. */
  datatype File = File(number: nat, size: nat, smallest: IKey, largest: IKey, entries: seq<Entry>)

  ghost predicate FileOk(f: File) {
    && f.entries != [] && Sorted(f.entries)
    && f.smallest == f.entries[0].key && f.largest == f.entries[|f.entries| - 1].key
    && forall e :: e in f.entries ==> e.key.seqno <= MAX_SEQUENCE
  }

  lemma FileBounds(f: File, e: Entry)
    requires FileOk(f) && e in f.entries
    ensures AtMost(f.smallest, e.key) && AtMost(e.key, f.largest)
    ensures f.smallest.user <= e.key.user <= f.largest.user
  {
  }

  lemma FileSpan(f: File)
    requires FileOk(f)
    ensures AtMost(f.smallest, f.largest) && f.smallest.user <= f.largest.user
  {
    FileBounds(f, f.entries[0]);
  }

  type Levels = ls: seq<set<File>> | |ls| == NUM_LEVELS witness seq(NUM_LEVELS, _ => {})

  /** Whatever user key f and g share, f holds only newer entries of it. */
  ghost predicate Above(f: File, g: File) {
    forall x, y :: x in f.entries && y in g.entries && x.key.user == y.key.user ==> x.key.seqno > y.key.seqno
  }

  ghost predicate Apart(f: File, g: File) {
    Less(f.largest, g.smallest) || Less(g.largest, f.smallest)
  }

  ghost predicate FilesOk(ls: Levels) {
    forall i, f :: 0 <= i < NUM_LEVELS && f in ls[i] ==> FileOk(f)
  }

  /** Below level 0 the files of one level do not meet. */
  ghost predicate Disjoint(ls: Levels) {
    forall i, f, g :: 1 <= i < NUM_LEVELS && f in ls[i] && g in ls[i] && f != g ==> Apart(f, g)
  }

  /** Shallower levels hold only newer entries of a user key. */
  ghost predicate Recency(ls: Levels) {
    forall i, j, f, g :: 0 <= i < j < NUM_LEVELS && f in ls[i] && g in ls[j] ==> Above(f, g)
  }

  /** So do the level-0 files with higher numbers. */
  ghost predicate ZeroRecency(ls: Levels) {
    forall f, g :: f in ls[0] && g in ls[0] && f.number > g.number ==> Above(f, g)
  }

  ghost predicate Numbered(ls: Levels, next: nat) {
    && (forall i, f :: 0 <= i < NUM_LEVELS && f in ls[i] ==> f.number < next)
    && (forall i, f, g :: 0 <= i < NUM_LEVELS && f in ls[i] && g in ls[i] && f.number == g.number ==> f == g)
    && (forall i, j, f, g :: 0 <= i < j < NUM_LEVELS && f in ls[i] && g in ls[j] ==> f.number != g.number)
  }

  ghost function EntriesOf(fs: set<File>): set<Entry> {
    set f, e | f in fs && e in f.entries :: e
  }

  ghost function Contents(ls: Levels): set<Entry> {
    set i, f, e | 0 <= i < NUM_LEVELS && f in ls[i] && e in f.entries :: e
  }

  /** The invariant of every version. */
  ghost predicate LevelsOk(ls: Levels, next: nat) {
    && FilesOk(ls) && Disjoint(ls) && Recency(ls) && ZeroRecency(ls) && Numbered(ls, next)
    && Unique(Contents(ls))
  }

  // ---- Edits -------------------------------------------------------------------------------------------------

  /** The user range of f meets no file of fs. */
  ghost predicate NoOverlap(fs: set<File>, f: File) {
    forall g :: g in fs ==> f.largest.user < g.smallest.user || g.largest.user < f.smallest.user
  }

  /** What a memtable flush may do: f holds only newer entries than the version, and sits at a level such that
      it meets no user key range there or above (level 0 takes any f). */
  ghost predicate FlushFits(ls: Levels, next: nat, f: File, level: nat) {
    && level < NUM_LEVELS
    && FileOk(f) && f.number == next
    && (forall x, y :: x in f.entries && y in f.entries && x.key.user == y.key.user && x.key.seqno == y.key.seqno
          ==> x == y)
    && (forall i, g :: 0 <= i < NUM_LEVELS && g in ls[i] ==> Above(f, g))
    && (level > 0 ==> forall i :: 0 <= i <= level ==> NoOverlap(ls[i], f))
  }

  function Flushed(ls: Levels, f: File, level: nat): Levels
    requires level < NUM_LEVELS
  {
    ls[level := ls[level] + {f}]
  }

  lemma NoOverlapAbove(f: File, g: File)
    requires FileOk(f) && FileOk(g)
    requires f.largest.user < g.smallest.user || g.largest.user < f.smallest.user
    ensures Above(f, g) && Above(g, f) && Apart(f, g)
  {
    forall x, y | x in f.entries && y in g.entries
      ensures x.key.user != y.key.user
    {
      FileBounds(f, x);
      FileBounds(g, y);
    }
  }

  lemma FlushedContents(ls: Levels, f: File, level: nat)
    requires level < NUM_LEVELS
    ensures Contents(Flushed(ls, f, level)) == Contents(ls) + ToSet(f.entries)
  {
    var after := Flushed(ls, f, level);
    forall e | e in Contents(ls) + ToSet(f.entries)
      ensures e in Contents(after)
    {
      if e in f.entries {
        assert f in after[level];
      } else {
        var i, g :| 0 <= i < NUM_LEVELS && g in ls[i] && e in g.entries;
        assert g in after[i];
      }
    }
  }

  lemma FlushKeepsDisjoint(ls: Levels, next: nat, f: File, level: nat)
    requires LevelsOk(ls, next) && FlushFits(ls, next, f, level)
    ensures Disjoint(Flushed(ls, f, level))
  {
    forall g | g in ls[level] && level > 0
      ensures Apart(f, g) && Apart(g, f)
    {
      assert NoOverlap(ls[level], f);
      NoOverlapAbove(f, g);
    }
  }

  lemma FlushKeepsRecency(ls: Levels, next: nat, f: File, level: nat)
    requires LevelsOk(ls, next) && FlushFits(ls, next, f, level)
    ensures Recency(Flushed(ls, f, level)) && ZeroRecency(Flushed(ls, f, level))
  {
    var after := Flushed(ls, f, level);
    forall i, g | 0 <= i < level && g in ls[i]
      ensures Above(g, f)
    {
      assert NoOverlap(ls[i], f);
      NoOverlapAbove(f, g);
    }
    hide Above, FilesOk, Disjoint, Numbered, Contents, Unique, FileOk, NoOverlap;
    forall i, j, g, h | 0 <= i < j < NUM_LEVELS && g in after[i] && h in after[j]
      ensures Above(g, h)
    {
      if g in ls[i] && h in ls[j] {
      } else if h in ls[j] {
        assert g == f;
      } else {
        assert h == f;
      }
    }
  }

  lemma FlushKeepsUnique(ls: Levels, next: nat, f: File, level: nat)
    requires LevelsOk(ls, next) && FlushFits(ls, next, f, level)
    ensures Unique(Contents(Flushed(ls, f, level)))
  {
    FlushedContents(ls, f, level);
    forall x, y | x in f.entries && y in Contents(ls) && x.key.user == y.key.user
      ensures x.key.seqno > y.key.seqno
    {
      var i, g :| 0 <= i < NUM_LEVELS && g in ls[i] && y in g.entries;
      assert Above(f, g);
    }
  }

  /** Flushing keeps the invariant. */
  lemma FlushKeepsLevels(ls: Levels, next: nat, f: File, level: nat)
    requires LevelsOk(ls, next) && FlushFits(ls, next, f, level)
    ensures LevelsOk(Flushed(ls, f, level), next + 1)
  {
    FlushKeepsDisjoint(ls, next, f, level);
    FlushKeepsRecency(ls, next, f, level);
    FlushKeepsUnique(ls, next, f, level);
    hide Above, Apart, FileOk, Contents, Unique, NoOverlap, Recency, ZeroRecency, Disjoint;
  }

  /** What a compaction at level may replace: the inputs are closed so that whatever stays at level is newer,
      and whatever stays at level + 1 lies to one side of all inputs, clear of the user keys of in0. It may
      still share a user key with in1. */
  ghost predicate Selected(ls: Levels, level: nat, in0: set<File>, in1: set<File>) {
    && level + 1 < NUM_LEVELS
    && in0 <= ls[level] && in1 <= ls[level + 1] && in0 != {}
    && (forall g, f :: g in ls[level] - in0 && f in in0 ==> Above(g, f))
    && (forall g :: g in ls[level + 1] - in1 ==> OneSide(g, in0 + in1))
    && (forall f :: f in in0 ==> NoOverlap(ls[level + 1] - in1, f))
  }

  lemma SelectedFacts(ls: Levels, level: nat, in0: set<File>, in1: set<File>)
    requires Selected(ls, level, in0, in1)
    ensures level + 1 < NUM_LEVELS && in0 <= ls[level] && in1 <= ls[level + 1]
  {
  }

  /** g ends before every file of fs begins, or begins after every one ends. */
  ghost predicate OneSide(g: File, fs: set<File>) {
    || (forall f :: f in fs ==> Less(g.largest, f.smallest))
    || (forall f :: f in fs ==> Less(f.largest, g.smallest))
  }

  /** The outputs of a compaction: files with fresh numbers, apart from each other, holding input entries. */
  ghost predicate OutputsFit(outs: set<File>, ins: set<File>, next: nat, next': nat) {
    && (forall o :: o in outs ==> FileOk(o) && next <= o.number < next')
    && (forall o, p :: o in outs && p in outs && o != p ==> o.number != p.number && Apart(o, p))
    && EntriesOf(outs) <= EntriesOf(ins)
  }

  function Compacted(ls: Levels, level: nat, in0: set<File>, in1: set<File>, outs: set<File>): Levels
    requires level + 1 < NUM_LEVELS
  {
    ls[level := ls[level] - in0][level + 1 := ls[level + 1] - in1 + outs]
  }

  lemma AboveOutputs(f: File, o: File, ins: set<File>)
    requires forall h :: h in ins ==> Above(f, h)
    requires forall e :: e in o.entries ==> e in EntriesOf(ins)
    ensures Above(f, o)
  {
    forall x, y | x in f.entries && y in o.entries && x.key.user == y.key.user
      ensures x.key.seqno > y.key.seqno
    {
      var h :| h in ins && y in h.entries;
      assert Above(f, h);
    }
  }

  lemma OutputsAbove(o: File, g: File, ins: set<File>)
    requires forall h :: h in ins ==> Above(h, g)
    requires forall e :: e in o.entries ==> e in EntriesOf(ins)
    ensures Above(o, g)
  {
    forall x, y | x in o.entries && y in g.entries && x.key.user == y.key.user
      ensures x.key.seqno > y.key.seqno
    {
      var h :| h in ins && x in h.entries;
      assert Above(h, g);
    }
  }

  lemma OutputsApart(g: File, o: File, ins: set<File>)
    requires FileOk(g) && FileOk(o) && (forall h :: h in ins ==> FileOk(h)) && OneSide(g, ins)
    requires forall e :: e in o.entries ==> e in EntriesOf(ins)
    ensures Apart(g, o)
  {
    var first, last := o.entries[0], o.entries[|o.entries| - 1];
    assert first in EntriesOf(ins) && last in EntriesOf(ins);
    var h :| h in ins && first in h.entries;
    var k :| k in ins && last in k.entries;
    FileBounds(h, first);
    FileBounds(k, last);
  }

  lemma CompactKeepsFiles(ls: Levels, next: nat, level: nat, in0: set<File>, in1: set<File>, outs: set<File>, next': nat)
    requires LevelsOk(ls, next) && Selected(ls, level, in0, in1)
    requires OutputsFit(outs, in0 + in1, next, next') && next <= next'
    ensures FilesOk(Compacted(ls, level, in0, in1, outs)) && Numbered(Compacted(ls, level, in0, in1, outs), next')
  {
    hide Above, Disjoint, Recency, ZeroRecency, Contents, Unique, FileOk, OneSide, NoOverlap, Apart, EntriesOf;
  }

  lemma CompactKeepsDisjoint(ls: Levels, next: nat, level: nat, in0: set<File>, in1: set<File>, outs: set<File>, next': nat)
    requires LevelsOk(ls, next) && Selected(ls, level, in0, in1)
    requires OutputsFit(outs, in0 + in1, next, next')
    ensures Disjoint(Compacted(ls, level, in0, in1, outs))
  {
    forall g, o | g in ls[level + 1] - in1 && o in outs
      ensures Apart(g, o) && Apart(o, g)
    {
      OutputsApart(g, o, in0 + in1);
    }
    hide Above, Recency, ZeroRecency, Numbered, Contents, Unique, EntriesOf, OneSide, NoOverlap, Apart, FileOk;
  }

  lemma CompactKeepsRecency(ls: Levels, next: nat, level: nat, in0: set<File>, in1: set<File>, outs: set<File>, next': nat)
    requires LevelsOk(ls, next) && Selected(ls, level, in0, in1)
    requires OutputsFit(outs, in0 + in1, next, next')
    ensures Recency(Compacted(ls, level, in0, in1, outs))
  {
    var after := Compacted(ls, level, in0, in1, outs);
    forall i, j, f, g | 0 <= i < j < NUM_LEVELS && f in after[i] && g in after[j]
      ensures Above(f, g)
    {
      if j == level + 1 && g in outs {
        forall h | h in in0 + in1 ensures Above(f, h) {
          assert f in ls[i];
        }
        AboveOutputs(f, g, in0 + in1);
      } else if i == level + 1 && f in outs {
        forall h | h in in0 + in1 ensures Above(h, g) {
          assert g in ls[j];
        }
        OutputsAbove(f, g, in0 + in1);
      }
    }
  }

  lemma CompactShrinksContents(ls: Levels, level: nat, in0: set<File>, in1: set<File>, outs: set<File>)
    requires level + 1 < NUM_LEVELS && in0 <= ls[level] && in1 <= ls[level + 1]
    requires EntriesOf(outs) <= EntriesOf(in0 + in1)
    ensures Contents(Compacted(ls, level, in0, in1, outs)) <= Contents(ls)
  {
    var after := Compacted(ls, level, in0, in1, outs);
    forall e | e in Contents(after)
      ensures e in Contents(ls)
    {
      var i, f :| 0 <= i < NUM_LEVELS && f in after[i] && e in f.entries;
      if f in outs {
        assert e in EntriesOf(outs);
        var h :| h in in0 + in1 && e in h.entries;
        assert h in ls[level] || h in ls[level + 1];
      } else {
        assert f in ls[i];
      }
    }
  }

  /** A compaction keeps the invariant, with no hypothesis on the boundary of its level + 1 inputs. */
  lemma CompactKeepsLevels(ls: Levels, next: nat, level: nat, in0: set<File>, in1: set<File>, outs: set<File>, next': nat)
    requires LevelsOk(ls, next) && Selected(ls, level, in0, in1)
    requires OutputsFit(outs, in0 + in1, next, next') && next <= next'
    ensures LevelsOk(Compacted(ls, level, in0, in1, outs), next')
  {
    CompactKeepsFiles(ls, next, level, in0, in1, outs, next');
    CompactKeepsDisjoint(ls, next, level, in0, in1, outs, next');
    CompactKeepsRecency(ls, next, level, in0, in1, outs, next');
    CompactShrinksContents(ls, level, in0, in1, outs);
    hide FilesOk, Disjoint, Recency, Numbered, Contents, Selected, OutputsFit, Above;
  }

  lemma MoveKeepsContents(ls: Levels, level: nat, f: File)
    requires level + 1 < NUM_LEVELS && f in ls[level]
    ensures Contents(Compacted(ls, level, {f}, {}, {f})) == Contents(ls)
  {
    var after := Compacted(ls, level, {f}, {}, {f});
    CompactShrinksContents(ls, level, {f}, {}, {f});
    forall e | e in Contents(ls)
      ensures e in Contents(after)
    {
      var i, g :| 0 <= i < NUM_LEVELS && g in ls[i] && e in g.entries;
      assert g in after[i] || g in after[level + 1];
    }
  }

  lemma MoveKeepsRecency(ls: Levels, next: nat, level: nat, f: File)
    requires LevelsOk(ls, next) && Selected(ls, level, {f}, {})
    ensures Recency(Compacted(ls, level, {f}, {}, {f}))
  {
    var after := Compacted(ls, level, {f}, {}, {f});
    assert f in ls[level];
    hide Above, Disjoint, FilesOk, Numbered, Contents, Unique, FileOk, OneSide;
    forall i, j, g, h | 0 <= i < j < NUM_LEVELS && g in after[i] && h in after[j]
      ensures Above(g, h)
    {
      if j == level + 1 && h == f {
        assert i < level || g in ls[level] - {f};
      }
    }
  }

  lemma MoveKeepsFiles(ls: Levels, next: nat, level: nat, f: File)
    requires LevelsOk(ls, next) && Selected(ls, level, {f}, {})
    ensures FilesOk(Compacted(ls, level, {f}, {}, {f})) && Numbered(Compacted(ls, level, {f}, {}, {f}), next)
  {
    assert f in ls[level];
    hide Above, Disjoint, Recency, ZeroRecency, Contents, Unique, FileOk, OneSide, NoOverlap;
  }

  lemma MoveKeepsDisjoint(ls: Levels, next: nat, level: nat, f: File)
    requires LevelsOk(ls, next) && Selected(ls, level, {f}, {})
    ensures Disjoint(Compacted(ls, level, {f}, {}, {f}))
  {
    assert f in ls[level];
    forall g | g in ls[level + 1]
      ensures Apart(g, f) && Apart(f, g)
    {
      assert OneSide(g, {f} + {});
    }
    hide Above, Recency, ZeroRecency, Numbered, Contents, Unique, OneSide, NoOverlap, Apart, FileOk;
  }

  /** A trivial move (one input, nothing to merge with) keeps it too, and with it every entry. */
  lemma MoveKeepsLevels(ls: Levels, next: nat, level: nat, f: File)
    requires LevelsOk(ls, next) && Selected(ls, level, {f}, {})
    ensures LevelsOk(Compacted(ls, level, {f}, {}, {f}), next)
    ensures Contents(Compacted(ls, level, {f}, {}, {f})) == Contents(ls)
  {
    assert f in ls[level];
    MoveKeepsFiles(ls, next, level, f);
    MoveKeepsDisjoint(ls, next, level, f);
    MoveKeepsRecency(ls, next, level, f);
    MoveKeepsContents(ls, level, f);
    hide FilesOk, Disjoint, Recency, Numbered, Contents, Selected, Above;
  }
}
