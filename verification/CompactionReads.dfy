/** Compaction against reads: which snapshot reads a compaction changes, exactly. */
module CompactionReads {
  import opened InternalKeys
  import opened Visibility
  import opened Levels
  import opened Dropping

  /** The merged input of a compaction: every entry of the input files, in key order. */
  ghost predicate Merges(input: seq<Entry>, ins: set<File>) {
    Sorted(input) && ToSet(input) == EntriesOf(ins)
  }

  /** outs are what DoCompactionWork writes for these inputs. */
  ghost predicate Writes(ls: Levels, level: nat, in0: set<File>, in1: set<File>, input: seq<Entry>,
                         smallest: nat, outs: set<File>) {
    && Merges(input, in0 + in1)
    && EntriesOf(outs) == ToSet(Survivors(input, |input|, smallest, Deeper(ls, level)))
  }

  /** What goes wrong when it does: at the smallest snapshot u reads as deleted by a tombstone among the inputs
      that no deeper file keeps, while a level + 1 file left out of the inputs still holds a value of u. */
  ghost predicate Resurrects(ls: Levels, level: nat, in0: set<File>, in1: set<File>, smallest: nat, u: UserKey)
    requires level + 1 < NUM_LEVELS
  {
    exists t :: Newest(Contents(ls), u, smallest, t) && t in EntriesOf(in0 + in1) && t.key.kind.Deletion?
                && !Spanned(Deeper(ls, level), u)
                && Read(EntriesOf(ls[level + 1] - in1), u, smallest) != None
  }

  lemma AboveShareNothing(f: File, g: File, e: Entry)
    requires (Above(f, g) || Above(g, f)) && e in f.entries
    ensures e !in g.entries
  {
  }

  lemma ApartShareNothing(f: File, g: File, e: Entry)
    requires FileOk(f) && FileOk(g) && Apart(f, g) && e in f.entries
    ensures e !in g.entries
  {
    FileBounds(f, e);
    if e in g.entries {
      FileBounds(g, e);
    }
  }

  /** Every entry lives in one file of one level. */
  lemma OneHome(ls: Levels, next: nat, i: nat, f: File, j: nat, g: File, e: Entry)
    requires LevelsOk(ls, next) && i < NUM_LEVELS && j < NUM_LEVELS
    requires f in ls[i] && g in ls[j] && e in f.entries && (i != j || f != g)
    ensures e !in g.entries
  {
    if i != j || i == 0 {
      AboveShareNothing(f, g, e);
    } else {
      ApartShareNothing(f, g, e);
    }
  }

  lemma StaysOutside(ls: Levels, next: nat, level: nat, in0: set<File>, in1: set<File>, i: nat, f: File, e: Entry)
    requires LevelsOk(ls, next) && Selected(ls, level, in0, in1)
    requires i < NUM_LEVELS && f in ls[i] && e in f.entries
    ensures e in EntriesOf(in0 + in1) <==> (i == level && f in in0) || (i == level + 1 && f in in1)
  {
    if e in EntriesOf(in0 + in1) {
      var h :| h in in0 + in1 && e in h.entries;
      var j := if h in in0 then level else level + 1;
      if i != j || f != h {
        OneHome(ls, next, i, f, j, h, e);
      }
    }
  }

  lemma CompactedContents(ls: Levels, next: nat, level: nat, in0: set<File>, in1: set<File>, outs: set<File>)
    requires LevelsOk(ls, next) && Selected(ls, level, in0, in1)
    ensures Contents(Compacted(ls, level, in0, in1, outs)) == Contents(ls) - EntriesOf(in0 + in1) + EntriesOf(outs)
  {
    var after := Compacted(ls, level, in0, in1, outs);
    forall e | e in Contents(after)
      ensures e in Contents(ls) - EntriesOf(in0 + in1) + EntriesOf(outs)
    {
      var i, f :| 0 <= i < NUM_LEVELS && f in after[i] && e in f.entries;
      if i != level + 1 || f !in outs {
        StaysOutside(ls, next, level, in0, in1, i, f, e);
      }
    }
    forall e | e in Contents(ls) - EntriesOf(in0 + in1)
      ensures e in Contents(after)
    {
      var i, f :| 0 <= i < NUM_LEVELS && f in ls[i] && e in f.entries;
      StaysOutside(ls, next, level, in0, in1, i, f, e);
      assert f in after[i];
    }
    forall e | e in EntriesOf(outs)
      ensures e in Contents(after)
    {
      var f :| f in outs && e in f.entries;
      assert f in after[level + 1];
    }
  }

  lemma DeeperSpans(ls: Levels, level: nat, i: nat, f: File, x: Entry)
    requires level + 2 <= i < NUM_LEVELS && f in ls[i] && FileOk(f) && x in f.entries
    ensures Spanned(Deeper(ls, level), x.key.user)
  {
    FileBounds(f, x);
    assert f in Deeper(ls, level);
  }

  /** What stays at the input level or above holds only newer entries than the inputs. */
  lemma ShallowerNewer(ls: Levels, next: nat, level: nat, in0: set<File>, in1: set<File>, i: nat, f: File, x: Entry,
                       t: Entry)
    requires LevelsOk(ls, next) && Selected(ls, level, in0, in1)
    requires i <= level && f in ls[i] && (i == level ==> f !in in0) && x in f.entries
    requires t in EntriesOf(in0 + in1) && t.key.user == x.key.user
    ensures x.key.seqno > t.key.seqno
  {
    var h :| h in in0 + in1 && t in h.entries;
    assert i == level && h in in0 ==> f in ls[level] - in0;
    assert Above(f, h);
  }

  /** Behind the tombstone t, only level + 1 files left out of the inputs can hold older entries of its key. */
  lemma OlderOnlyBeside(ls: Levels, next: nat, level: nat, in0: set<File>, in1: set<File>, smallest: nat,
                        u: UserKey, t: Entry, x: Entry)
    requires LevelsOk(ls, next) && Selected(ls, level, in0, in1)
    requires Newest(Contents(ls), u, smallest, t) && t in EntriesOf(in0 + in1) && !Spanned(Deeper(ls, level), u)
    requires x in Contents(ls) - EntriesOf(in0 + in1) && x.key.user == u && x.key.seqno <= smallest
    ensures x in EntriesOf(ls[level + 1] - in1)
  {
    var i, f :| 0 <= i < NUM_LEVELS && f in ls[i] && x in f.entries;
    StaysOutside(ls, next, level, in0, in1, i, f, x);
    if i <= level {
      ShallowerNewer(ls, next, level, in0, in1, i, f, x, t);
    } else if i >= level + 2 {
      DeeperSpans(ls, level, i, f, x);
    }
  }

  lemma SameBesides(ls: Levels, next: nat, level: nat, in0: set<File>, in1: set<File>, smallest: nat,
                    u: UserKey, t: Entry)
    requires LevelsOk(ls, next) && Selected(ls, level, in0, in1)
    requires Newest(Contents(ls), u, smallest, t) && t in EntriesOf(in0 + in1) && !Spanned(Deeper(ls, level), u)
    ensures Read(Contents(ls) - EntriesOf(in0 + in1), u, smallest) == Read(EntriesOf(ls[level + 1] - in1), u, smallest)
  {
    var rest, beside := Contents(ls) - EntriesOf(in0 + in1), EntriesOf(ls[level + 1] - in1);
    forall x | x in beside
      ensures x in rest
    {
      var f :| f in ls[level + 1] - in1 && x in f.entries;
      StaysOutside(ls, next, level, in0, in1, level + 1, f, x);
    }
    forall x: Entry | x in rest && x.key.user == u && x.key.seqno <= smallest
      ensures x in beside
    {
      OlderOnlyBeside(ls, next, level, in0, in1, smallest, u, t, x);
    }
    ReadsAgree(rest, beside, u, smallest);
  }

  ghost predicate PreservesReads(before: Levels, after: Levels, smallest: nat) {
    forall u, s :: smallest <= s ==> Read(Contents(after), u, s) == Read(Contents(before), u, s)
  }

  lemma CompactedIsRemaining(ls: Levels, next: nat, level: nat, in0: set<File>, in1: set<File>, input: seq<Entry>,
                             smallest: nat, outs: set<File>)
    requires LevelsOk(ls, next) && Selected(ls, level, in0, in1)
    requires Writes(ls, level, in0, in1, input, smallest, outs)
    ensures Contents(Compacted(ls, level, in0, in1, outs))
            == Remaining(Contents(ls), input, smallest, Deeper(ls, level))
    ensures ToSet(input) <= Contents(ls)
  {
    CompactedContents(ls, next, level, in0, in1, outs);
    forall e | e in ToSet(input) ensures e in Contents(ls) {
      var f :| f in in0 + in1 && e in f.entries;
      assert f in ls[level] || f in ls[level + 1];
    }
  }

  lemma NoResurrectionPreserves(ls: Levels, next: nat, level: nat, in0: set<File>, in1: set<File>,
                                input: seq<Entry>, smallest: nat, outs: set<File>, u: UserKey, s: nat)
    requires LevelsOk(ls, next) && Selected(ls, level, in0, in1) && smallest < MAX_SEQUENCE
    requires Writes(ls, level, in0, in1, input, smallest, outs)
    requires !Resurrects(ls, level, in0, in1, smallest, u) && smallest <= s
    ensures Read(Contents(Compacted(ls, level, in0, in1, outs)), u, s) == Read(Contents(ls), u, s)
  {
    var es, deeper := Contents(ls), Deeper(ls, level);
    CompactedIsRemaining(ls, next, level, in0, in1, input, smallest, outs);
    forall t | DropsTombstone(es, input, smallest, deeper, u, t)
      ensures Read(es - ToSet(input), u, smallest) == None
    {
      assert t in ToSet(input);
      SameBesides(ls, next, level, in0, in1, smallest, u, t);
    }
    hide Contents, Deeper, EntriesOf, Survivors, Disjoint, Recency, ZeroRecency, Numbered, FilesOk, Selected;
    DroppingPreserves(es, input, smallest, deeper, u, s);
  }

  lemma ResurrectionChanges(ls: Levels, next: nat, level: nat, in0: set<File>, in1: set<File>, input: seq<Entry>,
                            smallest: nat, outs: set<File>, u: UserKey)
    requires LevelsOk(ls, next) && Selected(ls, level, in0, in1) && smallest < MAX_SEQUENCE
    requires Writes(ls, level, in0, in1, input, smallest, outs)
    requires Resurrects(ls, level, in0, in1, smallest, u)
    ensures Read(Contents(ls), u, smallest) == None
    ensures Read(Contents(Compacted(ls, level, in0, in1, outs)), u, smallest) != None
  {
    var es, deeper := Contents(ls), Deeper(ls, level);
    CompactedIsRemaining(ls, next, level, in0, in1, input, smallest, outs);
    var t :| Newest(es, u, smallest, t) && t in EntriesOf(in0 + in1) && t.key.kind.Deletion?
             && !Spanned(deeper, u) && Read(EntriesOf(ls[level + 1] - in1), u, smallest) != None;
    assert t in ToSet(input);
    SameBesides(ls, next, level, in0, in1, smallest, u, t);
    DroppingReveals(es, input, smallest, deeper, u, t);
    ReadIsNewest(es, u, smallest, t);
  }

  /** A compaction preserves every read at or above the smallest snapshot exactly when it resurrects no key. */
  lemma PreservesReadsIff(ls: Levels, next: nat, level: nat, in0: set<File>, in1: set<File>, input: seq<Entry>,
                          smallest: nat, outs: set<File>)
    requires LevelsOk(ls, next) && Selected(ls, level, in0, in1) && smallest < MAX_SEQUENCE
    requires Writes(ls, level, in0, in1, input, smallest, outs)
    ensures PreservesReads(ls, Compacted(ls, level, in0, in1, outs), smallest)
            <==> forall u :: !Resurrects(ls, level, in0, in1, smallest, u)
  {
    assert level + 1 < NUM_LEVELS;
    hide Resurrects, Read, Contents, LevelsOk, Selected, Writes;
    if forall u :: !Resurrects(ls, level, in0, in1, smallest, u) {
      forall u, s | smallest <= s
        ensures Read(Contents(Compacted(ls, level, in0, in1, outs)), u, s) == Read(Contents(ls), u, s)
      {
        NoResurrectionPreserves(ls, next, level, in0, in1, input, smallest, outs, u, s);
      }
    } else {
      var u :| Resurrects(ls, level, in0, in1, smallest, u);
      ResurrectionChanges(ls, next, level, in0, in1, input, smallest, outs, u);
    }
  }

  /** No level + 1 file left out of the inputs begins with the user key on which an input of that level ends. */
  ghost predicate BoundaryClosed(ls: Levels, level: nat, in1: set<File>)
    requires level + 1 < NUM_LEVELS
  {
    forall f, g :: f in in1 && g in ls[level + 1] - in1 && Less(f.largest, g.smallest)
                   ==> f.largest.user != g.smallest.user
  }

  lemma BesideMeetsNoLevelInput(rest: set<File>, g: File, h: File, x: Entry, t: Entry)
    requires g in rest && FileOk(g) && FileOk(h) && NoOverlap(rest, h) && x in g.entries && t in h.entries
    ensures x.key.user != t.key.user
  {
    FileBounds(h, t);
    FileBounds(g, x);
  }

  lemma EarlierFileIsNewer(g: File, h: File, x: Entry, t: Entry)
    requires FileOk(g) && FileOk(h) && Apart(g, h) && x in g.entries && t in h.entries
    requires Less(h.largest, g.smallest) ==> h.largest.user != g.smallest.user
    requires x.key.user == t.key.user
    ensures x.key.seqno >= t.key.seqno
  {
    FileBounds(h, t);
    FileBounds(g, x);
  }

  lemma ClosedBesideIsNewer(ls: Levels, next: nat, level: nat, in0: set<File>, in1: set<File>, x: Entry, t: Entry)
    requires LevelsOk(ls, next) && Selected(ls, level, in0, in1) && BoundaryClosed(ls, level, in1)
    requires t in EntriesOf(in0 + in1) && x in EntriesOf(ls[level + 1] - in1) && x.key.user == t.key.user
    ensures x.key.seqno > t.key.seqno
  {
    var h :| h in in0 + in1 && t in h.entries;
    var g :| g in ls[level + 1] - in1 && x in g.entries;
    StaysOutside(ls, next, level, in0, in1, level + 1, g, x);
    assert x in Contents(ls) && t in Contents(ls) by {
      assert h in ls[level] || h in ls[level + 1];
    }
    if h in in0 {
      BesideMeetsNoLevelInput(ls[level + 1] - in1, g, h, x, t);
    } else {
      hide Above, Recency, ZeroRecency, Numbered, OneSide, NoOverlap;
      assert Apart(g, h);
      EarlierFileIsNewer(g, h, x, t);
    }
  }

  /** Closing the level + 1 inputs at their boundary, as the code does for the level inputs, would be enough. */
  lemma ClosedNeverResurrects(ls: Levels, next: nat, level: nat, in0: set<File>, in1: set<File>, smallest: nat,
                              u: UserKey)
    requires LevelsOk(ls, next) && Selected(ls, level, in0, in1) && BoundaryClosed(ls, level, in1)
    ensures !Resurrects(ls, level, in0, in1, smallest, u)
  {
    var beside := EntriesOf(ls[level + 1] - in1);
    forall t | Newest(Contents(ls), u, smallest, t) && t in EntriesOf(in0 + in1)
      ensures Read(beside, u, smallest) == None
    {
      forall x | x in beside && x.key.user == u
        ensures x.key.seqno > smallest
      {
        ClosedBesideIsNewer(ls, next, level, in0, in1, x, t);
        assert x in Contents(ls);
      }
      ReadNothing(beside, u, smallest);
    }
  }
}
