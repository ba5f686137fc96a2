/** Inputs without gaps: a compaction picked automatically covers every user key between its inputs, so nothing flushed
    meanwhile can come to lie among its outputs. */
module GapFree {
  import opened InternalKeys
  import opened Levels
  import opened Versions
  import opened Inputs
  import opened Picking
  import opened CompactionPicker
  import opened Dropping
  import opened CompactionReads
  import opened Runs
  import opened Interleavings

  /** Every user key between two of the files is spanned by one. */
  ghost predicate Gapless(fs: set<File>) {
    forall g, h, u :: g in fs && h in fs && g.largest.user < u < h.smallest.user ==> Spanned(fs, u)
  }

  ghost predicate Spans(fs: set<File>) {
    forall f :: f in fs ==> f.smallest.user <= f.largest.user
  }

  // ---- Why it matters --------------------------------------------------------------------------------------------

  lemma ToOneSide(fs: set<File>, f: File, o: File, low: File, high: File)
    requires Gapless(fs) && NoOverlap(fs, f) && f.smallest.user <= f.largest.user && low in fs && high in fs
    requires low.smallest.user <= o.smallest.user <= low.largest.user
    requires high.smallest.user <= o.largest.user <= high.largest.user
    ensures Apart(f, o)
  {
    NoneSpans(fs, f);
  }

  lemma NoneSpans(fs: set<File>, f: File)
    requires NoOverlap(fs, f) && f.smallest.user <= f.largest.user
    ensures !Spanned(fs, f.smallest.user)
  {
  }

  /** The outputs of inputs without gaps meet no file that met none of the inputs. */
  lemma GaplessClear(s: State, p: Pending, outs: set<File>)
    requires Inv(s) && PendingOk(s, p) && Built(p, outs) && Gapless(p.in0 + p.in1)
    ensures p.level + 1 < NUM_LEVELS && Clear(s.levels, p, outs)
  {
    PendingFacts(s, p);
    FilesThere(s.levels, s.next);
    var ins := p.in0 + p.in1;
    hide LevelsOk, Inv, Gapless, Selected, Grown, FlushesNewer, Unused, FileOk, NoOverlap, Apart, EntriesOf, Numbered;
    forall f, o | f in Flushes(s.levels, p.base, p.level + 1) && o in outs ensures Apart(f, o) {
      BesideInputs(s.levels, p, f);
      FileSpan(f);
      OutputHeld(p, outs, o);
      var low, high := OutputEnds(ins, o);
      ToOneSide(ins, f, o, low, high);
    }
  }

  lemma BesideInputs(now: Levels, p: Pending, f: File)
    requires p.level + 1 < NUM_LEVELS && FlushesBeside(now, p.base) && f in Flushes(now, p.base, p.level + 1)
    requires p.in0 <= p.base[p.level] && p.in1 <= p.base[p.level + 1]
    ensures NoOverlap(p.in0 + p.in1, f)
  {
    assert NoOverlap(p.base[p.level], f) && NoOverlap(p.base[p.level + 1], f);
  }

  /** The inputs an output begins and ends in. */
  lemma OutputEnds(ins: set<File>, o: File) returns (low: File, high: File)
    requires FileOk(o) && (forall f :: f in ins ==> FileOk(f)) && forall e :: e in o.entries ==> e in EntriesOf(ins)
    ensures low in ins && low.smallest.user <= o.smallest.user <= low.largest.user
    ensures high in ins && high.smallest.user <= o.largest.user <= high.largest.user
  {
    var first, last := o.entries[0], o.entries[|o.entries| - 1];
    assert first in EntriesOf(ins) && last in EntriesOf(ins);
    low :| low in ins && first in low.entries;
    high :| high in ins && last in high.entries;
    FileBounds(low, first);
    FileBounds(high, last);
  }

  // ---- How gaps are avoided ------------------------------------------------------------------------------------

  /** f meets the range from the first to the last user key of fs. */
  ghost predicate MeetsHull(fs: set<File>, f: File) {
    && (exists g :: g in fs && g.smallest.user <= f.largest.user)
    && (exists h :: h in fs && f.smallest.user <= h.largest.user)
  }

  lemma JoinHull(a: set<File>, b: set<File>)
    requires Gapless(a) && Spans(a) && Spans(b) && forall f :: f in b ==> MeetsHull(a, f)
    ensures Gapless(a + b)
  {
    var all := a + b;
    forall g, h, u | g in all && h in all && g.largest.user < u < h.smallest.user ensures Spanned(all, u) {
      var g', h' := g, h;
      if g !in a {
        g' :| g' in a && g'.smallest.user <= g.largest.user;
      }
      if h !in a {
        h' :| h' in a && h.smallest.user <= h'.largest.user;
      }
      if g'.largest.user >= u {
        assert g' in all && g'.smallest.user <= u <= g'.largest.user;
      } else if h'.smallest.user <= u {
        assert h' in all && h'.smallest.user <= u <= h'.largest.user;
      } else {
        assert Spanned(a, u);
        var k :| k in a && k.smallest.user <= u <= k.largest.user;
        assert k in all;
      }
    }
  }

  lemma SpanningMeets(files: seq<File>, fs: seq<File>)
    requires fs != []
    ensures forall f :: f in Spanning(files, fs) ==> f in files && MeetsHull(FileSet(fs), f)
  {
    MeetingMembers(files, Some(SmallestKey(fs).user), Some(LargestKey(fs).user));
    RangeCovers(fs);
    var g :| g in fs && g.smallest == SmallestKey(fs);
    var h :| h in fs && h.largest == LargestKey(fs);
    assert g in FileSet(fs) && h in FileSet(fs);
  }

  lemma SpansSet(files: seq<File>)
    requires SpansOk(files)
    ensures Spans(FileSet(files))
  {
  }

  /** Boundary files begin on the user key the chain has come to. */
  lemma {:induction false} ChainGapless(files: seq<File>, k: IKey, a: set<File>)
    requires SpansOk(files) && Gapless(a) && Spans(a) && exists f :: f in a && f.largest == k
    ensures Gapless(a + FileSet(BoundaryChain(files, k))) && forall f :: f in BoundaryChain(files, k) ==> f in files
    decreases |Beyond(files, k)|
  {
    hide Gapless;
    var b := Boundary(files, k);
    if b.None? {
      assert a + FileSet([]) == a;
    } else {
      var f :| f in a && f.largest == k;
      SpansSet(files);
      assert MeetsHull(a, b.value);
      JoinHull(a, {b.value});
      BeyondShrinks(files, k, b.value);
      ChainGapless(files, b.value.largest, a + {b.value});
      var rest := BoundaryChain(files, b.value.largest);
      assert a + {b.value} + FileSet(rest) == a + FileSet([b.value] + rest);
    }
  }

  lemma BoundaryGapless(files: seq<File>, fs: seq<File>, a: set<File>)
    requires SpansOk(files) && fs != [] && Gapless(a) && Spans(a) && FileSet(fs) <= a
    ensures Gapless(a + FileSet(WithBoundary(files, fs)))
    ensures forall f :: f in WithBoundary(files, fs) ==> f in files || f in fs
  {
    hide Gapless;
    RangeCovers(fs);
    var h :| h in fs && h.largest == LargestKey(fs);
    assert h in a;
    ChainGapless(files, LargestKey(fs), a);
    assert a + FileSet(BoundaryChain(files, LargestKey(fs))) == a + FileSet(WithBoundary(files, fs));
  }

  predicate Covers(f: File, u: UserKey) { f.smallest.user <= u <= f.largest.user }

  lemma EndsBefore(files: seq<File>, begin: UserKey, end: UserKey, lo: Option<UserKey>, hi: Option<UserKey>, u: UserKey)
    requires LeastClosed(files, Some(begin), Some(end), lo, hi) && u > end
    requires forall f :: f in files && Meets(f, lo, hi) ==> !Covers(f, u)
    ensures hi.Some? && hi.value < u
  {
    if hi.value >= u {
      assert Widens(lo, Some(u - 1), Some(begin), Some(end)) && ClosedRange(files, lo, Some(u - 1));
    }
  }

  lemma BeginsBehind(files: seq<File>, begin: UserKey, end: UserKey, lo: Option<UserKey>, hi: Option<UserKey>, u: UserKey)
    requires LeastClosed(files, Some(begin), Some(end), lo, hi) && u < begin
    requires forall f :: f in files && Meets(f, lo, hi) ==> !Covers(f, u)
    ensures lo.Some? && lo.value > u
  {
    if lo.value <= u {
      assert Widens(Some(u + 1), hi, Some(begin), Some(end)) && ClosedRange(files, Some(u + 1), hi);
    }
  }

  /** In the least closed range around a request a user key outside the request is covered, if files lie beyond it. */
  lemma BeyondCovered(files: seq<File>, begin: UserKey, end: UserKey, lo: Option<UserKey>, hi: Option<UserKey>, u: UserKey,
                      f: File)
    requires LeastClosed(files, Some(begin), Some(end), lo, hi) && f in Meeting(files, lo, hi)
    requires (u > end && f.smallest.user > u) || (u < begin && f.largest.user < u)
    ensures exists k :: k in Meeting(files, lo, hi) && Covers(k, u)
  {
    MeetingMembers(files, lo, hi);
    hide LeastClosed, Covers;
    if forall k :: k in files && Meets(k, lo, hi) ==> !Covers(k, u) {
      if u > end && f.smallest.user > u {
        EndsBefore(files, begin, end, lo, hi, u);
      } else {
        BeginsBehind(files, begin, end, lo, hi, u);
      }
    }
  }

  lemma InAll(fs: set<File>, all: set<File>, u: UserKey)
    requires Spanned(fs, u) && fs <= all
    ensures Spanned(all, u)
  {
  }

  lemma MeetingSpans(files: seq<File>, lo: Option<UserKey>, hi: Option<UserKey>, u: UserKey, all: set<File>)
    requires (exists k :: k in Meeting(files, lo, hi) && Covers(k, u)) && FileSet(Meeting(files, lo, hi)) <= all
    ensures Spanned(all, u)
  {
    var k :| k in Meeting(files, lo, hi) && Covers(k, u);
    assert k in FileSet(Meeting(files, lo, hi));
  }

  /** The least closed range around inputs without gaps has none either. */
  lemma LeastClosedGapless(files: seq<File>, lo: Option<UserKey>, hi: Option<UserKey>, a: set<File>, first: File, last: File)
    requires Gapless(a) && first in a && last in a
    requires LeastClosed(files, Some(first.smallest.user), Some(last.largest.user), lo, hi)
    ensures Gapless(a + FileSet(Meeting(files, lo, hi)))
  {
    hide LeastClosed, Spanned;
    var all := a + FileSet(Meeting(files, lo, hi));
    forall g, h, u | g in all && h in all && g.largest.user < u < h.smallest.user ensures Spanned(all, u) {
      if u > last.largest.user && h !in a {
        BeyondCovered(files, first.smallest.user, last.largest.user, lo, hi, u, h);
        MeetingSpans(files, lo, hi, u, all);
      } else if u < first.smallest.user && g !in a {
        BeyondCovered(files, first.smallest.user, last.largest.user, lo, hi, u, g);
        MeetingSpans(files, lo, hi, u, all);
      } else {
        InsideCovered(a, first, last, g, h, u);
        InAll(a, all, u);
      }
    }
  }

  lemma InsideCovered(a: set<File>, first: File, last: File, g: File, h: File, u: UserKey)
    requires Gapless(a) && first in a && last in a && g.largest.user < u < h.smallest.user
    requires u > last.largest.user ==> h in a
    requires u < first.smallest.user ==> g in a
    ensures Spanned(a, u)
  {
    if u > last.largest.user {
    } else if u < first.smallest.user {
    } else if Covers(first, u) || Covers(last, u) {
    } else {
      assert first.largest.user < u < last.smallest.user;
    }
  }

  // ---- What SetupOtherInputs makes of inputs without gaps ------------------------------------------------------

  lemma UnionOf(a: seq<File>, b: seq<File>)
    ensures FileSet(a + b) == FileSet(a) + FileSet(b)
  {
  }

  lemma EndsOf(fs: seq<File>) returns (first: File, last: File)
    requires fs != []
    ensures first in FileSet(fs) && first.smallest == SmallestKey(fs)
    ensures last in FileSet(fs) && last.largest == LargestKey(fs)
  {
    RangeCovers(fs);
    first :| first in fs && first.smallest == SmallestKey(fs);
    last :| last in fs && last.largest == LargestKey(fs);
  }

  lemma OverlappingGapless(files: seq<File>, level: nat, all: seq<File>, met: seq<File>)
    requires SpansOk(files) && all != [] && Gapless(FileSet(all)) && Spans(FileSet(all))
    requires Overlapping(files, level, Some(SmallestKey(all).user), Some(LargestKey(all).user), met)
    ensures Gapless(FileSet(all) + FileSet(met)) && forall f :: f in met ==> f in files
  {
    var lo, hi :| met == Meeting(files, lo, hi)
                  && if level > 0 then lo == Some(SmallestKey(all).user) && hi == Some(LargestKey(all).user)
                     else LeastClosed(files, Some(SmallestKey(all).user), Some(LargestKey(all).user), lo, hi);
    MeetingMembers(files, lo, hi);
    hide Gapless, LeastClosed, Meeting;
    if level > 0 {
      SpanningMeets(files, all);
      JoinHull(FileSet(all), FileSet(met));
    } else {
      var first, last := EndsOf(all);
      LeastClosedGapless(files, lo, hi, FileSet(all), first, last);
    }
  }

  lemma SetUpFacts(o: Options, v: Version, level: nat, start: seq<File>, met: seq<File>, in0: seq<File>, in1: seq<File>,
                   grandparents: seq<File>)
    requires SetUp(o, v, level, start, met, in0, in1, grandparents)
    ensures |v.files| == NUM_LEVELS && level + 1 < NUM_LEVELS && SpansOk(v.files[level]) && start != []
    ensures var base0, below := WithBoundary(v.files[level], start), v.files[level + 1];
            && base0 != []
            && var base1 := Spanning(below, base0);
               var all := base0 + base1;
               || (in0 == base0 && in1 == base1)
               || (&& met != []
                   && Overlapping(v.files[level], level, Some(SmallestKey(all).user), Some(LargestKey(all).user), met)
                   && var grown := WithBoundary(v.files[level], met);
                      in0 == grown && grown != [] && in1 == Spanning(below, grown))
  {
    hide SpansOk, Meeting, BoundaryChain, SmallestKey, LargestKey, Overlapping, Grows, Spanning;
  }

  lemma BaseGapless(files: seq<File>, below: seq<File>, start: seq<File>)
    requires SpansOk(files) && SpansOk(below) && Spans(FileSet(files)) && Spans(FileSet(below))
    requires start != [] && Gapless(FileSet(start)) && forall f :: f in start ==> f in files
    ensures var base0 := WithBoundary(files, start);
            && base0 != [] && (forall f :: f in base0 ==> f in files)
            && var base1 := Spanning(below, base0);
               && (forall f :: f in base1 ==> f in below) && Gapless(FileSet(base0) + FileSet(base1))
  {
    hide Gapless, BoundaryChain, Spanning, SmallestKey, LargestKey;
    BoundaryGapless(files, start, FileSet(start));
    var base0 := WithBoundary(files, start);
    assert FileSet(start) + FileSet(base0) == FileSet(base0);
    SpanningMeets(below, base0);
    JoinHull(FileSet(base0), FileSet(Spanning(below, base0)));
  }

  lemma SpanningGrows(below: seq<File>, fs: seq<File>, more: seq<File>)
    requires fs != [] && more != [] && forall f :: f in fs ==> f in more
    ensures forall f :: f in Spanning(below, fs) ==> f in Spanning(below, more)
  {
    MeetingMembers(below, Some(SmallestKey(fs).user), Some(LargestKey(fs).user));
    MeetingMembers(below, Some(SmallestKey(more).user), Some(LargestKey(more).user));
    var first, last := EndsOf(fs);
    RangeCovers(more);
    assert AtMost(SmallestKey(more), first.smallest) && AtMost(last.largest, LargestKey(more));
  }

  lemma MetHolds(files: seq<File>, level: nat, base0: seq<File>, all: seq<File>, met: seq<File>)
    requires SpansOk(files) && all != [] && (forall f :: f in base0 ==> f in files && f in all)
    requires Overlapping(files, level, Some(SmallestKey(all).user), Some(LargestKey(all).user), met)
    ensures forall f :: f in base0 ==> f in met
  {
    var lo, hi :| met == Meeting(files, lo, hi)
                  && if level > 0 then lo == Some(SmallestKey(all).user) && hi == Some(LargestKey(all).user)
                     else LeastClosed(files, Some(SmallestKey(all).user), Some(LargestKey(all).user), lo, hi);
    CoveredMeets(files, base0, all, lo, hi);
  }

  /** Growing the inputs leaves no gap. */
  lemma GrownGapless(files: seq<File>, below: seq<File>, level: nat, base0: seq<File>, met: seq<File>)
    requires SpansOk(files) && SpansOk(below) && Spans(FileSet(files)) && Spans(FileSet(below))
    requires base0 != [] && (forall f :: f in base0 ==> f in files)
    requires Gapless(FileSet(base0) + FileSet(Spanning(below, base0)))
    requires met != []
    requires var all := base0 + Spanning(below, base0);
             Overlapping(files, level, Some(SmallestKey(all).user), Some(LargestKey(all).user), met)
    requires WithBoundary(files, met) != []
    ensures var grown := WithBoundary(files, met); Gapless(FileSet(grown) + FileSet(Spanning(below, grown)))
  {
    hide Gapless, BoundaryChain, Spanning, SmallestKey, LargestKey, Overlapping, MeetsHull;
    var base1 := Spanning(below, base0);
    var all, grown := base0 + base1, WithBoundary(files, met);
    SpanningMeets(below, base0);
    UnionOf(base0, base1);
    assert Spans(FileSet(all));
    // The whole without gaps grows by what meets it.
    assert Gapless(FileSet(all)) by { assert FileSet(all) == FileSet(base0) + FileSet(base1); }
    MetGapless(files, level, all, met);
    var a := FileSet(all) + FileSet(met);
    BoundaryGapless(files, met, a);
    var b := a + FileSet(grown);
    SpanningMeets(below, grown);
    HullGrows(FileSet(grown), b, Spanning(below, grown));
    JoinHull(b, FileSet(Spanning(below, grown)));
    // And the first inputs are among the later ones.
    MetHolds(files, level, base0, all, met);
    SpanningGrows(below, base0, grown);
    assert b + FileSet(Spanning(below, grown)) == FileSet(grown) + FileSet(Spanning(below, grown));
  }

  lemma MetGapless(files: seq<File>, level: nat, all: seq<File>, met: seq<File>)
    requires SpansOk(files) && Spans(FileSet(files)) && all != [] && Gapless(FileSet(all)) && Spans(FileSet(all))
    requires Overlapping(files, level, Some(SmallestKey(all).user), Some(LargestKey(all).user), met)
    ensures Gapless(FileSet(all) + FileSet(met)) && Spans(FileSet(all) + FileSet(met))
    ensures forall f :: f in met ==> f in files
  {
    hide Gapless, Overlapping;
    OverlappingGapless(files, level, all, met);
  }

  lemma HullGrows(fs: set<File>, more: set<File>, others: seq<File>)
    requires fs <= more && forall f :: f in others ==> MeetsHull(fs, f)
    ensures forall f :: f in FileSet(others) ==> MeetsHull(more, f)
  {
    forall f | f in FileSet(others) ensures MeetsHull(more, f) {
      assert MeetsHull(fs, f);
      var g :| g in fs && g.smallest.user <= f.largest.user;
      var h :| h in fs && f.smallest.user <= h.largest.user;
      assert g in more && h in more;
    }
  }

  lemma LevelSpans(v: Version, next: nat, level: nat)
    requires VersionOk(v, next) && level < NUM_LEVELS
    ensures SpansOk(v.files[level]) && Spans(FileSet(v.files[level]))
  {
    forall f | f in v.files[level] ensures AtMost(f.smallest, f.largest) && f.smallest.user <= f.largest.user {
      assert f in LevelsOf(v)[level];
      FileSpan(f);
    }
  }

  /** SetupOtherInputs leaves no gap if there was none among the files it started from. */
  lemma SetUpGapless(o: Options, v: Version, next: nat, level: nat, start: seq<File>, met: seq<File>, in0: seq<File>,
                     in1: seq<File>, grandparents: seq<File>)
    requires VersionOk(v, next) && SetUp(o, v, level, start, met, in0, in1, grandparents)
    requires Gapless(FileSet(start)) && forall f :: f in start ==> f in v.files[level]
    ensures Gapless(FileSet(in0) + FileSet(in1))
  {
    hide VersionOk, SetUp, Gapless, BoundaryChain, Spanning, SmallestKey, LargestKey, Overlapping, WithBoundary;
    SetUpFacts(o, v, level, start, met, in0, in1, grandparents);
    LevelSpans(v, next, level);
    LevelSpans(v, next, level + 1);
    var files, below := v.files[level], v.files[level + 1];
    BaseGapless(files, below, start);
    var base0 := WithBoundary(files, start);
    if !(in0 == base0 && in1 == Spanning(below, base0)) {
      GrownGapless(files, below, level, base0, met);
    }
  }

  // ---- Automatic compactions -----------------------------------------------------------------------------------

  lemma SingleGapless(f: File)
    requires f.smallest.user <= f.largest.user
    ensures Gapless({f}) && Spans({f}) && FileSet([f]) == {f}
    ensures SmallestKey([f]) == f.smallest && LargestKey([f]) == f.largest
  {
  }

  lemma StartGapless(v: Version, next: nat, level: nat, i: nat, start: seq<File>)
    requires VersionOk(v, next) && level < NUM_LEVELS && StartsAt(v.files[level], level, i, start)
    ensures Gapless(FileSet(start)) && forall f :: f in start ==> f in v.files[level]
  {
    LevelSpans(v, next, level);
    var files := v.files[level];
    var f := files[i];
    assert f in files && f in FileSet(files);
    SingleGapless(f);
    hide Gapless, VersionOk, Overlapping;
    if level == 0 {
      OverlappingGapless(files, 0, [f], start);
      MetHolds(files, 0, [f], [f], start);
      assert {f} + FileSet(start) == FileSet(start);
    }
  }

  /** A compaction that starts from one file, as automatic ones do, has inputs without gaps. */
  lemma AutomaticGapless(o: Options, v: Version, next: nat, level: nat, i: nat, start: seq<File>, met: seq<File>,
                         in0: seq<File>, in1: seq<File>, grandparents: seq<File>)
    requires VersionOk(v, next) && level + 1 < NUM_LEVELS && StartsAt(v.files[level], level, i, start)
    requires SetUp(o, v, level, start, met, in0, in1, grandparents)
    ensures Gapless(FileSet(in0) + FileSet(in1))
  {
    hide Gapless, VersionOk, StartsAt, SetUp;
    StartGapless(v, next, level, i, start);
    SetUpGapless(o, v, next, level, start, met, in0, in1, grandparents);
  }

  ghost predicate Picks(p: Pending, o: Options, v: Version, next: nat, i: nat, start: seq<File>, met: seq<File>,
                        in0: seq<File>, in1: seq<File>, grandparents: seq<File>)
  {
    && VersionOk(v, next) && p.base == LevelsOf(v) && p.level + 1 < NUM_LEVELS
    && StartsAt(v.files[p.level], p.level, i, start) && SetUp(o, v, p.level, start, met, in0, in1, grandparents)
    && p.in0 == FileSet(in0) && p.in1 == FileSet(in1)
  }

  /** The inputs of the compaction at work were picked automatically. */
  ghost predicate PickedAutomatically(p: Pending) {
    exists o, v, next, i, start, met, in0, in1, grandparents :: Picks(p, o, v, next, i, start, met, in0, in1, grandparents)
  }

  /** So the outputs of an automatic compaction never meet what is flushed while it is at work. */
  lemma AutomaticMeetsNothing(m: Machine, a: Action, m': Machine)
    requires MachineOk(m) && Act(m, a, m') && (a.Install? ==> m.pending.Some? && PickedAutomatically(m.pending.value))
    ensures Meetless(m, a) && MachineOk(m')
  {
    hide Inv, PendingOk, Gapless, Built, Clear, VersionOk, StartsAt, SetUp, MachineOk, Writes;
    if a.Install? {
      PendingThere(m);
      var p := m.pending.value;
      PickedGapless(p);
      GaplessClear(m.now, p, a.outs);
    }
    MeetlessKeeps(m, a, m');
  }

  lemma PendingThere(m: Machine)
    requires MachineOk(m) && m.pending.Some?
    ensures Inv(m.now) && PendingOk(m.now, m.pending.value)
  {
    hide Inv, PendingOk;
  }

  lemma PickedGapless(p: Pending)
    requires PickedAutomatically(p)
    ensures Gapless(p.in0 + p.in1)
  {
    hide Gapless, StartsAt, SetUp, LevelsOf, LevelsOk, InOrder;
    var o, v, next, i, start, met, in0, in1, grandparents :| Picks(p, o, v, next, i, start, met, in0, in1, grandparents);
    AutomaticGapless(o, v, next, p.level, i, start, met, in0, in1, grandparents);
  }

  /** Over every run whose compactions are picked automatically the invariant holds, whatever is flushed meanwhile. */
  lemma {:induction false} AutomaticRunsStayOk(ms: seq<Machine>, as': seq<Action>, n: nat)
    requires Interleavings.Run(ms, as') && n <= |as'|
    requires forall i :: 0 <= i < n && as'[i].Install? && ms[i].pending.Some? ==> PickedAutomatically(ms[i].pending.value)
    ensures MachineOk(ms[n])
  {
    hide MachineOk, Act, Init, PickedAutomatically, Meetless;
    if n == 0 {
      StartsOk(ms[0]);
    } else {
      AutomaticRunsStayOk(ms, as', n - 1);
      assert Act(ms[n - 1], as'[n - 1], ms[n]);
      InstallPending(ms[n - 1], as'[n - 1], ms[n]);
      AutomaticMeetsNothing(ms[n - 1], as'[n - 1], ms[n]);
    }
  }

  lemma InstallPending(m: Machine, a: Action, m': Machine)
    requires Act(m, a, m')
    ensures a.Install? ==> m.pending.Some?
  {
  }
}
