/** Applying version edits (VersionSet::Builder), one at a time or a whole history at once. */
module Builder {
  import opened Levels
  import opened Versions
  import opened Inputs

  /** The part of a VersionEdit that changes the files: numbers removed from and files added to levels. */
  datatype Edit = Edit(deleted: seq<(nat, nat)>, added: seq<(nat, File)>)

  predicate EditOk(e: Edit) {
    (forall d :: d in e.deleted ==> d.0 < NUM_LEVELS) && (forall a :: a in e.added ==> a.0 < NUM_LEVELS)
  }

  /** Where a builder stands on one level: the numbers marked deleted and the files added so far. */
  datatype LevelState = LevelState(deleted: set<nat>, added: seq<File>)

  // ---- Ordered sets of files ---------------------------------------------------------------------------------

  /** Number of files of fs that do not come after f: where upper_bound points. */
  function UpperBound(fs: seq<File>, f: File): (n: nat)
    ensures n <= |fs|
    ensures n < |fs| ==> BySmallest(f, fs[n])
    ensures forall i :: 0 <= i < n ==> !BySmallest(f, fs[i])
  {
    if fs == [] || BySmallest(f, fs[0]) then 0 else 1 + UpperBound(fs[1..], f)
  }

  /** Insertion into a std::set ordered by BySmallestKey: nothing happens when an equal file is there. */
  function Insert(fs: seq<File>, f: File): seq<File> {
    var n := UpperBound(fs, f);
    if n > 0 && !BySmallest(fs[n - 1], f) then fs else fs[..n] + [f] + fs[n..]
  }

  /** Two files the order cannot tell apart. */
  predicate SameSlot(f: File, g: File) {
    f.smallest == g.smallest && f.number == g.number
  }

  lemma OrderTotal(f: File, g: File)
    ensures BySmallest(f, g) || BySmallest(g, f) || SameSlot(f, g)
  {
  }

  lemma InsertAtBound(fs: seq<File>, f: File, n: nat)
    requires InOrder(fs) && n <= |fs|
    requires n > 0 ==> BySmallest(fs[n - 1], f)
    requires n < |fs| ==> BySmallest(f, fs[n])
    ensures InOrder(fs[..n] + [f] + fs[n..])
    ensures forall g :: g in fs[..n] + [f] + fs[n..] <==> g in fs || g == f
  {
    var r := fs[..n] + [f] + fs[n..];
    assert fs == fs[..n] + fs[n..];
    forall i, j | 0 <= i < j < |r|
      ensures BySmallest(r[i], r[j])
    {
      var a, b := if i < n then i else i - 1, if j < n then j else j - 1;
      if i == n {
        assert b == n || BySmallest(fs[n], fs[b]);
      } else if j == n {
        assert a == n - 1 || BySmallest(fs[a], fs[n - 1]);
      } else {
        assert BySmallest(fs[a], fs[b]);
      }
    }
  }

  lemma InsertKeeps(fs: seq<File>, f: File)
    requires InOrder(fs)
    ensures InOrder(Insert(fs, f))
    ensures forall g :: g in Insert(fs, f) ==> g in fs || g == f
    ensures forall g :: g in fs ==> g in Insert(fs, f)
    ensures f in Insert(fs, f) || exists g :: g in fs && SameSlot(f, g)
  {
    var n := UpperBound(fs, f);
    if n > 0 && !BySmallest(fs[n - 1], f) {
      OrderTotal(f, fs[n - 1]);
      assert fs[n - 1] in fs;
    } else {
      InsertAtBound(fs, f, n);
    }
  }

  /** Two ordered lists of the same files are the same list. */
  lemma {:induction false} OrderedUnique(a: seq<File>, b: seq<File>)
    requires InOrder(a) && InOrder(b) && FileSet(a) == FileSet(b)
    ensures a == b
  {
    if a == [] || b == [] {
      if a != [] {
        Member(a);
      } else if b != [] {
        Member(b);
      }
    } else {
      Member(a);
      Member(b);
      FirstComesFirst(a, b[0]);
      FirstComesFirst(b, a[0]);
      TailSet(a);
      TailSet(b);
      OrderedUnique(a[1..], b[1..]);
    }
  }

  lemma Member(fs: seq<File>)
    requires fs != []
    ensures fs[0] in FileSet(fs)
  {
  }

  lemma FirstComesFirst(fs: seq<File>, f: File)
    requires InOrder(fs) && f in fs
    ensures f == fs[0] || BySmallest(fs[0], f)
  {
    var i :| 0 <= i < |fs| && fs[i] == f;
  }

  lemma TailSet(fs: seq<File>)
    requires InOrder(fs) && fs != []
    ensures InOrder(fs[1..]) && FileSet(fs[1..]) == FileSet(fs) - {fs[0]}
  {
    assert fs == [fs[0]] + fs[1..];
    forall f | f in fs[1..] ensures f != fs[0] {
      var i :| 0 <= i < |fs[1..]| && fs[1..][i] == f;
      assert BySmallest(fs[0], fs[i + 1]);
    }
  }

  // ---- Apply and SaveTo on one level -------------------------------------------------------------------------

  function Deleting(s: LevelState, number: nat): LevelState {
    s.(deleted := s.deleted + {number})
  }

  function Adding(s: LevelState, f: File): LevelState {
    LevelState(s.deleted - {f.number}, Insert(s.added, f))
  }

  function DeleteAll(s: LevelState, level: nat, ds: seq<(nat, nat)>): LevelState {
    if ds == [] then s
    else
      var d := ds[|ds| - 1];
      var s' := DeleteAll(s, level, ds[..|ds| - 1]);
      if d.0 == level then Deleting(s', d.1) else s'
  }

  function AddAll(s: LevelState, level: nat, fs: seq<(nat, File)>): LevelState {
    if fs == [] then s
    else
      var a := fs[|fs| - 1];
      var s' := AddAll(s, level, fs[..|fs| - 1]);
      if a.0 == level then Adding(s', a.1) else s'
  }

  /** One edit on one level: deletions first, then additions. */
  function ApplyLevel(s: LevelState, level: nat, e: Edit): LevelState {
    AddAll(DeleteAll(s, level, e.deleted), level, e.added)
  }

  /** MaybeAddFile. */
  function Maybe(s: LevelState, f: File): seq<File> {
    if f.number in s.deleted then [] else [f]
  }

  function Kept(s: LevelState, fs: seq<File>): seq<File> {
    if fs == [] then [] else Maybe(s, fs[0]) + Kept(s, fs[1..])
  }

  /** SaveTo on one level: base files and added files merged in order, without the deleted ones. */
  function SaveLevel(s: LevelState, base: seq<File>, added: seq<File>): seq<File>
    decreases |added|
  {
    if added == [] then Kept(s, base)
    else
      var n := UpperBound(base, added[0]);
      Kept(s, base[..n]) + Maybe(s, added[0]) + SaveLevel(s, base[n..], added[1..])
  }

  lemma {:induction false} KeptMembers(s: LevelState, fs: seq<File>)
    ensures forall f :: f in Kept(s, fs) <==> f in fs && f.number !in s.deleted
  {
    if fs != [] {
      KeptMembers(s, fs[1..]);
      assert fs == [fs[0]] + fs[1..];
    }
  }

  lemma {:induction false} SaveMembers(s: LevelState, base: seq<File>, added: seq<File>)
    ensures forall f :: f in SaveLevel(s, base, added) <==> (f in base || f in added) && f.number !in s.deleted
    decreases |added|
  {
    if added == [] {
      KeptMembers(s, base);
    } else {
      var n := UpperBound(base, added[0]);
      KeptMembers(s, base[..n]);
      SaveMembers(s, base[n..], added[1..]);
      assert base == base[..n] + base[n..] && added == [added[0]] + added[1..];
    }
  }

  ghost predicate AllBefore(fs: seq<File>, f: File) {
    forall g :: g in fs ==> BySmallest(g, f)
  }

  ghost predicate AllBehind(f: File, fs: seq<File>) {
    forall g :: g in fs ==> BySmallest(f, g)
  }

  ghost predicate AllOrdered(a: seq<File>, b: seq<File>) {
    forall f, g :: f in a && g in b ==> BySmallest(f, g)
  }

  lemma OrderedAppend(a: seq<File>, b: seq<File>)
    requires InOrder(a) && InOrder(b) && AllOrdered(a, b)
    ensures InOrder(a + b)
  {
    var c := a + b;
    forall i, j | 0 <= i < j < |c|
      ensures BySmallest(c[i], c[j])
    {
      if i < |a| <= j {
        assert c[i] in a && c[j] in b;
      }
    }
  }

  lemma {:induction false} KeptOrdered(s: LevelState, fs: seq<File>)
    requires InOrder(fs)
    ensures InOrder(Kept(s, fs))
  {
    if fs != [] {
      TailSet(fs);
      KeptOrdered(s, fs[1..]);
      KeptMembers(s, fs[1..]);
      forall f, g | f in Maybe(s, fs[0]) && g in Kept(s, fs[1..])
        ensures BySmallest(f, g)
      {
        assert g in FileSet(fs[1..]);
        FirstComesFirst(fs, g);
      }
      OrderedAppend(Maybe(s, fs[0]), Kept(s, fs[1..]));
    }
  }

  ghost predicate NoSharedSlot(a: seq<File>, b: seq<File>) {
    forall f, g :: f in a && g in b ==> !SameSlot(f, g)
  }

  lemma BoundSplits(base: seq<File>, f: File)
    requires InOrder(base) && forall g :: g in base ==> !SameSlot(g, f)
    ensures AllBefore(base[..UpperBound(base, f)], f) && AllBehind(f, base[UpperBound(base, f)..])
  {
    var n := UpperBound(base, f);
    forall g | g in base[..n] ensures BySmallest(g, f) {
      var i :| 0 <= i < n && base[i] == g;
      OrderTotal(g, f);
    }
    forall g | g in base[n..] ensures BySmallest(f, g) {
      var i :| n <= i < |base| && base[i] == g;
      assert i == n || BySmallest(base[n], base[i]);
    }
  }

  lemma Join(front: seq<File>, mid: seq<File>, tail: seq<File>, f: File)
    requires InOrder(front) && InOrder(tail) && AllBefore(front, f) && AllBehind(f, tail)
    requires mid == [] || mid == [f]
    ensures InOrder(front + mid + tail)
  {
    OrderedAppend(front, mid);
    forall g, h | g in front + mid && h in tail
      ensures BySmallest(g, h)
    {
      assert g == f || BySmallest(g, f);
      assert BySmallest(f, h);
    }
    OrderedAppend(front + mid, tail);
  }

  lemma SliceOrdered(fs: seq<File>, n: nat)
    requires InOrder(fs) && n <= |fs|
    ensures InOrder(fs[..n]) && InOrder(fs[n..])
    ensures (forall f :: f in fs[..n] ==> f in fs) && (forall f :: f in fs[n..] ==> f in fs)
  {
  }

  lemma {:induction false} SaveOrdered(s: LevelState, base: seq<File>, added: seq<File>)
    requires InOrder(base) && InOrder(added) && NoSharedSlot(base, added)
    ensures InOrder(SaveLevel(s, base, added))
    decreases |added|
  {
    if added == [] {
      KeptOrdered(s, base);
    } else {
      var f := added[0];
      var n := UpperBound(base, f);
      var front, back := base[..n], base[n..];
      SliceOrdered(base, n);
      SliceOrdered(added, 1);
      assert f in added;
      BoundSplits(base, f);
      OrderedTailBehind(added);
      KeptOrdered(s, front);
      KeptMembers(s, front);
      SaveOrdered(s, back, added[1..]);
      SaveMembers(s, back, added[1..]);
      hide InOrder, BySmallest, SaveLevel, Kept, UpperBound;
      assert AllBefore(Kept(s, front), f);
      assert AllBehind(f, SaveLevel(s, back, added[1..]));
      SaveUnfold(s, base, added);
      Join(Kept(s, front), Maybe(s, f), SaveLevel(s, back, added[1..]), f);
    }
  }

  lemma SaveUnfold(s: LevelState, base: seq<File>, added: seq<File>)
    requires added != []
    ensures SaveLevel(s, base, added)
            == Kept(s, base[..UpperBound(base, added[0])]) + Maybe(s, added[0])
               + SaveLevel(s, base[UpperBound(base, added[0])..], added[1..])
  {
  }

  lemma OrderedTailBehind(fs: seq<File>)
    requires InOrder(fs) && fs != []
    ensures AllBehind(fs[0], fs[1..])
  {
  }

  // ---- What an edit does to the set of files -----------------------------------------------------------------

  ghost function DeletedAt(ds: seq<(nat, nat)>, level: nat): set<nat> {
    set d | d in ds && d.0 == level :: d.1
  }

  ghost function AddedAt(fs: seq<(nat, File)>, level: nat): set<File> {
    set a | a in fs && a.0 == level :: a.1
  }

  ghost function Numbers(fs: set<File>): set<nat> {
    set f | f in fs :: f.number
  }

  /** The files an edit adds to the level carry numbers that are new to it and distinct. */
  ghost predicate FreshAdds(known: set<File>, fs: seq<(nat, File)>, level: nat) {
    && (forall a, f :: a in fs && a.0 == level && f in known ==> a.1.number != f.number)
    && (forall i, j :: 0 <= i < j < |fs| && fs[i].0 == level && fs[j].0 == level ==> fs[i].1.number != fs[j].1.number)
  }

  lemma {:induction false} DeleteAllEffect(s: LevelState, level: nat, ds: seq<(nat, nat)>)
    ensures DeleteAll(s, level, ds) == LevelState(s.deleted + DeletedAt(ds, level), s.added)
  {
    if ds != [] {
      var n := |ds| - 1;
      DeleteAllEffect(s, level, ds[..n]);
      assert ds == ds[..n] + [ds[n]];
      assert DeletedAt(ds, level)
             == DeletedAt(ds[..n], level) + if ds[n].0 == level then {ds[n].1} else {};
    }
  }

  lemma {:induction false} AddAllEffect(s: LevelState, level: nat, fs: seq<(nat, File)>)
    requires InOrder(s.added) && FreshAdds(FileSet(s.added), fs, level)
    ensures InOrder(AddAll(s, level, fs).added)
    ensures FileSet(AddAll(s, level, fs).added) == FileSet(s.added) + AddedAt(fs, level)
    ensures AddAll(s, level, fs).deleted == s.deleted - Numbers(AddedAt(fs, level))
  {
    if fs != [] {
      var n := |fs| - 1;
      var a := fs[n];
      AddAllEffect(s, level, fs[..n]);
      var s' := AddAll(s, level, fs[..n]);
      assert fs == fs[..n] + [a];
      assert AddedAt(fs, level) == AddedAt(fs[..n], level) + if a.0 == level then {a.1} else {};
      if a.0 == level {
        InsertKeeps(s'.added, a.1);
        forall g | g in s'.added
          ensures !SameSlot(a.1, g)
        {
          assert g in FileSet(s'.added);
          assert a in fs;
        }
        hide InOrder, Insert;
        assert FileSet(Insert(s'.added, a.1)) == FileSet(s'.added) + {a.1};
      }
    }
  }

  /** One edit on one level, as sets. */
  lemma ApplyEffect(s: LevelState, level: nat, e: Edit)
    requires InOrder(s.added) && FreshAdds(FileSet(s.added), e.added, level)
    ensures InOrder(ApplyLevel(s, level, e).added)
    ensures FileSet(ApplyLevel(s, level, e).added) == FileSet(s.added) + AddedAt(e.added, level)
    ensures ApplyLevel(s, level, e).deleted
            == s.deleted + DeletedAt(e.deleted, level) - Numbers(AddedAt(e.added, level))
  {
    DeleteAllEffect(s, level, e.deleted);
    AddAllEffect(DeleteAll(s, level, e.deleted), level, e.added);
  }

  // ---- Replay ------------------------------------------------------------------------------------------------

  const EMPTY_STATE: LevelState := LevelState({}, [])

  /** The level after one edit through a builder of its own. */
  function StepLevel(base: seq<File>, level: nat, e: Edit): seq<File> {
    var s := ApplyLevel(EMPTY_STATE, level, e);
    SaveLevel(s, base, s.added)
  }

  /** The level after a history of edits, one version at a time. */
  function StepAll(base: seq<File>, level: nat, es: seq<Edit>): seq<File> {
    if es == [] then base else StepLevel(StepAll(base, level, es[..|es| - 1]), level, es[|es| - 1])
  }

  /** A builder's state after a history of edits. */
  function BuildAll(level: nat, es: seq<Edit>): LevelState {
    if es == [] then EMPTY_STATE else ApplyLevel(BuildAll(level, es[..|es| - 1]), level, es[|es| - 1])
  }

  /** Every file the level ever had. */
  ghost function Known(base: seq<File>, level: nat, es: seq<Edit>): set<File> {
    FileSet(base) + set e, a | e in es && a in e.added && a.0 == level :: a.1
  }

  /** No edit adds to the level a number it has had before. */
  ghost predicate NeverReadds(base: seq<File>, level: nat, es: seq<Edit>) {
    forall i :: 0 <= i < |es| ==> FreshAdds(Known(base, level, es[..i]), es[i].added, level)
  }

  lemma KnownSnoc(base: seq<File>, level: nat, prefix: seq<Edit>, e: Edit)
    ensures Known(base, level, prefix + [e]) == Known(base, level, prefix) + AddedAt(e.added, level)
  {
  }

  lemma NeverReaddsPrefix(base: seq<File>, level: nat, prefix: seq<Edit>, e: Edit)
    requires NeverReadds(base, level, prefix + [e])
    ensures NeverReadds(base, level, prefix) && FreshAdds(Known(base, level, prefix), e.added, level)
  {
    var es := prefix + [e];
    forall i | 0 <= i < |prefix| ensures FreshAdds(Known(base, level, prefix[..i]), prefix[i].added, level) {
      assert prefix[..i] == es[..i];
    }
    assert es[..|prefix|] == prefix && es[|prefix|] == e;
  }

  lemma FreshSubset(some: set<File>, all: set<File>, fs: seq<(nat, File)>, level: nat)
    requires FreshAdds(all, fs, level) && some <= all
    ensures FreshAdds(some, fs, level)
  {
  }

  /** What a builder adds over a history shares no slot with the base. */
  lemma StillNoSharedSlot(base: seq<File>, before: seq<File>, after: seq<File>, fs: seq<(nat, File)>, level: nat)
    requires NoSharedSlot(base, before) && FreshAdds(FileSet(base), fs, level)
    requires FileSet(after) == FileSet(before) + AddedAt(fs, level)
    ensures NoSharedSlot(base, after)
  {
    forall f, g | f in base && g in after
      ensures !SameSlot(f, g)
    {
      assert g in FileSet(after) && f in FileSet(base);
      if g in AddedAt(fs, level) {
        var a :| a in fs && a.0 == level && a.1 == g;
      } else {
        assert g in FileSet(before);
      }
    }
  }

  lemma {:induction false} BuildAllAdded(base: seq<File>, level: nat, es: seq<Edit>)
    requires NeverReadds(base, level, es)
    ensures InOrder(BuildAll(level, es).added)
    ensures FileSet(base) + FileSet(BuildAll(level, es).added) == Known(base, level, es)
    ensures NoSharedSlot(base, BuildAll(level, es).added)
  {
    if es != [] {
      var prefix, e := es[..|es| - 1], es[|es| - 1];
      assert es == prefix + [e];
      NeverReaddsPrefix(base, level, prefix, e);
      BuildAllAdded(base, level, prefix);
      var s := BuildAll(level, prefix);
      FreshSubset(FileSet(s.added), Known(base, level, prefix), e.added, level);
      FreshSubset(FileSet(base), Known(base, level, prefix), e.added, level);
      KnownSnoc(base, level, prefix, e);
      ApplyEffect(s, level, e);
      hide InOrder, ApplyLevel, Known, AddedAt, NoSharedSlot, FreshAdds, FileSet, DeletedAt, Numbers, NeverReadds;
      StillNoSharedSlot(base, s.added, ApplyLevel(s, level, e).added, e.added, level);
    }
  }

  lemma SavedSet(s: LevelState, base: seq<File>)
    ensures FileSet(SaveLevel(s, base, s.added))
            == set f | f in FileSet(base) + FileSet(s.added) && f.number !in s.deleted
  {
    SaveMembers(s, base, s.added);
  }

  lemma StepSet(base: seq<File>, level: nat, e: Edit)
    requires InOrder(base) && FreshAdds(FileSet(base), e.added, level)
    ensures InOrder(StepLevel(base, level, e))
    ensures FileSet(StepLevel(base, level, e))
            == set f | f in FileSet(base) + AddedAt(e.added, level)
                       && f.number !in DeletedAt(e.deleted, level) - Numbers(AddedAt(e.added, level))
  {
    ApplyEffect(EMPTY_STATE, level, e);
    var s := ApplyLevel(EMPTY_STATE, level, e);
    SavedSet(s, base);
    forall f, g | f in base && g in s.added
      ensures !SameSlot(f, g)
    {
      assert g in FileSet(s.added) && f in FileSet(base);
    }
    SaveOrdered(s, base, s.added);
  }

  /** Replaying a history through one builder gives the version reached one edit at a time, provided no level is
      given a file number a second time. */
  lemma {:induction false} ReplayEqualsSteps(base: seq<File>, level: nat, es: seq<Edit>)
    requires InOrder(base) && NeverReadds(base, level, es)
    ensures InOrder(StepAll(base, level, es))
    ensures SaveLevel(BuildAll(level, es), base, BuildAll(level, es).added) == StepAll(base, level, es)
    ensures FileSet(StepAll(base, level, es)) <= Known(base, level, es)
  {
    var s := BuildAll(level, es);
    BuildAllAdded(base, level, es);
    SavedSet(s, base);
    SaveOrdered(s, base, s.added);
    if es == [] {
      OrderedUnique(SaveLevel(s, base, s.added), base);
    } else {
      var prefix, e := es[..|es| - 1], es[|es| - 1];
      assert es == prefix + [e];
      NeverReaddsPrefix(base, level, prefix, e);
      ReplayEqualsSteps(base, level, prefix);
      LastStep(base, level, prefix, e);
      OrderedUnique(SaveLevel(s, base, s.added), StepAll(base, level, es));
      assert Known(base, level, es) == FileSet(base) + FileSet(s.added);
    }
  }

  lemma LastStep(base: seq<File>, level: nat, prefix: seq<Edit>, e: Edit)
    requires InOrder(base) && NeverReadds(base, level, prefix + [e])
    requires InOrder(StepAll(base, level, prefix))
    requires SaveLevel(BuildAll(level, prefix), base, BuildAll(level, prefix).added) == StepAll(base, level, prefix)
    ensures InOrder(StepAll(base, level, prefix + [e]))
    ensures FileSet(StepAll(base, level, prefix + [e]))
            == FileSet(SaveLevel(BuildAll(level, prefix + [e]), base, BuildAll(level, prefix + [e]).added))
  {
    var es := prefix + [e];
    assert es[..|prefix|] == prefix && es[|es| - 1] == e;
    NeverReaddsPrefix(base, level, prefix, e);
    var s, now := BuildAll(level, prefix), StepAll(base, level, prefix);
    BuildAllAdded(base, level, prefix);
    SavedSet(s, base);
    assert FileSet(now) <= Known(base, level, prefix);
    StepSet(now, level, e);
    ApplyEffect(s, level, e);
    SavedSet(ApplyLevel(s, level, e), base);
    hide InOrder, ApplyLevel, SaveLevel, StepLevel;
    var adds, dels := AddedAt(e.added, level), DeletedAt(e.deleted, level);
    forall f | f in Known(base, level, prefix)
      ensures f.number !in Numbers(adds)
    {
      forall a | a in adds ensures a.number != f.number {
        var p :| p in e.added && p.0 == level && p.1 == a;
      }
    }
    forall f | f in adds
      ensures f.number in Numbers(adds)
    {
    }
  }
}
