/** The edits the engine logs over a run: no level is ever given a file number twice, and replaying the edits from any
    state of the run leads to the versions of the states after it. */
module EditHistories {
  import opened Levels
  import opened Versions
  import opened Inputs
  import opened Builder
  import opened Installing
  import opened CompactionReads
  import opened Visibility
  import opened Runs

  ghost predicate IsCompactionEdit(l: Label, next: nat, e: Edit)
    requires l.Compact?
  {
    exists in0: seq<File>, in1: seq<File>, outs: seq<File> ::
      && FileSet(in0) == l.in0 && FileSet(in1) == l.in1 && FileSet(outs) == l.outs && l.next' == next + |outs|
      && (forall i :: 0 <= i < |outs| ==> outs[i].number == next + i) && e == CompactionEdit(l.level, in0, in1, outs)
  }

  /** The edits a step logs: one when the version changes, or might have. */
  ghost predicate Logs(s: State, l: Label, es: seq<Edit>) {
    match l
    case FlushNothing => es == [Edit([], [])]
    case Flush(f, level) => es == [Edit([], [(level, f)])]
    case Move(level, f) => es == [Edit([(level, f.number)], [(level + 1, f)])]
    case Compact(_, _, _, _, _, _) => |es| == 1 && IsCompactionEdit(l, s.next, es[0])
    case _ => es == []
  }

  /** The version after a history of edits, one at a time. */
  function Applied(v: Version, es: seq<Edit>): Version
    requires |v.files| == NUM_LEVELS
  {
    Version(seq(NUM_LEVELS, l requires 0 <= l < NUM_LEVELS => StepAll(v.files[l], l, es)))
  }

  /** v is the version of state s. */
  ghost predicate Holds(v: Version, s: State) {
    VersionOk(v, s.next) && LevelsOf(v) == s.levels
  }

  lemma AppliedNone(v: Version)
    requires |v.files| == NUM_LEVELS
    ensures Applied(v, []) == v
  {
    assert Applied(v, []).files == v.files;
  }

  lemma AppliedOne(v: Version, es: seq<Edit>, e: Edit)
    requires |v.files| == NUM_LEVELS
    ensures Installed(Applied(v, es), e, Applied(v, es + [e]))
  {
    assert (es + [e])[..|es|] == es;
  }

  // ---- One step ------------------------------------------------------------------------------------------------

  lemma NothingInstalled(v: Version, next: nat, v': Version)
    requires VersionOk(v, next) && Installed(v, Edit([], []), v')
    ensures VersionOk(v', next + 1) && LevelsOf(v') == LevelsOf(v)
  {
    hide VersionOk, LevelsOk, Installed, InOrder, LevelsOf;
    VersionFacts(v, next);
    InstalledFacts(v, Edit([], []), v');
    forall l | 0 <= l < NUM_LEVELS ensures InOrder(v'.files[l]) && LevelsOf(v')[l] == LevelsOf(v)[l] {
      LevelUntouched(v, next, l, Edit([], []), v');
    }
    LevelsExt(LevelsOf(v'), LevelsOf(v));
    NextKeepsLevels(LevelsOf(v), next);
    MakeVersionOk(v', next + 1);
  }

  /** The edit a step logs installs the version of the next state. */
  lemma StepInstalls(s: State, l: Label, t: State, e: Edit, v: Version, v': Version)
    requires Step(s, l, t) && Logs(s, l, [e]) && Holds(v, s) && Installed(v, e, v')
    ensures Holds(v', t)
  {
    hide VersionOk, LevelsOf, Installed, Selected, OutputsFit, FlushFits, Writes, Flushed, Compacted, FileSet, CompactionEdit;
    match l
    case FlushNothing => NothingInstalled(v, s.next, v');
    case Flush(f, level) => FlushInstalled(v, s.next, f, level, v');
    case Move(level, f) => MoveInstalled(v, s.next, level, f, v');
    case Compact(level, in0, in1, input, outs, next) =>
      var i0: seq<File>, i1: seq<File>, os: seq<File> :|
        && FileSet(i0) == in0 && FileSet(i1) == in1 && FileSet(os) == outs && next == s.next + |os|
        && (forall i :: 0 <= i < |os| ==> os[i].number == s.next + i) && e == CompactionEdit(level, i0, i1, os);
      CompactionInstalled(v, s.next, level, i0, i1, os, v');
    case _ =>
  }

  // ---- File numbers --------------------------------------------------------------------------------------------

  /** The numbers each level has ever had. */
  ghost function SeenAt(v: Version, es: seq<Edit>, level: nat): set<nat>
    requires |v.files| == NUM_LEVELS && level < NUM_LEVELS
  {
    Numbers(Known(v.files[level], level, es))
  }

  ghost function Seen(v: Version, es: seq<Edit>): seq<set<nat>>
    requires |v.files| == NUM_LEVELS
  {
    seq(NUM_LEVELS, l requires 0 <= l < NUM_LEVELS => SeenAt(v, es, l))
  }

  /** Files only ever move down: no deeper level has had the number of a file. */
  ghost predicate OnlyDown(ls: Levels, next: nat, seen: seq<set<nat>>) {
    && |seen| == NUM_LEVELS && (forall l, n :: 0 <= l < NUM_LEVELS && n in seen[l] ==> n < next)
    && forall i, j, f :: 0 <= i < j < NUM_LEVELS && f in ls[i] ==> f.number !in seen[j]
  }

  lemma SeenSnoc(v: Version, es: seq<Edit>, e: Edit, level: nat)
    requires |v.files| == NUM_LEVELS && level < NUM_LEVELS
    ensures SeenAt(v, es + [e], level) == SeenAt(v, es, level) + Numbers(AddedAt(e.added, level))
  {
    KnownSnoc(v.files[level], level, es, e);
    hide Known, AddedAt;
    NumbersUnion(Known(v.files[level], level, es), AddedAt(e.added, level));
  }

  lemma NumbersUnion(a: set<File>, b: set<File>)
    ensures Numbers(a + b) == Numbers(a) + Numbers(b)
  {
  }

  /** Files with new numbers at one level. */
  lemma NewFilesDown(ls: Levels, next: nat, seen: seq<set<nat>>, ls': Levels, next': nat, seen': seq<set<nat>>, level: nat,
                     adds: set<File>)
    requires OnlyDown(ls, next, seen) && Numbered(ls, next) && next <= next' && |seen'| == NUM_LEVELS
    requires forall f :: f in adds ==> next <= f.number < next'
    requires forall l :: 0 <= l < NUM_LEVELS ==> ls'[l] <= ls[l] + if l == level then adds else {}
    requires forall l :: 0 <= l < NUM_LEVELS ==> seen'[l] == seen[l] + if l == level then Numbers(adds) else {}
    ensures OnlyDown(ls', next', seen')
  {
  }

  /** A file that moves from its level to the next. */
  lemma MovedDown(ls: Levels, next: nat, seen: seq<set<nat>>, seen': seq<set<nat>>, level: nat, f: File)
    requires OnlyDown(ls, next, seen) && Numbered(ls, next) && level + 1 < NUM_LEVELS && f in ls[level]
    requires |seen'| == NUM_LEVELS
    requires forall l :: 0 <= l < NUM_LEVELS ==> seen'[l] == seen[l] + if l == level + 1 then {f.number} else {}
    ensures OnlyDown(Compacted(ls, level, {f}, {}, {f}), next, seen')
  {
    var ls' := Compacted(ls, level, {f}, {}, {f});
    forall i, j, g | 0 <= i < j < NUM_LEVELS && g in ls'[i] ensures g.number !in seen'[j] {
      if g == f {
        assert i == level + 1;
      } else {
        assert g in ls[i];
      }
    }
  }

  /** The edit of a step gives no level a number it has had, and leaves files on their way down. */
  ghost predicate NewNumbers(seen: seq<set<nat>>, e: Edit) {
    && |seen| == NUM_LEVELS
    && (forall a :: a in e.added ==> a.0 < NUM_LEVELS && a.1.number !in seen[a.0])
    && (forall i, j :: 0 <= i < j < |e.added| && e.added[i].0 == e.added[j].0 ==> e.added[i].1.number != e.added[j].1.number)
  }

  lemma NewNumbersFresh(v: Version, es: seq<Edit>, e: Edit, level: nat)
    requires |v.files| == NUM_LEVELS && level < NUM_LEVELS && NewNumbers(Seen(v, es), e)
    ensures FreshAdds(Known(v.files[level], level, es), e.added, level)
  {
    hide Known;
    forall a, f | a in e.added && a.0 == level && f in Known(v.files[level], level, es) ensures a.1.number != f.number {
      assert f.number in SeenAt(v, es, level);
      assert Seen(v, es)[level] == SeenAt(v, es, level);
    }
  }

  lemma FlushNew(ls: Levels, next: nat, seen: seq<set<nat>>, f: File, level: nat, seen': seq<set<nat>>)
    requires OnlyDown(ls, next, seen) && LevelsOk(ls, next) && level < NUM_LEVELS && f.number == next && |seen'| == NUM_LEVELS
    requires forall l :: 0 <= l < NUM_LEVELS ==> seen'[l] == seen[l] + Numbers(AddedAt([(level, f)], l))
    ensures NewNumbers(seen, Edit([], [(level, f)])) && OnlyDown(Flushed(ls, f, level), next + 1, seen')
  {
    hide FilesOk, Disjoint, Recency, ZeroRecency, Unique, Numbered, AddedAt;
    forall l | 0 <= l < NUM_LEVELS ensures seen'[l] == seen[l] + if l == level then Numbers({f}) else {} {
      OneAdded(level, f, l);
    }
    NewFilesDown(ls, next, seen, Flushed(ls, f, level), next + 1, seen', level, {f});
  }

  lemma MoveNew(ls: Levels, next: nat, seen: seq<set<nat>>, level: nat, f: File, seen': seq<set<nat>>)
    requires OnlyDown(ls, next, seen) && LevelsOk(ls, next) && level + 1 < NUM_LEVELS && f in ls[level] && |seen'| == NUM_LEVELS
    requires forall l :: 0 <= l < NUM_LEVELS ==> seen'[l] == seen[l] + Numbers(AddedAt([(level + 1, f)], l))
    ensures NewNumbers(seen, Edit([(level, f.number)], [(level + 1, f)]))
    ensures OnlyDown(Compacted(ls, level, {f}, {}, {f}), next, seen')
  {
    hide FilesOk, Disjoint, Recency, ZeroRecency, Unique, Numbered, AddedAt;
    forall l | 0 <= l < NUM_LEVELS ensures seen'[l] == seen[l] + if l == level + 1 then {f.number} else {} {
      OneAdded(level + 1, f, l);
      OneNumber(f);
    }
    MovedDown(ls, next, seen, seen', level, f);
  }

  lemma OneNumber(f: File)
    ensures Numbers({f}) == {f.number} && Numbers({}) == {}
  {
  }

  lemma CompactNew(ls: Levels, next: nat, seen: seq<set<nat>>, level: nat, in0: seq<File>, in1: seq<File>, outs: seq<File>,
                   seen': seq<set<nat>>)
    requires OnlyDown(ls, next, seen) && LevelsOk(ls, next) && level + 1 < NUM_LEVELS && |seen'| == NUM_LEVELS
    requires forall i :: 0 <= i < |outs| ==> outs[i].number == next + i
    requires forall l :: 0 <= l < NUM_LEVELS
                         ==> seen'[l] == seen[l] + Numbers(AddedAt(CompactionEdit(level, in0, in1, outs).added, l))
    ensures NewNumbers(seen, CompactionEdit(level, in0, in1, outs))
    ensures OnlyDown(Compacted(ls, level, FileSet(in0), FileSet(in1), FileSet(outs)), next + |outs|, seen')
  {
    hide FilesOk, Disjoint, Recency, ZeroRecency, Unique, Numbered, AddedAt, Deletions;
    var e := CompactionEdit(level, in0, in1, outs);
    CompactionEditSets(level, in0, in1, outs);
    forall l | 0 <= l < NUM_LEVELS ensures seen'[l] == seen[l] + if l == level + 1 then Numbers(FileSet(outs)) else {} {
      NoneAdded(e.added, l);
    }
    forall a | a in e.added ensures a.1.number !in seen[a.0] {
      assert a.1 in outs;
    }
    NewFilesDown(ls, next, seen, Compacted(ls, level, FileSet(in0), FileSet(in1), FileSet(outs)), next + |outs|, seen',
                 level + 1, FileSet(outs));
  }

  lemma NoneAdded(adds: seq<(nat, File)>, level: nat)
    ensures (forall a :: a in adds ==> a.0 != level) ==> Numbers(AddedAt(adds, level)) == {}
  {
  }

  lemma CompactNumbers(s: State, l: Label, t: State, e: Edit, seen: seq<set<nat>>, seen': seq<set<nat>>)
    requires l.Compact? && LevelsOk(s.levels, s.next) && Step(s, l, t) && IsCompactionEdit(l, s.next, e)
    requires OnlyDown(s.levels, s.next, seen) && |seen'| == NUM_LEVELS
    requires forall l :: 0 <= l < NUM_LEVELS ==> seen'[l] == seen[l] + Numbers(AddedAt(e.added, l))
    ensures NewNumbers(seen, e) && OnlyDown(t.levels, t.next, seen')
  {
    hide LevelsOk, OutputsFit, Writes, Compacted, FileSet, CompactionEdit, AddedAt, OnlyDown, Selected, NewNumbers;
    SelectedFacts(s.levels, l.level, l.in0, l.in1);
    var in0: seq<File>, in1: seq<File>, outs: seq<File> :|
      FileSet(in0) == l.in0 && FileSet(in1) == l.in1 && FileSet(outs) == l.outs && l.next' == s.next + |outs|
      && (forall i :: 0 <= i < |outs| ==> outs[i].number == s.next + i) && e == CompactionEdit(l.level, in0, in1, outs);
    CompactNew(s.levels, s.next, seen, l.level, in0, in1, outs, seen');
  }

  /** Every step that logs an edit logs one with new numbers. */
  lemma StepNumbers(s: State, l: Label, t: State, e: Edit, seen: seq<set<nat>>, seen': seq<set<nat>>)
    requires Inv(s) && Step(s, l, t) && Logs(s, l, [e]) && OnlyDown(s.levels, s.next, seen) && |seen'| == NUM_LEVELS
    requires forall l :: 0 <= l < NUM_LEVELS ==> seen'[l] == seen[l] + Numbers(AddedAt(e.added, l))
    ensures NewNumbers(seen, e) && OnlyDown(t.levels, t.next, seen')
  {
    hide LevelsOk, OutputsFit, FlushFits, Writes, Flushed, Compacted, AddedAt, OnlyDown, Unique, NewerThan, Held, Selected,
         NewNumbers, IsCompactionEdit;
    match l
    case FlushNothing => NothingNew(s.levels, s.next, seen, seen');
    case Flush(f, level) =>
      FlushFacts(s.levels, s.next, f, level);
      FlushNew(s.levels, s.next, seen, f, level, seen');
    case Move(level, f) =>
      SelectedFacts(s.levels, level, {f}, {});
      MoveNew(s.levels, s.next, seen, level, f, seen');
    case Compact(_, _, _, _, _, _) => CompactNumbers(s, l, t, e, seen, seen');
    case _ =>
  }

  lemma NothingNew(ls: Levels, next: nat, seen: seq<set<nat>>, seen': seq<set<nat>>)
    requires OnlyDown(ls, next, seen) && |seen'| == NUM_LEVELS
    requires forall l :: 0 <= l < NUM_LEVELS ==> seen'[l] == seen[l] + Numbers(AddedAt([], l))
    ensures NewNumbers(seen, Edit([], [])) && OnlyDown(ls, next + 1, seen')
  {
    forall l | 0 <= l < NUM_LEVELS ensures seen'[l] == seen[l] {
      NoneAdded([], l);
    }
    assert seen' == seen;
  }

  // ---- Runs ----------------------------------------------------------------------------------------------------

  /** What the edits es logged since version v have done when the engine is in state s. */
  ghost predicate HistoryOk(v: Version, es: seq<Edit>, s: State) {
    && |v.files| == NUM_LEVELS && Holds(Applied(v, es), s) && OnlyDown(s.levels, s.next, Seen(v, es))
    && forall l :: 0 <= l < NUM_LEVELS ==> NeverReadds(v.files[l], l, es)
  }

  lemma HistoryStarts(v: Version, s: State)
    requires Inv(s) && Holds(v, s)
    ensures HistoryOk(v, [], s)
  {
    AppliedNone(v);
    hide FilesOk, Disjoint, Recency, ZeroRecency, Unique, InOrder;
    forall l, n | 0 <= l < NUM_LEVELS && n in Seen(v, [])[l] ensures n < s.next && exists f :: f in s.levels[l] && f.number == n {
      var f :| f in FileSet(v.files[l]) && f.number == n;
      assert f in s.levels[l];
    }
  }

  lemma NeverReaddsSnoc(base: seq<File>, level: nat, es: seq<Edit>, e: Edit)
    requires NeverReadds(base, level, es) && FreshAdds(Known(base, level, es), e.added, level)
    ensures NeverReadds(base, level, es + [e])
  {
    hide Known, FreshAdds;
    var all := es + [e];
    forall i | 0 <= i < |all| ensures FreshAdds(Known(base, level, all[..i]), all[i].added, level) {
      if i < |es| {
        assert all[..i] == es[..i] && all[i] == es[i];
      } else {
        assert all[..i] == es && all[i] == e;
      }
    }
  }

  /** A step that logs an edit. */
  lemma EditKeepsHistory(v: Version, es: seq<Edit>, s: State, l: Label, t: State, e: Edit)
    requires HistoryOk(v, es, s) && Inv(s) && Step(s, l, t) && Logs(s, l, [e])
    ensures HistoryOk(v, es + [e], t)
  {
    hide Step, Logs, Inv, Holds, OnlyDown, NewNumbers, NeverReadds, Applied, SeenAt;
    AppliedOne(v, es, e);
    StepInstalls(s, l, t, e, Applied(v, es), Applied(v, es + [e]));
    forall n | 0 <= n < NUM_LEVELS ensures Seen(v, es + [e])[n] == Seen(v, es)[n] + Numbers(AddedAt(e.added, n)) {
      SeenSnoc(v, es, e, n);
    }
    StepNumbers(s, l, t, e, Seen(v, es), Seen(v, es + [e]));
    forall n | 0 <= n < NUM_LEVELS ensures NeverReadds(v.files[n], n, es + [e]) {
      NewNumbersFresh(v, es, e, n);
      NeverReaddsSnoc(v.files[n], n, es, e);
    }
  }

  lemma NoEditKeepsHistory(v: Version, es: seq<Edit>, s: State, l: Label, t: State)
    requires HistoryOk(v, es, s) && Step(s, l, t) && Logs(s, l, [])
    ensures HistoryOk(v, es, t)
  {
    hide VersionOk, OnlyDown, NeverReadds, Applied, SeenAt, Selected, Writes, OutputsFit, FlushFits;
  }

  lemma LogsOne(s: State, l: Label, es: seq<Edit>)
    requires Logs(s, l, es)
    ensures es == [] || es == [es[0]]
  {
    hide IsCompactionEdit;
  }

  function Flat(edits: seq<seq<Edit>>): seq<Edit> {
    if edits == [] then [] else Flat(edits[..|edits| - 1]) + edits[|edits| - 1]
  }

  /** A run with the edits each step logs. */
  ghost predicate LoggedRun(states: seq<State>, labels: seq<Label>, edits: seq<seq<Edit>>) {
    && Run(states, labels) && |edits| == |labels|
    && forall i :: 0 <= i < |labels| ==> Logs(states[i], labels[i], edits[i])
  }

  lemma FlatSnoc(edits: seq<seq<Edit>>, i: nat, j: nat)
    requires i <= j < |edits|
    ensures Flat(edits[i..j + 1]) == Flat(edits[i..j]) + edits[j]
  {
    assert edits[i..j + 1][..j - i] == edits[i..j];
  }

  /** Over every run: the edits logged since some state, applied one at a time to its version, lead to the version of
      every later state, and no level is given a file number twice. */
  lemma {:induction false} RunsKeepHistory(states: seq<State>, labels: seq<Label>, edits: seq<seq<Edit>>, i: nat, j: nat,
                                           v: Version)
    requires LoggedRun(states, labels, edits) && i <= j <= |labels| && Holds(v, states[i])
    ensures HistoryOk(v, Flat(edits[i..j]), states[j])
    decreases j
  {
    hide Inv, Step, Init, Logs, Holds, HistoryOk;
    RunsKeepInv(states, labels);
    if i == j {
      assert edits[i..j] == [];
      HistoryStarts(v, states[i]);
    } else {
      RunsKeepHistory(states, labels, edits, i, j - 1, v);
      FlatSnoc(edits, i, j - 1);
      LogsOne(states[j - 1], labels[j - 1], edits[j - 1]);
      var before := Flat(edits[i..j - 1]);
      if edits[j - 1] == [] {
        assert before + [] == before;
        NoEditKeepsHistory(v, before, states[j - 1], labels[j - 1], states[j]);
      } else {
        EditKeepsHistory(v, before, states[j - 1], labels[j - 1], states[j], edits[j - 1][0]);
      }
    }
  }

  lemma NothingBetween(edits: seq<seq<Edit>>, i: nat)
    requires i <= |edits|
    ensures Flat(edits[i..i]) == []
  {
    assert edits[i..i] == [];
  }

  /** Since no step logs more than one edit, the first n edits are those of the steps up to some state. */
  lemma {:induction false} PrefixIsSteps(states: seq<State>, labels: seq<Label>, edits: seq<seq<Edit>>, i: nat, j: nat, n: nat)
    returns (k: nat)
    requires LoggedRun(states, labels, edits) && i <= j <= |labels| && n <= |Flat(edits[i..j])|
    ensures i <= k <= j && Flat(edits[i..j])[..n] == Flat(edits[i..k])
    decreases j
  {
    hide Step, Init, Logs;
    NothingBetween(edits, i);
    k := j;
    if n == |Flat(edits[i..j])| {
      assert Flat(edits[i..j])[..n] == Flat(edits[i..j]);
    } else {
      FlatSnoc(edits, i, j - 1);
      LogsOne(states[j - 1], labels[j - 1], edits[j - 1]);
      k := PrefixIsSteps(states, labels, edits, i, j - 1, n);
      assert Flat(edits[i..j])[..n] == Flat(edits[i..j - 1])[..n];
    }
  }
}
