/** A compaction does its work without the lock: writes go on, and a full memtable is flushed, between the choice of its
    inputs and the installation of its outputs (DoCompactionWork). */
module Interleavings {
  import opened InternalKeys
  import opened Visibility
  import opened Batches
  import opened Levels
  import opened Dropping
  import opened CompactionReads
  import opened Runs

  /** A compaction at work: what it was chosen from, the smallest snapshot it knows, and the file numbers it has taken. */
  datatype Pending = Pending(level: nat, in0: set<File>, in1: set<File>, base: Levels, smallest: nat, numbers: set<nat>)

  datatype Machine = Machine(now: State, pending: Option<Pending>)

  datatype Action =
    | Plain(l: Label)
    | Begin(level: nat, in0: set<File>, in1: set<File>)
    | NewNumber
    | Install(input: seq<Entry>, outs: set<File>)

  /** Tables of input entries, under numbers taken for them, apart from each other. */
  ghost predicate Built(p: Pending, outs: set<File>) {
    && (forall o :: o in outs ==> FileOk(o) && o.number in p.numbers)
    && (forall o, q :: o in outs && q in outs && o != q ==> o.number != q.number && Apart(o, q))
    && EntriesOf(outs) <= EntriesOf(p.in0 + p.in1)
  }

  ghost predicate Act(m: Machine, a: Action, m': Machine) {
    match a
    // There is one background thread: no other compaction meanwhile.
    case Plain(l) =>
      !l.Compact? && (l.Move? ==> m.pending.None?) && Step(m.now, l, m'.now) && m'.pending == m.pending
    case Begin(level, in0, in1) =>
      && m.pending.None? && Selected(m.now.levels, level, in0, in1) && m'.now == m.now
      && m'.pending == Some(Pending(level, in0, in1, m.now.levels, SmallestSnapshot(m.now), {}))
    case NewNumber =>
      && m.pending.Some? && var p := m.pending.value;
      && m' == Machine(m.now.(next := m.now.next + 1), Some(p.(numbers := p.numbers + {m.now.next})))
    case Install(input, outs) =>
      && m.pending.Some? && var p := m.pending.value;
      && p.level + 1 < NUM_LEVELS && Built(p, outs)
      && Writes(p.base, p.level, p.in0, p.in1, input, p.smallest, outs)
      && m' == Machine(m.now.(levels := Compacted(m.now.levels, p.level, p.in0, p.in1, outs)), None)
  }

  /** The files flushed to a level since the compaction began. */
  ghost function Flushes(now: Levels, base: Levels, i: nat): set<File>
    requires i < NUM_LEVELS
  {
    now[i] - base[i]
  }

  /** The files chosen from are still there. */
  ghost predicate Grown(now: Levels, base: Levels) {
    forall i :: 0 <= i < NUM_LEVELS ==> base[i] <= now[i]
  }

  /** What was flushed meanwhile is newer than all that was there. */
  ghost predicate FlushesNewer(now: Levels, base: Levels) {
    forall i, f :: 0 <= i < NUM_LEVELS && f in Flushes(now, base, i) ==> NewerThan(ToSet(f.entries), Contents(base))
  }

  /** And past level 0 it meets nothing that was there, at its level or above. */
  ghost predicate FlushesBeside(now: Levels, base: Levels) {
    forall i, j, f :: 0 <= j <= i < NUM_LEVELS && i > 0 && f in Flushes(now, base, i) ==> NoOverlap(base[j], f)
  }

  /** The numbers taken are used by no file. */
  ghost predicate Unused(now: Levels, next: nat, numbers: set<nat>) {
    && (forall n :: n in numbers ==> n < next)
    && (forall i, f :: 0 <= i < NUM_LEVELS && f in now[i] ==> f.number !in numbers)
  }

  ghost predicate PendingOk(s: State, p: Pending) {
    && LevelsOk(p.base, s.next) && Selected(p.base, p.level, p.in0, p.in1)
    && p.smallest <= SmallestSnapshot(s) && p.smallest < MAX_SEQUENCE
    && Grown(s.levels, p.base) && FlushesNewer(s.levels, p.base) && FlushesBeside(s.levels, p.base)
    && Unused(s.levels, s.next, p.numbers)
  }

  ghost predicate MachineOk(m: Machine) {
    Inv(m.now) && (m.pending.Some? ==> PendingOk(m.now, m.pending.value))
  }

  /** No output meets a file flushed to the output level meanwhile. */
  ghost predicate Clear(now: Levels, p: Pending, outs: set<File>)
    requires p.level + 1 < NUM_LEVELS
  {
    forall f, o :: f in Flushes(now, p.base, p.level + 1) && o in outs ==> Apart(f, o)
  }

  // ---- Everything but the installation -------------------------------------------------------------------------

  lemma BaseGrows(ls: Levels, next: nat, next': nat)
    requires LevelsOk(ls, next) && next <= next'
    ensures LevelsOk(ls, next')
  {
    hide FilesOk, Disjoint, Recency, ZeroRecency, Contents, Unique;
  }

  lemma SmallestGrows(s: State, l: Label, t: State)
    requires Inv(s) && Step(s, l, t) && !l.Compact?
    ensures SmallestSnapshot(s) <= SmallestSnapshot(t) && s.next <= t.next
  {
    hide LevelsOk, Contents, Unique, NewerThan, Selected, FlushFits, Numbering;
  }

  lemma SameLevelsPending(s: State, t: State, p: Pending)
    requires PendingOk(s, p) && t.levels == s.levels && s.next <= t.next && SmallestSnapshot(s) <= SmallestSnapshot(t)
    ensures PendingOk(t, p)
  {
    BaseGrows(p.base, s.next, t.next);
    hide LevelsOk, Selected, SmallestSnapshot, Grown, FlushesNewer, FlushesBeside;
  }

  lemma ContentsGrow(now: Levels, base: Levels)
    requires Grown(now, base)
    ensures Contents(base) <= Contents(now)
  {
  }

  lemma FlushPending(s: State, f: File, level: nat, t: State, p: Pending)
    requires Inv(s) && PendingOk(s, p) && Step(s, Flush(f, level), t)
    ensures PendingOk(t, p)
  {
    hide LevelsOk, Selected, SmallestSnapshot, Grown, FlushesNewer, FlushesBeside, Unused, Inv, FlushFits, Flushed;
    SmallestGrows(s, Flush(f, level), t);
    BaseGrows(p.base, s.next, t.next);
    FlushFitsLevel(s.levels, s.next, f, level);
    FlushGrows(s.levels, s.next, f, level, p);
    FlushNewer(s, f, level, p.base);
    FlushBeside(s.levels, s.next, f, level, p.base);
  }

  lemma FlushGrows(now: Levels, next: nat, f: File, level: nat, p: Pending)
    requires Grown(now, p.base) && FlushFits(now, next, f, level) && Unused(now, next, p.numbers)
    ensures Grown(Flushed(now, f, level), p.base) && Unused(Flushed(now, f, level), next + 1, p.numbers)
  {
    hide NoOverlap, Above, FileOk;
  }

  lemma FlushNewer(s: State, f: File, level: nat, base: Levels)
    requires Inv(s) && s.imm.Some? && ToSet(f.entries) == s.imm.value && level < NUM_LEVELS
    requires Grown(s.levels, base) && FlushesNewer(s.levels, base)
    ensures FlushesNewer(Flushed(s.levels, f, level), base)
  {
    ContentsGrow(s.levels, base);
    hide LevelsOk, Contents, Unique, Grown;
    assert NewerThan(ToSet(f.entries), Contents(base));
    hide NewerThan, Inv;
    var now := Flushed(s.levels, f, level);
    forall i, g | 0 <= i < NUM_LEVELS && g in Flushes(now, base, i) ensures NewerThan(ToSet(g.entries), Contents(base)) {
      assert g == f || g in Flushes(s.levels, base, i);
    }
  }

  lemma FlushBeside(now: Levels, next: nat, f: File, level: nat, base: Levels)
    requires Grown(now, base) && FlushesBeside(now, base) && FlushFits(now, next, f, level)
    ensures FlushesBeside(Flushed(now, f, level), base)
  {
    var now' := Flushed(now, f, level);
    forall i, j, g | 0 <= j <= i < NUM_LEVELS && i > 0 && g in Flushes(now', base, i) ensures NoOverlap(base[j], g) {
      if g in Flushes(now, base, i) {
        assert NoOverlap(base[j], g);
      } else {
        assert NoOverlap(now[j], f) && base[j] <= now[j];
      }
    }
  }

  /** Whatever else the engine does while a compaction is at work. */
  lemma ActKeeps(m: Machine, a: Action, m': Machine)
    requires MachineOk(m) && Act(m, a, m') && !a.Install?
    ensures MachineOk(m')
  {
    hide Inv, Step, PendingOk, Selected;
    match a
    case Plain(l) =>
      StepKeepsInv(m.now, l, m'.now);
      if m.pending.Some? {
        PlainKeepsPending(m.now, l, m'.now, m.pending.value);
      }
    case Begin(level, in0, in1) => BeginsOk(m.now, level, in0, in1);
    case NewNumber => NumberTaken(m.now, m.pending.value);
  }

  lemma PlainKeepsPending(s: State, l: Label, t: State, p: Pending)
    requires Inv(s) && PendingOk(s, p) && Step(s, l, t) && !l.Compact? && !l.Move?
    ensures PendingOk(t, p)
  {
    hide Inv, PendingOk, SmallestSnapshot, FlushFits, Numbering;
    SmallestGrows(s, l, t);
    if l.Flush? {
      FlushPending(s, l.file, l.level, t, p);
    } else {
      SameLevelsPending(s, t, p);
    }
  }

  lemma BeginsOk(s: State, level: nat, in0: set<File>, in1: set<File>)
    requires Inv(s) && Selected(s.levels, level, in0, in1)
    ensures PendingOk(s, Pending(level, in0, in1, s.levels, SmallestSnapshot(s), {}))
  {
    hide LevelsOk, Contents, Selected, NewerThan, NoOverlap, Unique;
  }

  lemma NumberTaken(s: State, p: Pending)
    requires Inv(s) && PendingOk(s, p)
    ensures var t, p' := s.(next := s.next + 1), p.(numbers := p.numbers + {s.next}); Inv(t) && PendingOk(t, p')
  {
    hide LevelsOk, Contents, Selected, NewerThan, Unique, Grown, FlushesNewer, FlushesBeside;
    NextKeepsLevels(s.levels, s.next);
    NextKeepsLevels(p.base, s.next);
    NumbersBelow(s.levels, s.next);
  }

  lemma NumbersBelow(ls: Levels, next: nat)
    requires LevelsOk(ls, next)
    ensures forall i, f :: 0 <= i < NUM_LEVELS && f in ls[i] ==> f.number < next
  {
    hide FilesOk, Disjoint, Recency, ZeroRecency, Contents, Unique;
  }

  // ---- The installation ----------------------------------------------------------------------------------------

  lemma PendingFacts(s: State, p: Pending)
    requires PendingOk(s, p)
    ensures p.level + 1 < NUM_LEVELS && p.in0 <= p.base[p.level] && p.in1 <= p.base[p.level + 1]
    ensures p.in0 <= s.levels[p.level] && p.in1 <= s.levels[p.level + 1]
    ensures forall f :: f in p.in0 + p.in1 ==> FileOk(f)
  {
    hide Contents, NewerThan, NoOverlap, Above, OneSide, FileOk;
  }

  lemma AfterMembers(now: Levels, p: Pending, outs: set<File>, i: nat, f: File)
    requires p.level + 1 < NUM_LEVELS && i < NUM_LEVELS && f in Compacted(now, p.level, p.in0, p.in1, outs)[i]
    ensures (i == p.level + 1 && f in outs) || (f in now[i] && (i == p.level + 1 ==> f !in p.in1))
  {
  }

  /** A file is an output, with a number that was taken for it, or was there, with another number. */
  lemma AfterNumbers(now: Levels, next: nat, p: Pending, outs: set<File>, i: nat, f: File)
    requires Numbered(now, next) && Unused(now, next, p.numbers) && Built(p, outs)
    requires p.level + 1 < NUM_LEVELS && i < NUM_LEVELS && f in Compacted(now, p.level, p.in0, p.in1, outs)[i]
    ensures f.number < next
    ensures (f in now[i] && f.number !in p.numbers) || (i == p.level + 1 && f in outs && f.number in p.numbers)
  {
    hide Compacted, FileOk, Apart, EntriesOf;
    AfterMembers(now, p, outs, i, f);
  }

  lemma InstallFiles(now: Levels, next: nat, p: Pending, outs: set<File>)
    requires FilesOk(now) && Numbered(now, next) && Unused(now, next, p.numbers) && Built(p, outs) && p.level + 1 < NUM_LEVELS
    ensures FilesOk(Compacted(now, p.level, p.in0, p.in1, outs))
    ensures Numbered(Compacted(now, p.level, p.in0, p.in1, outs), next)
  {
    hide FileOk, Apart, EntriesOf, Compacted, Unused;
    var after := Compacted(now, p.level, p.in0, p.in1, outs);
    forall i, f | 0 <= i < NUM_LEVELS && f in after[i] ensures FileOk(f) && f.number < next {
      AfterNumbers(now, next, p, outs, i, f);
    }
    forall i, f, g | 0 <= i < NUM_LEVELS && f in after[i] && g in after[i] && f.number == g.number ensures f == g {
      AfterNumbers(now, next, p, outs, i, f);
      AfterNumbers(now, next, p, outs, i, g);
    }
    forall i, j, f, g | 0 <= i < j < NUM_LEVELS && f in after[i] && g in after[j] ensures f.number != g.number {
      AfterNumbers(now, next, p, outs, i, f);
      AfterNumbers(now, next, p, outs, j, g);
    }
  }

  lemma FilesThere(ls: Levels, next: nat)
    requires LevelsOk(ls, next)
    ensures FilesOk(ls) && Numbered(ls, next)
  {
    hide FilesOk, Disjoint, Recency, ZeroRecency, Numbered, Contents, Unique;
  }

  lemma NewerIsAbove(f: File, base: Levels, j: nat, h: File)
    requires NewerThan(ToSet(f.entries), Contents(base)) && j < NUM_LEVELS && h in base[j]
    ensures Above(f, h)
  {
    forall x, y | x in f.entries && y in h.entries ensures x.key.seqno > y.key.seqno {
      assert x in ToSet(f.entries) && y in Contents(base);
    }
  }

  /** A file that is at the input level or above, and no input, is above every input. */
  lemma ShallowAbove(s: State, p: Pending, i: nat, f: File, h: File)
    requires PendingOk(s, p) && i <= p.level && f in s.levels[i] && (i == p.level ==> f !in p.in0) && h in p.in0 + p.in1
    ensures Above(f, h)
  {
    hide Contents, NoOverlap, OneSide, NewerThan, Above;
    var j := if h in p.in0 then p.level else p.level + 1;
    assert h in p.base[j];
    if f in p.base[i] {
      if i == j {
        assert f in p.base[p.level] - p.in0;
      }
    } else {
      assert f in Flushes(s.levels, p.base, i);
      NewerIsAbove(f, p.base, j, h);
    }
  }

  /** Every input is above every file below the output level. */
  lemma DeepBelow(s: State, p: Pending, j: nat, g: File, h: File)
    requires Inv(s) && PendingOk(s, p) && p.level + 1 < j < NUM_LEVELS && g in s.levels[j] && h in p.in0 + p.in1
    ensures Above(h, g)
  {
    hide Contents, NoOverlap, OneSide, NewerThan, Above, FileOk;
    var i := if h in p.in0 then p.level else p.level + 1;
    assert h in p.base[i];
    if g !in p.base[j] {
      assert g in Flushes(s.levels, p.base, j) && NoOverlap(p.base[i], g);
      BesideAbove(p.base[i], g, h);
    }
  }

  lemma BesideAbove(fs: set<File>, g: File, h: File)
    requires NoOverlap(fs, g) && h in fs && FileOk(g) && FileOk(h)
    ensures Above(h, g)
  {
    NoOverlapAbove(g, h);
  }

  lemma StaysAbove(s: State, p: Pending, outs: set<File>, i: nat, j: nat, f: File, g: File)
    requires Inv(s) && PendingOk(s, p) && Built(p, outs) && p.level + 1 < NUM_LEVELS && i < j < NUM_LEVELS
    requires var after := Compacted(s.levels, p.level, p.in0, p.in1, outs); f in after[i] && g in after[j]
    ensures Above(f, g)
  {
    hide LevelsOk, Contents, Unique, NewerThan, FileOk, Selected, FlushesNewer, FlushesBeside, Grown, Apart, Inv, PendingOk,
         Above, Built, Disjoint, ZeroRecency;
    LevelsThere(s);
    RecencyThere(s.levels, s.next);
    if j == p.level + 1 && g in outs {
      forall h | h in p.in0 + p.in1 ensures Above(f, h) {
        ShallowAbove(s, p, i, f, h);
      }
      OutputHeld(p, outs, g);
      AboveOutputs(f, g, p.in0 + p.in1);
    } else if i == p.level + 1 && f in outs {
      forall h | h in p.in0 + p.in1 ensures Above(h, g) {
        DeepBelow(s, p, j, g, h);
      }
      OutputHeld(p, outs, f);
      OutputsAbove(f, g, p.in0 + p.in1);
    }
  }

  lemma InstallRecency(s: State, p: Pending, outs: set<File>)
    requires Inv(s) && PendingOk(s, p) && Built(p, outs) && p.level + 1 < NUM_LEVELS
    ensures Recency(Compacted(s.levels, p.level, p.in0, p.in1, outs))
    ensures ZeroRecency(Compacted(s.levels, p.level, p.in0, p.in1, outs))
  {
    hide LevelsOk, Inv, PendingOk, Above, Built, Disjoint;
    LevelsThere(s);
    RecencyThere(s.levels, s.next);
    var after := Compacted(s.levels, p.level, p.in0, p.in1, outs);
    forall i, j, f, g | 0 <= i < j < NUM_LEVELS && f in after[i] && g in after[j] ensures Above(f, g) {
      StaysAbove(s, p, outs, i, j, f, g);
    }
  }

  lemma RecencyThere(ls: Levels, next: nat)
    requires LevelsOk(ls, next)
    ensures Recency(ls) && ZeroRecency(ls) && Disjoint(ls)
  {
    hide FilesOk, Disjoint, Recency, ZeroRecency, Numbered, Contents, Unique;
  }

  lemma OutputHeld(p: Pending, outs: set<File>, o: File)
    requires Built(p, outs) && o in outs
    ensures forall e :: e in o.entries ==> e in EntriesOf(p.in0 + p.in1)
  {
    assert forall e :: e in o.entries ==> e in EntriesOf(outs);
  }

  lemma OldBeside(p: Pending, outs: set<File>, next: nat, g: File, o: File)
    requires LevelsOk(p.base, next) && Selected(p.base, p.level, p.in0, p.in1) && Built(p, outs)
    requires g in p.base[p.level + 1] - p.in1 && o in outs
    ensures Apart(g, o) && Apart(o, g)
  {
    hide Contents, NoOverlap, Above, Apart, Disjoint, Recency, ZeroRecency, Numbered, Unique, EntriesOf, FileOk;
    OutputHeld(p, outs, o);
    OutputsApart(g, o, p.in0 + p.in1);
    ApartSymmetric(g, o);
  }

  lemma ApartSymmetric(f: File, g: File)
    ensures Apart(f, g) <==> Apart(g, f)
  {
  }

  lemma BesideOutput(s: State, p: Pending, outs: set<File>, h: File, o: File)
    requires PendingOk(s, p) && Built(p, outs) && p.level + 1 < NUM_LEVELS && Clear(s.levels, p, outs)
    requires h in s.levels[p.level + 1] && h !in p.in1 && o in outs
    ensures Apart(h, o) && Apart(o, h)
  {
    hide LevelsOk, Selected, FlushesNewer, FlushesBeside, Grown, Unused, Apart, Built, SmallestSnapshot;
    ApartSymmetric(h, o);
    if h in p.base[p.level + 1] {
      OldBeside(p, outs, s.next, h, o);
    } else {
      assert h in Flushes(s.levels, p.base, p.level + 1);
    }
  }

  lemma StaysApart(s: State, p: Pending, outs: set<File>, i: nat, f: File, g: File)
    requires Inv(s) && PendingOk(s, p) && Built(p, outs) && p.level + 1 < NUM_LEVELS && Clear(s.levels, p, outs)
    requires var after := Compacted(s.levels, p.level, p.in0, p.in1, outs);
             1 <= i < NUM_LEVELS && f in after[i] && g in after[i] && f != g
    ensures Apart(f, g)
  {
    hide LevelsOk, FileOk, EntriesOf, Apart, Inv, PendingOk, Compacted, Clear;
    LevelsThere(s);
    RecencyThere(s.levels, s.next);
    AfterMembers(s.levels, p, outs, i, f);
    AfterMembers(s.levels, p, outs, i, g);
    if i == p.level + 1 && f in outs && g !in outs {
      BesideOutput(s, p, outs, g, f);
    } else if i == p.level + 1 && f !in outs && g in outs {
      BesideOutput(s, p, outs, f, g);
    }
  }

  lemma LevelsThere(s: State)
    requires Inv(s)
    ensures LevelsOk(s.levels, s.next)
  {
    hide LevelsOk;
  }

  lemma BothAfter(s: State, p: Pending, outs: set<File>, f: File, o: File)
    requires PendingOk(s, p) && Built(p, outs) && p.level + 1 < NUM_LEVELS
    requires f in Flushes(s.levels, p.base, p.level + 1) && o in outs
    ensures var after := Compacted(s.levels, p.level, p.in0, p.in1, outs)[p.level + 1]; f in after && o in after && f != o
  {
    hide LevelsOk, FlushesNewer, FlushesBeside, Grown, EntriesOf, Apart, SmallestSnapshot;
    PendingFacts(s, p);
    assert f.number !in p.numbers && o.number in p.numbers;
  }

  lemma InstallDisjoint(s: State, p: Pending, outs: set<File>)
    requires Inv(s) && PendingOk(s, p) && Built(p, outs) && p.level + 1 < NUM_LEVELS
    ensures Disjoint(Compacted(s.levels, p.level, p.in0, p.in1, outs)) <==> Clear(s.levels, p, outs)
  {
    hide Inv, PendingOk, Built, Compacted, Apart, Flushes;
    var after := Compacted(s.levels, p.level, p.in0, p.in1, outs);
    if Clear(s.levels, p, outs) {
      forall i, f, g | 1 <= i < NUM_LEVELS && f in after[i] && g in after[i] && f != g ensures Apart(f, g) {
        StaysApart(s, p, outs, i, f, g);
      }
    }
    if Disjoint(after) {
      forall f, o | f in Flushes(s.levels, p.base, p.level + 1) && o in outs ensures Apart(f, o) {
        BothAfter(s, p, outs, f, o);
      }
    }
  }

  lemma InstallShrinks(s: State, p: Pending, outs: set<File>)
    requires Inv(s) && PendingOk(s, p) && Built(p, outs) && p.level + 1 < NUM_LEVELS
    ensures Contents(Compacted(s.levels, p.level, p.in0, p.in1, outs)) <= Contents(s.levels)
    ensures Unique(Contents(Compacted(s.levels, p.level, p.in0, p.in1, outs)))
  {
    hide LevelsOk, FlushesNewer, FlushesBeside, Grown, Unique, Contents, NewerThan, Compacted, Selected, Inv;
    PendingFacts(s, p);
    CompactShrinksContents(s.levels, p.level, p.in0, p.in1, outs);
    HeldContents(s);
    UniqueSubset(Contents(Compacted(s.levels, p.level, p.in0, p.in1, outs)), Contents(s.levels));
  }

  lemma HeldContents(s: State)
    requires Inv(s)
    ensures Unique(Contents(s.levels)) && Unique(Held(s))
  {
    hide LevelsOk, Contents, Unique, NewerThan;
    UniqueSubset(Contents(s.levels), s.history);
    UniqueSubset(Held(s), s.history);
  }

  /** Installing the outputs keeps the levels in order exactly when no output meets a file that was flushed to the output
      level while the compaction was at work. */
  lemma InstallKeepsIff(m: Machine, a: Action, m': Machine)
    requires MachineOk(m) && a.Install? && Act(m, a, m')
    ensures var p := m.pending.value; p.level + 1 < NUM_LEVELS && (MachineOk(m') <==> Clear(m.now.levels, p, a.outs))
  {
    var s, p, outs := m.now, m.pending.value, a.outs;
    PendingFacts(s, p);
    FilesThere(s.levels, s.next);
    InstallFiles(s.levels, s.next, p, outs);
    InstallRecency(s, p, outs);
    InstallDisjoint(s, p, outs);
    InstallShrinks(s, p, outs);
    InvBut(s, m'.now);
  }

  /** Shrinking the contents of the levels keeps everything but what the levels themselves promise. */
  lemma InvBut(s: State, t: State)
    requires Inv(s) && t == s.(levels := t.levels) && Contents(t.levels) <= Contents(s.levels)
    ensures Inv(t) <==> LevelsOk(t.levels, t.next)
  {
    hide LevelsOk, Contents, Unique;
  }

  // ---- Reads ---------------------------------------------------------------------------------------------------

  /** All that is newer than what the compaction was chosen from. */
  ghost function Top(s: State, p: Pending): set<Entry> {
    s.mem + Frozen(s) + set i, f, e | 0 <= i < NUM_LEVELS && f in Flushes(s.levels, p.base, i) && e in f.entries :: e
  }

  lemma HeldIsTop(s: State, p: Pending)
    requires Grown(s.levels, p.base)
    ensures Held(s) == Top(s, p) + Contents(p.base)
  {
    forall e | e in Contents(s.levels) ensures e in Top(s, p) + Contents(p.base) {
      var i, f :| 0 <= i < NUM_LEVELS && f in s.levels[i] && e in f.entries;
      if f !in p.base[i] {
        assert f in Flushes(s.levels, p.base, i);
      }
    }
    forall e | e in Top(s, p) + Contents(p.base) ensures e in Held(s) {
      if e in Contents(p.base) {
        var i, f :| 0 <= i < NUM_LEVELS && f in p.base[i] && e in f.entries;
        assert f in s.levels[i];
      } else if e !in s.mem + Frozen(s) {
        var i, f :| 0 <= i < NUM_LEVELS && f in Flushes(s.levels, p.base, i) && e in f.entries;
        assert f in s.levels[i];
      }
    }
  }

  lemma TopNewer(s: State, p: Pending)
    requires Inv(s) && Grown(s.levels, p.base) && FlushesNewer(s.levels, p.base)
    ensures NewerThan(Top(s, p), Contents(p.base))
  {
    hide LevelsOk, Unique, Contents;
    ContentsGrow(s.levels, p.base);
    forall x, y | x in Top(s, p) && y in Contents(p.base) ensures x.key.seqno > y.key.seqno {
      if x !in s.mem + Frozen(s) {
        var i, f :| 0 <= i < NUM_LEVELS && f in Flushes(s.levels, p.base, i) && x in f.entries;
        assert x in ToSet(f.entries);
      }
    }
  }

  /** After the installation: what was newer, on top of the compacted base. */
  lemma InstalledIsTop(s: State, p: Pending, outs: set<File>)
    requires PendingOk(s, p) && p.level + 1 < NUM_LEVELS
    ensures var t := s.(levels := Compacted(s.levels, p.level, p.in0, p.in1, outs));
            Held(t) == Top(s, p) + Contents(Compacted(p.base, p.level, p.in0, p.in1, outs))
  {
    PendingFacts(s, p);
    hide LevelsOk, Selected, FlushesNewer, FlushesBeside, Unused, Contents;
    var now', base' := Compacted(s.levels, p.level, p.in0, p.in1, outs), Compacted(p.base, p.level, p.in0, p.in1, outs);
    forall i | 0 <= i < NUM_LEVELS
      ensures base'[i] <= now'[i]
      ensures forall f :: f in now'[i] - base'[i] ==> f in Flushes(s.levels, p.base, i)
      ensures forall f :: f in Flushes(s.levels, p.base, i) ==> f in now'[i]
    {
      if i == p.level {
        assert now'[i] == s.levels[i] - p.in0 && base'[i] == p.base[i] - p.in0;
      } else if i == p.level + 1 {
        assert now'[i] == s.levels[i] - p.in1 + outs && base'[i] == p.base[i] - p.in1 + outs;
      }
    }
    SplitContents(s, p, now', base');
  }

  lemma SplitContents(s: State, p: Pending, now': Levels, base': Levels)
    requires forall i :: 0 <= i < NUM_LEVELS ==> base'[i] <= now'[i]
    requires forall i, f :: 0 <= i < NUM_LEVELS && f in now'[i] && f !in base'[i] ==> f in Flushes(s.levels, p.base, i)
    requires forall i, f :: 0 <= i < NUM_LEVELS && f in Flushes(s.levels, p.base, i) ==> f in now'[i]
    ensures s.mem + Frozen(s) + Contents(now') == Top(s, p) + Contents(base')
  {
    forall e | e in Contents(now') ensures e in Top(s, p) + Contents(base') {
      var i, f :| 0 <= i < NUM_LEVELS && f in now'[i] && e in f.entries;
      assert f in base'[i] || f in Flushes(s.levels, p.base, i);
    }
    forall e | e in Top(s, p) + Contents(base') ensures e in s.mem + Frozen(s) + Contents(now') {
      if e in Contents(base') {
        var i, f :| 0 <= i < NUM_LEVELS && f in base'[i] && e in f.entries;
        assert f in now'[i];
      } else if e !in s.mem + Frozen(s) {
        var i, f :| 0 <= i < NUM_LEVELS && f in Flushes(s.levels, p.base, i) && e in f.entries;
        assert f in now'[i];
      }
    }
  }

  /** The installation brings u back: the compaction resurrects it, and the smallest live snapshot sees nothing of u but
      what was there at the compaction's own smallest snapshot. */
  ghost predicate Breaks(m: Machine, u: UserKey) {
    && m.pending.Some? && var (s, p) := (m.now, m.pending.value);
    && p.level + 1 < NUM_LEVELS && Resurrects(p.base, p.level, p.in0, p.in1, p.smallest, u)
    && forall x :: x in Held(s) && x.key.user == u && x.key.seqno <= SmallestSnapshot(s)
                   ==> x in Contents(p.base) && x.key.seqno <= p.smallest
  }

  /** An entry that not every snapshot of the compaction sees is never dropped, nor is what it hides read. */
  lemma RecentKept(es: set<Entry>, input: seq<Entry>, smallest: nat, deeper: set<File>, u: UserKey, q: nat, x: Entry)
    requires Sorted(input) && Unique(es) && ToSet(input) <= es && smallest < MAX_SEQUENCE
    requires x in es && x.key.user == u && smallest < x.key.seqno <= q
    ensures Read(Remaining(es, input, smallest, deeper), u, q) == Read(es, u, q)
  {
    var after := Remaining(es, input, smallest, deeper);
    RemainingShrinks(es, input, smallest, deeper);
    var e := NewestExists(es, u, q, x);
    if e in input {
      var k :| 0 <= k < |input| && input[k] == e;
      NewestNotHidden(es, input, smallest, k, q);
      SurvivorsAre(input, |input|, smallest, deeper);
      assert e in after;
    }
    assert Newest(after, u, q, e);
    ReadIsNewest(es, u, q, e);
    ReadIsNewest(after, u, q, e);
  }

  lemma BaseKept(p: Pending, next: nat, input: seq<Entry>, outs: set<File>, u: UserKey, q: nat, x: Entry)
    requires LevelsOk(p.base, next) && Selected(p.base, p.level, p.in0, p.in1) && p.smallest < MAX_SEQUENCE
    requires Writes(p.base, p.level, p.in0, p.in1, input, p.smallest, outs)
    requires x in Contents(p.base) && x.key.user == u && p.smallest < x.key.seqno <= q
    ensures Read(Contents(Compacted(p.base, p.level, p.in0, p.in1, outs)), u, q) == Read(Contents(p.base), u, q)
  {
    CompactedIsRemaining(p.base, next, p.level, p.in0, p.in1, input, p.smallest, outs);
    hide Contents, Selected, FilesOk, Disjoint, Recency, ZeroRecency, Numbered, EntriesOf, Survivors, Deeper, Remaining;
    RecentKept(Contents(p.base), input, p.smallest, Deeper(p.base, p.level), u, q, x);
  }

  /** The two states of an installation, seen as layers. */
  lemma Layers(m: Machine, a: Action, m': Machine)
    requires MachineOk(m) && a.Install? && Act(m, a, m')
    ensures var (s, t, p) := (m.now, m'.now, m.pending.value);
            var (top, low, low') := (Top(s, p), Contents(p.base), Contents(Compacted(p.base, p.level, p.in0, p.in1, a.outs)));
            && Held(s) == top + low && Held(t) == top + low' && NewerThan(top, low) && NewerThan(top, low') && low' <= low
            && Unique(top + low) && Unique(top + low') && SmallestSnapshot(t) == SmallestSnapshot(s) && t.history == s.history
  {
    hide LevelsOk, Selected, FlushesBeside, Unused, Contents, Compacted, Writes, Top, Unique, Inv, Built;
    var s, p := m.now, m.pending.value;
    HeldIsTop(s, p);
    TopNewer(s, p);
    InstalledIsTop(s, p, a.outs);
    HeldContents(s);
    ShrunkBase(s, p, a.outs);
    UniqueSubset(Held(m'.now), Held(s));
  }

  lemma ShrunkBase(s: State, p: Pending, outs: set<File>)
    requires PendingOk(s, p) && Built(p, outs) && p.level + 1 < NUM_LEVELS
    ensures Contents(Compacted(p.base, p.level, p.in0, p.in1, outs)) <= Contents(p.base)
  {
    PendingFacts(s, p);
    hide LevelsOk, Selected, FlushesNewer, FlushesBeside, Grown, Unused, Contents, Compacted;
    CompactShrinksContents(p.base, p.level, p.in0, p.in1, outs);
  }

  lemma InstallFacts(m: Machine, a: Action, m': Machine)
    requires MachineOk(m) && a.Install? && Act(m, a, m')
    ensures m.pending.Some?
    ensures var (s, p) := (m.now, m.pending.value);
            && p.level + 1 < NUM_LEVELS && LevelsOk(p.base, s.next) && Selected(p.base, p.level, p.in0, p.in1)
            && p.smallest <= SmallestSnapshot(s) && p.smallest < MAX_SEQUENCE
            && Writes(p.base, p.level, p.in0, p.in1, a.input, p.smallest, a.outs)
            && SmallestSnapshot(m'.now) == SmallestSnapshot(s) && m'.now.history == s.history
  {
    hide LevelsOk, Selected, Writes, Inv, Grown, FlushesNewer, FlushesBeside, Unused, Built, Compacted;
  }

  /** A key that is not broken and that nothing newer decides. */
  lemma BaseReadKept(m: Machine, a: Action, m': Machine, u: UserKey, q: nat)
    requires MachineOk(m) && a.Install? && Act(m, a, m') && SmallestSnapshot(m.now) <= q && !Breaks(m, u)
    requires forall x :: x in Top(m.now, m.pending.value) && x.key.user == u ==> x.key.seqno > q
    ensures m.pending.value.level + 1 < NUM_LEVELS
    ensures var p := m.pending.value;
            Read(Contents(Compacted(p.base, p.level, p.in0, p.in1, a.outs)), u, q) == Read(Contents(p.base), u, q)
  {
    hide MachineOk, Act, LevelsOk, Selected, Writes, Contents, Compacted, Top, Unique, NewerThan, Held, Resurrects, Read;
    InstallFacts(m, a, m');
    Layers(m, a, m');
    var s, p := m.now, m.pending.value;
    if Resurrects(p.base, p.level, p.in0, p.in1, p.smallest, u) {
      var x :| x in Held(s) && x.key.user == u && x.key.seqno <= SmallestSnapshot(s)
               && !(x in Contents(p.base) && x.key.seqno <= p.smallest);
      BaseKept(p, s.next, a.input, a.outs, u, q, x);
    } else {
      NoResurrectionPreserves(p.base, s.next, p.level, p.in0, p.in1, a.input, p.smallest, a.outs, u, q);
    }
  }

  lemma KeptUnlessBroken(m: Machine, a: Action, m': Machine, u: UserKey, q: nat)
    requires MachineOk(m) && a.Install? && Act(m, a, m') && SmallestSnapshot(m.now) <= q && !Breaks(m, u)
    ensures Read(Held(m'.now), u, q) == Read(Held(m.now), u, q)
  {
    hide MachineOk, Act, Contents, Compacted, Top, Unique, NewerThan, Held, Read, Breaks;
    InstallFacts(m, a, m');
    Layers(m, a, m');
    var p := m.pending.value;
    var top, low := Top(m.now, p), Contents(p.base);
    var low' := Contents(Compacted(p.base, p.level, p.in0, p.in1, a.outs));
    Layered(top, low, u, q);
    Layered(top, low', u, q);
    if forall x :: x in top && x.key.user == u ==> x.key.seqno > q {
      BaseReadKept(m, a, m', u, q);
    }
  }

  lemma BrokenChanges(m: Machine, a: Action, m': Machine, u: UserKey)
    requires MachineOk(m) && a.Install? && Act(m, a, m') && Breaks(m, u)
    ensures var q := SmallestSnapshot(m.now); Read(Held(m.now), u, q) == None && Read(Held(m'.now), u, q) != None
  {
    hide MachineOk, Act, LevelsOk, Selected, Writes, Contents, Compacted, Top, Unique, NewerThan, Held, Resurrects, Read, Breaks;
    InstallFacts(m, a, m');
    Layers(m, a, m');
    BreaksFacts(m, u);
    var s, p := m.now, m.pending.value;
    var q := SmallestSnapshot(s);
    var top, low := Top(s, p), Contents(p.base);
    var low' := Contents(Compacted(p.base, p.level, p.in0, p.in1, a.outs));
    ResurrectionChanges(p.base, s.next, p.level, p.in0, p.in1, a.input, p.smallest, a.outs, u);
    forall x | x in top && x.key.user == u ensures x.key.seqno > q {
      if x.key.seqno <= q {
        NotBoth(top, low, x);
      }
    }
    Layered(top, low, u, q);
    Layered(top, low', u, q);
    UniqueSubset(low, top + low);
    UniqueSubset(low', top + low);
    SameVisible(low, low, u, q, p.smallest);
    SameVisible(low', low', u, q, p.smallest);
  }

  lemma BreaksFacts(m: Machine, u: UserKey)
    requires MachineOk(m) && Breaks(m, u)
    ensures var (s, p) := (m.now, m.pending.value);
            && Resurrects(p.base, p.level, p.in0, p.in1, p.smallest, u) && p.smallest <= SmallestSnapshot(s)
            && forall x :: x in Held(s) && x.key.user == u && x.key.seqno <= SmallestSnapshot(s)
                           ==> x in Contents(p.base) && x.key.seqno <= p.smallest
  {
    hide LevelsOk, Contents, Held, Resurrects, Inv;
  }

  lemma NotBoth(top: set<Entry>, low: set<Entry>, x: Entry)
    requires NewerThan(top, low) && x in top
    ensures x !in low
  {
  }

  /** With reads true to the history before it, an installation keeps them so exactly when it brings no key back. */
  lemma InstallKeepsReadsIff(m: Machine, a: Action, m': Machine)
    requires MachineOk(m) && Faithful(m.now) && a.Install? && Act(m, a, m')
    ensures Faithful(m'.now) <==> forall u :: !Breaks(m, u)
  {
    hide MachineOk, Act, Held, Read, Breaks;
    InstallFacts(m, a, m');
    if u :| Breaks(m, u) {
      BrokenChanges(m, a, m', u);
    } else {
      forall u, q | SmallestSnapshot(m'.now) <= q ensures Read(Held(m'.now), u, q) == Read(m'.now.history, u, q) {
        KeptUnlessBroken(m, a, m', u, q);
      }
    }
  }

  // ---- Runs ----------------------------------------------------------------------------------------------------

  ghost predicate Run(ms: seq<Machine>, as': seq<Action>) {
    && |ms| == |as'| + 1 && Init(ms[0].now) && ms[0].pending == None
    && forall i :: 0 <= i < |as'| ==> Act(ms[i], as'[i], ms[i + 1])
  }

  /** An installation that meets no file flushed meanwhile. */
  ghost predicate Meetless(m: Machine, a: Action) {
    a.Install? && m.pending.Some? && m.pending.value.level + 1 < NUM_LEVELS ==> Clear(m.now.levels, m.pending.value, a.outs)
  }

  lemma StartsOk(m: Machine)
    requires Init(m.now) && m.pending == None
    ensures MachineOk(m) && Faithful(m.now)
  {
    hide Inv, Faithful;
    InitFine(m.now);
  }

  lemma MeetlessKeeps(m: Machine, a: Action, m': Machine)
    requires MachineOk(m) && Act(m, a, m') && Meetless(m, a)
    ensures MachineOk(m')
  {
    hide MachineOk, Act, Clear;
    if a.Install? {
      InstallFacts(m, a, m');
      InstallKeepsIff(m, a, m');
    } else {
      ActKeeps(m, a, m');
    }
  }

  /** Over every run in which no output meets a file flushed while its compaction was at work, the invariant holds. */
  lemma {:induction false} RunsStayOk(ms: seq<Machine>, as': seq<Action>, n: nat)
    requires Run(ms, as') && n <= |as'| && forall i :: 0 <= i < n ==> Meetless(ms[i], as'[i])
    ensures MachineOk(ms[n])
  {
    hide MachineOk, Act, Meetless, Init;
    if n == 0 {
      StartsOk(ms[0]);
    } else {
      RunsStayOk(ms, as', n - 1);
      assert Act(ms[n - 1], as'[n - 1], ms[n]);
      MeetlessKeeps(ms[n - 1], as'[n - 1], ms[n]);
    }
  }

  lemma PlainKeepsFaithful(m: Machine, a: Action, m': Machine)
    requires MachineOk(m) && Faithful(m.now) && Act(m, a, m') && !a.Install?
    ensures Faithful(m'.now)
  {
    hide Inv, Faithful, Step, Selected, Unsafe, PendingOk;
    match a
    case Plain(l) =>
      forall u ensures !Unsafe(m.now, l, u) {
        OnlyCompactions(m.now, l, u);
      }
      StepKeepsFaithful(m.now, l, m'.now);
    case Begin(_, _, _) =>
    case NewNumber => OnlyNext(m.now, m'.now);
  }

  lemma OnlyCompactions(s: State, l: Label, u: UserKey)
    requires !l.Compact?
    ensures !Unsafe(s, l, u)
  {
  }

  lemma OnlyNext(s: State, t: State)
    requires Faithful(s) && t == s.(next := t.next)
    ensures Faithful(t)
  {
    hide Read, Contents;
    assert Held(t) == Held(s);
  }

  /** And if besides no installation brings a key back, every read at a live or future snapshot returns the newest value
      ever written to the key at or before it. */
  lemma {:induction false} RunsStayFaithful(ms: seq<Machine>, as': seq<Action>, n: nat)
    requires Run(ms, as') && n <= |as'| && forall i :: 0 <= i < n ==> Meetless(ms[i], as'[i])
    requires forall i, u :: 0 <= i < n && as'[i].Install? ==> !Breaks(ms[i], u)
    ensures Faithful(ms[n].now)
  {
    hide MachineOk, Act, Meetless, Init, Faithful, Breaks;
    if n == 0 {
      StartsOk(ms[0]);
    } else {
      RunsStayFaithful(ms, as', n - 1);
      RunsStayOk(ms, as', n - 1);
      assert Act(ms[n - 1], as'[n - 1], ms[n]);
      if as'[n - 1].Install? {
        InstallKeepsReadsIff(ms[n - 1], as'[n - 1], ms[n]);
      } else {
        PlainKeepsFaithful(ms[n - 1], as'[n - 1], ms[n]);
      }
    }
  }

  // ---- In one piece --------------------------------------------------------------------------------------------

  ghost predicate Leads(ms: seq<Machine>, as': seq<Action>) {
    |ms| == |as'| + 1 && forall i :: 0 <= i < |as'| ==> Act(ms[i], as'[i], ms[i + 1])
  }

  lemma Goes(ms: seq<Machine>, as': seq<Action>, a: Action, m: Machine)
    requires Leads(ms, as') && Act(ms[|ms| - 1], a, m)
    ensures Leads(ms + [m], as' + [a])
  {
    hide Act;
    var ms', bs := ms + [m], as' + [a];
    forall i | 0 <= i < |bs| ensures Act(ms'[i], bs[i], ms'[i + 1]) {
      if i < |as'| {
        assert ms'[i] == ms[i] && bs[i] == as'[i] && ms'[i + 1] == ms[i + 1];
      }
    }
  }

  function From(n: nat, k: nat): (r: set<nat>)
    ensures forall x :: x in r <==> n <= x < n + k
  {
    if k == 0 then {} else From(n, k - 1) + {n + k - 1}
  }

  lemma {:induction false} TakeNumbers(s: State, p: Pending, k: nat) returns (ms: seq<Machine>, as': seq<Action>)
    ensures Leads(ms, as') && ms[0] == Machine(s, Some(p))
    ensures ms[|ms| - 1] == Machine(s.(next := s.next + k), Some(p.(numbers := p.numbers + From(s.next, k))))
  {
    if k == 0 {
      ms, as' := [Machine(s, Some(p))], [];
      assert p.numbers + From(s.next, 0) == p.numbers && p == p.(numbers := p.numbers);
    } else {
      ms, as' := TakeNumbers(s, p, k - 1);
      var m := ms[|ms| - 1];
      var p' := m.pending.value;
      var m' := Machine(m.now.(next := m.now.next + 1), Some(p'.(numbers := p'.numbers + {m.now.next})));
      Goes(ms, as', NewNumber, m');
      assert p.numbers + From(s.next, k - 1) + {s.next + (k - 1)} == p.numbers + From(s.next, k);
      ms, as' := ms + [m'], as' + [NewNumber];
    }
  }

  /** A compaction step of the state machine is one that nothing happens during. */
  lemma InOnePiece(s: State, l: Label, t: State) returns (ms: seq<Machine>, as': seq<Action>)
    requires l.Compact? && Step(s, l, t)
    ensures Leads(ms, as') && ms[0] == Machine(s, None) && ms[|ms| - 1] == Machine(t, None)
  {
    hide Selected, Writes, Compacted, Leads, SmallestSnapshot;
    ChosenLevel(s, l, t);
    var p := Pending(l.level, l.in0, l.in1, s.levels, SmallestSnapshot(s), {});
    var ns, bs := TakeNumbers(s, p, l.next' - s.next);
    var p' := p.(numbers := {} + From(s.next, l.next' - s.next));
    var m, m' := Machine(s, None), Machine(t, None);
    InstallsAtOnce(s, l, t, p');
    ms, as' := Before(m, Begin(l.level, l.in0, l.in1), ns, bs);
    Goes(ms, as', Install(l.input, l.outs), m');
    ms, as' := ms + [m'], as' + [Install(l.input, l.outs)];
    LeadsFacts(ms, as');
  }

  lemma LeadsFacts(ms: seq<Machine>, as': seq<Action>)
    requires Leads(ms, as')
    ensures ms != []
  {
  }

  lemma ChosenLevel(s: State, l: Label, t: State)
    requires l.Compact? && Step(s, l, t)
    ensures l.level + 1 < NUM_LEVELS && s.next <= l.next' && Selected(s.levels, l.level, l.in0, l.in1)
  {
  }

  lemma InstallsAtOnce(s: State, l: Label, t: State, p: Pending)
    requires l.Compact? && Step(s, l, t) && l.level + 1 < NUM_LEVELS && s.next <= l.next'
    requires p == Pending(l.level, l.in0, l.in1, s.levels, SmallestSnapshot(s), From(s.next, l.next' - s.next))
    ensures Act(Machine(s.(next := l.next'), Some(p)), Install(l.input, l.outs), Machine(t, None))
  {
    hide Selected, Writes, Compacted, EntriesOf, FileOk, Apart;
  }

  lemma Before(m: Machine, a: Action, ns: seq<Machine>, bs: seq<Action>) returns (ms: seq<Machine>, as': seq<Action>)
    requires Leads(ns, bs) && Act(m, a, ns[0])
    ensures Leads(ms, as') && ms == [m] + ns && as' == [a] + bs
  {
    hide Act;
    ms, as' := [m] + ns, [a] + bs;
    forall i | 0 <= i < |as'| ensures Act(ms[i], as'[i], ms[i + 1]) {
      if i > 0 {
        assert ms[i] == ns[i - 1] && as'[i] == bs[i - 1] && ms[i + 1] == ns[i];
      }
    }
  }
}
