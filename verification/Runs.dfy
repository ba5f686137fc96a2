/** The engine as a state machine: writes, memtable switches, flushes, compactions, moves and snapshots, against
    the history of everything ever written. */
module Runs {
  import opened InternalKeys
  import opened Visibility
  import opened Batches
  import opened Levels
  import opened CompactionReads

  datatype State = State(mem: set<Entry>, imm: Option<set<Entry>>, levels: Levels, next: nat, last: nat,
                         snapshots: seq<nat>, history: set<Entry>)

  ghost function Frozen(s: State): set<Entry> {
    if s.imm.Some? then s.imm.value else {}
  }

  /** Every entry the engine holds. */
  ghost function Held(s: State): set<Entry> {
    s.mem + Frozen(s) + Contents(s.levels)
  }

  /** The sequence number below which entries may be merged away. */
  function SmallestSnapshot(s: State): nat {
    if s.snapshots == [] then s.last else s.snapshots[0]
  }

  datatype Label =
    | Write(ops: seq<Op>)
    | Switch
    | FlushNothing
    | Flush(file: File, level: nat)
    | Compact(level: nat, in0: set<File>, in1: set<File>, input: seq<Entry>, outs: set<File>, next': nat)
    | Move(level: nat, file: File)
    | TakeSnapshot
    | ReleaseSnapshot(index: nat)

  ghost predicate Step(s: State, l: Label, t: State) {
    match l
    case Write(ops) =>
      && s.last + |ops| < MAX_SEQUENCE
      && t == s.(mem := s.mem + Numbering(ops, s.last + 1), last := s.last + |ops|,
                 history := s.history + Numbering(ops, s.last + 1))
    case Switch =>
      s.imm == None && t == s.(mem := {}, imm := Some(s.mem))
    case FlushNothing =>
      s.imm == Some({}) && t == s.(imm := None, next := s.next + 1)
    case Flush(f, level) =>
      && s.imm.Some? && ToSet(f.entries) == s.imm.value && FlushFits(s.levels, s.next, f, level)
      && t == s.(imm := None, levels := Flushed(s.levels, f, level), next := s.next + 1)
    case Compact(level, in0, in1, input, outs, next') =>
      && Selected(s.levels, level, in0, in1)
      && Writes(s.levels, level, in0, in1, input, SmallestSnapshot(s), outs)
      && OutputsFit(outs, in0 + in1, s.next, next') && s.next <= next'
      && t == s.(levels := Compacted(s.levels, level, in0, in1, outs), next := next')
    case Move(level, f) =>
      && Selected(s.levels, level, {f}, {})
      && t == s.(levels := Compacted(s.levels, level, {f}, {}, {f}))
    case TakeSnapshot =>
      t == s.(snapshots := s.snapshots + [s.last])
    case ReleaseSnapshot(i) =>
      i < |s.snapshots| && t == s.(snapshots := s.snapshots[..i] + s.snapshots[i + 1..])
  }

  ghost predicate NewerThan(a: set<Entry>, b: set<Entry>) {
    forall x, y :: x in a && y in b ==> x.key.seqno > y.key.seqno
  }

  /** What holds in every reachable state, whatever compactions do to reads. */
  ghost predicate Inv(s: State) {
    && LevelsOk(s.levels, s.next)
    && Unique(s.history) && Held(s) <= s.history
    && (forall e :: e in s.history ==> e.key.seqno <= s.last) && s.last < MAX_SEQUENCE
    && NewerThan(s.mem, Frozen(s)) && NewerThan(s.mem, Contents(s.levels)) && NewerThan(Frozen(s), Contents(s.levels))
    && (forall i, j :: 0 <= i <= j < |s.snapshots| ==> s.snapshots[i] <= s.snapshots[j])
    && (forall i :: 0 <= i < |s.snapshots| ==> s.snapshots[i] <= s.last)
  }

  /** Every live snapshot, and every one that can still be taken, reads what the history says. */
  ghost predicate Faithful(s: State) {
    forall u, q :: SmallestSnapshot(s) <= q ==> Read(Held(s), u, q) == Read(s.history, u, q)
  }

  ghost predicate Init(s: State) {
    s == State({}, None, seq(NUM_LEVELS, _ => {}), 2, 0, [], {})
  }

  /** The step is a compaction that resurrects a key nothing newer hides. */
  ghost predicate Unsafe(s: State, l: Label, u: UserKey) {
    && l.Compact? && l.level + 1 < NUM_LEVELS
    && Resurrects(s.levels, l.level, l.in0, l.in1, SmallestSnapshot(s), u)
    && forall x :: x in s.mem + Frozen(s) && x.key.user == u ==> x.key.seqno > SmallestSnapshot(s)
  }

  // ---- Reads through layers ----------------------------------------------------------------------------------

  /** When the upper layer holds only newer entries, what it sees of u decides; otherwise the lower layer does. */
  lemma Layered(top: set<Entry>, bottom: set<Entry>, u: UserKey, q: nat)
    requires Unique(top + bottom) && NewerThan(top, bottom)
    ensures (forall x :: x in top && x.key.user == u ==> x.key.seqno > q)
            ==> Read(top + bottom, u, q) == Read(bottom, u, q)
    ensures !(forall x :: x in top && x.key.user == u ==> x.key.seqno > q)
            ==> Read(top + bottom, u, q) == Read(top, u, q)
  {
    var all := top + bottom;
    if forall x :: x in top && x.key.user == u ==> x.key.seqno > q {
      if e :| Newest(bottom, u, q, e) {
        assert Newest(all, u, q, e);
      } else {
        if e :| Newest(all, u, q, e) {
          assert Newest(bottom, u, q, e);
        }
      }
    } else {
      var x :| x in top && x.key.user == u && x.key.seqno <= q;
      var e := NewestExists(top, u, q, x);
      assert Newest(all, u, q, e);
    }
  }

  lemma UniqueSubset(a: set<Entry>, b: set<Entry>)
    requires a <= b && Unique(b)
    ensures Unique(a)
  {
  }

  // ---- Steps keep the invariant ------------------------------------------------------------------------------

  lemma WriteKeepsInv(s: State, ops: seq<Op>, t: State)
    requires Inv(s) && Step(s, Write(ops), t)
    ensures Inv(t)
  {
    NumberingBounds(ops, s.last + 1);
    hide LevelsOk, Contents, Numbering;
    assert forall e :: e in Held(s) ==> e in s.history;
  }

  lemma FlushFitsLevel(ls: Levels, next: nat, f: File, level: nat)
    requires FlushFits(ls, next, f, level)
    ensures level < NUM_LEVELS
  {
  }

  lemma FlushKeepsOrder(mem: set<Entry>, imm: set<Entry>, below: set<Entry>)
    requires NewerThan(mem, imm) && NewerThan(mem, below)
    ensures NewerThan(mem, below + imm) && NewerThan(mem, {}) && NewerThan({}, below + imm)
  {
  }

  lemma FlushKeepsInv(s: State, f: File, level: nat, t: State)
    requires Inv(s) && Step(s, Flush(f, level), t)
    ensures Inv(t) && Held(t) == Held(s)
  {
    hide LevelsOk, Contents, Flushed, FlushFits, Unique, NewerThan;
    FlushFitsLevel(s.levels, s.next, f, level);
    FlushKeepsLevels(s.levels, s.next, f, level);
    FlushedContents(s.levels, f, level);
    FlushKeepsOrder(s.mem, s.imm.value, Contents(s.levels));
  }

  lemma CompactKeepsInv(s: State, l: Label, t: State)
    requires Inv(s) && l.Compact? && Step(s, l, t)
    ensures Inv(t) && Held(t) <= Held(s)
  {
    assert l.in0 <= s.levels[l.level] && l.in1 <= s.levels[l.level + 1];
    assert EntriesOf(l.outs) <= EntriesOf(l.in0 + l.in1);
    hide LevelsOk, Contents, Compacted, Selected, Writes, OutputsFit, Unique;
    CompactKeepsLevels(s.levels, s.next, l.level, l.in0, l.in1, l.outs, l.next');
    CompactShrinksContents(s.levels, l.level, l.in0, l.in1, l.outs);
  }

  lemma MoveKeepsInv(s: State, level: nat, f: File, t: State)
    requires Inv(s) && Step(s, Move(level, f), t)
    ensures Inv(t) && Held(t) == Held(s)
  {
    MoveKeepsLevels(s.levels, s.next, level, f);
    hide LevelsOk, Contents, Compacted, Selected, Unique;
  }

  lemma NextKeepsLevels(ls: Levels, next: nat)
    requires LevelsOk(ls, next)
    ensures LevelsOk(ls, next + 1)
  {
    hide FilesOk, Disjoint, Recency, ZeroRecency, Contents, Unique;
  }

  /** Every step keeps the invariant, compactions included. */
  lemma StepKeepsInv(s: State, l: Label, t: State)
    requires Inv(s) && Step(s, l, t)
    ensures Inv(t)
  {
    match l
    case Write(ops) => WriteKeepsInv(s, ops, t);
    case Flush(f, level) => FlushKeepsInv(s, f, level, t);
    case Compact(_, _, _, _, _, _) => CompactKeepsInv(s, l, t);
    case Move(level, f) => MoveKeepsInv(s, level, f, t);
    case FlushNothing =>
      NextKeepsLevels(s.levels, s.next);
      hide LevelsOk, Contents, Unique;
    case Switch =>
      hide LevelsOk, Contents, Unique;
    case TakeSnapshot =>
      hide LevelsOk, Contents, Unique;
    case ReleaseSnapshot(i) =>
      hide LevelsOk, Contents, Unique;
  }

  // ---- Steps keep reads --------------------------------------------------------------------------------------

  lemma AddedOnTop(added: set<Entry>, held: set<Entry>, history: set<Entry>, u: UserKey, q: nat)
    requires Unique(added + history) && held <= history && NewerThan(added, history)
    requires Read(held, u, q) == Read(history, u, q)
    ensures Read(added + held, u, q) == Read(added + history, u, q)
  {
    UniqueSubset(added + held, added + history);
    hide Read, Unique;
    Layered(added, held, u, q);
    Layered(added, history, u, q);
  }

  lemma WriteFacts(s: State, ops: seq<Op>, t: State)
    requires Inv(s) && Step(s, Write(ops), t)
    ensures Held(t) == Numbering(ops, s.last + 1) + Held(s)
    ensures t.history == Numbering(ops, s.last + 1) + s.history
    ensures Unique(t.history) && Held(s) <= s.history && NewerThan(Numbering(ops, s.last + 1), s.history)
    ensures SmallestSnapshot(s) <= SmallestSnapshot(t)
  {
    hide LevelsOk, Contents;
    WriteKeepsInv(s, ops, t);
    NumberingBounds(ops, s.last + 1);
    hide Numbering, Unique;
  }

  /** What a write of a batch does to reads, at every point inside it: the last of its first n operations on a key is read
      there, and of other keys what was read before. */
  lemma WriteThenRead(s: State, ops: seq<Op>, t: State, n: nat, u: UserKey)
    requires Inv(s) && Step(s, Write(ops), t) && n <= |ops|
    ensures Read(Held(t), u, s.last + n) == Latest(ops[..n], u, Read(Held(s), u, s.last))
  {
    hide Inv, Step, Held, Numbering, Read, Unique, NewerThan, Latest;
    WriteFacts(s, ops, t);
    HeldBounded(s);
    UniqueSubset(Numbering(ops, s.last + 1) + Held(s), t.history);
    ReadsLatest(ops, s.last + 1, Held(s), n, u);
  }

  lemma HeldBounded(s: State)
    requires Inv(s)
    ensures forall e :: e in Held(s) ==> e.key.seqno <= s.last
  {
    hide LevelsOk, Contents, Unique;
  }

  lemma WriteKeepsReads(s: State, ops: seq<Op>, t: State)
    requires Inv(s) && Faithful(s) && Step(s, Write(ops), t)
    ensures Faithful(t)
  {
    hide Inv, Step, Held, Numbering, Read, Unique, NewerThan;
    WriteFacts(s, ops, t);
    forall u, q | SmallestSnapshot(t) <= q
      ensures Read(Held(t), u, q) == Read(t.history, u, q)
    {
      AddedOnTop(Numbering(ops, s.last + 1), Held(s), s.history, u, q);
    }
  }

  /** A compaction preserves what readers see exactly when it is safe for every key. */
  lemma CompactKeepsReadsIff(s: State, l: Label, t: State)
    requires Inv(s) && Faithful(s) && l.Compact? && Step(s, l, t)
    ensures Faithful(t) <==> forall u :: !Unsafe(s, l, u)
  {
    hide Inv, Step, Held, Read, Unsafe;
    CompactKeepsInv(s, l, t);
    CompactFacts(s, l, t);
    if u :| Unsafe(s, l, u) {
      UnsafeKeyChanges(s, l, t, u);
    } else {
      forall u, q | SmallestSnapshot(t) <= q
        ensures Read(Held(t), u, q) == Read(t.history, u, q)
      {
        SafeKeyKept(s, l, t, u, q);
      }
    }
  }

  lemma CompactFacts(s: State, l: Label, t: State)
    requires Inv(s) && l.Compact? && Step(s, l, t)
    ensures SmallestSnapshot(t) == SmallestSnapshot(s) && t.history == s.history
  {
  }

  lemma UnsafeKeyChanges(s: State, l: Label, t: State, u: UserKey)
    requires Inv(s) && Inv(t) && l.Compact? && Step(s, l, t) && Unsafe(s, l, u)
    ensures Read(Held(s), u, SmallestSnapshot(s)) == None && Read(Held(t), u, SmallestSnapshot(s)) != None
  {
    hide LevelsOk, Contents, Selected, Writes, OutputsFit, Unique, Resurrects, Compacted, Read;
    var smallest, top := SmallestSnapshot(s), s.mem + Frozen(s);
    assert Held(s) == top + Contents(s.levels) && Held(t) == top + Contents(t.levels);
    UniqueSubset(Held(s), s.history);
    UniqueSubset(Held(t), s.history);
    ResurrectionChanges(s.levels, s.next, l.level, l.in0, l.in1, l.input, smallest, l.outs, u);
    Layered(top, Contents(s.levels), u, smallest);
    Layered(top, Contents(t.levels), u, smallest);
  }

  lemma SafeKeyKept(s: State, l: Label, t: State, u: UserKey, q: nat)
    requires Inv(s) && Inv(t) && l.Compact? && Step(s, l, t)
    requires SmallestSnapshot(s) <= q && !Unsafe(s, l, u)
    ensures Read(Held(t), u, q) == Read(Held(s), u, q)
  {
    hide LevelsOk, Contents, Selected, Writes, OutputsFit, Unique, Resurrects, Compacted, Read;
    var smallest, top := SmallestSnapshot(s), s.mem + Frozen(s);
    assert Held(s) == top + Contents(s.levels) && Held(t) == top + Contents(t.levels);
    UniqueSubset(Held(s), s.history);
    UniqueSubset(Held(t), s.history);
    Layered(top, Contents(s.levels), u, q);
    Layered(top, Contents(t.levels), u, q);
    SelectedFacts(s.levels, l.level, l.in0, l.in1);
    if forall x :: x in top && x.key.user == u ==> x.key.seqno > q {
      NoResurrectionPreserves(s.levels, s.next, l.level, l.in0, l.in1, l.input, smallest, l.outs, u, q);
    }
  }

  lemma ReleaseKeepsReads(s: State, i: nat, t: State)
    requires Inv(s) && Faithful(s) && Step(s, ReleaseSnapshot(i), t)
    ensures Faithful(t)
  {
    hide LevelsOk, Contents, Unique, Read;
    assert SmallestSnapshot(s) <= SmallestSnapshot(t);
    assert Held(t) == Held(s);
  }

  /** Every step but an unsafe compaction keeps all reads true to the history. */
  lemma StepKeepsFaithful(s: State, l: Label, t: State)
    requires Inv(s) && Faithful(s) && Step(s, l, t) && forall u :: !Unsafe(s, l, u)
    ensures Faithful(t)
  {
    match l
    case Write(ops) => WriteKeepsReads(s, ops, t);
    case Flush(f, level) => FlushKeepsInv(s, f, level, t); hide LevelsOk, Contents, Unique, Read, Held;
    case Compact(_, _, _, _, _, _) => CompactKeepsReadsIff(s, l, t);
    case Move(level, f) => MoveKeepsInv(s, level, f, t); hide LevelsOk, Contents, Unique, Read, Held;
    case Switch => hide LevelsOk, Contents, Unique, Read; assert Held(t) == Held(s);
    case FlushNothing => hide LevelsOk, Contents, Unique, Read; assert Held(t) == Held(s);
    case TakeSnapshot => hide LevelsOk, Contents, Unique, Read; assert Held(t) == Held(s);
    case ReleaseSnapshot(i) => ReleaseKeepsReads(s, i, t);
  }

  // ---- Whole runs --------------------------------------------------------------------------------------------

  ghost predicate Run(states: seq<State>, labels: seq<Label>) {
    && |states| == |labels| + 1 && Init(states[0])
    && forall i :: 0 <= i < |labels| ==> Step(states[i], labels[i], states[i + 1])
  }

  lemma InitFine(s: State)
    requires Init(s)
    ensures Inv(s) && Faithful(s)
  {
    assert Contents(s.levels) == {};
    assert Held(s) == {};
  }

  /** Over every run, levels stay sorted by recency, disjoint and numbered, whatever is compacted. */
  lemma {:induction false} RunsKeepInv(states: seq<State>, labels: seq<Label>)
    requires Run(states, labels)
    ensures forall i :: 0 <= i < |states| ==> Inv(states[i])
  {
    hide Inv, Step, Init;
    var i := 0;
    InitFine(states[0]);
    while i < |labels|
      invariant i <= |labels| && forall j :: 0 <= j <= i ==> Inv(states[j])
    {
      StepKeepsInv(states[i], labels[i], states[i + 1]);
      i := i + 1;
    }
  }

  /** Over every run without an unsafe compaction, every read at a live or future snapshot returns the newest
      value ever written to the key at or before it. */
  lemma {:induction false} RunsStayFaithful(states: seq<State>, labels: seq<Label>)
    requires Run(states, labels)
    requires forall i, u :: 0 <= i < |labels| ==> !Unsafe(states[i], labels[i], u)
    ensures forall i :: 0 <= i < |states| ==> Faithful(states[i])
  {
    hide Inv, Step, Init, Faithful, Unsafe;
    RunsKeepInv(states, labels);
    InitFine(states[0]);
    var i := 0;
    while i < |labels|
      invariant i <= |labels| && forall j :: 0 <= j <= i ==> Faithful(states[j])
    {
      StepKeepsFaithful(states[i], labels[i], states[i + 1]);
      i := i + 1;
    }
  }

  /** The first unsafe compaction of a run brings a deleted key back: at the smallest snapshot the history says that it
      is gone, and the engine now reads a value. */
  lemma UnsafeBreaks(states: seq<State>, labels: seq<Label>, n: nat, u: UserKey)
    requires Run(states, labels) && n < |labels| && Unsafe(states[n], labels[n], u)
    requires forall i, w :: 0 <= i < n ==> !Unsafe(states[i], labels[i], w)
    ensures var s := states[n + 1];
            Read(s.history, u, SmallestSnapshot(s)) == None && Read(Held(s), u, SmallestSnapshot(s)) != None
  {
    hide Inv, Step, Init, Held, Read, Resurrects;
    RunsKeepInv(states, labels);
    RunsStayFaithful(states[..n + 1], labels[..n]);
    assert states[n] == states[..n + 1][n];
    assert Step(states[n], labels[n], states[n + 1]);
    CompactFacts(states[n], labels[n], states[n + 1]);
    UnsafeKeyChanges(states[n], labels[n], states[n + 1], u);
  }

  /** Compactions that close their level + 1 inputs at the boundary are never unsafe. */
  lemma ClosedIsSafe(s: State, l: Label, t: State, u: UserKey)
    requires Inv(s) && l.Compact? && Step(s, l, t) && BoundaryClosed(s.levels, l.level, l.in1)
    ensures !Unsafe(s, l, u)
  {
    ClosedNeverResurrects(s.levels, s.next, l.level, l.in0, l.in1, SmallestSnapshot(s), u);
  }

  // ---- Reads over runs, in terms of the operations written -------------------------------------------------------

  /** The operations of the batches written, in order. */
  function Written(labels: seq<Label>): seq<Op> {
    if labels == [] then []
    else
      var last := labels[|labels| - 1];
      Written(labels[..|labels| - 1]) + if last.Write? then last.ops else []
  }

  /** The history is the operations written so far, numbered from 1. */
  lemma {:induction false} HistoryIsWritten(states: seq<State>, labels: seq<Label>, n: nat)
    requires Run(states, labels) && n <= |labels|
    ensures states[n].last == |Written(labels[..n])| && states[n].history == Numbering(Written(labels[..n]), 1)
  {
    hide Numbering, Written, Step;
    if n == 0 {
      NothingNumbered();
      assert labels[..0] == [];
    } else {
      HistoryIsWritten(states, labels, n - 1);
      WrittenSnoc(labels, n - 1);
      StepHistory(states[n - 1], labels[n - 1], states[n]);
      if labels[n - 1].Write? {
        NumberingConcat(Written(labels[..n - 1]), labels[n - 1].ops, 1);
      }
    }
  }

  lemma WrittenSnoc(labels: seq<Label>, n: nat)
    requires n < |labels|
    ensures Written(labels[..n + 1])
            == if labels[n].Write? then Written(labels[..n]) + labels[n].ops else Written(labels[..n])
  {
    assert labels[..n + 1][..n] == labels[..n];
  }

  lemma StepHistory(s: State, l: Label, t: State)
    requires Step(s, l, t)
    ensures if l.Write? then t.last == s.last + |l.ops| && t.history == s.history + Numbering(l.ops, s.last + 1)
            else t.last == s.last && t.history == s.history
  {
    hide Numbering;
  }

  lemma NothingNumbered()
    ensures Numbering([], 1) == {} && Written([]) == []
  {
  }

  /** Over every run without an unsafe compaction, a read at sequence number q from the smallest snapshot on finds what
      the first q operations written leave: the value of the last one on the key, nothing if that deleted it. */
  lemma RunsReadWritten(states: seq<State>, labels: seq<Label>, n: nat, u: UserKey, q: nat)
    requires Run(states, labels) && n <= |labels|
    requires forall i, w :: 0 <= i < |labels| ==> !Unsafe(states[i], labels[i], w)
    requires SmallestSnapshot(states[n]) <= q <= states[n].last
    ensures q <= |Written(labels[..n])| && Read(Held(states[n]), u, q) == Latest(Written(labels[..n])[..q], u, None)
  {
    hide Inv, Step, Init, Held, Read, Unsafe, Numbering, Written, Latest;
    RunsStayFaithful(states, labels);
    HistoryIsWritten(states, labels, n);
    NumberingReads(Written(labels[..n]), u, q);
  }
}
