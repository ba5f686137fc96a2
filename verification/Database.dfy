/** The engine itself (DBImpl): every operation is a step of the state machine of Runs. */
module Database {
  import opened InternalKeys
  import opened Visibility
  import opened Levels
  import opened Versions
  import opened Inputs
  import opened Picking
  import opened CompactionPicker
  import opened CompactionReads
  import opened Merging
  import opened CompactionWork
  import opened CompactionOutputs
  import opened Builder
  import opened Manifest
  import opened Installing
  import opened Batches
  import opened Runs
  import opened MemTables
  import opened EngineIterators
  import opened EditHistories
  import DbIterators

  // ---- Proof obligations of the operations, stated on values ---------------------------------------------------

  lemma OneOneLayer(top: set<Entry>, bottom: set<Entry>, u: UserKey, s: nat, es: seq<Entry>)
    requires Sorted(es) && top == ToSet(es) && Unique(top + bottom) && NewerThan(top, bottom)
    ensures TableGet(es, u, s).Hit? ==> Read(top + bottom, u, s) == Payload(TableGet(es, u, s).entry)
    ensures TableGet(es, u, s).NotFound? ==> Read(top + bottom, u, s) == Read(bottom, u, s)
  {
    TableGetNewest(es, u, s);
    Layered(top, bottom, u, s);
    if TableGet(es, u, s).Hit? {
      UniqueSubset(top, top + bottom);
      ReadIsNewest(top, u, s, TableGet(es, u, s).entry);
    } else {
      forall x | x in top && x.key.user == u ensures x.key.seqno > s {
        assert !Visible(x, u, s);
      }
    }
  }

  lemma FlushIsFit(s: State, f: File, level: nat)
    requires Inv(s) && s.imm.Some? && ToSet(f.entries) == s.imm.value && Sorted(f.entries) && f.entries != []
    requires f.smallest == f.entries[0].key && f.largest == f.entries[|f.entries| - 1].key && f.number == s.next
    requires level <= MAX_MEM_COMPACT_LEVEL
    requires level > 0 ==> forall i, g :: 0 <= i <= level && g in s.levels[i]
                                          ==> !Meets(g, Some(f.smallest.user), Some(f.largest.user))
    ensures FlushFits(s.levels, s.next, f, level)
  {
    FlushEntries(s, f);
    assert FileOk(f);
    forall i, g | 0 <= i < NUM_LEVELS && g in s.levels[i]
      ensures Above(f, g)
    {
      FileInContents(s.levels, i, g);
      forall x, y | x in f.entries && y in g.entries ensures x.key.seqno > y.key.seqno {
        assert x in Frozen(s) && y in ToSet(g.entries);
      }
    }
    forall i | 0 <= i <= level && level > 0
      ensures NoOverlap(s.levels[i], f)
    {
      forall g | g in s.levels[i]
        ensures f.largest.user < g.smallest.user || g.largest.user < f.smallest.user
      {
        assert !Meets(g, Some(f.smallest.user), Some(f.largest.user));
      }
    }
  }

  lemma FlushEntries(s: State, f: File)
    requires Inv(s) && s.imm.Some? && ToSet(f.entries) == s.imm.value
    ensures forall e :: e in f.entries ==> e.key.seqno <= MAX_SEQUENCE
    ensures forall x, y :: x in f.entries && y in f.entries && x.key.user == y.key.user && x.key.seqno == y.key.seqno
                           ==> x == y
  {
    hide LevelsOk, Contents;
    forall e | e in f.entries ensures e in s.history && e.key.seqno <= s.last {
      assert e in ToSet(f.entries) && e in Held(s);
    }
    assert Unique(s.history);
  }

  lemma VersionLevels(v: Version, next: nat)
    requires VersionOk(v, next)
    ensures forall i, g :: 0 <= i < NUM_LEVELS && g in LevelsOf(v)[i] ==> g in v.files[i]
  {
  }

  lemma ProperInputsOk(v: Version, next: nat, level: nat, in0: seq<File>, in1: seq<File>)
    requires VersionOk(v, next) && Proper(v, level, in0, in1)
    ensures forall f :: f in FileSet(in0) + FileSet(in1) ==> FileOk(f)
  {
    ClosedMembers(v, level, in0);
    MeetingMembers(v.files[level + 1], Some(SmallestKey(in0).user), Some(LargestKey(in0).user));
    forall f | f in FileSet(in0) + FileSet(in1) ensures FileOk(f) {
      assert f in LevelsOf(v)[level] || f in LevelsOf(v)[level + 1];
    }
  }

  lemma ProperSelected(v: Version, next: nat, level: nat, in0: seq<File>, in1: seq<File>)
    requires VersionOk(v, next) && Proper(v, level, in0, in1)
    ensures level + 1 < NUM_LEVELS && Selected(LevelsOf(v), level, FileSet(in0), FileSet(in1))
  {
    ClosedSelects(v, next, level, in0, in1);
  }

  lemma SetUpFacts(o: Options, v: Version, level: nat, start: seq<File>, met: seq<File>, in0: seq<File>, in1: seq<File>,
                   grandparents: seq<File>)
    requires SetUp(o, v, level, start, met, in0, in1, grandparents)
    ensures in0 != [] && level + 1 < NUM_LEVELS
  {
  }

  lemma CompactionEditOk(level: nat, in0: seq<File>, in1: seq<File>, outs: seq<File>)
    requires level + 1 < NUM_LEVELS
    ensures EditOk(CompactionEdit(level, in0, in1, outs))
  {
  }

  lemma IsWrite(s: State, ops: seq<Op>, t: State)
    requires s.last + |ops| < MAX_SEQUENCE
    requires t == s.(mem := s.mem + Numbering(ops, s.last + 1), last := s.last + |ops|,
                     history := s.history + Numbering(ops, s.last + 1))
    ensures Step(s, Runs.Write(ops), t)
  {
    hide Numbering;
  }

  lemma IsFlush(s: State, f: File, level: nat, t: State)
    requires s.imm.Some? && ToSet(f.entries) == s.imm.value && FlushFits(s.levels, s.next, f, level) && level < NUM_LEVELS
    requires t == s.(imm := None, levels := Flushed(s.levels, f, level), next := s.next + 1)
    ensures Step(s, Flush(f, level), t) && Logs(s, Flush(f, level), [Edit([], [(level, f)])])
  {
    hide FlushFits, Flushed;
  }

  lemma IsNoFlush(s: State, t: State)
    requires s.imm == Some({}) && t == s.(imm := None, next := s.next + 1)
    ensures Step(s, FlushNothing, t) && Logs(s, FlushNothing, [Edit([], [])])
  {
  }

  lemma IsMove(s: State, level: nat, f: File, t: State)
    requires Selected(s.levels, level, {f}, {}) && level + 1 < NUM_LEVELS
    requires t == s.(levels := Compacted(s.levels, level, {f}, {}, {f}))
    ensures Step(s, Move(level, f), t) && Logs(s, Move(level, f), [Edit([(level, f.number)], [(level + 1, f)])])
  {
    hide Selected, Compacted;
  }

  lemma IsCompact(s: State, level: nat, in0: seq<File>, in1: seq<File>, input: seq<Entry>, outs: seq<File>, t: State)
    requires level + 1 < NUM_LEVELS && Selected(s.levels, level, FileSet(in0), FileSet(in1))
    requires Writes(s.levels, level, FileSet(in0), FileSet(in1), input, SmallestSnapshot(s), FileSet(outs))
    requires OutputsFit(FileSet(outs), FileSet(in0) + FileSet(in1), s.next, s.next + |outs|)
    requires t == s.(levels := Compacted(s.levels, level, FileSet(in0), FileSet(in1), FileSet(outs)), next := s.next + |outs|)
    requires forall i :: 0 <= i < |outs| ==> outs[i].number == s.next + i
    ensures var did := Compact(level, FileSet(in0), FileSet(in1), input, FileSet(outs), s.next + |outs|);
            Step(s, did, t) && Logs(s, did, [CompactionEdit(level, in0, in1, outs)])
  {
    hide FileSet, CompactionEdit, Selected, Writes, OutputsFit, Compacted;
  }

  /** The engine: two memtables, the current version, and the counters and snapshots around them. */
  class Db {
    const options: Options
    /** Size of the table built from a list of entries. */
    const sizeOf: seq<Entry> -> nat

    var mem: seq<Entry>
    var imm: Option<seq<Entry>>
    var current: Version
    var nextFileNumber: nat
    var lastSequence: nat
    var snapshots: seq<nat>
    var compactPointers: seq<Option<IKey>>

    /** Everything ever written. */
    ghost var history: set<Entry>

    ghost function Abs(): State
      reads this
      requires |current.files| == NUM_LEVELS
    {
      State(ToSet(mem), if imm.Some? then Some(ToSet(imm.value)) else None, LevelsOf(current), nextFileNumber,
            lastSequence, snapshots, history)
    }

    ghost predicate Valid()
      reads this
    {
      && VersionOk(current, nextFileNumber) && |compactPointers| == NUM_LEVELS
      && Sorted(mem) && (imm.Some? ==> Sorted(imm.value))
      && Inv(Abs())
    }

    constructor (options: Options, sizeOf: seq<Entry> -> nat)
      ensures Valid() && Init(Abs())
    {
      this.options, this.sizeOf := options, sizeOf;
      mem, imm, current := [], None, EMPTY_VERSION;
      nextFileNumber, lastSequence, snapshots, history := 2, 0, [], {};
      compactPointers := seq(NUM_LEVELS, _ => None);
      new;
      LevelsExt(LevelsOf(current), seq(NUM_LEVELS, _ => {}));
      InitFine(Abs());
    }

    /** Write: the whole batch goes to the memtable under consecutive sequence numbers. The last operation on a key is what
        is read of it from now on; the other keys read as before. */
    method Write(ops: seq<Op>)
      requires Valid() && lastSequence + |ops| < MAX_SEQUENCE
      modifies this
      ensures Valid() && Step(old(Abs()), Runs.Write(ops), Abs())
      ensures forall u :: Read(Held(Abs()), u, lastSequence) == Latest(ops, u, old(Read(Held(Abs()), u, lastSequence)))
    {
      hide Inv, VersionOk, LevelsOf, Sorted, Numbering, Step, Held, Read, Latest;
      VersionFacts(current, nextFileNumber);
      ghost var before := Abs();
      MemBounded(before);
      assert forall e :: e in mem ==> e in ToSet(mem);
      mem := InsertInto(ops, lastSequence + 1, mem);
      lastSequence := lastSequence + |ops|;
      history := history + Numbering(ops, before.last + 1);
      IsWrite(before, ops, Abs());
      StepKeepsInv(before, Runs.Write(ops), Abs());
      forall u ensures Read(Held(Abs()), u, lastSequence) == Latest(ops, u, Read(Held(before), u, before.last)) {
        WriteThenRead(before, ops, Abs(), |ops|, u);
        assert ops[..|ops|] == ops;
      }
    }

    /** The memtable switch of MakeRoomForWrite. */
    method SwitchMemTable()
      requires Valid() && imm == None
      modifies this
      ensures Valid() && Step(old(Abs()), Switch, Abs())
    {
      hide Inv, VersionOk, LevelsOf;
      VersionFacts(current, nextFileNumber);
      ghost var before := Abs();
      imm := Some(mem);
      mem := [];
      StepKeepsInv(before, Switch, Abs());
    }

    /** CompactMemTable and WriteLevel0Table: the frozen memtable becomes a file, unless it is empty. */
    method CompactMemTable() returns (ghost did: Label, ghost logged: seq<Edit>)
      requires Valid() && imm.Some?
      modifies this
      ensures Valid() && Step(old(Abs()), did, Abs()) && (did.FlushNothing? || did.Flush?) && Logs(old(Abs()), did, logged)
      ensures did.Flush? ==> |old(current).files| == NUM_LEVELS
                             && PicksLevel(options, old(current), did.file.smallest.user, did.file.largest.user, did.level)
    {
      hide Inv, LevelsOf, LevelsOk, InOrder, Sorted, FlushFits, PicksLevel, Step, Logs, Flushed;
      ghost var before := Abs();
      ghost var v := current;
      var entries := imm.value;
      if entries == [] {
        NothingFrozen(entries);
        current := LogAndApply(current, Edit([], []));
        assert Installed(v, Edit([], []), current);
        NothingInstalled(v, nextFileNumber, current);
        imm, nextFileNumber := None, nextFileNumber + 1;
        did, logged := FlushNothing, [Edit([], [])];
        IsNoFlush(before, Abs());
        StepKeepsInv(before, did, Abs());
        return;
      }
      var f := File(nextFileNumber, sizeOf(entries), entries[0].key, entries[|entries| - 1].key, entries);
      var level := PickLevelForMemTableOutput(options, current, nextFileNumber, f.smallest.user, f.largest.user);
      VersionLevels(current, nextFileNumber);
      PickedIsClear(options, current, f.smallest.user, f.largest.user, level);
      FlushIsFit(before, f, level);
      FlushFitsLevel(before.levels, before.next, f, level);
      current := LogAndApply(current, Edit([], [(level, f)]));
      assert Installed(v, Edit([], [(level, f)]), current);
      FlushInstalled(v, nextFileNumber, f, level, current);
      imm, nextFileNumber := None, nextFileNumber + 1;
      did, logged := Flush(f, level), [Edit([], [(level, f)])];
      IsFlush(before, f, level, Abs());
      StepKeepsInv(before, did, Abs());
    }

    method TakeSnapshot() returns (s: nat)
      requires Valid()
      modifies this
      ensures Valid() && Step(old(Abs()), Runs.TakeSnapshot, Abs()) && s == lastSequence
    {
      hide Inv, VersionOk, LevelsOf;
      VersionFacts(current, nextFileNumber);
      ghost var before := Abs();
      snapshots := snapshots + [lastSequence];
      s := lastSequence;
      StepKeepsInv(before, Runs.TakeSnapshot, Abs());
    }

    method ReleaseSnapshot(i: nat)
      requires Valid() && i < |snapshots|
      modifies this
      ensures Valid() && Step(old(Abs()), Runs.ReleaseSnapshot(i), Abs())
    {
      hide Inv, VersionOk, LevelsOf;
      VersionFacts(current, nextFileNumber);
      ghost var before := Abs();
      snapshots := snapshots[..i] + snapshots[i + 1..];
      StepKeepsInv(before, Runs.ReleaseSnapshot(i), Abs());
    }

    /** Get: memtable, frozen memtable, then the version; together they read the newest held entry. */
    method Get(u: UserKey, snapshot: Option<nat>) returns (r: Option<Value>)
      requires Valid()
      ensures r == Read(Held(Abs()), u, if snapshot.Some? then snapshot.value else lastSequence)
    {
      hide Inv, LevelsOf, LevelsOk, InOrder, Sorted, Read, TableGet, Contents;
      var s := if snapshot.Some? then snapshot.value else lastSequence;
      ghost var st := Abs();
      HeldLayers(st);
      OneOneLayer(st.mem, Frozen(st) + Contents(st.levels), u, s, mem);
      assert Held(st) == st.mem + (Frozen(st) + Contents(st.levels));
      var found := TableGet(mem, u, s);
      if found.Hit? {
        return Payload(found.entry);
      }
      if imm.Some? {
        OneOneLayer(Frozen(st), Contents(st.levels), u, s, imm.value);
        found := TableGet(imm.value, u, s);
        if found.Hit? {
          return Payload(found.entry);
        }
      } else {
        assert Frozen(st) + Contents(st.levels) == Contents(st.levels);
      }
      r := Versions.Get(current, nextFileNumber, u, s);
    }

    /** A read at a live snapshot, or of the latest state, agrees with the history as long as reads are faithful. */
    method GetFaithful(u: UserKey, snapshot: Option<nat>) returns (r: Option<Value>)
      requires Valid() && Faithful(Abs()) && (snapshot.Some? ==> snapshot.value in snapshots)
      ensures r == Read(history, u, if snapshot.Some? then snapshot.value else lastSequence)
    {
      hide LevelsOf, LevelsOk, InOrder, Sorted, Read, Contents;
      r := Get(u, snapshot);
      var s := if snapshot.Some? then snapshot.value else lastSequence;
      SnapshotCovered(Abs(), s);
    }

    /** NewIterator: a cursor over the user keys that a read at its sequence number finds, with their values; over those
        of the history when reads are faithful. */
    method NewIterator(snapshot: Option<nat>) returns (iter: DbIterators.DbIterator)
      requires Valid()
      ensures fresh(iter) && iter.Valid() && iter.Abs().at == None && DbIterators.Increasing(iter.Abs().items)
      ensures var s := if snapshot.Some? then snapshot.value else lastSequence;
              && (forall u, v :: (u, v) in iter.Abs().items <==> Read(Held(Abs()), u, s) == Some(v))
              && (Faithful(Abs()) && (snapshot.Some? ==> snapshot.value in snapshots)
                  ==> forall u, v :: (u, v) in iter.Abs().items <==> Read(history, u, s) == Some(v))
    {
      hide Inv, VersionOk, LevelsOf, Sorted, Read, Held, Faithful, SmallestSnapshot, InternalLists, MergeAll, DbIterators.View,
           DbIterators.Increasing;
      VersionFacts(current, nextFileNumber);
      var s := if snapshot.Some? then snapshot.value else lastSequence;
      InternalListsMerge(mem, imm, current, Abs());
      IteratorIsReads(mem, imm, current, Abs(), s);
      SnapshotCovered(Abs(), s);
      iter := new DbIterators.DbIterator(MergeAll(InternalLists(mem, imm, current)), s);
    }

    /** The rest of BackgroundCompaction once inputs are picked: a trivial move, or the merge and its
        installation. */
    method RunCompaction(c: Compaction, pointer: IKey, isManual: bool) returns (ghost did: Label, ghost logged: seq<Edit>)
      requires Valid() && c.Ready() && c.inputVersion == current
      requires c.levelPtrs.Length == NUM_LEVELS && forall i :: 0 <= i < NUM_LEVELS ==> c.levelPtrs[i] == 0
      requires c.grandparentIndex == 0 && !c.seenKey && c.overlappedBytes == 0
      modifies this, c, c.levelPtrs
      ensures Valid() && Step(old(Abs()), did, Abs()) && (did.Move? || did.Compact?) && Logs(old(Abs()), did, logged)
      ensures isManual ==> did.Compact?
      ensures did.level == c.level
      ensures did.Compact? ==> did.in0 == FileSet(old(c.inputs0)) && did.in1 == FileSet(old(c.inputs1))
      ensures did.Move? ==> old(c.inputs0) == [did.file] && old(c.inputs1) == []
      ensures did.Move? <==> !isManual && |old(c.inputs0)| == 1 && |old(c.inputs1)| == 0
                             && TotalFileSize(old(c.grandparents)) <= 10 * options.maxFileSize
      ensures |old(compactPointers)| == NUM_LEVELS && c.level < NUM_LEVELS
              && compactPointers == old(compactPointers)[c.level := Some(pointer)]
    {
      hide Inv, LevelsOf, LevelsOk, InOrder, Sorted, Selected, Proper, Writes, OutputsFit, Compacted, Merges, FileSet,
           Step, Logs, CompactionEdit, StopMarks, CutAsDue;
      ghost var before := Abs();
      ghost var next := nextFileNumber;
      ghost var v := current;
      var level, in0, in1 := c.level, c.inputs0, c.inputs1;
      ProperSelected(v, next, level, in0, in1);
      compactPointers := compactPointers[level := Some(pointer)];
      if !isManual && c.IsTrivialMove(options) {
        var f := in0[0];
        SingleFileSet(in0);
        NoFileSet(in1);
        current := LogAndApply(current, Edit([(level, f.number)], [(level + 1, f)]));
        assert Installed(v, Edit([(level, f.number)], [(level + 1, f)]), current);
        MoveInstalled(v, next, level, f, current);
        did, logged := Move(level, f), [Edit([(level, f.number)], [(level + 1, f)])];
        IsMove(before, level, f, Abs());
        StepKeepsInv(before, did, Abs());
        return;
      }
      var input := MergeAll(Children(level, in0, in1));
      InputMerges(v, next, level, in0, in1);
      MergesSorted(input, FileSet(in0) + FileSet(in1));
      var smallest := if snapshots == [] then lastSequence else snapshots[0];
      var outs, next';
      ghost var stops;
      outs, next', stops := DoCompactionWork(options, c, input, smallest, nextFileNumber, sizeOf, nextFileNumber);
      ProperInputsOk(v, next, level, in0, in1);
      WorkFits(before.levels, level, FileSet(in0), FileSet(in1), input, smallest, outs, next);
      CompactionEditOk(level, in0, in1, outs);
      current := LogAndApply(current, CompactionEdit(level, in0, in1, outs));
      assert Installed(v, CompactionEdit(level, in0, in1, outs), current);
      CompactionInstalled(v, next, level, in0, in1, outs, current);
      nextFileNumber := next';
      did := Compact(level, FileSet(in0), FileSet(in1), input, FileSet(outs), next');
      logged := [CompactionEdit(level, in0, in1, outs)];
      IsCompact(before, level, in0, in1, input, outs, Abs());
      StepKeepsInv(before, did, Abs());
    }

    /** The inputs of a compaction or of a move are those SetupOtherInputs makes of start. A single file that meets
        nothing below, and little further down, is moved unless the request was manual. The next compaction of the level
        is to begin past the inputs. */
    ghost predicate Took(v: Version, level: nat, start: seq<File>, isManual: bool, did: Label,
                         pointers: seq<Option<IKey>>, pointers': seq<Option<IKey>>)
    {
      exists met, in0, in1, grandparents :: SetUp(options, v, level, start, met, in0, in1, grandparents)
        && (did.Compact? ==> did.level == level && did.in0 == FileSet(in0) && did.in1 == FileSet(in1))
        && (did.Move? ==> did.level == level && in0 == [did.file] && in1 == [])
        && (did.Move? <==> !isManual && |in0| == 1 && in1 == [] && TotalFileSize(grandparents) <= 10 * options.maxFileSize)
        && in0 != [] && level < |pointers| && pointers' == pointers[level := Some(LargestKey(in0))]
    }

    lemma TookThese(v: Version, level: nat, start: seq<File>, isManual: bool, did: Label, pointers: seq<Option<IKey>>,
                    pointers': seq<Option<IKey>>, met: seq<File>, in0: seq<File>, in1: seq<File>, grandparents: seq<File>)
      requires SetUp(options, v, level, start, met, in0, in1, grandparents)
      requires did.Compact? ==> did.level == level && did.in0 == FileSet(in0) && did.in1 == FileSet(in1)
      requires did.Move? ==> did.level == level && in0 == [did.file] && in1 == []
      requires did.Move? <==> !isManual && |in0| == 1 && |in1| == 0 && TotalFileSize(grandparents) <= 10 * options.maxFileSize
      requires in0 != [] && level < |pointers| && pointers' == pointers[level := Some(LargestKey(in0))]
      ensures Took(v, level, start, isManual, did, pointers, pointers')
    {
      hide SetUp, FileSet, TotalFileSize, LargestKey;
      assert in1 == [] <==> |in1| == 0;
    }

    /** BackgroundCompaction without a manual request. */
    method AutomaticCompaction(trigger: Trigger)
      returns (ghost did: Label, ghost logged: seq<Edit>, ghost start: seq<File>)
      requires Valid() && trigger.level + 1 < NUM_LEVELS && current.files[trigger.level] != []
      requires trigger.BySeek? ==> trigger.index < |current.files[trigger.level]|
      modifies this
      ensures Valid() && Step(old(Abs()), did, Abs()) && (did.Move? || did.Compact?) && Logs(old(Abs()), did, logged)
      ensures did.level == trigger.level
      ensures old(Starts(trigger, start))
      ensures Took(old(current), trigger.level, start, false, did, old(compactPointers), compactPointers)
    {
      hide Inv, LevelsOf, VersionOk, Sorted, Step, SetUp, Overlapping, FirstPast, Logs, Took, TotalFileSize, LargestKey, FileSet;
      VersionFacts(current, nextFileNumber);
      ghost var v := current;
      var c, pointer, picked, met := PickCompaction(options, current, nextFileNumber, trigger, compactPointers);
      start := picked;
      ghost var in0, in1, grandparents := c.inputs0, c.inputs1, c.grandparents;
      ghost var pointers := compactPointers;
      SetUpFacts(options, v, trigger.level, start, met, in0, in1, grandparents);
      did, logged := RunCompaction(c, pointer, false);
      TookThese(v, trigger.level, start, false, did, pointers, compactPointers, met, in0, in1, grandparents);
    }

    /** The files a compaction starts from: the one the trigger names, or the next one past the compact pointer, with
        what overlaps it at level 0. */
    ghost predicate Starts(trigger: Trigger, start: seq<File>)
      reads this
      requires |current.files| == NUM_LEVELS == |compactPointers| && trigger.level < NUM_LEVELS
      requires current.files[trigger.level] != []
    {
      var files := current.files[trigger.level];
      var i := if trigger.BySeek? then trigger.index else FirstPast(files, compactPointers[trigger.level]);
      StartsAt(files, trigger.level, i, start)
    }

    /** BackgroundCompaction without a manual request: the frozen memtable goes first, then the fullest level if there is
        too much in it, then the file that took too many seeks. */
    method BackgroundWork(seek: Option<Trigger>) returns (ghost did: Option<Label>, ghost logged: seq<Edit>)
      requires Valid() && (seek.Some? ==> seek.value.BySeek? && seek.value.level + 1 < NUM_LEVELS
                                          && seek.value.index < |current.files[seek.value.level]|)
      modifies this
      ensures Valid()
      ensures did.None? ==> Abs() == old(Abs()) && logged == []
      ensures did.Some? ==> Step(old(Abs()), did.value, Abs()) && Logs(old(Abs()), did.value, logged)
      ensures did.None? <==> old(imm.None? && !Overfull(current)) && seek.None?
      ensures old(imm).Some? ==> did.value.Flush? || did.value.FlushNothing?
      ensures old(imm).None? && did.Some? ==> did.value.Move? || did.value.Compact?
      ensures old(imm).None? && did.Some? ==> |old(current).files| == NUM_LEVELS && did.value.level < NUM_LEVELS - 1
      ensures old(imm).None? && old(Overfull(current)) && did.Some?
              ==> forall l :: 0 <= l < NUM_LEVELS - 1 ==> Score(old(current), l) <= Score(old(current), did.value.level)
      ensures old(imm).None? && !old(Overfull(current)) && did.Some? ==> did.value.level == seek.value.level
    {
      hide Inv, LevelsOf, VersionOk, Sorted, Step, Logs, Starts, Took, Score, Overfull;
      VersionFacts(current, nextFileNumber);
      if imm.Some? {
        ghost var l;
        l, logged := CompactMemTable();
        did := Some(l);
        return;
      }
      var trigger := PickTrigger(current, seek);
      did, logged := None, [];
      if trigger.Some? {
        ghost var l, start;
        l, logged, start := AutomaticCompaction(trigger.value);
        did := Some(l);
      }
    }

    /** BackgroundCompaction for a manual request; done when nothing is left in the range. */
    method ManualCompaction(level: nat, begin: Option<UserKey>, end: Option<UserKey>)
      returns (done: bool, ghost did: Label, ghost logged: seq<Edit>, ghost start: seq<File>)
      requires Valid() && level + 1 < NUM_LEVELS
      modifies this
      ensures Valid()
      ensures done ==> Abs() == old(Abs()) && compactPointers == old(compactPointers)
      ensures done ==> forall f :: f in current.files[level] ==> !Meets(f, begin, end)
      ensures !done ==> Step(old(Abs()), did, Abs()) && did.Compact? && Logs(old(Abs()), did, logged)
                        && Took(old(current), level, start, true, did, old(compactPointers), compactPointers)
                        && RangeStart(options, old(current).files[level], level, begin, end, start)
    {
      hide Inv, LevelsOf, VersionOk, Sorted, Step, SetUp, RangeStart, Logs, Took, TotalFileSize, LargestKey, FileSet;
      VersionFacts(current, nextFileNumber);
      ghost var v := current;
      var c, pointer, picked, met := CompactionPicker.CompactRange(options, current, nextFileNumber, level, begin, end);
      start := picked;
      done := c == null;
      if c != null {
        ghost var in0, in1, grandparents := c.inputs0, c.inputs1, c.grandparents;
        ghost var pointers := compactPointers;
        SetUpFacts(options, v, level, start, met, in0, in1, grandparents);
        did, logged := RunCompaction(c, pointer, true);
        TookThese(v, level, start, true, did, pointers, compactPointers, met, in0, in1, grandparents);
      } else {
        did, logged := Switch, [];
      }
    }
  }

  /** Live snapshots and the latest state are not below the smallest snapshot. */
  lemma SnapshotCovered(s: State, q: nat)
    requires Inv(s)
    ensures q in s.snapshots || q == s.last ==> SmallestSnapshot(s) <= q
  {
    hide LevelsOk, Contents;
    if q in s.snapshots {
      var i :| 0 <= i < |s.snapshots| && s.snapshots[i] == q;
    }
  }

  lemma MemBounded(s: State)
    requires Inv(s)
    ensures forall e :: e in s.mem ==> e.key.seqno <= s.last
  {
    hide LevelsOk, Contents;
    assert forall e :: e in s.mem ==> e in Held(s);
  }

  lemma HeldLayers(s: State)
    requires Inv(s)
    ensures Unique(Held(s)) && NewerThan(s.mem, Frozen(s) + Contents(s.levels))
    ensures NewerThan(Frozen(s), Contents(s.levels)) && Unique(Frozen(s) + Contents(s.levels))
  {
    hide LevelsOk, Contents;
    UniqueSubset(Held(s), s.history);
    UniqueSubset(Frozen(s) + Contents(s.levels), s.history);
  }

  lemma NothingFrozen(es: seq<Entry>)
    requires es == []
    ensures ToSet(es) == {}
  {
  }

  lemma SingleFileSet(fs: seq<File>)
    requires |fs| == 1
    ensures FileSet(fs) == {fs[0]}
  {
  }

  lemma NoFileSet(fs: seq<File>)
    requires |fs| == 0
    ensures FileSet(fs) == {}
  {
  }

  lemma MergesSorted(input: seq<Entry>, ins: set<File>)
    requires Merges(input, ins)
    ensures Sorted(input)
  {
  }
}
