/** A run of the engine, from the empty store, in which a manual compaction and the flush of a memtable meet: the write that
    was flushed is no longer found. */
module Collision {
  import opened InternalKeys
  import opened Visibility
  import opened Batches
  import opened Levels
  import opened Versions
  import opened Inputs
  import opened Picking
  import opened CompactionPicker
  import opened CompactionReads
  import opened Dropping
  import opened Runs
  import opened Interleavings
  import opened Resurrection
  import opened GapFree

  /** A table of one entry. */
  function Single(number: nat, e: Entry): File { File(number, 1, e.key, e.key, [e]) }

  const OLD_1 := Entry(IKey(1, 1, Put), "old")
  const OLD_5 := Entry(IKey(5, 2, Put), "old")
  const NEW_1 := Entry(IKey(1, 3, Put), "new")
  const NEW_5 := Entry(IKey(5, 4, Put), "new")
  const THREE_PUT := Entry(IKey(3, 5, Put), "three")

  /** Keys 1 and 5 are written and flushed, to level 2, and again, to level 1. */
  const A_1 := Single(2, OLD_1)
  const A_5 := Single(3, OLD_5)
  const B_1 := Single(4, NEW_1)
  const B_5 := Single(5, NEW_5)
  /** Key 3 is written, and flushed to level 2 while all four files are compacted. */
  const C_3 := Single(6, THREE_PUT)
  const OUT := File(7, 2, NEW_1.key, NEW_5.key, [NEW_1, NEW_5])

  const MERGED: seq<Entry> := [NEW_1, OLD_1, NEW_5, OLD_5]

  // ---- One write, and its flush ----------------------------------------------------------------------------------

  function Wrote(s: State, e: Entry): State { s.(mem := s.mem + {e}, last := s.last + 1, history := s.history + {e}) }

  function Froze(s: State): State { s.(mem := {}, imm := Some(s.mem)) }

  function Landed(s: State, f: File, level: nat): State
    requires level < NUM_LEVELS
  {
    s.(imm := None, levels := Flushed(s.levels, f, level), next := s.next + 1)
  }

  function OpOf(e: Entry): Op { Op(e.key.user, Some(e.value)) }

  ghost predicate Quiet(s: State) {
    Inv(s) && s.mem == {} && s.imm == None && s.snapshots == []
  }

  lemma WriteStep(s: State, e: Entry)
    requires Inv(s) && e == EntryOf(OpOf(e), s.last + 1) && s.last + 1 < MAX_SEQUENCE
    ensures Step(s, Write([OpOf(e)]), Wrote(s, e)) && Inv(Wrote(s, e))
  {
    hide Inv;
    SmallNumbering([OpOf(e)], s.last + 1);
    StepKeepsInv(s, Write([OpOf(e)]), Wrote(s, e));
  }

  lemma FlushFine(s: State, f: File, e: Entry, level: nat)
    requires Inv(s) && s.imm == Some({e}) && f == Single(s.next, e) && 0 < level < NUM_LEVELS
    requires forall i :: 0 <= i <= level ==> NoOverlap(s.levels[i], f)
    ensures FlushFits(s.levels, s.next, f, level) && ToSet(f.entries) == s.imm.value
  {
    hide LevelsOk;
    assert e in Held(s) && e in s.history;
    forall i, g | 0 <= i < NUM_LEVELS && g in s.levels[i] ensures Above(f, g) {
      forall y | y in g.entries ensures e.key.seqno > y.key.seqno {
        assert y in Contents(s.levels) && e in Frozen(s);
      }
    }
  }

  lemma Cycle(s: State, e: Entry, f: File, level: nat)
    requires Quiet(s) && e == EntryOf(OpOf(e), s.last + 1) && s.last + 1 < MAX_SEQUENCE && f == Single(s.next, e)
    requires 0 < level < NUM_LEVELS && forall i :: 0 <= i <= level ==> NoOverlap(s.levels[i], f)
    ensures var w := Wrote(s, e);
            && Step(s, Write([OpOf(e)]), w) && Step(w, Switch, Froze(w))
            && Step(Froze(w), Flush(f, level), Landed(Froze(w), f, level))
            && Quiet(Landed(Froze(w), f, level))
  {
    hide Inv, NoOverlap, FlushFits, Flushed;
    var w := Wrote(s, e);
    WriteStep(s, e);
    StepKeepsInv(w, Switch, Froze(w));
    assert w.mem == {e};
    FlushFine(Froze(w), f, e, level);
    StepKeepsInv(Froze(w), Flush(f, level), Landed(Froze(w), f, level));
  }

  // ---- The run -------------------------------------------------------------------------------------------------

  ghost const EMPTY: State := State({}, None, Sets({}, {}), 2, 0, [], {})
  ghost const WITH_A1: State := Landed(Froze(Wrote(EMPTY, OLD_1)), A_1, 2)
  ghost const WITH_A5: State := Landed(Froze(Wrote(WITH_A1, OLD_5)), A_5, 2)
  ghost const WITH_B1: State := Landed(Froze(Wrote(WITH_A5, NEW_1)), B_1, 1)
  ghost const WITH_B5: State := Landed(Froze(Wrote(WITH_B1, NEW_5)), B_5, 1)
  ghost const WITH_3: State := Wrote(WITH_B5, THREE_PUT)
  ghost const WITH_C3: State := Landed(Froze(WITH_3), C_3, 2)
  ghost const NUMBERED: State := WITH_C3.(next := WITH_C3.next + 1)

  ghost const BASE: Levels := Sets({B_1, B_5}, {A_1, A_5})

  ghost const AT_WORK: Pending := Pending(1, {B_1, B_5}, {A_1, A_5}, BASE, 5, {})

  ghost const DONE: State := NUMBERED.(levels := Sets({}, {C_3, OUT}))

  lemma LevelsAre()
    ensures WITH_A1.levels == Sets({}, {A_1}) && WITH_A5.levels == Sets({}, {A_1, A_5})
    ensures WITH_B1.levels == Sets({B_1}, {A_1, A_5}) && WITH_B5.levels == BASE == WITH_3.levels
    ensures WITH_C3.levels == Sets({B_1, B_5}, {A_1, A_5, C_3})
  {
    hide Sets, Flushed;
    LandAt(EMPTY.levels, {}, {}, A_1);
    assert {} + {A_1} == {A_1};
    LandAt(WITH_A1.levels, {}, {A_1}, A_5);
    assert {A_1} + {A_5} == {A_1, A_5};
    LandAt(WITH_A5.levels, {}, {A_1, A_5}, B_1);
    assert {} + {B_1} == {B_1};
    LandAt(WITH_B1.levels, {B_1}, {A_1, A_5}, B_5);
    assert {B_1} + {B_5} == {B_1, B_5};
    LandAt(WITH_3.levels, {B_1, B_5}, {A_1, A_5}, C_3);
    assert {A_1, A_5} + {C_3} == {A_1, A_5, C_3};
  }

  lemma LandAt(ls: Levels, one: set<File>, two: set<File>, f: File)
    requires ls == Sets(one, two)
    ensures Flushed(ls, f, 1) == Sets(one + {f}, two) && Flushed(ls, f, 2) == Sets(one, two + {f})
  {
  }

  lemma NoneMeet(one: set<File>, two: set<File>, f: File, level: nat)
    requires level == 1 || level == 2
    requires forall g :: g in one ==> f.largest.user < g.smallest.user || g.largest.user < f.smallest.user
    requires level == 2 ==> forall g :: g in two ==> f.largest.user < g.smallest.user || g.largest.user < f.smallest.user
    ensures forall i :: 0 <= i <= level ==> NoOverlap(Sets(one, two)[i], f)
  {
  }

  lemma FirstCycles()
    ensures Init(EMPTY) && Quiet(EMPTY) && Quiet(WITH_A1) && Quiet(WITH_A5) && Quiet(WITH_B1) && Quiet(WITH_B5)
    ensures Cycled(EMPTY, OLD_1, A_1, 2) && Cycled(WITH_A1, OLD_5, A_5, 2)
    ensures Cycled(WITH_A5, NEW_1, B_1, 1) && Cycled(WITH_B1, NEW_5, B_5, 1)
  {
    hide Inv, NoOverlap, Step, Flushed, Sets;
    Beginning();
    LevelsAre();
    NoneMeet({}, {}, A_1, 2);
    Cycle(EMPTY, OLD_1, A_1, 2);
    NoneMeet({}, {A_1}, A_5, 2);
    Cycle(WITH_A1, OLD_5, A_5, 2);
    NoneMeet({}, {A_1, A_5}, B_1, 1);
    Cycle(WITH_A5, NEW_1, B_1, 1);
    NoneMeet({B_1}, {A_1, A_5}, B_5, 1);
    Cycle(WITH_B1, NEW_5, B_5, 1);
  }

  ghost predicate Cycled(s: State, e: Entry, f: File, level: nat) {
    && level < NUM_LEVELS && var w := Wrote(s, e);
    && Step(s, Write([OpOf(e)]), w) && Step(w, Switch, Froze(w))
    && Step(Froze(w), Flush(f, level), Landed(Froze(w), f, level))
  }

  lemma Beginning()
    ensures Init(EMPTY) && Quiet(EMPTY)
  {
    assert Sets({}, {}) == seq(NUM_LEVELS, _ => {});
    InitFine(EMPTY);
  }

  lemma LastCycle()
    ensures Step(WITH_B5, Write([OpOf(THREE_PUT)]), WITH_3) && Step(WITH_3, Switch, Froze(WITH_3))
    ensures Step(Froze(WITH_3), Flush(C_3, 2), WITH_C3) && Quiet(WITH_C3)
  {
    hide Inv, NoOverlap, Step, Flushed, Sets;
    FirstCycles();
    LevelsAre();
    NoneMeet({B_1, B_5}, {A_1, A_5}, C_3, 2);
    Cycle(WITH_B5, THREE_PUT, C_3, 2);
  }

  // ---- The compaction ------------------------------------------------------------------------------------------

  lemma FilesFine()
    ensures FileOk(OUT) && EntriesOf({OUT}) == {NEW_1, NEW_5}
    ensures EntriesOf({B_1, B_5} + {A_1, A_5}) == {OLD_1, OLD_5, NEW_1, NEW_5}
  {
    OneFile(OUT);
    TwoFiles(B_1, B_5);
    TwoFiles(A_1, A_5);
    forall e | e in EntriesOf({B_1, B_5} + {A_1, A_5}) ensures e in EntriesOf({B_1, B_5}) + EntriesOf({A_1, A_5}) {
    }
    forall e | e in EntriesOf({B_1, B_5}) + EntriesOf({A_1, A_5}) ensures e in EntriesOf({B_1, B_5} + {A_1, A_5}) {
      var f :| (f in {B_1, B_5} || f in {A_1, A_5}) && e in f.entries;
      assert f in {B_1, B_5} + {A_1, A_5};
    }
  }

  /** The older values of both keys are hidden. */
  lemma NewestSurvive()
    ensures Survivors(MERGED, 4, 5, {}) == [NEW_1, NEW_5]
  {
    assert !Dropped(MERGED, 0, 5, {}) && Dropped(MERGED, 1, 5, {}) && !Dropped(MERGED, 2, 5, {}) && Dropped(MERGED, 3, 5, {});
    hide Dropped;
    assert Survivors(MERGED, 1, 5, {}) == [NEW_1];
    assert Survivors(MERGED, 2, 5, {}) == [NEW_1];
    assert Survivors(MERGED, 3, 5, {}) == [NEW_1, NEW_5];
  }

  lemma Chosen()
    ensures Selected(BASE, 1, {B_1, B_5}, {A_1, A_5})
  {
  }

  lemma OutputWritten()
    ensures Writes(BASE, 1, {B_1, B_5}, {A_1, A_5}, MERGED, 5, {OUT})
    ensures Built(AT_WORK.(numbers := {7}), {OUT})
  {
    FilesFine();
    NothingDeeper({B_1, B_5}, {A_1, A_5});
    NewestSurvive();
  }

  lemma LevelsDone()
    ensures Compacted(WITH_C3.levels, 1, {B_1, B_5}, {A_1, A_5}, {OUT}) == DONE.levels
  {
    LevelsAre();
    hide Flushed;
    assert {B_1, B_5} - {B_1, B_5} == {} && {A_1, A_5, C_3} - {A_1, A_5} + {OUT} == {C_3, OUT};
  }

  // ---- The whole run -------------------------------------------------------------------------------------------

  function Alone(s: State): Machine { Machine(s, None) }

  ghost const MACHINES: seq<Machine> := [
    Alone(EMPTY), Alone(Wrote(EMPTY, OLD_1)), Alone(Froze(Wrote(EMPTY, OLD_1))),
    Alone(WITH_A1), Alone(Wrote(WITH_A1, OLD_5)), Alone(Froze(Wrote(WITH_A1, OLD_5))),
    Alone(WITH_A5), Alone(Wrote(WITH_A5, NEW_1)), Alone(Froze(Wrote(WITH_A5, NEW_1))),
    Alone(WITH_B1), Alone(Wrote(WITH_B1, NEW_5)), Alone(Froze(Wrote(WITH_B1, NEW_5))),
    Alone(WITH_B5), Alone(WITH_3), Machine(WITH_3, Some(AT_WORK)), Machine(Froze(WITH_3), Some(AT_WORK)),
    Machine(WITH_C3, Some(AT_WORK)), Machine(NUMBERED, Some(AT_WORK.(numbers := {7}))), Alone(DONE)
  ]

  ghost const ACTIONS: seq<Action> := [
    Plain(Write([OpOf(OLD_1)])), Plain(Switch), Plain(Flush(A_1, 2)),
    Plain(Write([OpOf(OLD_5)])), Plain(Switch), Plain(Flush(A_5, 2)),
    Plain(Write([OpOf(NEW_1)])), Plain(Switch), Plain(Flush(B_1, 1)),
    Plain(Write([OpOf(NEW_5)])), Plain(Switch), Plain(Flush(B_5, 1)),
    Plain(Write([OpOf(THREE_PUT)])), Begin(1, {B_1, B_5}, {A_1, A_5}), Plain(Switch), Plain(Flush(C_3, 2)),
    NewNumber, Install(MERGED, {OUT})
  ]

  lemma PlainActs(s: State, l: Label, t: State, pending: Option<Pending>)
    requires Step(s, l, t) && !l.Compact? && !l.Move?
    ensures Act(Machine(s, pending), Plain(l), Machine(t, pending))
  {
    hide Step;
  }

  lemma CycleActs(s: State, e: Entry, f: File, level: nat)
    requires Cycled(s, e, f, level)
    ensures var w := Wrote(s, e);
            && Act(Alone(s), Plain(Write([OpOf(e)])), Alone(w)) && Act(Alone(w), Plain(Switch), Alone(Froze(w)))
            && Act(Alone(Froze(w)), Plain(Flush(f, level)), Alone(Landed(Froze(w), f, level)))
  {
    hide Step, Act;
    var w := Wrote(s, e);
    PlainActs(s, Write([OpOf(e)]), w, None);
    PlainActs(w, Switch, Froze(w), None);
    PlainActs(Froze(w), Flush(f, level), Landed(Froze(w), f, level), None);
  }

  lemma WorkActs()
    ensures Act(Alone(WITH_3), Begin(1, {B_1, B_5}, {A_1, A_5}), Machine(WITH_3, Some(AT_WORK)))
    ensures Act(Machine(WITH_C3, Some(AT_WORK)), NewNumber, Machine(NUMBERED, Some(AT_WORK.(numbers := {7}))))
    ensures Act(Machine(NUMBERED, Some(AT_WORK.(numbers := {7}))), Install(MERGED, {OUT}), Alone(DONE))
  {
    hide Selected, Writes, Built, Compacted, Sets, Flushed;
    LevelsAre();
    Chosen();
    OutputWritten();
    LevelsDone();
    assert {} + {7} == {7};
  }

  lemma Reached()
    ensures Interleavings.Run(MACHINES, ACTIONS) && |ACTIONS| == 18
  {
    hide Act, Step, Cycled, Quiet, Init, Wrote, Froze, Landed, Sets;
    FirstCycles();
    LastCycle();
    CycleActs(EMPTY, OLD_1, A_1, 2);
    CycleActs(WITH_A1, OLD_5, A_5, 2);
    CycleActs(WITH_A5, NEW_1, B_1, 1);
    CycleActs(WITH_B1, NEW_5, B_5, 1);
    PlainActs(WITH_B5, Write([OpOf(THREE_PUT)]), WITH_3, None);
    PlainActs(WITH_3, Switch, Froze(WITH_3), Some(AT_WORK));
    PlainActs(Froze(WITH_3), Flush(C_3, 2), WITH_C3, Some(AT_WORK));
    WorkActs();
    forall i | 0 <= i < |ACTIONS| ensures Act(MACHINES[i], ACTIONS[i], MACHINES[i + 1]) {
      assert i == 0 || i == 1 || i == 2 || i == 3 || i == 4 || i == 5 || i == 6 || i == 7 || i == 8 || i == 9 || i == 10
             || i == 11 || i == 12 || i == 13 || i == 14 || i == 15 || i == 16 || i == 17;
    }
  }

  // ---- What comes of it ------------------------------------------------------------------------------------------

  lemma MeetlessBefore(i: nat)
    requires i < 17
    ensures Meetless(MACHINES[i], ACTIONS[i])
  {
    assert !ACTIONS[i].Install?;
  }

  /** Up to the last step all is in order, and the last step ends that: the output reaches over the file flushed
      meanwhile, on the same level. */
  lemma OutputMeetsFlush()
    ensures MachineOk(MACHINES[17]) && !Meetless(MACHINES[17], ACTIONS[17]) && !MachineOk(MACHINES[18])
    ensures DONE.levels[2] == {OUT, C_3} && OUT.smallest.user < C_3.smallest.user < OUT.largest.user
  {
    hide Act, MachineOk, Meetless, Clear;
    Reached();
    forall i | 0 <= i < 17 ensures Meetless(MACHINES[i], ACTIONS[i]) {
      MeetlessBefore(i);
    }
    RunsStayOk(MACHINES, ACTIONS, 17);
    assert Act(MACHINES[17], ACTIONS[17], MACHINES[18]);
    InstallKeepsIff(MACHINES[17], ACTIONS[17], MACHINES[18]);
    NotClear();
  }

  lemma NotClear()
    ensures !Clear(NUMBERED.levels, AT_WORK.(numbers := {7}), {OUT}) && !Meetless(MACHINES[17], ACTIONS[17])
  {
    LevelsAre();
    assert C_3 in Flushes(NUMBERED.levels, BASE, 2) && OUT in {OUT};
    assert !Apart(C_3, OUT);
  }

  const AFTER := At([], [OUT, C_3])

  /** The write of key 3 went through, and the engine still holds it; but no memtable has it, and Version::Get looks for it
      in the other file, and nowhere else. */
  lemma WriteIsLost()
    ensures LevelsOf(AFTER) == DONE.levels && forall level :: 0 <= level < NUM_LEVELS ==> InOrder(AFTER.files[level])
    ensures Read(DONE.history, 3, DONE.last) == Read(Held(DONE), 3, DONE.last) == Some("three")
    ensures DONE.mem == {} && DONE.imm == None && AFTER.files[0] == []
    ensures forall level :: 1 <= level < NUM_LEVELS ==> LevelGet(AFTER.files[level], 3, DONE.last).NotFound?
  {
    hide Sets, Read, Held, LevelGet, LevelsOf;
    AtAre([], [OUT, C_3]);
    assert FileSet([]) == {} && FileSet([OUT, C_3]) == {C_3, OUT};
    DoneIs();
    LookedUp();
    StillHeld();
  }

  lemma LookedUp()
    ensures forall level :: 1 <= level < NUM_LEVELS ==> LevelGet(AFTER.files[level], 3, 5).NotFound?
  {
    var k := SeekKey(3, 5);
    assert Bisect([OUT, C_3], k, 0, 2) == Bisect([OUT, C_3], k, 0, 1) == Bisect([OUT, C_3], k, 0, 0) == 0;
    assert [NEW_1, NEW_5][1..] == [NEW_5];
    assert LowerBound([NEW_5], k) == 0;
    assert LowerBound(OUT.entries, k) == 1;
  }

  ghost const WRITTEN: set<Entry> := {OLD_1, OLD_5, NEW_1, NEW_5, THREE_PUT}

  lemma DoneIs()
    ensures DONE.history == WRITTEN && DONE.last == 5 && DONE.mem == {} && DONE.imm == None
  {
    hide Flushed, Sets;
  }

  lemma HeldIs()
    ensures Held(DONE) == {NEW_1, NEW_5, THREE_PUT}
  {
    hide Sets, Flushed, Contents, EntriesOf;
    DoneIs();
    SetsContents({}, {C_3, OUT});
    NoFiles();
    TwoFiles(C_3, OUT);
    assert ToSet(OUT.entries) == {NEW_1, NEW_5} && ToSet(C_3.entries) == {THREE_PUT};
  }

  lemma OnlyThree(es: set<Entry>)
    requires es <= WRITTEN && THREE_PUT in es
    ensures Read(es, 3, 5) == Some("three")
  {
    ReadIsNewest(es, 3, 5, THREE_PUT);
  }

  lemma StillHeld()
    ensures Read(DONE.history, 3, 5) == Some("three") && Read(Held(DONE), 3, 5) == Some("three")
  {
    hide Read, Held;
    DoneIs();
    HeldIs();
    OnlyThree(DONE.history);
    OnlyThree(Held(DONE));
  }

  lemma NoFiles()
    ensures EntriesOf({}) == {}
  {
  }

  // ---- The engine's own choices --------------------------------------------------------------------------------

  /** The versions behind the states of the run. */
  lemma VersionsOfRun()
    ensures LevelsOf(At([], [])) == EMPTY.levels && LevelsOf(At([], [A_1])) == WITH_A1.levels
    ensures LevelsOf(At([], [A_1, A_5])) == WITH_A5.levels && LevelsOf(At([B_1], [A_1, A_5])) == WITH_B1.levels
    ensures LevelsOf(At([B_1, B_5], [A_1, A_5])) == BASE == WITH_3.levels
  {
    hide LevelsOf, Sets, Flushed;
    LevelsAre();
    AtAre([], []);
    AtAre([], [A_1]);
    AtAre([], [A_1, A_5]);
    AtAre([B_1], [A_1, A_5]);
    AtAre([B_1, B_5], [A_1, A_5]);
    assert FileSet([]) == {} && FileSet([A_1]) == {A_1} && FileSet([A_1, A_5]) == {A_1, A_5} && FileSet([B_1]) == {B_1}
           && FileSet([B_1, B_5]) == {B_1, B_5};
  }

  /** PickLevelForMemTableOutput sends the five flushes where this run has them. */
  lemma LevelsPicked(o: Options, level: nat)
    requires o.maxFileSize > 0
    ensures PicksLevel(o, At([], []), 1, 1, level) ==> level == 2
    ensures PicksLevel(o, At([], [A_1]), 5, 5, level) ==> level == 2
    ensures PicksLevel(o, At([], [A_1, A_5]), 1, 1, level) ==> level == 1
    ensures PicksLevel(o, At([B_1], [A_1, A_5]), 5, 5, level) ==> level == 1
    ensures PicksLevel(o, At([B_1, B_5], [A_1, A_5]), 3, 3, level) ==> level == 2
  {
    FirstPicked(o, level);
    LaterPicked(o, level);
    hide PicksLevel;
  }

  lemma FirstPicked(o: Options, level: nat)
    requires o.maxFileSize > 0
    ensures PicksLevel(o, At([], []), 1, 1, level) ==> level == 2
    ensures PicksLevel(o, At([], [A_1]), 5, 5, level) ==> level == 2
    ensures PicksLevel(o, At([], [A_1, A_5]), 1, 1, level) ==> level == 1
  {
    MeetingTwo(A_1, A_5, Some(5), Some(5));
    MeetingTwo(A_1, A_5, Some(1), Some(1));
    var a, b, c := At([], []), At([], [A_1]), At([], [A_1, A_5]);
    assert TotalFileSize([A_1]) == 1 by { assert [A_1][1..] == []; }
    assert A_1 in c.files[2];
    assert !Blocked(o, a, 0, 1, 1) && !Blocked(o, a, 1, 1, 1);
    assert !Blocked(o, b, 0, 5, 5) && !Blocked(o, b, 1, 5, 5);
    assert !Blocked(o, c, 0, 1, 1) && Blocked(o, c, 1, 1, 1);
  }

  lemma LaterPicked(o: Options, level: nat)
    requires o.maxFileSize > 0
    ensures PicksLevel(o, At([B_1], [A_1, A_5]), 5, 5, level) ==> level == 1
    ensures PicksLevel(o, At([B_1, B_5], [A_1, A_5]), 3, 3, level) ==> level == 2
  {
    MeetingTwo(A_1, A_5, Some(5), Some(5));
    MeetingTwo(A_1, A_5, Some(3), Some(3));
    var d, e := At([B_1], [A_1, A_5]), At([B_1, B_5], [A_1, A_5]);
    assert TotalFileSize([A_5]) == 1 by { assert [A_5][1..] == []; }
    assert Meeting([A_1, A_5], Some(5), Some(5)) == [A_5];
    assert A_5 in d.files[2];
    assert !Blocked(o, d, 0, 5, 5) && Blocked(o, d, 1, 5, 5);
    assert !Blocked(o, e, 0, 3, 3) && !Blocked(o, e, 1, 3, 3);
  }

  /** CompactRange from key 1 to key 5 starts from both files of level 1, unless one alone is as much as it takes. */
  lemma BothStart(o: Options, start: seq<File>)
    requires o.maxFileSize > 1
    ensures RangeStart(o, [B_1, B_5], 1, Some(1), Some(5), start) ==> start == [B_1, B_5]
  {
    MeetingTwo(B_1, B_5, Some(1), Some(5));
    assert Meeting([B_1, B_5], Some(1), Some(5)) == [B_1, B_5];
    assert TotalFileSize([B_1]) == 1 by { assert [B_1][1..] == []; }
    assert [B_1, B_5][..1] == [B_1] && [B_1, B_5][..2] == [B_1, B_5];
    if RangeStart(o, [B_1, B_5], 1, Some(1), Some(5), start) {
      assert start == [B_1, B_5][..|start|];
    }
  }

  lemma NoMore(files: seq<File>, k: IKey)
    requires SpansOk(files) && forall f :: f in files ==> !IsBoundary(f, k)
    ensures BoundaryChain(files, k) == []
  {
  }

  lemma EndsAre(f: File, g: File)
    requires Less(f.smallest, g.smallest) && Less(f.largest, g.largest)
    ensures SmallestKey([f, g]) == f.smallest && LargestKey([f, g]) == g.largest
  {
    assert [f, g][..1] == [f];
  }

  lemma Closed()
    ensures SpansOk([B_1, B_5]) && WithBoundary([B_1, B_5], [B_1, B_5]) == [B_1, B_5]
  {
    EndsAre(B_1, B_5);
    NoMore([B_1, B_5], B_5.largest);
  }

  lemma Below()
    ensures Spanning([A_1, A_5], [B_1, B_5]) == [A_1, A_5]
  {
    EndsAre(B_1, B_5);
    MeetingTwo(A_1, A_5, Some(1), Some(5));
  }

  lemma BothMet(met: seq<File>)
    requires var all := [B_1, B_5] + [A_1, A_5];
             Overlapping([B_1, B_5], 1, Some(SmallestKey(all).user), Some(LargestKey(all).user), met)
    ensures met == [B_1, B_5]
  {
    var all := [B_1, B_5] + [A_1, A_5];
    assert B_1 in all && B_5 in all;
    RangeCovers(all);
    MeetingTwo(B_1, B_5, Some(SmallestKey(all).user), Some(LargestKey(all).user));
  }

  /** SetupOtherInputs adds the two files below, and nothing else. */
  lemma AllChosen(o: Options, met: seq<File>, in0: seq<File>, in1: seq<File>, grandparents: seq<File>)
    ensures SetUp(o, At([B_1, B_5], [A_1, A_5]), 1, [B_1, B_5], met, in0, in1, grandparents)
            ==> in0 == [B_1, B_5] && in1 == [A_1, A_5]
  {
    hide SetUp, Overlapping, Spanning, WithBoundary, SpansOk, SmallestKey, LargestKey;
    var v := At([B_1, B_5], [A_1, A_5]);
    if SetUp(o, v, 1, [B_1, B_5], met, in0, in1, grandparents) {
      SetUpFacts(o, v, 1, [B_1, B_5], met, in0, in1, grandparents);
      Closed();
      Below();
      if in0 != [B_1, B_5] || in1 != [A_1, A_5] {
        BothMet(met);
      }
    }
  }
}
