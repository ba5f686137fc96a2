/** A run of the engine, from the empty store, in which the code's own choice of inputs brings a deleted key back. */
module Resurrection {
  import opened InternalKeys
  import opened Visibility
  import opened Batches
  import opened Levels
  import opened Versions
  import opened Inputs
  import opened Picking
  import opened CompactionPicker
  import opened CompactionReads
  import opened Dropping
  import opened Runs

  const OLD_TWO := Entry(IKey(2, 1, Put), "back")
  const OLD_ONE := Entry(IKey(1, 2, Put), "old")
  const GONE_TWO := Entry(IKey(2, 3, Deletion), "")
  const NEW_ONE := Entry(IKey(1, 4, Put), "new")

  /** Key 2 is written and flushed. */
  const FIRST := File(2, 1, OLD_TWO.key, OLD_TWO.key, [OLD_TWO])
  /** Under a snapshot that still sees it, key 2 is deleted, and that is flushed as well. */
  const MIDDLE := File(3, 2, OLD_ONE.key, GONE_TWO.key, [OLD_ONE, GONE_TWO])
  /** A compaction of the two keeps all for the snapshot, and cuts its output inside key 2: the tombstone ends one file,
      the value begins the next. */
  const LOWER := File(4, 2, OLD_ONE.key, GONE_TWO.key, [OLD_ONE, GONE_TWO])
  const BESIDE := File(5, 1, OLD_TWO.key, OLD_TWO.key, [OLD_TWO])
  /** The snapshot is gone when key 1 is written again and flushed; its file is compacted with LOWER alone. */
  const UPPER := File(6, 1, NEW_ONE.key, NEW_ONE.key, [NEW_ONE])
  const LAST := File(7, 1, NEW_ONE.key, NEW_ONE.key, [NEW_ONE])

  const INPUT: seq<Entry> := [OLD_ONE, GONE_TWO, OLD_TWO]
  const LAST_INPUT: seq<Entry> := [NEW_ONE, OLD_ONE, GONE_TWO]

  /** A version with files at levels 1 and 2 only. */
  function At(one: seq<File>, two: seq<File>): Version {
    Version([[], one, two, [], [], [], []])
  }

  ghost function Sets(one: set<File>, two: set<File>): Levels { [{}, one, two, {}, {}, {}, {}] }

  const VERSION := At([UPPER], [LOWER, BESIDE])

  ghost const LEVELS := Sets({UPPER}, {LOWER, BESIDE})

  lemma AtAre(one: seq<File>, two: seq<File>)
    ensures LevelsOf(At(one, two)) == Sets(FileSet(one), FileSet(two))
  {
    var ls := LevelsOf(At(one, two));
    assert ls[1] == FileSet(one) && ls[2] == FileSet(two);
    assert ls[0] == {} && ls[3] == {} && ls[4] == {} && ls[5] == {} && ls[6] == {};
  }

  lemma SetsContents(one: set<File>, two: set<File>)
    ensures Contents(Sets(one, two)) == EntriesOf(one) + EntriesOf(two)
  {
    var ls := Sets(one, two);
    assert ls[1] == one && ls[2] == two;
    forall e | e in Contents(ls) ensures e in EntriesOf(one) + EntriesOf(two) {
      var i, f :| 0 <= i < NUM_LEVELS && f in ls[i] && e in f.entries;
    }
  }

  lemma FilesFine()
    ensures FileOk(FIRST) && FileOk(MIDDLE) && FileOk(LOWER) && FileOk(BESIDE) && FileOk(UPPER) && FileOk(LAST)
  {
  }

  lemma EntriesAre()
    ensures EntriesOf({}) == {} && EntriesOf({FIRST}) == EntriesOf({BESIDE}) == {OLD_TWO}
    ensures EntriesOf({MIDDLE}) == EntriesOf({LOWER}) == {OLD_ONE, GONE_TWO}
    ensures EntriesOf({UPPER}) == EntriesOf({LAST}) == {NEW_ONE}
    ensures EntriesOf({LOWER, BESIDE}) == EntriesOf({MIDDLE} + {FIRST}) == {OLD_ONE, GONE_TWO, OLD_TWO}
    ensures EntriesOf({UPPER} + {LOWER}) == {NEW_ONE, OLD_ONE, GONE_TWO}
  {
    OneFile(FIRST);
    OneFile(BESIDE);
    OneFile(MIDDLE);
    OneFile(LOWER);
    OneFile(UPPER);
    OneFile(LAST);
    TwoFiles(LOWER, BESIDE);
    TwoFiles(MIDDLE, FIRST);
    TwoFiles(UPPER, LOWER);
    assert {MIDDLE} + {FIRST} == {MIDDLE, FIRST} && {UPPER} + {LOWER} == {UPPER, LOWER};
  }

  lemma OneFile(f: File)
    ensures EntriesOf({f}) == ToSet(f.entries)
  {
    assert f in {f};
  }

  lemma TwoFiles(f: File, g: File)
    ensures EntriesOf({f, g}) == ToSet(f.entries) + ToSet(g.entries)
  {
    assert f in {f, g} && g in {f, g};
  }

  // ---- The run -------------------------------------------------------------------------------------------------

  const WRITE_TWO := [Op(2, Some("back"))]
  const DELETE_TWO := [Op(1, Some("old")), Op(2, None)]
  const WRITE_ONE := [Op(1, Some("new"))]

  ghost const LABELS: seq<Label> := [
    Write(WRITE_TWO), Switch, Flush(FIRST, 2), TakeSnapshot,
    Write(DELETE_TWO), Switch, Flush(MIDDLE, 1), Compact(1, {MIDDLE}, {FIRST}, INPUT, {LOWER, BESIDE}, 6),
    ReleaseSnapshot(0), Write(WRITE_ONE), Switch, Flush(UPPER, 1), Compact(1, {UPPER}, {LOWER}, LAST_INPUT, {LAST}, 8)
  ]

  ghost const ONE: set<Entry> := {OLD_TWO}
  ghost const THREE: set<Entry> := {OLD_TWO, OLD_ONE, GONE_TWO}
  ghost const FOUR: set<Entry> := {OLD_TWO, OLD_ONE, GONE_TWO, NEW_ONE}

  ghost const STATES: seq<State> := [
    State({}, None, Sets({}, {}), 2, 0, [], {}),
    State(ONE, None, Sets({}, {}), 2, 1, [], ONE),
    State({}, Some(ONE), Sets({}, {}), 2, 1, [], ONE),
    State({}, None, Sets({}, {FIRST}), 3, 1, [], ONE),
    State({}, None, Sets({}, {FIRST}), 3, 1, [1], ONE),
    State({OLD_ONE, GONE_TWO}, None, Sets({}, {FIRST}), 3, 3, [1], THREE),
    State({}, Some({OLD_ONE, GONE_TWO}), Sets({}, {FIRST}), 3, 3, [1], THREE),
    State({}, None, Sets({MIDDLE}, {FIRST}), 4, 3, [1], THREE),
    State({}, None, Sets({}, {LOWER, BESIDE}), 6, 3, [1], THREE),
    State({}, None, Sets({}, {LOWER, BESIDE}), 6, 3, [], THREE),
    State({NEW_ONE}, None, Sets({}, {LOWER, BESIDE}), 6, 4, [], FOUR),
    State({}, Some({NEW_ONE}), Sets({}, {LOWER, BESIDE}), 6, 4, [], FOUR),
    State({}, None, LEVELS, 7, 4, [], FOUR),
    State({}, None, Sets({}, {BESIDE, LAST}), 8, 4, [], FOUR)
  ]

  lemma SmallNumbering(ops: seq<Op>, first: nat)
    ensures |ops| == 1 ==> Numbering(ops, first) == {EntryOf(ops[0], first)}
    ensures |ops| == 2 ==> Numbering(ops, first) == {EntryOf(ops[0], first), EntryOf(ops[1], first + 1)}
  {
  }

  lemma Starts()
    ensures Init(STATES[0])
  {
    assert Sets({}, {}) == seq(NUM_LEVELS, _ => {});
  }

  lemma WriteSteps()
    ensures Step(STATES[0], LABELS[0], STATES[1]) && Step(STATES[4], LABELS[4], STATES[5])
    ensures Step(STATES[9], LABELS[9], STATES[10])
  {
    SmallNumbering(WRITE_TWO, 1);
    SmallNumbering(DELETE_TWO, 2);
    SmallNumbering(WRITE_ONE, 4);
    hide Numbering;
  }

  lemma SmallSteps()
    ensures Step(STATES[1], LABELS[1], STATES[2]) && Step(STATES[3], LABELS[3], STATES[4])
    ensures Step(STATES[5], LABELS[5], STATES[6]) && Step(STATES[8], LABELS[8], STATES[9])
    ensures Step(STATES[10], LABELS[10], STATES[11])
  {
  }

  lemma NoneAnd(f: File)
    ensures {} + {f} == {f}
  {
  }

  lemma FlushesFirst()
    ensures Step(STATES[2], LABELS[2], STATES[3])
  {
    FilesFine();
    hide FileOk;
    NoneAnd(FIRST);
    assert Flushed(Sets({}, {}), FIRST, 2) == Sets({}, {FIRST});
    assert ToSet(FIRST.entries) == ONE;
  }

  lemma FlushesMiddle()
    ensures Step(STATES[6], LABELS[6], STATES[7])
  {
    FilesFine();
    hide FileOk;
    NoneAnd(MIDDLE);
    assert Flushed(Sets({}, {FIRST}), MIDDLE, 1) == Sets({MIDDLE}, {FIRST});
    assert ToSet(MIDDLE.entries) == {OLD_ONE, GONE_TWO};
    assert Above(MIDDLE, FIRST);
  }

  lemma FlushesUpper()
    ensures Step(STATES[11], LABELS[11], STATES[12])
  {
    FilesFine();
    hide FileOk;
    NoneAnd(UPPER);
    assert Flushed(Sets({}, {LOWER, BESIDE}), UPPER, 1) == LEVELS;
    assert ToSet(UPPER.entries) == {NEW_ONE};
    assert Above(UPPER, LOWER) && Above(UPPER, BESIDE);
  }

  lemma NothingDeeper(one: set<File>, two: set<File>)
    ensures Deeper(Sets(one, two), 1) == {}
  {
  }

  /** The snapshot keeps every entry of the first compaction. */
  lemma AllSurvive(deeper: set<File>)
    ensures Survivors(INPUT, 3, 1, deeper) == INPUT
  {
    assert !Dropped(INPUT, 0, 1, deeper) && !Dropped(INPUT, 1, 1, deeper) && !Dropped(INPUT, 2, 1, deeper);
    hide Dropped;
    assert Survivors(INPUT, 1, 1, deeper) == [OLD_ONE];
    assert Survivors(INPUT, 2, 1, deeper) == [OLD_ONE, GONE_TWO];
  }

  /** The second one keeps the new value of key 1 alone. */
  lemma OneSurvives()
    ensures Survivors(LAST_INPUT, 3, 4, {}) == [NEW_ONE]
  {
    assert !Dropped(LAST_INPUT, 0, 4, {}) && Dropped(LAST_INPUT, 1, 4, {}) && Dropped(LAST_INPUT, 2, 4, {});
    hide Dropped;
    assert Survivors(LAST_INPUT, 1, 4, {}) == [NEW_ONE];
    assert Survivors(LAST_INPUT, 2, 4, {}) == [NEW_ONE];
  }

  lemma InputsMerge()
    ensures Merges(INPUT, {MIDDLE} + {FIRST}) && Merges(LAST_INPUT, {UPPER} + {LOWER})
  {
    EntriesAre();
  }

  lemma CompactionsWrite()
    ensures Writes(Sets({MIDDLE}, {FIRST}), 1, {MIDDLE}, {FIRST}, INPUT, 1, {LOWER, BESIDE})
    ensures Writes(LEVELS, 1, {UPPER}, {LOWER}, LAST_INPUT, 4, {LAST})
  {
    EntriesAre();
    InputsMerge();
    AllSurvive(Deeper(Sets({MIDDLE}, {FIRST}), 1));
    NothingDeeper({UPPER}, {LOWER, BESIDE});
    OneSurvives();
  }

  lemma InputsSelected()
    ensures Selected(Sets({MIDDLE}, {FIRST}), 1, {MIDDLE}, {FIRST})
    ensures Selected(LEVELS, 1, {UPPER}, {LOWER})
  {
  }

  lemma OutputsAreFit()
    ensures OutputsFit({LOWER, BESIDE}, {MIDDLE} + {FIRST}, 4, 6) && OutputsFit({LAST}, {UPPER} + {LOWER}, 7, 8)
  {
    EntriesAre();
    FilesFine();
    hide FileOk, EntriesOf;
  }

  lemma LevelsAfter()
    ensures Compacted(Sets({MIDDLE}, {FIRST}), 1, {MIDDLE}, {FIRST}, {LOWER, BESIDE}) == Sets({}, {LOWER, BESIDE})
    ensures Compacted(LEVELS, 1, {UPPER}, {LOWER}, {LAST}) == Sets({}, {BESIDE, LAST})
  {
    assert {MIDDLE} - {MIDDLE} == {} && {FIRST} - {FIRST} + {LOWER, BESIDE} == {LOWER, BESIDE};
    assert {UPPER} - {UPPER} == {} && {LOWER, BESIDE} - {LOWER} + {LAST} == {BESIDE, LAST};
  }

  lemma CompactSteps()
    ensures Step(STATES[7], LABELS[7], STATES[8]) && Step(STATES[12], LABELS[12], STATES[13])
  {
    hide Selected, Writes, OutputsFit, Compacted, Sets;
    InputsSelected();
    CompactionsWrite();
    OutputsAreFit();
    LevelsAfter();
  }

  /** The run is one of the engine's. */
  lemma Reached()
    ensures Run(STATES, LABELS)
  {
    hide Init, Step;
    Starts();
    WriteSteps();
    SmallSteps();
    FlushesFirst();
    FlushesMiddle();
    FlushesUpper();
    CompactSteps();
    forall i | 0 <= i < |LABELS| ensures Step(STATES[i], LABELS[i], STATES[i + 1]) {
      assert i == 0 || i == 1 || i == 2 || i == 3 || i == 4 || i == 5 || i == 6 || i == 7 || i == 8 || i == 9 || i == 10
             || i == 11 || i == 12;
    }
  }

  // ---- What comes of it ------------------------------------------------------------------------------------------

  /** Up to the last step no compaction is unsafe: the first leaves no file beside its inputs. */
  lemma SafeUntilThen(i: nat, u: UserKey)
    requires i < 12
    ensures !Unsafe(STATES[i], LABELS[i], u)
  {
    if i == 7 {
      EntriesAre();
      assert Sets({MIDDLE}, {FIRST})[2] - {FIRST} == {};
      hide EntriesOf;
      ReadNothing({}, u, 1);
    } else {
      assert !LABELS[i].Compact?;
    }
  }

  lemma TombstoneIsNewest()
    ensures Newest(Contents(LEVELS), 2, 4, GONE_TWO) && GONE_TWO in EntriesOf({UPPER} + {LOWER})
  {
    EntriesAre();
    SetsContents({UPPER}, {LOWER, BESIDE});
    hide EntriesOf, Contents;
  }

  lemma ValueIsBeside()
    ensures Read(EntriesOf(LEVELS[2] - {LOWER}), 2, 4) != None
  {
    EntriesAre();
    assert LEVELS[2] - {LOWER} == {BESIDE};
    assert Newest({OLD_TWO}, 2, 4, OLD_TWO);
    ReadIsNewest({OLD_TWO}, 2, 4, OLD_TWO);
  }

  /** The last compaction drops the tombstone of key 2 and leaves its older value to be read. */
  lemma KeyTwoComesBack()
    ensures Unsafe(STATES[12], LABELS[12], 2)
  {
    hide EntriesOf, Contents, Deeper, Newest, Read;
    TombstoneIsNewest();
    ValueIsBeside();
    NothingDeeper({UPPER}, {LOWER, BESIDE});
  }

  /** In this run of the engine key 2 is deleted, and at the end it is read again. */
  lemma DeletedKeyReadAgain()
    ensures Run(STATES, LABELS)
    ensures Read(STATES[13].history, 2, 4) == None && Read(Held(STATES[13]), 2, 4) != None
  {
    hide Run, Unsafe, Read, Held;
    Reached();
    KeyTwoComesBack();
    forall i, w | 0 <= i < 12 ensures !Unsafe(STATES[i], LABELS[i], w) {
      SafeUntilThen(i, w);
    }
    assert SmallestSnapshot(STATES[13]) == 4;
    UnsafeBreaks(STATES, LABELS, 12, 2);
  }

  /** And so it is in whatever way the outputs of the last compaction are cut. */
  lemma WhateverTheCut(input: seq<Entry>, outs: set<File>)
    requires Writes(LEVELS, 1, {UPPER}, {LOWER}, input, 4, outs)
    ensures Read(Contents(LEVELS), 2, 4) == None
    ensures Read(Contents(Compacted(LEVELS, 1, {UPPER}, {LOWER}, outs)), 2, 4) != None
  {
    hide LevelsOk, Contents, Selected, Writes, Compacted, Read, Resurrects, Run;
    Reached();
    RunsKeepInv(STATES, LABELS);
    assert Runs.Inv(STATES[12]);
    InputsSelected();
    KeyTwoComesBack();
    ResurrectionChanges(LEVELS, 7, 1, {UPPER}, {LOWER}, input, 4, outs, 2);
  }

  // ---- The engine's own choices ------------------------------------------------------------------------------------

  /** The versions behind the states of the run. */
  lemma VersionsOfRun()
    ensures LevelsOf(At([], [])) == STATES[2].levels && LevelsOf(At([], [FIRST])) == STATES[6].levels
    ensures LevelsOf(At([MIDDLE], [FIRST])) == STATES[7].levels && LevelsOf(At([], [LOWER, BESIDE])) == STATES[11].levels
    ensures LevelsOf(VERSION) == STATES[12].levels
  {
    hide LevelsOf, Sets;
    AtAre([], []);
    AtAre([], [FIRST]);
    AtAre([MIDDLE], [FIRST]);
    AtAre([], [LOWER, BESIDE]);
    AtAre([UPPER], [LOWER, BESIDE]);
    assert FileSet([]) == {} && FileSet([FIRST]) == {FIRST} && FileSet([MIDDLE]) == {MIDDLE};
    assert FileSet([UPPER]) == {UPPER} && FileSet([LOWER, BESIDE]) == {LOWER, BESIDE};
  }

  lemma MeetingTwo(f: File, g: File, lo: Option<UserKey>, hi: Option<UserKey>)
    ensures Meeting([f], lo, hi) == if Meets(f, lo, hi) then [f] else []
    ensures Meeting([f, g], lo, hi) == (if Meets(f, lo, hi) then [f] else []) + if Meets(g, lo, hi) then [g] else []
  {
    assert [f][..0] == [] && [f, g][..1] == [f];
    assert Meeting([f], lo, hi) == Meeting([], lo, hi) + if Meets(f, lo, hi) then [f] else [];
  }

  /** PickLevelForMemTableOutput sends the three flushes where this run has them. */
  lemma LevelsPicked(o: Options, level: nat)
    requires o.maxFileSize > 0
    ensures PicksLevel(o, At([], []), 2, 2, level) ==> level == 2
    ensures PicksLevel(o, At([], [FIRST]), 1, 2, level) ==> level == 1
    ensures PicksLevel(o, At([], [LOWER, BESIDE]), 1, 1, level) ==> level == 1
  {
    hide PicksLevel;
    FirstPicked(o, level);
    SecondPicked(o, level);
    ThirdPicked(o, level);
  }

  lemma FirstPicked(o: Options, level: nat)
    ensures PicksLevel(o, At([], []), 2, 2, level) ==> level == 2
  {
    var v := At([], []);
    assert !Blocked(o, v, 0, 2, 2) && !Blocked(o, v, 1, 2, 2);
  }

  lemma SecondPicked(o: Options, level: nat)
    requires o.maxFileSize > 0
    ensures PicksLevel(o, At([], [FIRST]), 1, 2, level) ==> level == 1
  {
    MeetingTwo(FIRST, FIRST, Some(1), Some(2));
    var v := At([], [FIRST]);
    assert TotalFileSize([FIRST]) == 1 by { assert [FIRST][1..] == []; }
    assert FIRST in v.files[2];
    assert !Blocked(o, v, 0, 1, 2) && Blocked(o, v, 1, 1, 2);
  }

  lemma ThirdPicked(o: Options, level: nat)
    requires o.maxFileSize > 0
    ensures PicksLevel(o, At([], [LOWER, BESIDE]), 1, 1, level) ==> level == 1
  {
    MeetingTwo(LOWER, BESIDE, Some(1), Some(1));
    var v := At([], [LOWER, BESIDE]);
    assert Meeting([LOWER, BESIDE], Some(1), Some(1)) == [LOWER];
    assert TotalFileSize([LOWER]) == 2 by { assert [LOWER][1..] == []; }
    assert LOWER in v.files[2];
    assert !Blocked(o, v, 0, 1, 1) && Blocked(o, v, 1, 1, 1);
  }

  lemma NoChain(f: File)
    requires SpansOk([f])
    ensures BoundaryChain([f], f.largest) == []
  {
    assert f in [f];
    assert !IsBoundary(f, f.largest);
  }

  /** A file alone in its level stays the only level input. */
  lemma AloneAbove(o: Options, v: Version, f: File, met: seq<File>, in0: seq<File>, in1: seq<File>, grandparents: seq<File>)
    requires |v.files| == NUM_LEVELS && v.files[1] == [f] && SetUp(o, v, 1, [f], met, in0, in1, grandparents)
    ensures in0 == [f] && in1 == Spanning(v.files[2], [f])
  {
    hide Spanning, TotalFileSize, ExpandedCompactionByteSizeLimit;
    NoChain(f);
    assert [f] + [] == [f] && LargestKey([f]) == f.largest;
    var all := [f] + Spanning(v.files[2], [f]);
    MeetingTwo(f, f, Some(SmallestKey(all).user), Some(LargestKey(all).user));
  }

  /** SetupOtherInputs, from the one file of level 1, takes LOWER, which ends on key 2, and not BESIDE, which begins on
      it; and the first compaction takes MIDDLE and FIRST. */
  lemma InputsChosen(o: Options, met: seq<File>, in0: seq<File>, in1: seq<File>, grandparents: seq<File>)
    ensures SetUp(o, VERSION, 1, [UPPER], met, in0, in1, grandparents) ==> in0 == [UPPER] && in1 == [LOWER]
    ensures SetUp(o, At([MIDDLE], [FIRST]), 1, [MIDDLE], met, in0, in1, grandparents) ==> in0 == [MIDDLE] && in1 == [FIRST]
  {
    hide SetUp;
    MeetingTwo(LOWER, BESIDE, Some(1), Some(1));
    MeetingTwo(FIRST, FIRST, Some(1), Some(2));
    if SetUp(o, VERSION, 1, [UPPER], met, in0, in1, grandparents) {
      AloneAbove(o, VERSION, UPPER, met, in0, in1, grandparents);
    }
    if SetUp(o, At([MIDDLE], [FIRST]), 1, [MIDDLE], met, in0, in1, grandparents) {
      AloneAbove(o, At([MIDDLE], [FIRST]), MIDDLE, met, in0, in1, grandparents);
    }
  }
}
