/** The Compaction object and the ways it is picked (PickCompaction, CompactRange, SetupOtherInputs), and the
    level a flush goes to (PickLevelForMemTableOutput). */
module CompactionPicker {
  import opened InternalKeys
  import opened Levels
  import opened Versions
  import opened Inputs
  import opened Picking

  /** The files of a level that meet the user keys from the smallest to the largest of some files. */
  function Spanning(files: seq<File>, fs: seq<File>): seq<File>
    requires fs != []
  {
    Meeting(files, Some(SmallestKey(fs).user), Some(LargestKey(fs).user))
  }

  /** Closed level inputs, with every file of the next level that meets their user key range. */
  ghost predicate Proper(v: Version, level: nat, in0: seq<File>, in1: seq<File>) {
    && |v.files| == NUM_LEVELS && level + 1 < NUM_LEVELS && Closed(v, level, in0)
    && in1 == Spanning(v.files[level + 1], in0)
  }

  // ---- Which files a compaction takes --------------------------------------------------------------------------

  /** What GetOverlappingInputs gives for a request. */
  ghost predicate Overlapping(files: seq<File>, level: nat, begin: Option<UserKey>, end: Option<UserKey>, fs: seq<File>) {
    exists lo, hi :: fs == Meeting(files, lo, hi)
                     && if level > 0 then lo == begin && hi == end else LeastClosed(files, begin, end, lo, hi)
  }

  ghost function WithBoundary(files: seq<File>, fs: seq<File>): seq<File>
    requires SpansOk(files) && fs != []
  {
    fs + BoundaryChain(files, LargestKey(fs))
  }

  /** More level inputs are taken if they are more, pick up nothing more below, and the whole stays small. */
  ghost predicate Grows(o: Options, below: seq<File>, in0: seq<File>, in1: seq<File>, grown: seq<File>)
    requires grown != []
  {
    && |grown| > |in0| && TotalFileSize(in1) + TotalFileSize(grown) < 25 * o.maxFileSize
    && |Spanning(below, grown)| == |in1|
  }

  /** The inputs and grandparents SetupOtherInputs makes of the files to start with; met are the level's files that
      overlap all inputs. */
  ghost predicate SetUp(o: Options, v: Version, level: nat, start: seq<File>, met: seq<File>, in0: seq<File>,
                        in1: seq<File>, grandparents: seq<File>)
  {
    && |v.files| == NUM_LEVELS && level + 1 < NUM_LEVELS && SpansOk(v.files[level]) && start != []
    && var base0, below := WithBoundary(v.files[level], start), v.files[level + 1];
       var base1 := Spanning(below, base0);
       var all := base0 + base1;
       && (if base1 == [] then in0 == base0 && in1 == []
           else
             && met != []
             && Overlapping(v.files[level], level, Some(SmallestKey(all).user), Some(LargestKey(all).user), met)
             && var grown := WithBoundary(v.files[level], met);
                if Grows(o, below, base0, base1, grown) then in0 == grown && in1 == Spanning(below, grown)
                else in0 == base0 && in1 == base1)
       && in0 != [] && grandparents == if level + 2 < NUM_LEVELS then Spanning(v.files[level + 2], in0 + in1) else []
  }

  class Compaction {
    const level: nat
    const inputVersion: Version
    var inputs0: seq<File>
    var inputs1: seq<File>
    var grandparents: seq<File>

    // ShouldStopBefore
    var grandparentIndex: nat
    var seenKey: bool
    var overlappedBytes: nat

    // IsBaseLevelForKey: one position per level
    const levelPtrs: array<nat>

    constructor (level: nat, inputVersion: Version, inputs0: seq<File>)
      ensures this.level == level && this.inputVersion == inputVersion
      ensures this.inputs0 == inputs0 && inputs1 == [] && grandparents == []
      ensures grandparentIndex == 0 && !seenKey && overlappedBytes == 0
      ensures fresh(levelPtrs) && levelPtrs.Length == NUM_LEVELS && forall i :: 0 <= i < NUM_LEVELS ==> levelPtrs[i] == 0
    {
      this.level, this.inputVersion, this.inputs0 := level, inputVersion, inputs0;
      inputs1, grandparents := [], [];
      grandparentIndex, seenKey, overlappedBytes := 0, false, 0;
      levelPtrs := new nat[NUM_LEVELS](_ => 0);
    }

    /** The inputs are a proper selection from the version. */
    ghost predicate Ready()
      reads this
    {
      Proper(inputVersion, level, inputs0, inputs1)
    }

    predicate IsTrivialMove(o: Options)
      reads this
    {
      |inputs0| == 1 && |inputs1| == 0 && TotalFileSize(grandparents) <= MaxGrandParentOverlapBytes(o)
    }
  }

  lemma MeetingStartable(v: Version, next: nat, level: nat, lo: Option<UserKey>, hi: Option<UserKey>)
    requires VersionOk(v, next) && level < NUM_LEVELS && Meeting(v.files[level], lo, hi) != []
    requires level == 0 ==> ClosedRange(v.files[0], lo, hi)
    ensures Startable(v, level, Meeting(v.files[level], lo, hi))
  {
    if level > 0 {
      LevelSortedApart(v, next, level);
      var a, b := MeetingIsSlice(v.files[level], lo, hi);
      assert IsSlice(v.files[level], Meeting(v.files[level], lo, hi), a, b);
    }
  }

  lemma CoveredMeets(files: seq<File>, fs: seq<File>, all: seq<File>, lo: Option<UserKey>, hi: Option<UserKey>)
    requires all != [] && (forall f :: f in fs ==> f in files && f in all) && SpansOk(files)
    requires Widens(lo, hi, Some(SmallestKey(all).user), Some(LargestKey(all).user))
    ensures Keeps(fs, Meeting(files, lo, hi))
  {
    MeetingMembers(files, lo, hi);
    RangeCovers(all);
  }

  lemma StartableNonempty(v: Version, level: nat, in0: seq<File>)
    requires |v.files| == NUM_LEVELS && level < NUM_LEVELS && Startable(v, level, in0)
    ensures in0 != []
  {
  }

  lemma ClosedFacts(v: Version, level: nat, in0: seq<File>)
    requires |v.files| == NUM_LEVELS && level < NUM_LEVELS && Closed(v, level, in0)
    ensures in0 != [] && forall f :: f in in0 ==> f in v.files[level]
  {
    ClosedMembers(v, level, in0);
  }

  lemma KeepsTrans(a: seq<File>, b: seq<File>, c: seq<File>)
    requires Keeps(a, b) && Keeps(b, c)
    ensures Keeps(a, c)
  {
  }

  method GetOverlappingBelow(v: Version, level: nat, begin: UserKey, end: UserKey) returns (inputs: seq<File>)
    requires |v.files| == NUM_LEVELS && 1 <= level < NUM_LEVELS
    ensures inputs == Meeting(v.files[level], Some(begin), Some(end))
  {
    ghost var lo, hi;
    inputs, lo, hi := GetOverlappingInputs(v, level, Some(begin), Some(end));
  }

  /** The growing part of SetupOtherInputs: more level inputs, as long as they pick up nothing more below and
      the whole stays small enough. */
  method GrowInputs(o: Options, v: Version, ghost next: nat, level: nat, inputs0: seq<File>, inputs1: seq<File>,
                    allStart: IKey, allLimit: IKey)
    returns (r0: seq<File>, r1: seq<File>, largest: IKey, ghost met: seq<File>)
    requires VersionOk(v, next) && Proper(v, level, inputs0, inputs1)
    requires allStart == SmallestKey(inputs0 + inputs1) && allLimit == LargestKey(inputs0 + inputs1)
    ensures Proper(v, level, r0, r1) && Keeps(inputs0, r0) && largest == LargestKey(r0)
    ensures met != [] && SpansOk(v.files[level])
    ensures Overlapping(v.files[level], level, Some(allStart.user), Some(allLimit.user), met)
    ensures var grown := WithBoundary(v.files[level], met);
            if Grows(o, v.files[level + 1], inputs0, inputs1, grown)
            then r0 == grown && r1 == Spanning(v.files[level + 1], grown) else r0 == inputs0 && r1 == inputs1
  {
    hide VersionOk, LevelsOk, InOrder, SpansOk, Startable, Closed, Meeting, BoundaryChain, SmallestKey, LargestKey,
         NeverTooWide, ClosedRange, TotalFileSize;
    VersionSize(v, next);
    LevelSpansOk(v, next, level);
    ClosedFacts(v, level, inputs0);
    r0, r1, largest := inputs0, inputs1, LargestKey(inputs0);
    assert Keeps(inputs0, r0);
    var expanded0;
    ghost var lo, hi;
    expanded0, lo, hi := GetOverlappingInputs(v, level, Some(allStart.user), Some(allLimit.user));
    CoveredMeets(v.files[level], inputs0, inputs0 + inputs1, lo, hi);
    assert inputs0[0] in expanded0;
    MeetingStartable(v, next, level, lo, hi);
    hide Keeps;
    met := expanded0;
    expanded0 := AddBoundaryInputs(v.files[level], expanded0);
    BoundaryCloses(v, next, level, met, expanded0);
    KeepsTrans(inputs0, met, expanded0);
    ClosedFacts(v, level, expanded0);
    if |expanded0| > |inputs0|
       && TotalFileSize(inputs1) + TotalFileSize(expanded0) < ExpandedCompactionByteSizeLimit(o) {
      var newStart, newLimit := GetRange(expanded0);
      var expanded1 := GetOverlappingBelow(v, level + 1, newStart.user, newLimit.user);
      if |expanded1| == |inputs1| {
        r0, r1, largest := expanded0, expanded1, newLimit;
      }
    }
  }

  /** SetupOtherInputs: closes the level inputs, takes what they meet below, grows the level inputs when that
      costs nothing below, and returns the key the next compaction of the level starts after. */
  method SetupOtherInputs(o: Options, c: Compaction, ghost next: nat) returns (pointer: IKey, ghost met: seq<File>)
    requires VersionOk(c.inputVersion, next) && c.level + 1 < NUM_LEVELS
    requires Startable(c.inputVersion, c.level, c.inputs0)
    modifies c`inputs0, c`inputs1, c`grandparents
    ensures c.Ready()
    ensures Keeps(old(c.inputs0), c.inputs0)
    ensures SetUp(o, c.inputVersion, c.level, old(c.inputs0), met, c.inputs0, c.inputs1, c.grandparents)
    ensures pointer == LargestKey(c.inputs0)
  {
    hide VersionOk, SpansOk, Startable, Closed, Meeting, BoundaryChain, SmallestKey, LargestKey, Keeps, SetUp, Overlapping,
         Grows, Proper;
    var v, level := c.inputVersion, c.level;
    VersionSize(v, next);
    LevelSpansOk(v, next, level);
    StartableNonempty(v, level, c.inputs0);
    ghost var start := c.inputs0;
    var inputs0 := AddBoundaryInputs(v.files[level], c.inputs0);
    BoundaryCloses(v, next, level, c.inputs0, inputs0);
    ClosedFacts(v, level, inputs0);
    var smallest, largest := GetRange(inputs0);
    var inputs1 := GetOverlappingBelow(v, level + 1, smallest.user, largest.user);
    var allStart, allLimit := GetRange(inputs0 + inputs1);
    met := [];
    ghost var base0, base1 := inputs0, inputs1;
    ProperIs(v, level, inputs0, inputs1);
    if inputs1 != [] {
      inputs0, inputs1, largest, met := GrowInputs(o, v, next, level, inputs0, inputs1, allStart, allLimit);
      KeepsTrans(start, base0, inputs0);
      ProperFacts(v, level, inputs0, inputs1);
      ClosedFacts(v, level, inputs0);
      allStart, allLimit := GetRange(inputs0 + inputs1);
    }
    var grandparents := [];
    if level + 2 < NUM_LEVELS {
      grandparents := GetOverlappingBelow(v, level + 2, allStart.user, allLimit.user);
    }
    SetUpAs(o, v, level, start, base0, base1, met, inputs0, inputs1, grandparents);
    c.inputs0, c.inputs1, c.grandparents := inputs0, inputs1, grandparents;
    pointer := largest;
  }

  lemma VersionSize(v: Version, next: nat)
    requires VersionOk(v, next)
    ensures |v.files| == NUM_LEVELS
  {
  }

  lemma ProperIs(v: Version, level: nat, in0: seq<File>, in1: seq<File>)
    requires |v.files| == NUM_LEVELS && level + 1 < NUM_LEVELS && Closed(v, level, in0) && in0 != []
    requires in1 == Spanning(v.files[level + 1], in0)
    ensures Proper(v, level, in0, in1)
  {
    hide Closed, Spanning;
  }

  lemma ProperFacts(v: Version, level: nat, in0: seq<File>, in1: seq<File>)
    requires Proper(v, level, in0, in1)
    ensures Closed(v, level, in0)
  {
  }

  lemma SetUpAs(o: Options, v: Version, level: nat, start: seq<File>, base0: seq<File>, base1: seq<File>, met: seq<File>,
                in0: seq<File>, in1: seq<File>, grandparents: seq<File>)
    requires |v.files| == NUM_LEVELS && level + 1 < NUM_LEVELS && SpansOk(v.files[level]) && start != []
    requires base0 == WithBoundary(v.files[level], start) && base1 == Spanning(v.files[level + 1], base0)
    requires base1 == [] ==> in0 == base0 && in1 == []
    requires base1 != [] ==>
               && met != []
               && Overlapping(v.files[level], level, Some(SmallestKey(base0 + base1).user),
                              Some(LargestKey(base0 + base1).user), met)
               && var grown := WithBoundary(v.files[level], met);
                  if Grows(o, v.files[level + 1], base0, base1, grown)
                  then in0 == grown && in1 == Spanning(v.files[level + 1], grown) else in0 == base0 && in1 == base1
    requires in0 != [] && grandparents == if level + 2 < NUM_LEVELS then Spanning(v.files[level + 2], in0 + in1) else []
    ensures SetUp(o, v, level, start, met, in0, in1, grandparents)
  {
    hide SpansOk, Meeting, BoundaryChain, SmallestKey, LargestKey, Overlapping, Grows, WithBoundary, Spanning;
  }

  lemma SingleStartable(v: Version, level: nat, i: nat)
    requires |v.files| == NUM_LEVELS && 1 <= level < NUM_LEVELS && i < |v.files[level]|
    ensures Startable(v, level, [v.files[level][i]])
  {
    assert IsSlice(v.files[level], [v.files[level][i]], i, i + 1);
  }

  /** The file a size compaction starts from: the first to end after the level's compact pointer, or the first. */
  function FirstPast(files: seq<File>, pointer: Option<IKey>): (i: nat)
    requires files != []
    ensures i < |files| && forall j :: 0 <= j < i ==> !Ends(files, pointer, j)
    ensures Ends(files, pointer, i) || (i == 0 && forall j :: 0 <= j < |files| ==> !Ends(files, pointer, j))
  {
    if exists j :: 0 <= j < |files| && Ends(files, pointer, j) then FirstEnding(files, pointer) else 0
  }

  predicate Ends(files: seq<File>, pointer: Option<IKey>, j: nat)
    requires j < |files|
  {
    pointer.None? || Less(pointer.value, files[j].largest)
  }

  function FirstEnding(files: seq<File>, pointer: Option<IKey>): (i: nat)
    requires exists j :: 0 <= j < |files| && Ends(files, pointer, j)
    ensures i < |files| && Ends(files, pointer, i) && forall j :: 0 <= j < i ==> !Ends(files, pointer, j)
  {
    if exists j :: 0 <= j < |files| - 1 && Ends(files, pointer, j) then
      assert forall j :: 0 <= j < |files| - 1 ==> (Ends(files[..|files| - 1], pointer, j) <==> Ends(files, pointer, j));
      FirstEnding(files[..|files| - 1], pointer)
    else |files| - 1
  }

  method FirstAfterPointer(files: seq<File>, pointer: Option<IKey>) returns (i: nat)
    requires files != []
    ensures i == FirstPast(files, pointer)
  {
    i := 0;
    while i < |files|
      invariant i <= |files| && forall j :: 0 <= j < i ==> !Ends(files, pointer, j)
    {
      if pointer.None? || Less(pointer.value, files[i].largest) {
        assert Ends(files, pointer, i);
        return;
      }
      i := i + 1;
    }
    i := 0;
  }

  /** What an automatic compaction starts from: a file of the level, with what overlaps it at level 0. */
  ghost predicate StartsAt(files: seq<File>, level: nat, i: nat, start: seq<File>) {
    && i < |files|
    && if level > 0 then start == [files[i]]
       else Overlapping(files, 0, Some(files[i].smallest.user), Some(files[i].largest.user), start)
  }

  datatype Trigger = BySize(level: nat) | BySeek(level: nat, index: nat)

  // ---- Which compaction is due -----------------------------------------------------------------------------------

  const L0_COMPACTION_TRIGGER: nat := 4

  function MaxBytesForLevel(level: nat): (r: real)
    ensures r > 0.0
  {
    if level <= 1 then 10.0 * 1048576.0 else 10.0 * MaxBytesForLevel(level - 1)
  }

  /** How full a level is: level 0 by its files, the others by their bytes. */
  function Score(v: Version, level: nat): real
    requires level < |v.files|
  {
    if level == 0 then |v.files[0]| as real / L0_COMPACTION_TRIGGER as real
    else TotalFileSize(v.files[level]) as real / MaxBytesForLevel(level)
  }

  /** Finalize: the fullest level but the last, the first of them if there are several. */
  method Finalize(v: Version) returns (level: nat, score: real)
    requires |v.files| == NUM_LEVELS
    ensures level < NUM_LEVELS - 1 && score == Score(v, level)
    ensures forall l :: 0 <= l < NUM_LEVELS - 1 ==> Score(v, l) <= score && (l < level ==> Score(v, l) < score)
  {
    var best: int := -1;
    score := -1.0;
    for i := 0 to NUM_LEVELS - 1
      invariant if i == 0 then best == -1 && score == -1.0 else 0 <= best < i && score == Score(v, best)
      invariant forall l :: 0 <= l < i ==> Score(v, l) <= score && (l < best ==> Score(v, l) < score)
    {
      var s := Score(v, i);
      if s > score {
        best, score := i, s;
      }
    }
    level := best;
  }

  lemma EmptyScore(v: Version, level: nat)
    requires level < |v.files| && v.files[level] == []
    ensures Score(v, level) == 0.0
  {
    assert TotalFileSize([]) == 0;
  }

  /** Some level is to be compacted because of its size. */
  ghost predicate Overfull(v: Version)
    requires |v.files| == NUM_LEVELS
  {
    exists l :: 0 <= l < NUM_LEVELS - 1 && Score(v, l) >= 1.0
  }

  /** How full the levels are, in plain numbers: four files fill level 0, ten MiB level 1, and every level further down
      takes ten times as much as the one above. */
  lemma ScoreMeans(v: Version)
    requires |v.files| == NUM_LEVELS
    ensures Score(v, 0) == |v.files[0]| as real / 4.0
    ensures Score(v, 1) == TotalFileSize(v.files[1]) as real / 10485760.0
    ensures Score(v, 2) == TotalFileSize(v.files[2]) as real / 104857600.0
    ensures Score(v, 3) == TotalFileSize(v.files[3]) as real / 1048576000.0
    ensures Score(v, 4) == TotalFileSize(v.files[4]) as real / 10485760000.0
    ensures Score(v, 5) == TotalFileSize(v.files[5]) as real / 104857600000.0
  {
    hide TotalFileSize;
    assert MaxBytesForLevel(1) == 10485760.0;
    assert MaxBytesForLevel(2) == 10.0 * MaxBytesForLevel(1);
    assert MaxBytesForLevel(3) == 10.0 * MaxBytesForLevel(2);
    assert MaxBytesForLevel(4) == 10.0 * MaxBytesForLevel(3);
    assert MaxBytesForLevel(5) == 10.0 * MaxBytesForLevel(4);
  }

  lemma AtLeastOne(n: nat, limit: real)
    requires limit > 0.0
    ensures n as real / limit >= 1.0 <==> n as real >= limit
  {
    assert n as real / limit * limit == n as real;
  }

  /** A compaction is due for size exactly when level 0 has four files or some level from 1 to 5 has reached its limit. */
  lemma OverfullMeans(v: Version)
    requires |v.files| == NUM_LEVELS
    ensures Overfull(v) <==>
            || |v.files[0]| >= 4 || TotalFileSize(v.files[1]) >= 10485760 || TotalFileSize(v.files[2]) >= 104857600
            || TotalFileSize(v.files[3]) >= 1048576000 || TotalFileSize(v.files[4]) >= 10485760000
            || TotalFileSize(v.files[5]) >= 104857600000
  {
    hide Score, TotalFileSize;
    ScoreMeans(v);
    AtLeastOne(|v.files[0]|, 4.0);
    AtLeastOne(TotalFileSize(v.files[1]), 10485760.0);
    AtLeastOne(TotalFileSize(v.files[2]), 104857600.0);
    AtLeastOne(TotalFileSize(v.files[3]), 1048576000.0);
    AtLeastOne(TotalFileSize(v.files[4]), 10485760000.0);
    AtLeastOne(TotalFileSize(v.files[5]), 104857600000.0);
    if Overfull(v) {
      var l :| 0 <= l < NUM_LEVELS - 1 && Score(v, l) >= 1.0;
      assert l == 0 || l == 1 || l == 2 || l == 3 || l == 4 || l == 5;
    } else {
      assert Score(v, 0) < 1.0 && Score(v, 1) < 1.0 && Score(v, 2) < 1.0 && Score(v, 3) < 1.0 && Score(v, 4) < 1.0
             && Score(v, 5) < 1.0;
    }
  }

  /** The choice PickCompaction begins with: size goes before seeks. */
  method PickTrigger(v: Version, seek: Option<Trigger>) returns (trigger: Option<Trigger>)
    requires |v.files| == NUM_LEVELS
    ensures !Overfull(v) ==> trigger == seek
    ensures Overfull(v) ==> trigger.Some? && trigger.value.BySize? && trigger.value.level < NUM_LEVELS - 1
    ensures Overfull(v) ==> forall l :: 0 <= l < NUM_LEVELS - 1 ==> Score(v, l) <= Score(v, trigger.value.level)
    ensures Overfull(v) ==> v.files[trigger.value.level] != []
  {
    hide Score;
    var level, score := Finalize(v);
    if v.files[level] == [] {
      EmptyScore(v, level);
    }
    trigger := if score >= 1.0 then Some(BySize(level)) else seek;
  }

  /** PickCompaction: the level with the best score, or the file that took too many seeks. */
  method PickCompaction(o: Options, v: Version, ghost next: nat, trigger: Trigger, pointers: seq<Option<IKey>>)
    returns (c: Compaction, pointer: IKey, ghost start: seq<File>, ghost met: seq<File>)
    requires VersionOk(v, next) && trigger.level + 1 < NUM_LEVELS && |pointers| == NUM_LEVELS
    requires v.files[trigger.level] != [] && (trigger.BySeek? ==> trigger.index < |v.files[trigger.level]|)
    ensures fresh(c) && fresh(c.levelPtrs) && c.level == trigger.level && c.inputVersion == v && c.Ready()
    ensures c.levelPtrs.Length == NUM_LEVELS && forall i :: 0 <= i < NUM_LEVELS ==> c.levelPtrs[i] == 0
    ensures c.grandparentIndex == 0 && !c.seenKey && c.overlappedBytes == 0
    ensures pointer == LargestKey(c.inputs0)
    ensures var files := v.files[trigger.level];
            var i := if trigger.BySeek? then trigger.index else FirstPast(files, pointers[trigger.level]);
            StartsAt(files, trigger.level, i, start)
    ensures SetUp(o, v, trigger.level, start, met, c.inputs0, c.inputs1, c.grandparents)
  {
    var level := trigger.level;
    var files := v.files[level];
    var i;
    match trigger {
      case BySize(_) => i := FirstAfterPointer(files, pointers[level]);
      case BySeek(_, index) => i := index;
    }
    c := new Compaction(level, v, [files[i]]);
    if level == 0 {
      var smallest, largest := GetRange(c.inputs0);
      ghost var lo, hi;
      c.inputs0, lo, hi := GetOverlappingInputs(v, 0, Some(smallest.user), Some(largest.user));
      LevelSpansOk(v, next, 0);
      CoveredMeets(files, [files[i]], [files[i]], lo, hi);
      assert files[i] in [files[i]];
      MeetingStartable(v, next, 0, lo, hi);
    } else {
      SingleStartable(v, level, i);
    }
    start := c.inputs0;
    pointer, met := SetupOtherInputs(o, c, next);
  }

  /** How many of the inputs a manual compaction takes in one go. */
  method Truncate(inputs: seq<File>, limit: nat) returns (n: nat)
    requires inputs != []
    ensures 0 < n <= |inputs| && (n < |inputs| ==> TotalFileSize(inputs[..n]) >= limit)
    ensures forall k :: 0 < k < n ==> TotalFileSize(inputs[..k]) < limit
  {
    var total := 0;
    for i := 0 to |inputs|
      invariant total == TotalFileSize(inputs[..i]) && forall k :: 0 < k <= i ==> TotalFileSize(inputs[..k]) < limit
    {
      assert inputs[..i + 1] == inputs[..i] + [inputs[i]];
      TotalSnoc(inputs[..i], inputs[i]);
      total := total + inputs[i].size;
      if total >= limit {
        return i + 1;
      }
    }
    n := |inputs|;
  }

  lemma {:induction false} TotalSnoc(files: seq<File>, f: File)
    ensures TotalFileSize(files + [f]) == TotalFileSize(files) + f.size
  {
    if files != [] {
      assert (files + [f])[1..] == files[1..] + [f];
      TotalSnoc(files[1..], f);
    }
  }

  lemma LeastIsClosed(files: seq<File>, begin: Option<UserKey>, end: Option<UserKey>, lo: Option<UserKey>, hi: Option<UserKey>)
    ensures LeastClosed(files, begin, end, lo, hi) ==> ClosedRange(files, lo, hi)
  {
  }

  /** With nothing in the request's range the request is its own least closed range. */
  lemma NothingMeets(files: seq<File>, level: nat, begin: Option<UserKey>, end: Option<UserKey>, fs: seq<File>)
    requires Overlapping(files, level, begin, end, fs)
    ensures fs == [] <==> forall f :: f in files ==> !Meets(f, begin, end)
  {
    var lo, hi :| fs == Meeting(files, lo, hi)
                  && if level > 0 then lo == begin && hi == end else LeastClosed(files, begin, end, lo, hi);
    MeetingMembers(files, lo, hi);
    if forall f :: f in files ==> !Meets(f, begin, end) {
      assert Widens(begin, end, begin, end) && ClosedRange(files, begin, end);
      assert lo == begin && hi == end;
      if fs != [] {
        assert fs[0] in fs;
      }
    } else {
      var f :| f in files && Meets(f, begin, end);
      assert Meets(f, lo, hi) && f in fs;
    }
  }

  /** What a manual compaction starts from: at level 0 all that overlaps the range, below it the shortest prefix of the
      files meeting it that reaches the size limit. */
  ghost predicate RangeStart(o: Options, files: seq<File>, level: nat, begin: Option<UserKey>, end: Option<UserKey>,
                             start: seq<File>)
  {
    && start != []
    && if level == 0 then Overlapping(files, 0, begin, end, start)
       else
         && start <= Meeting(files, begin, end)
         && (forall k :: 0 < k < |start| ==> TotalFileSize(start[..k]) < o.maxFileSize)
         && (start != Meeting(files, begin, end) ==> TotalFileSize(start) >= o.maxFileSize)
  }

  /** CompactRange: a compaction of the files meeting the range, of a prefix of them below level 0. */
  method CompactRange(o: Options, v: Version, ghost next: nat, level: nat, begin: Option<UserKey>, end: Option<UserKey>)
    returns (c: Compaction?, pointer: IKey, ghost start: seq<File>, ghost met: seq<File>)
    requires VersionOk(v, next) && level + 1 < NUM_LEVELS
    ensures c == null <==> forall f :: f in v.files[level] ==> !Meets(f, begin, end)
    ensures c != null ==> fresh(c) && fresh(c.levelPtrs) && c.level == level && c.inputVersion == v && c.Ready()
    ensures c != null ==> c.levelPtrs.Length == NUM_LEVELS && forall i :: 0 <= i < NUM_LEVELS ==> c.levelPtrs[i] == 0
    ensures c != null ==> c.grandparentIndex == 0 && !c.seenKey && c.overlappedBytes == 0
    ensures c != null ==> pointer == LargestKey(c.inputs0)
    ensures c != null ==> RangeStart(o, v.files[level], level, begin, end, start)
    ensures c != null ==> SetUp(o, v, level, start, met, c.inputs0, c.inputs1, c.grandparents)
  {
    hide LevelsOk, InOrder, SpansOk, Startable, Closed, BoundaryChain, SmallestKey, LargestKey, SetUp, LeastClosed, Meeting,
         TotalFileSize, Compaction.Ready, Meets, ClosedRange;
    var inputs;
    ghost var lo, hi;
    inputs, lo, hi := GetOverlappingInputs(v, level, begin, end);
    assert Overlapping(v.files[level], level, begin, end, inputs);
    LeastIsClosed(v.files[level], begin, end, lo, hi);
    NothingMeets(v.files[level], level, begin, end, inputs);
    start, met := inputs, [];
    if inputs == [] {
      return null, IKey(0, 0, Deletion), [], [];
    }
    MeetingStartable(v, next, level, lo, hi);
    if level > 0 {
      var n := Truncate(inputs, o.maxFileSize);
      PrefixStartable(v, level, inputs, n);
      assert forall k :: 0 < k < n ==> inputs[..n][..k] == inputs[..k];
      inputs := inputs[..n];
    }
    start := inputs;
    c := new Compaction(level, v, inputs);
    pointer, met := SetupOtherInputs(o, c, next);
  }

  lemma PrefixStartable(v: Version, level: nat, inputs: seq<File>, n: nat)
    requires |v.files| == NUM_LEVELS && 1 <= level < NUM_LEVELS && Startable(v, level, inputs) && 0 < n <= |inputs|
    ensures Startable(v, level, inputs[..n])
  {
    var a: nat, b: nat :| IsSlice(v.files[level], inputs, a, b);
    assert inputs[..n] == v.files[level][a..a + n];
    assert IsSlice(v.files[level], inputs[..n], a, a + n);
  }

  /** Whether a flush of [lo, hi] may not go one level below this one: it would meet files there, or too many bytes a
      level further down. */
  predicate Blocked(o: Options, v: Version, level: nat, lo: UserKey, hi: UserKey)
    requires |v.files| == NUM_LEVELS && level + 1 < NUM_LEVELS
  {
    || (exists f :: f in v.files[level + 1] && Meets(f, Some(lo), Some(hi)))
    || (level + 2 < NUM_LEVELS
        && TotalFileSize(Meeting(v.files[level + 2], Some(lo), Some(hi))) > 10 * o.maxFileSize)
  }

  /** A level up to 2, past level 0 only if the range meets no file there or above, and as deep as it goes without
      being blocked. */
  ghost predicate PicksLevel(o: Options, v: Version, lo: UserKey, hi: UserKey, level: nat)
    requires |v.files| == NUM_LEVELS
  {
    && level <= 2
    && (level > 0 ==> forall i, f :: 0 <= i <= level && f in v.files[i] ==> !Meets(f, Some(lo), Some(hi)))
    && (forall i :: 0 <= i < level ==> !Blocked(o, v, i, lo, hi))
    && (level == 2 || Blocked(o, v, level, lo, hi)
        || (level == 0 && exists f :: f in v.files[0] && Meets(f, Some(lo), Some(hi))))
  }

  lemma PickedIsClear(o: Options, v: Version, lo: UserKey, hi: UserKey, level: nat)
    requires |v.files| == NUM_LEVELS && PicksLevel(o, v, lo, hi, level)
    ensures level <= MAX_MEM_COMPACT_LEVEL
    ensures level > 0 ==> forall i, f :: 0 <= i <= level && f in v.files[i] ==> !Meets(f, Some(lo), Some(hi))
  {
    hide Blocked, Meets;
  }

  method PickLevelForMemTableOutput(o: Options, v: Version, ghost next: nat, lo: UserKey, hi: UserKey)
    returns (level: nat)
    requires VersionOk(v, next)
    ensures PicksLevel(o, v, lo, hi, level)
  {
    hide Meets, Meeting, LevelsOk, InOrder, TotalFileSize;
    level := 0;
    var overlaps := SomeFileOverlapsRange(false, v.files[0], Some(lo), Some(hi));
    if !overlaps {
      while level < MAX_MEM_COMPACT_LEVEL
        invariant level <= MAX_MEM_COMPACT_LEVEL && forall i :: 0 <= i < level ==> !Blocked(o, v, i, lo, hi)
        invariant forall i, f :: 0 <= i <= level && f in v.files[i] ==> !Meets(f, Some(lo), Some(hi))
      {
        LevelSortedApart(v, next, level + 1);
        overlaps := SomeFileOverlapsRange(true, v.files[level + 1], Some(lo), Some(hi));
        if overlaps {
          break;
        }
        if level + 2 < NUM_LEVELS {
          var below;
          ghost var lo', hi';
          below, lo', hi' := GetOverlappingInputs(v, level + 2, Some(lo), Some(hi));
          if TotalFileSize(below) > MaxGrandParentOverlapBytes(o) {
            break;
          }
        }
        level := level + 1;
      }
    }
  }
}
