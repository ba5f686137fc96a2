/** Running a compaction (DoCompactionWork): the drop decisions, the splitting of the output, and what gets
    installed. */
module CompactionWork {
  import opened InternalKeys
  import opened Levels
  import opened Versions
  import opened Inputs
  import opened Picking
  import opened CompactionPicker
  import opened Dropping
  import opened Merging

  // ---- IsBaseLevelForKey -------------------------------------------------------------------------------------

  /** All files before position ptr end before u. */
  ghost predicate PassedBy(files: seq<File>, ptr: nat, u: UserKey) {
    ptr <= |files| && forall i :: 0 <= i < ptr ==> files[i].largest.user < u
  }

  lemma PastPtr(files: seq<File>, ptr: nat, u: UserKey, j: nat)
    requires SortedApart(files) && ptr < j < |files| && u < files[ptr].smallest.user
    ensures u < files[j].smallest.user
  {
    assert Less(files[ptr].largest, files[j].smallest);
    StartsBeforeEnds(files, ptr);
  }

  /** One level of IsBaseLevelForKey: moves the level's position up to the first file that does not end before
      u; that file alone decides. */
  method AdvancePtr(files: seq<File>, ptr: nat, u: UserKey) returns (ptr': nat, hit: bool)
    requires SortedApart(files) && PassedBy(files, ptr, u)
    ensures ptr <= ptr' && PassedBy(files, ptr', u)
    ensures hit <==> exists f :: f in files && f.smallest.user <= u <= f.largest.user
  {
    ptr' := ptr;
    while ptr' < |files|
      invariant ptr <= ptr' && PassedBy(files, ptr', u)
    {
      var f := files[ptr'];
      if u <= f.largest.user {
        if u >= f.smallest.user {
          assert f in files;
          return ptr', true;
        }
        forall g | g in files
          ensures !(g.smallest.user <= u <= g.largest.user)
        {
          var j :| 0 <= j < |files| && files[j] == g;
          if j > ptr' {
            PastPtr(files, ptr', u, j);
          }
        }
        return ptr', false;
      }
      ptr' := ptr' + 1;
    }
    hit := false;
  }

  ghost predicate PtrsBehind(v: Version, level: nat, ptrs: seq<nat>, u: UserKey) {
    && |v.files| == NUM_LEVELS && |ptrs| == NUM_LEVELS
    && forall i :: level + 2 <= i < NUM_LEVELS ==> PassedBy(v.files[i], ptrs[i], u)
  }

  lemma PtrsAtStart(v: Version, level: nat, ptrs: seq<nat>, u: UserKey)
    requires |v.files| == NUM_LEVELS == |ptrs| && forall i :: 0 <= i < NUM_LEVELS ==> ptrs[i] == 0
    ensures PtrsBehind(v, level, ptrs, u)
  {
  }

  lemma PtrsStayBehind(v: Version, level: nat, ptrs: seq<nat>, u: UserKey, u': UserKey)
    requires PtrsBehind(v, level, ptrs, u) && u <= u'
    ensures PtrsBehind(v, level, ptrs, u')
  {
  }

  /** IsBaseLevelForKey: with the positions left by earlier, smaller keys it answers as a scan of every deeper
      file would. */
  method IsBaseLevelForKey(c: Compaction, u: UserKey, ghost next: nat) returns (isBase: bool)
    requires VersionOk(c.inputVersion, next) && c.levelPtrs.Length == NUM_LEVELS
    requires PtrsBehind(c.inputVersion, c.level, c.levelPtrs[..], u)
    modifies c.levelPtrs
    ensures PtrsBehind(c.inputVersion, c.level, c.levelPtrs[..], u)
    ensures isBase <==> !Spanned(Deeper(LevelsOf(c.inputVersion), c.level), u)
  {
    hide LevelsOk, InOrder;
    var v, level := c.inputVersion, c.level;
    ghost var deeper := Deeper(LevelsOf(v), level);
    var lvl := level + 2;
    while lvl < NUM_LEVELS
      invariant level + 2 <= lvl
      invariant PtrsBehind(v, level, c.levelPtrs[..], u)
      invariant forall i, f :: level + 2 <= i < lvl && i < NUM_LEVELS && f in v.files[i]
                               ==> !(f.smallest.user <= u <= f.largest.user)
    {
      LevelSortedApart(v, next, lvl);
      assert PassedBy(v.files[lvl], c.levelPtrs[..][lvl], u);
      var ptr, hit := AdvancePtr(v.files[lvl], c.levelPtrs[lvl], u);
      c.levelPtrs[lvl] := ptr;
      if hit {
        var f :| f in v.files[lvl] && f.smallest.user <= u <= f.largest.user;
        assert f in LevelsOf(v)[lvl] && f in deeper;
        return false;
      }
      lvl := lvl + 1;
    }
    isBase := true;
  }

  // ---- ShouldStopBefore --------------------------------------------------------------------------------------

  function Passed(files: seq<File>, from: nat, to: nat): seq<File> {
    if from <= to <= |files| then files[from..to] else []
  }

  /** ShouldStopBefore: whether the grandparent bytes passed since the current output was opened are too many to go
      on; nothing counts before the first key. */
  method ShouldStopBefore(o: Options, c: Compaction, key: IKey) returns (stop: bool)
    modifies c`grandparentIndex, c`seenKey, c`overlappedBytes
    ensures c.seenKey && old(c.grandparentIndex) <= c.grandparentIndex
    ensures old(c.grandparentIndex) < c.grandparentIndex ==> c.grandparentIndex <= |c.grandparents|
    ensures forall i :: old(c.grandparentIndex) <= i < c.grandparentIndex
                        ==> i < |c.grandparents| && Less(c.grandparents[i].largest, key)
    ensures c.grandparentIndex < |c.grandparents| ==> AtMost(key, c.grandparents[c.grandparentIndex].largest)
    ensures var passed := Passed(c.grandparents, old(c.grandparentIndex), c.grandparentIndex);
            var bytes := old(c.overlappedBytes) + if old(c.seenKey) then TotalFileSize(passed) else 0;
            stop == (bytes > 10 * o.maxFileSize) && c.overlappedBytes == if stop then 0 else bytes
  {
    ghost var from := c.grandparentIndex;
    ghost var passed := [];
    while c.grandparentIndex < |c.grandparents| && Less(c.grandparents[c.grandparentIndex].largest, key)
      invariant from <= c.grandparentIndex && c.seenKey == old(c.seenKey)
      invariant from < c.grandparentIndex ==> c.grandparentIndex <= |c.grandparents|
      invariant forall i :: from <= i < c.grandparentIndex ==> i < |c.grandparents| && Less(c.grandparents[i].largest, key)
      invariant passed == Passed(c.grandparents, from, c.grandparentIndex)
      invariant c.overlappedBytes == old(c.overlappedBytes) + if c.seenKey then TotalFileSize(passed) else 0
      decreases |c.grandparents| - c.grandparentIndex
    {
      TotalSnoc(passed, c.grandparents[c.grandparentIndex]);
      passed := passed + [c.grandparents[c.grandparentIndex]];
      if c.seenKey {
        c.overlappedBytes := c.overlappedBytes + c.grandparents[c.grandparentIndex].size;
      }
      c.grandparentIndex := c.grandparentIndex + 1;
    }
    c.seenKey := true;
    stop := c.overlappedBytes > MaxGrandParentOverlapBytes(o);
    if stop {
      c.overlappedBytes := 0;
    }
  }

  /** How many of the first files end before a key. */
  function Reach(files: seq<File>, key: IKey): (n: nat)
    ensures n <= |files| && (forall i :: 0 <= i < n ==> Less(files[i].largest, key))
    ensures n < |files| ==> AtMost(key, files[n].largest)
  {
    if files == [] || !Less(files[0].largest, key) then 0 else 1 + Reach(files[1..], key)
  }

  lemma {:induction false} ReachIs(files: seq<File>, key: IKey, n: nat)
    requires n <= |files| && (forall i :: 0 <= i < n ==> Less(files[i].largest, key))
    requires n < |files| ==> AtMost(key, files[n].largest)
    ensures n == Reach(files, key)
  {
    if n > 0 {
      ReachIs(files[1..], key, n - 1);
    }
  }

  /** The last entry before entry i at which the output had to end, or the first entry. */
  function Since(stops: seq<bool>, i: nat): (j: nat)
    requires i <= |stops|
    ensures (j == 0 || j < i) && (j == 0 || stops[j]) && forall k :: j < k < i ==> !stops[k]
  {
    if i <= 1 then 0 else if stops[i - 1] then i - 1 else Since(stops, i - 1)
  }

  lemma {:induction false} SinceKept(stops: seq<bool>, stop: bool, i: nat)
    requires i <= |stops|
    ensures Since(stops + [stop], i) == Since(stops, i)
  {
    if i > 1 {
      SinceKept(stops, stop, i - 1);
    }
  }

  /** At which entries of the input the output has to end: where the grandparents passed since the last such entry are
      too many bytes. */
  ghost predicate StopMarks(o: Options, grandparents: seq<File>, input: seq<Entry>, stops: seq<bool>)
    requires |stops| <= |input|
  {
    forall i :: 0 <= i < |stops| ==> stops[i] == (PassedBytes(grandparents, input, stops, i, i) > 10 * o.maxFileSize)
  }

  /** The bytes of the grandparents passed at entry j since the last stop before entry i. */
  function PassedBytes(grandparents: seq<File>, input: seq<Entry>, stops: seq<bool>, i: nat, j: nat): nat
    requires i <= |stops| <= |input| && j < |input|
  {
    TotalFileSize(Passed(grandparents, Reach(grandparents, input[Since(stops, i)].key), Reach(grandparents, input[j].key)))
  }

  /** The fields ShouldStopBefore leaves behind after the first |stops| entries. */
  ghost predicate Counting(grandparents: seq<File>, input: seq<Entry>, stops: seq<bool>, index: nat, seen: bool, bytes: nat)
    requires |stops| <= |input|
  {
    && (seen <==> stops != [])
    && if stops == [] then index == 0 && bytes == 0
       else
         && index == Reach(grandparents, input[|stops| - 1].key)
         && bytes == PassedBytes(grandparents, input, stops, |stops|, |stops| - 1)
  }

  lemma {:induction false} TotalConcat(a: seq<File>, b: seq<File>)
    ensures TotalFileSize(a + b) == TotalFileSize(a) + TotalFileSize(b)
  {
    if a == [] {
      assert a + b == b;
    } else {
      assert (a + b)[1..] == a[1..] + b;
      TotalConcat(a[1..], b);
    }
  }

  lemma PassedOn(files: seq<File>, a: nat, b: nat, c: nat)
    requires a <= b <= c <= |files|
    ensures TotalFileSize(Passed(files, a, c)) == TotalFileSize(Passed(files, a, b)) + TotalFileSize(Passed(files, b, c))
  {
    assert files[a..c] == files[a..b] + files[b..c];
    TotalConcat(files[a..b], files[b..c]);
  }

  lemma {:induction false} ReachGrows(files: seq<File>, a: IKey, b: IKey)
    requires AtMost(a, b)
    ensures Reach(files, a) <= Reach(files, b)
  {
    if files != [] && Less(files[0].largest, a) {
      ReachGrows(files[1..], a, b);
    }
  }

  /** One more call of ShouldStopBefore marks one more entry. */
  lemma CountsOn(o: Options, grandparents: seq<File>, input: seq<Entry>, stops: seq<bool>, index: nat, seen: bool,
                 bytes: nat, index': nat, stop: bool)
    requires |stops| < |input| && Sorted(input) && StopMarks(o, grandparents, input, stops)
    requires Counting(grandparents, input, stops, index, seen, bytes) && index <= index'
    requires index < index' ==> index' <= |grandparents|
    requires forall i :: index <= i < index' ==> i < |grandparents| && Less(grandparents[i].largest, input[|stops|].key)
    requires index' < |grandparents| ==> AtMost(input[|stops|].key, grandparents[index'].largest)
    requires var total := bytes + if seen then TotalFileSize(Passed(grandparents, index, index')) else 0;
             stop == (total > 10 * o.maxFileSize)
    ensures StopMarks(o, grandparents, input, stops + [stop])
    ensures var total := bytes + if seen then TotalFileSize(Passed(grandparents, index, index')) else 0;
            Counting(grandparents, input, stops + [stop], index', true, if stop then 0 else total)
  {
    hide PassedBytes, TotalFileSize, Passed, Sorted, Reach, Since, AtMost, Less;
    ReachedNext(grandparents, input, stops, index, index');
    BytesOn(grandparents, input, stops, index, seen, bytes, index');
    BytesKept(grandparents, input, stops, stop);
    MarksKept(o, grandparents, input, stops, stop);
  }

  /** The bytes passed up to the next entry. */
  lemma BytesOn(grandparents: seq<File>, input: seq<Entry>, stops: seq<bool>, index: nat, seen: bool, bytes: nat, index': nat)
    requires |stops| < |input| && Sorted(input) && Counting(grandparents, input, stops, index, seen, bytes)
    requires index <= index' && index' == Reach(grandparents, input[|stops|].key)
    ensures PassedBytes(grandparents, input, stops, |stops|, |stops|)
            == bytes + if seen then TotalFileSize(Passed(grandparents, index, index')) else 0
  {
    hide TotalFileSize, Passed;
    var n := |stops|;
    NothingPassed(grandparents, index');
    if n > 0 {
      var since := Since(stops, n);
      KeysAscend(input, since, n - 1);
      ReachGrows(grandparents, input[since].key, input[n - 1].key);
      PassedOn(grandparents, Reach(grandparents, input[since].key), index, index');
    }
  }

  lemma BytesKept(grandparents: seq<File>, input: seq<Entry>, stops: seq<bool>, stop: bool)
    requires |stops| < |input|
    ensures var n := |stops|;
            && PassedBytes(grandparents, input, stops + [stop], n, n) == PassedBytes(grandparents, input, stops, n, n)
            && PassedBytes(grandparents, input, stops + [stop], n + 1, n)
               == if stop then 0 else PassedBytes(grandparents, input, stops, n, n)
  {
    hide TotalFileSize, Passed, Since, Reach;
    SinceNext(stops, stop);
    NothingPassed(grandparents, Reach(grandparents, input[|stops|].key));
  }

  lemma SinceNext(stops: seq<bool>, stop: bool)
    ensures Since(stops + [stop], |stops|) == Since(stops, |stops|)
    ensures Since(stops + [stop], |stops| + 1) == if stop then |stops| else Since(stops, |stops|)
  {
    SinceKept(stops, stop, |stops|);
  }

  lemma MarksKept(o: Options, grandparents: seq<File>, input: seq<Entry>, stops: seq<bool>, stop: bool)
    requires |stops| < |input| && StopMarks(o, grandparents, input, stops)
    ensures forall i :: 0 <= i < |stops|
                        ==> stops[i] == (PassedBytes(grandparents, input, stops + [stop], i, i) > 10 * o.maxFileSize)
  {
    hide TotalFileSize, Passed, Since, Reach;
    forall i | 0 <= i < |stops|
      ensures stops[i] == (PassedBytes(grandparents, input, stops + [stop], i, i) > 10 * o.maxFileSize)
    {
      SinceKept(stops, stop, i);
    }
  }

  lemma ReachedNext(grandparents: seq<File>, input: seq<Entry>, stops: seq<bool>, index: nat, index': nat)
    requires |stops| < |input| && Sorted(input) && index <= index' && (index < index' ==> index' <= |grandparents|)
    requires if stops == [] then index == 0 else index == Reach(grandparents, input[|stops| - 1].key)
    requires forall i :: index <= i < index' ==> Less(grandparents[i].largest, input[|stops|].key)
    requires index' < |grandparents| ==> AtMost(input[|stops|].key, grandparents[index'].largest)
    ensures index' == Reach(grandparents, input[|stops|].key)
  {
    if stops != [] {
      assert Less(input[|stops| - 1].key, input[|stops|].key);
    }
    ReachIs(grandparents, input[|stops|].key, index');
  }

  lemma NothingPassed(files: seq<File>, n: nat)
    ensures TotalFileSize(Passed(files, n, n)) == 0
  {
    assert Passed(files, n, n) == [];
  }

  lemma KeysAscend(input: seq<Entry>, i: nat, j: nat)
    requires Sorted(input) && i <= j < |input|
    ensures AtMost(input[i].key, input[j].key)
  {
  }

  // ---- DoCompactionWork --------------------------------------------------------------------------------------

  ghost predicate Tabled(f: File) {
    f.entries != [] && f.smallest == f.entries[0].key && f.largest == f.entries[|f.entries| - 1].key
  }

  lemma {:induction false} ConcatSnoc(files: seq<File>, f: File)
    ensures Concat(files + [f]) == Concat(files) + f.entries
  {
    if files != [] {
      assert (files + [f])[1..] == files[1..] + [f];
      ConcatSnoc(files[1..], f);
    } else {
      assert Concat([f]) == f.entries + Concat([]);
    }
  }

  ghost predicate NumberedFrom(outs: seq<File>, first: nat) {
    forall i :: 0 <= i < |outs| ==> outs[i].number == first + i
  }

  // ---- Where outputs end ---------------------------------------------------------------------------------------

  /** Until its last entry a table is not full. */
  ghost predicate NotFullBefore(o: Options, sizeOf: seq<Entry> -> nat, es: seq<Entry>, n: nat) {
    forall k :: 0 < k < n && k <= |es| ==> sizeOf(es[..k]) < o.maxFileSize
  }

  /** No stop lies between two entries of the list. */
  ghost predicate NoStopInside(es: seq<Entry>, input: seq<Entry>, stops: seq<bool>)
    requires |stops| <= |input|
  {
    es != [] ==> forall i :: 0 <= i < |stops| && stops[i]
                             ==> Less(es[|es| - 1].key, input[i].key) || AtMost(input[i].key, es[0].key)
  }

  /** A table ends because it is full, or because there is a stop before what follows it. */
  ghost predicate EndIsDue(o: Options, sizeOf: seq<Entry> -> nat, es: seq<Entry>, rest: seq<Entry>, input: seq<Entry>,
                           stops: seq<bool>)
    requires |stops| <= |input|
  {
    || sizeOf(es) >= o.maxFileSize
    || (es != [] && exists i :: 0 <= i < |stops| && stops[i] && Less(es[|es| - 1].key, input[i].key)
                                && (rest == [] || AtMost(input[i].key, rest[0].key)))
  }

  ghost predicate OutputsWhole(o: Options, sizeOf: seq<Entry> -> nat, outs: seq<File>, input: seq<Entry>, stops: seq<bool>)
    requires |stops| <= |input|
  {
    forall f :: f in outs ==> f.size == sizeOf(f.entries) && NotFullBefore(o, sizeOf, f.entries, |f.entries|)
                              && NoStopInside(f.entries, input, stops)
  }

  /** What follows output n. */
  function Following(outs: seq<File>, n: nat, rest: seq<Entry>): seq<Entry>
    requires n < |outs|
  {
    if n == |outs| - 1 then rest else outs[n + 1].entries
  }

  ghost predicate EndsDue(o: Options, sizeOf: seq<Entry> -> nat, outs: seq<File>, rest: seq<Entry>, input: seq<Entry>,
                          stops: seq<bool>)
    requires |stops| <= |input|
  {
    forall n :: 0 <= n < |outs| ==> EndIsDue(o, sizeOf, outs[n].entries, Following(outs, n, rest), input, stops)
  }

  /** The table under construction is not full, and no stop came after its first entry. */
  ghost predicate TableOpen(o: Options, sizeOf: seq<Entry> -> nat, table: seq<Entry>, input: seq<Entry>, stops: seq<bool>)
    requires |stops| <= |input|
  {
    && NotFullBefore(o, sizeOf, table, |table| + 1)
    && (table != [] ==> forall i :: 0 <= i < |stops| && stops[i] ==> AtMost(input[i].key, table[0].key))
  }

  ghost predicate CutSoFar(o: Options, sizeOf: seq<Entry> -> nat, outs: seq<File>, table: seq<Entry>, input: seq<Entry>,
                           stops: seq<bool>)
    requires |stops| <= |input|
  {
    && OutputsWhole(o, sizeOf, outs, input, stops) && EndsDue(o, sizeOf, outs, table, input, stops)
    && TableOpen(o, sizeOf, table, input, stops)
  }

  /** The last entries of the outputs and of the table come before the key. */
  ghost predicate AllBefore(outs: seq<File>, table: seq<Entry>, key: IKey) {
    && (forall f :: f in outs && f.entries != [] ==> Less(f.entries[|f.entries| - 1].key, key))
    && (table != [] ==> Less(table[|table| - 1].key, key))
  }

  lemma WholeStill(o: Options, sizeOf: seq<Entry> -> nat, outs: seq<File>, input: seq<Entry>, stops: seq<bool>, stop: bool)
    requires |stops| < |input| && OutputsWhole(o, sizeOf, outs, input, stops) && AllBefore(outs, [], input[|stops|].key)
    ensures OutputsWhole(o, sizeOf, outs, input, stops + [stop])
  {
    hide NotFullBefore;
  }

  lemma DueStill(o: Options, sizeOf: seq<Entry> -> nat, outs: seq<File>, rest: seq<Entry>, input: seq<Entry>,
                 stops: seq<bool>, stop: bool)
    requires |stops| < |input| && EndsDue(o, sizeOf, outs, rest, input, stops)
    ensures EndsDue(o, sizeOf, outs, rest, input, stops + [stop])
  {
    forall n | 0 <= n < |outs|
      ensures EndIsDue(o, sizeOf, outs[n].entries, Following(outs, n, rest), input, stops + [stop])
    {
      var es := outs[n].entries;
      if sizeOf(es) < o.maxFileSize {
        var i :| 0 <= i < |stops| && stops[i] && Less(es[|es| - 1].key, input[i].key)
                 && (Following(outs, n, rest) == [] || AtMost(input[i].key, Following(outs, n, rest)[0].key));
        assert (stops + [stop])[i];
      }
    }
  }

  lemma DueBefore(o: Options, sizeOf: seq<Entry> -> nat, outs: seq<File>, rest: seq<Entry>, rest': seq<Entry>,
                  input: seq<Entry>, stops: seq<bool>)
    requires |stops| <= |input| && EndsDue(o, sizeOf, outs, rest, input, stops)
    requires rest' == [] || (rest != [] && rest[0] == rest'[0])
             || forall i :: 0 <= i < |stops| && stops[i] ==> AtMost(input[i].key, rest'[0].key)
    ensures EndsDue(o, sizeOf, outs, rest', input, stops)
  {
    forall n | 0 <= n < |outs|
      ensures EndIsDue(o, sizeOf, outs[n].entries, Following(outs, n, rest'), input, stops)
    {
      assert EndIsDue(o, sizeOf, outs[n].entries, Following(outs, n, rest), input, stops);
    }
  }

  lemma DueOneMore(o: Options, sizeOf: seq<Entry> -> nat, outs: seq<File>, f: File, input: seq<Entry>, stops: seq<bool>)
    requires |stops| <= |input| && EndsDue(o, sizeOf, outs, f.entries, input, stops)
    requires EndIsDue(o, sizeOf, f.entries, [], input, stops)
    ensures EndsDue(o, sizeOf, outs + [f], [], input, stops)
  {
    hide EndIsDue;
    forall n | 0 <= n < |outs| + 1
      ensures EndIsDue(o, sizeOf, (outs + [f])[n].entries, Following(outs + [f], n, []), input, stops)
    {
      if n < |outs| {
        assert Following(outs + [f], n, []) == Following(outs, n, f.entries);
      }
    }
  }

  /** The next entry of the input is no stop, or no table is open. */
  lemma GoesOn(o: Options, sizeOf: seq<Entry> -> nat, outs: seq<File>, table: seq<Entry>, input: seq<Entry>,
               stops: seq<bool>, stop: bool)
    requires |stops| < |input| && CutSoFar(o, sizeOf, outs, table, input, stops) && (stop ==> table == [])
    requires AllBefore(outs, table, input[|stops|].key)
    ensures CutSoFar(o, sizeOf, outs, table, input, stops + [stop])
  {
    hide NotFullBefore, OutputsWhole, EndsDue;
    WholeStill(o, sizeOf, outs, input, stops, stop);
    DueStill(o, sizeOf, outs, table, input, stops, stop);
  }

  /** The table is finished because the next entry of the input is a stop. */
  lemma EndsAtStop(o: Options, sizeOf: seq<Entry> -> nat, outs: seq<File>, f: File, input: seq<Entry>, stops: seq<bool>)
    requires |stops| < |input| && CutSoFar(o, sizeOf, outs, f.entries, input, stops)
    requires AllBefore(outs, f.entries, input[|stops|].key) && f.entries != [] && f.size == sizeOf(f.entries)
    ensures CutSoFar(o, sizeOf, outs + [f], [], input, stops + [true])
  {
    var stops' := stops + [true];
    WholeStill(o, sizeOf, outs, input, stops, true);
    DueStill(o, sizeOf, outs, f.entries, input, stops, true);
    assert stops'[|stops|];
    assert EndIsDue(o, sizeOf, f.entries, [], input, stops');
    DueOneMore(o, sizeOf, outs, f, input, stops');
  }

  /** The entry just read joins the table, which is not full yet. */
  lemma TableGrows(o: Options, sizeOf: seq<Entry> -> nat, outs: seq<File>, table: seq<Entry>, input: seq<Entry>,
                   stops: seq<bool>)
    requires 0 < |stops| <= |input| && CutSoFar(o, sizeOf, outs, table, input, stops) && Sorted(input)
    requires sizeOf(table + [input[|stops| - 1]]) < o.maxFileSize
    ensures CutSoFar(o, sizeOf, outs, table + [input[|stops| - 1]], input, stops)
  {
    var t := table + [input[|stops| - 1]];
    DueBefore(o, sizeOf, outs, table, t, input, stops);
    forall k | 0 < k <= |t| ensures sizeOf(t[..k]) < o.maxFileSize {
      assert k <= |table| ==> t[..k] == table[..k];
      assert t[..|t|] == t;
    }
  }

  /** The entry just read fills the table. */
  lemma EndsFull(o: Options, sizeOf: seq<Entry> -> nat, outs: seq<File>, table: seq<Entry>, f: File, input: seq<Entry>,
                 stops: seq<bool>)
    requires 0 < |stops| <= |input| && CutSoFar(o, sizeOf, outs, table, input, stops) && Sorted(input)
    requires f.entries == table + [input[|stops| - 1]] && f.size == sizeOf(f.entries) && f.size >= o.maxFileSize
    ensures CutSoFar(o, sizeOf, outs + [f], [], input, stops)
  {
    DueBefore(o, sizeOf, outs, table, f.entries, input, stops);
    DueOneMore(o, sizeOf, outs, f, input, stops);
    forall k | 0 < k < |f.entries| ensures sizeOf(f.entries[..k]) < o.maxFileSize {
      assert f.entries[..k] == table[..k];
    }
  }

  /** How the outputs have to be cut: their tables are not full before their last entry, no stop lies inside one, and each
      but the last is full or ends before a stop. */
  ghost predicate CutAsDue(o: Options, sizeOf: seq<Entry> -> nat, outs: seq<File>, input: seq<Entry>, stops: seq<bool>)
    requires |stops| == |input|
  {
    && (forall f :: f in outs ==> f.size == sizeOf(f.entries))
    && (forall f, k :: f in outs && 0 < k < |f.entries| ==> sizeOf(f.entries[..k]) < o.maxFileSize)
    && (forall f, i :: f in outs && 0 <= i < |stops| && stops[i]
                       ==> Less(f.largest, input[i].key) || AtMost(input[i].key, f.smallest))
    && (forall n :: 0 <= n < |outs| - 1 ==> EndIsDue(o, sizeOf, outs[n].entries, outs[n + 1].entries, input, stops))
  }

  /** The table left at the end of the input is the last output. */
  lemma EndsLast(o: Options, sizeOf: seq<Entry> -> nat, outs: seq<File>, f: File, input: seq<Entry>, stops: seq<bool>)
    requires |stops| == |input| && CutSoFar(o, sizeOf, outs, f.entries, input, stops) && f.size == sizeOf(f.entries)
    requires Tabled(f) && forall g :: g in outs ==> Tabled(g)
    ensures CutAsDue(o, sizeOf, outs + [f], input, stops)
  {
    hide EndIsDue;
    forall n | 0 <= n < |outs|
      ensures EndIsDue(o, sizeOf, outs[n].entries, (outs + [f])[n + 1].entries, input, stops)
    {
      assert Following(outs, n, f.entries) == (outs + [f])[n + 1].entries;
    }
  }

  /** Where the cutting stands before the next entry of the input is looked at. */
  ghost predicate CutBefore(o: Options, sizeOf: seq<Entry> -> nat, outs: seq<File>, table: seq<Entry>, input: seq<Entry>,
                            stops: seq<bool>)
    requires |stops| <= |input|
  {
    && CutSoFar(o, sizeOf, outs, table, input, stops)
    && (|stops| < |input| ==> AllBefore(outs, table, input[|stops|].key))
  }

  /** Where it stands once it is known whether that entry is a stop. */
  ghost predicate CutAt(o: Options, sizeOf: seq<Entry> -> nat, outs: seq<File>, table: seq<Entry>, input: seq<Entry>,
                        stops: seq<bool>)
    requires 0 < |stops| <= |input|
  {
    CutSoFar(o, sizeOf, outs, table, input, stops) && AllBefore(outs, table, input[|stops| - 1].key)
  }

  lemma AtEntry(o: Options, sizeOf: seq<Entry> -> nat, outs: seq<File>, table: seq<Entry>, outs': seq<File>,
                table': seq<Entry>, input: seq<Entry>, stops: seq<bool>, stop: bool)
    requires |stops| < |input| && CutBefore(o, sizeOf, outs, table, input, stops)
    requires if stop && table != [] then
               && |outs'| == |outs| + 1 && outs' == outs + [outs'[|outs|]] && table' == []
               && outs'[|outs|].entries == table && outs'[|outs|].size == sizeOf(table)
             else outs' == outs && table' == table
    ensures CutAt(o, sizeOf, outs', table', input, stops + [stop])
  {
    hide CutSoFar;
    if stop && table != [] {
      EndsAtStop(o, sizeOf, outs, outs'[|outs|], input, stops);
    } else {
      GoesOn(o, sizeOf, outs, table, input, stops, stop);
    }
  }

  lemma AfterEntry(o: Options, sizeOf: seq<Entry> -> nat, outs: seq<File>, table: seq<Entry>, outs': seq<File>,
                   table': seq<Entry>, input: seq<Entry>, stops: seq<bool>, drop: bool)
    requires 0 < |stops| <= |input| && Sorted(input) && CutAt(o, sizeOf, outs, table, input, stops)
    requires var t := table + [input[|stops| - 1]];
             if drop then outs' == outs && table' == table
             else if sizeOf(t) < o.maxFileSize then outs' == outs && table' == t
             else
               && |outs'| == |outs| + 1 && outs' == outs + [outs'[|outs|]] && table' == []
               && outs'[|outs|].entries == t && outs'[|outs|].size == sizeOf(t)
    ensures CutBefore(o, sizeOf, outs', table', input, stops)
  {
    hide CutSoFar;
    var t := table + [input[|stops| - 1]];
    if |stops| < |input| {
      assert Less(input[|stops| - 1].key, input[|stops|].key);
    }
    if !drop {
      if sizeOf(t) < o.maxFileSize {
        TableGrows(o, sizeOf, outs, table, input, stops);
      } else {
        EndsFull(o, sizeOf, outs, table, outs'[|outs|], input, stops);
      }
    }
  }

  lemma AtEnd(o: Options, sizeOf: seq<Entry> -> nat, outs: seq<File>, table: seq<Entry>, outs': seq<File>,
              input: seq<Entry>, stops: seq<bool>)
    requires |stops| == |input| && CutBefore(o, sizeOf, outs, table, input, stops)
    requires if table == [] then outs' == outs
             else |outs'| == |outs| + 1 && outs' == outs + [outs'[|outs|]]
                  && outs'[|outs|].entries == table && outs'[|outs|].size == sizeOf(table)
    requires forall f :: f in outs' ==> Tabled(f)
    ensures CutAsDue(o, sizeOf, outs', input, stops)
  {
    hide EndIsDue;
    if table != [] {
      assert outs'[|outs|] in outs' && forall f :: f in outs ==> f in outs';
      EndsLast(o, sizeOf, outs, outs'[|outs|], input, stops);
    } else {
      forall n | 0 <= n < |outs| - 1
        ensures EndIsDue(o, sizeOf, outs[n].entries, outs[n + 1].entries, input, stops)
      {
        assert Following(outs, n, table) == outs[n + 1].entries;
      }
    }
  }

  /** The outputs of a running compaction: the finished files and the one under construction. */
  class CompactionState {
    const first: nat
    var nextNumber: nat
    var outputs: seq<File>
    var building: bool
    var number: nat
    var smallest: IKey
    var largest: IKey
    var table: seq<Entry>

    ghost predicate Valid()
      reads this
    {
      && (forall f :: f in outputs ==> Tabled(f)) && NumberedFrom(outputs, first)
      && nextNumber == first + |outputs| + (if building then 1 else 0)
      && (building <==> table != [])
      && (building ==> number == first + |outputs| && smallest == table[0].key && largest == table[|table| - 1].key)
    }

    /** Everything written so far, in order. */
    ghost function Written(): seq<Entry>
      reads this
    {
      Concat(outputs) + table
    }

    constructor (first: nat)
      ensures Valid() && !building && outputs == [] && table == [] && Written() == [] && this.first == first
    {
      this.first, nextNumber := first, first;
      outputs, building, number, table := [], false, 0, [];
      smallest, largest := IKey(0, 0, Deletion), IKey(0, 0, Deletion);
    }

    /** FinishCompactionOutputFile. */
    method Finish(sizeOf: seq<Entry> -> nat)
      requires Valid() && building
      modifies this
      ensures Valid() && !building && Written() == old(Written()) && nextNumber == old(nextNumber)
      ensures outputs == old(outputs) + [File(old(number), sizeOf(old(table)), old(smallest), old(largest), old(table))]
    {
      var f := File(number, sizeOf(table), smallest, largest, table);
      ConcatSnoc(outputs, f);
      outputs := outputs + [f];
      building, table := false, [];
    }

    /** Adds an entry that survives, opening an output for it if none is open and closing one that is full. */
    method Add(e: Entry, o: Options, sizeOf: seq<Entry> -> nat)
      requires Valid()
      modifies this
      ensures Valid() && Written() == old(Written()) + [e]
      ensures var t := old(table) + [e];
              && (building <==> sizeOf(t) < o.maxFileSize)
              && if building then table == t && outputs == old(outputs)
                 else |outputs| == |old(outputs)| + 1 && outputs[..|old(outputs)|] == old(outputs)
                      && outputs[|old(outputs)|].entries == t && outputs[|old(outputs)|].size == sizeOf(t)
    {
      if !building {
        building, number, nextNumber := true, nextNumber, nextNumber + 1;
        smallest := e.key;
      }
      largest := e.key;
      table := table + [e];
      assert Written() == old(Written()) + [e];
      if sizeOf(table) >= o.maxFileSize {
        Finish(sizeOf);
      }
    }
  }

  /** The drop decision for entry i: the loop variables carry the user key and sequence of its predecessor. */
  method DropDecision(c: Compaction, input: seq<Entry>, i: nat, smallestSnapshot: nat, currentUser: UserKey,
                      hasUser: bool, last: nat, ghost next: nat)
    returns (drop: bool)
    requires VersionOk(c.inputVersion, next) && c.levelPtrs.Length == NUM_LEVELS && i < |input|
    requires hasUser <==> i > 0
    requires i > 0 ==> currentUser == input[i - 1].key.user && last == input[i - 1].key.seqno
    requires PtrsBehind(c.inputVersion, c.level, c.levelPtrs[..], input[i].key.user)
    modifies c.levelPtrs
    ensures PtrsBehind(c.inputVersion, c.level, c.levelPtrs[..], input[i].key.user)
    ensures drop <==> Dropped(input, i, smallestSnapshot, Deeper(LevelsOf(c.inputVersion), c.level))
  {
    hide LevelsOk, InOrder, Deeper, Spanned;
    var e := input[i];
    var lastSequenceForKey := if !hasUser || e.key.user != currentUser then MAX_SEQUENCE else last;
    assert lastSequenceForKey == LastSequence(input, i);
    drop := false;
    if lastSequenceForKey <= smallestSnapshot {
      drop := true;
    } else if e.key.kind.Deletion? && e.key.seqno <= smallestSnapshot {
      drop := IsBaseLevelForKey(c, e.key.user, next);
    }
  }

  /** What the loop does first with an entry: it closes the open output if ShouldStopBefore says so. */
  method EndBefore(o: Options, c: Compaction, state: CompactionState, input: seq<Entry>, i: nat, sizeOf: seq<Entry> -> nat,
                   ghost stops: seq<bool>)
    returns (ghost stops': seq<bool>)
    requires state.Valid() && i < |input| && |stops| == i && Sorted(input) && StopMarks(o, c.grandparents, input, stops)
    requires Counting(c.grandparents, input, stops, c.grandparentIndex, c.seenKey, c.overlappedBytes)
    requires CutBefore(o, sizeOf, state.outputs, state.table, input, stops)
    modifies state, c`grandparentIndex, c`seenKey, c`overlappedBytes
    ensures state.Valid() && state.Written() == old(state.Written())
    ensures |stops'| == |stops| + 1 && StopMarks(o, c.grandparents, input, stops')
    ensures Counting(c.grandparents, input, stops', c.grandparentIndex, c.seenKey, c.overlappedBytes)
    ensures CutAt(o, sizeOf, state.outputs, state.table, input, stops')
  {
    hide Counting, StopMarks, CutBefore, CutAt, Passed, TotalFileSize, Concat, Tabled, NumberedFrom, Sorted, Less;
    ghost var index, seen, bytes, outs, table := c.grandparentIndex, c.seenKey, c.overlappedBytes, state.outputs, state.table;
    var stop := ShouldStopBefore(o, c, input[i].key);
    CountsOn(o, c.grandparents, input, stops, index, seen, bytes, c.grandparentIndex, stop);
    if stop && state.building {
      state.Finish(sizeOf);
    }
    AtEntry(o, sizeOf, outs, table, state.outputs, state.table, input, stops, stop);
    stops' := stops + [stop];
  }

  /** What the loop is followed by: the output still open is closed. */
  method EndLast(o: Options, state: CompactionState, input: seq<Entry>, sizeOf: seq<Entry> -> nat, ghost stops: seq<bool>)
    requires state.Valid() && |stops| == |input| && CutBefore(o, sizeOf, state.outputs, state.table, input, stops)
    modifies state
    ensures Concat(state.outputs) == old(state.Written()) && CutAsDue(o, sizeOf, state.outputs, input, stops)
    ensures (forall f :: f in state.outputs ==> Tabled(f)) && NumberedFrom(state.outputs, state.first)
    ensures state.nextNumber == state.first + |state.outputs|
  {
    hide CutBefore, CutAsDue, Concat, Tabled, NumberedFrom;
    ghost var outs, table := state.outputs, state.table;
    if state.building {
      state.Finish(sizeOf);
    }
    AtEnd(o, sizeOf, outs, table, state.outputs, input, stops);
  }

  /** The loop of DoCompactionWork. The outputs, one after another, hold exactly the surviving entries in order. An
      output is closed as soon as its table has reached the file size limit, or before an entry at which the grandparents
      passed by since the last such entry are too many bytes, and nowhere else; the table sizes may be anything. */
  method DoCompactionWork(o: Options, c: Compaction, input: seq<Entry>, smallestSnapshot: nat, nextNumber: nat,
                          sizeOf: seq<Entry> -> nat, ghost next: nat)
    returns (outs: seq<File>, nextNumber': nat, ghost stops: seq<bool>)
    requires VersionOk(c.inputVersion, next) && c.levelPtrs.Length == NUM_LEVELS && Sorted(input)
    requires forall i :: 0 <= i < NUM_LEVELS ==> c.levelPtrs[i] == 0
    requires c.grandparentIndex == 0 && !c.seenKey && c.overlappedBytes == 0
    modifies c.levelPtrs, c`grandparentIndex, c`seenKey, c`overlappedBytes
    ensures Concat(outs)
            == Survivors(input, |input|, smallestSnapshot, Deeper(LevelsOf(c.inputVersion), c.level))
    ensures forall f :: f in outs ==> Tabled(f)
    ensures NumberedFrom(outs, nextNumber) && nextNumber' == nextNumber + |outs|
    ensures |stops| == |input| && StopMarks(o, c.grandparents, input, stops) && CutAsDue(o, sizeOf, outs, input, stops)
  {
    hide LevelsOk, InOrder, Deeper, Dropped, Counting, StopMarks, CutBefore, CutAt, CutAsDue, Passed, TotalFileSize,
         Concat, Tabled, NumberedFrom, VersionOk, PtrsBehind, CompactionState.Valid, CompactionState.Written, Sorted, Less,
         Survivors, LevelsOf;
    var v, level := c.inputVersion, c.level;
    VersionSize(v, next);
    ghost var deeper := Deeper(LevelsOf(v), level);
    var state := new CompactionState(nextNumber);
    var currentUser, hasUser, last := 0, false, MAX_SEQUENCE;
    stops := [];
    NothingCut(o, sizeOf, c.grandparents, input);
    NothingSurvives(input, smallestSnapshot, deeper);
    if input != [] {
      PtrsAtStart(v, level, c.levelPtrs[..], input[0].key.user);
    }
    var i := 0;
    while i < |input|
      invariant i <= |input| && fresh(state) && state.Valid() && state.first == nextNumber
      invariant state.Written() == Survivors(input, i, smallestSnapshot, deeper)
      invariant hasUser <==> i > 0
      invariant i > 0 ==> currentUser == input[i - 1].key.user && last == input[i - 1].key.seqno
      invariant i < |input| ==> PtrsBehind(v, level, c.levelPtrs[..], input[i].key.user)
      invariant |stops| == i && StopMarks(o, c.grandparents, input, stops)
      invariant Counting(c.grandparents, input, stops, c.grandparentIndex, c.seenKey, c.overlappedBytes)
      invariant CutBefore(o, sizeOf, state.outputs, state.table, input, stops)
      decreases |input| - i
    {
      var e := input[i];
      stops := EndBefore(o, c, state, input, i, sizeOf, stops);
      ghost var outs1, table1 := state.outputs, state.table;
      var drop := DropDecision(c, input, i, smallestSnapshot, currentUser, hasUser, last, next);
      SurvivorsNext(input, i, smallestSnapshot, deeper);
      currentUser, hasUser, last := e.key.user, true, e.key.seqno;
      if !drop {
        state.Add(e, o, sizeOf);
      }
      AfterEntry(o, sizeOf, outs1, table1, state.outputs, state.table, input, stops, drop);
      i := i + 1;
      if i < |input| {
        UsersAscend(input, i);
        PtrsStayBehind(v, level, c.levelPtrs[..], input[i - 1].key.user, input[i].key.user);
      }
    }
    EndLast(o, state, input, sizeOf, stops);
    outs, nextNumber' := state.outputs, state.nextNumber;
  }

  lemma UsersAscend(input: seq<Entry>, i: nat)
    requires Sorted(input) && 0 < i < |input|
    ensures input[i - 1].key.user <= input[i].key.user
  {
    assert Less(input[i - 1].key, input[i].key);
  }

  lemma SurvivorsNext(input: seq<Entry>, i: nat, smallest: nat, deeper: set<File>)
    requires i < |input|
    ensures Survivors(input, i + 1, smallest, deeper)
            == if Dropped(input, i, smallest, deeper) then Survivors(input, i, smallest, deeper)
               else Survivors(input, i, smallest, deeper) + [input[i]]
  {
    hide Dropped;
  }

  lemma NothingSurvives(input: seq<Entry>, smallest: nat, deeper: set<File>)
    ensures Survivors(input, 0, smallest, deeper) == []
  {
  }

  lemma NothingCut(o: Options, sizeOf: seq<Entry> -> nat, grandparents: seq<File>, input: seq<Entry>)
    ensures StopMarks(o, grandparents, input, []) && Counting(grandparents, input, [], 0, false, 0)
    ensures CutBefore(o, sizeOf, [], [], input, [])
  {
  }
}
