/** Choosing the files a compaction rewrites (version_set.cc). */
module Inputs {
  import opened InternalKeys
  import opened Levels
  import opened Versions

  ghost function FileSet(fs: seq<File>): set<File> {
    set f | f in fs
  }

  /** The files meeting [lo, hi], in the order of the level. */
  function Meeting(files: seq<File>, lo: Option<UserKey>, hi: Option<UserKey>): seq<File> {
    if files == [] then []
    else
      var last := files[|files| - 1];
      Meeting(files[..|files| - 1], lo, hi) + if Meets(last, lo, hi) then [last] else []
  }

  lemma {:induction false} MeetingMembers(files: seq<File>, lo: Option<UserKey>, hi: Option<UserKey>)
    ensures forall f :: f in Meeting(files, lo, hi) <==> f in files && Meets(f, lo, hi)
  {
    if files != [] {
      MeetingMembers(files[..|files| - 1], lo, hi);
      assert files == files[..|files| - 1] + [files[|files| - 1]];
    }
  }

  predicate Within(f: File, lo: Option<UserKey>, hi: Option<UserKey>) {
    (lo.Some? ==> lo.value <= f.smallest.user) && (hi.Some? ==> f.largest.user <= hi.value)
  }

  /** Every file that meets the range lies within it. */
  predicate ClosedRange(files: seq<File>, lo: Option<UserKey>, hi: Option<UserKey>) {
    forall f :: f in files && Meets(f, lo, hi) ==> Within(f, lo, hi)
  }

  /** [lo, hi] contains [begin, end]; an open end stays open. */
  predicate Widens(lo: Option<UserKey>, hi: Option<UserKey>, begin: Option<UserKey>, end: Option<UserKey>) {
    && lo.Some? == begin.Some? && hi.Some? == end.Some?
    && (lo.Some? ==> lo.value <= begin.value) && (hi.Some? ==> end.value <= hi.value)
  }

  /** The least closed range containing [begin, end]. */
  ghost predicate LeastClosed(files: seq<File>, begin: Option<UserKey>, end: Option<UserKey>,
                              lo: Option<UserKey>, hi: Option<UserKey>) {
    Widens(lo, hi, begin, end) && ClosedRange(files, lo, hi) && NeverTooWide(files, begin, end, lo, hi)
  }

  /** Every closed range around [begin, end] contains [lo, hi]. */
  ghost predicate NeverTooWide(files: seq<File>, begin: Option<UserKey>, end: Option<UserKey>,
                               lo: Option<UserKey>, hi: Option<UserKey>) {
    forall lo', hi' :: Widens(lo', hi', begin, end) && ClosedRange(files, lo', hi') ==> Widens(lo', hi', lo, hi)
  }

  /** Widening by a file that meets the range stays within every closed range. */
  lemma WidenByFile(files: seq<File>, begin: Option<UserKey>, end: Option<UserKey>,
                    lo: Option<UserKey>, hi: Option<UserKey>, f: File)
    requires NeverTooWide(files, begin, end, lo, hi) && f in files && Meets(f, lo, hi)
    ensures lo.Some? && f.smallest.user < lo.value ==> NeverTooWide(files, begin, end, Some(f.smallest.user), hi)
    ensures hi.Some? && f.largest.user > hi.value ==> NeverTooWide(files, begin, end, lo, Some(f.largest.user))
  {
    forall lo', hi' | Widens(lo', hi', begin, end) && ClosedRange(files, lo', hi')
      ensures Widens(lo', hi', lo, hi) && Within(f, lo', hi')
    {
      assert Meets(f, lo', hi');
    }
  }

  ghost function Outside(files: seq<File>, lo: Option<UserKey>, hi: Option<UserKey>): set<(File, bool)> {
    (set f | f in files && lo.Some? && f.smallest.user < lo.value :: (f, false))
    + (set f | f in files && hi.Some? && f.largest.user > hi.value :: (f, true))
  }

  /** GetOverlappingInputs. At level 0 a file that sticks out of the range widens it and restarts the scan; the
      scan still ends, and returns exactly the files meeting the least closed range around the request. */
  method GetOverlappingInputs(v: Version, level: nat, begin: Option<UserKey>, end: Option<UserKey>)
    returns (inputs: seq<File>, ghost lo: Option<UserKey>, ghost hi: Option<UserKey>)
    requires |v.files| == NUM_LEVELS && level < NUM_LEVELS
    ensures inputs == Meeting(v.files[level], lo, hi)
    ensures level > 0 ==> lo == begin && hi == end
    ensures level == 0 ==> LeastClosed(v.files[0], begin, end, lo, hi)
  {
    hide NeverTooWide, Outside, Meeting, ClosedRange;
    var files := v.files[level];
    inputs := [];
    var userBegin, userEnd := begin, end;
    RequestFits(files, begin, end);
    var i := 0;
    Nothing(files, userBegin, userEnd);
    while i < |files|
      invariant i <= |files|
      invariant inputs == Meeting(files[..i], userBegin, userEnd)
      invariant level > 0 ==> userBegin == begin && userEnd == end
      invariant Widens(userBegin, userEnd, begin, end)
      invariant level == 0 ==> ClosedRange(files[..i], userBegin, userEnd)
      invariant level == 0 ==> NeverTooWide(files, begin, end, userBegin, userEnd)
      decreases if level == 0 then |Outside(files, userBegin, userEnd)| else 0, |files| - i
    {
      var f := files[i];
      i := i + 1;
      OneMore(files, i - 1, userBegin, userEnd);
      var start, limit := f.smallest.user, f.largest.user;
      if userBegin.Some? && limit < userBegin.value {
      } else if userEnd.Some? && start > userEnd.value {
      } else {
        inputs := inputs + [f];
        if level == 0 {
          WidenByFile(files, begin, end, userBegin, userEnd, f);
          if userBegin.Some? && start < userBegin.value {
            Shrinks(files, f, userBegin, userEnd, Some(start), userEnd);
            userBegin := Some(start);
            Nothing(files, userBegin, userEnd);
            inputs := [];
            i := 0;
          } else if userEnd.Some? && limit > userEnd.value {
            Shrinks(files, f, userBegin, userEnd, userBegin, Some(limit));
            userEnd := Some(limit);
            Nothing(files, userBegin, userEnd);
            inputs := [];
            i := 0;
          }
        }
      }
    }
    assert files[..|files|] == files;
    lo, hi := userBegin, userEnd;
  }

  lemma Nothing(files: seq<File>, lo: Option<UserKey>, hi: Option<UserKey>)
    ensures Meeting(files[..0], lo, hi) == [] && ClosedRange(files[..0], lo, hi)
  {
  }

  lemma OneMore(files: seq<File>, i: nat, lo: Option<UserKey>, hi: Option<UserKey>)
    requires i < |files|
    ensures Meeting(files[..i + 1], lo, hi)
            == Meeting(files[..i], lo, hi) + if Meets(files[i], lo, hi) then [files[i]] else []
    ensures ClosedRange(files[..i + 1], lo, hi)
            <==> ClosedRange(files[..i], lo, hi) && (Meets(files[i], lo, hi) ==> Within(files[i], lo, hi))
  {
    assert files[..i + 1] == files[..i] + [files[i]];
    assert files[..i + 1][..i] == files[..i];
  }

  lemma RequestFits(files: seq<File>, begin: Option<UserKey>, end: Option<UserKey>)
    ensures NeverTooWide(files, begin, end, begin, end)
  {
  }

  lemma Shrinks(files: seq<File>, f: File, lo: Option<UserKey>, hi: Option<UserKey>,
                lo': Option<UserKey>, hi': Option<UserKey>)
    requires f in files && Widens(lo', hi', lo, hi)
    requires (lo.Some? && f.smallest.user < lo.value && lo' == Some(f.smallest.user))
             || (hi.Some? && f.largest.user > hi.value && hi' == Some(f.largest.user))
    ensures |Outside(files, lo', hi')| < |Outside(files, lo, hi)|
  {
    var before, after := Outside(files, lo, hi), Outside(files, lo', hi');
    var gone := if lo.Some? && f.smallest.user < lo.value && lo' == Some(f.smallest.user) then (f, false) else (f, true);
    assert gone in before && gone !in after && after <= before;
    assert after <= before - {gone};
    SubsetSize(after, before - {gone});
  }

  lemma SubsetSize<T>(a: set<T>, b: set<T>)
    requires a <= b
    ensures |a| <= |b|
  {
    assert b == a + (b - a);
  }

  // ---- Boundary files ----------------------------------------------------------------------------------------

  predicate IsBoundary(f: File, k: IKey) {
    Less(k, f.smallest) && f.smallest.user == k.user
  }

  /** The first file to begin after k with k's user key. */
  function Boundary(files: seq<File>, k: IKey): (b: Option<File>)
    ensures b.None? <==> forall f :: f in files ==> !IsBoundary(f, k)
    ensures b.Some? ==> b.value in files && IsBoundary(b.value, k)
    ensures b.Some? ==> forall f :: f in files && IsBoundary(f, k) ==> AtMost(b.value.smallest, f.smallest)
  {
    if files == [] then None
    else
      var best, f := Boundary(files[..|files| - 1], k), files[|files| - 1];
      if IsBoundary(f, k) && (best.None? || Less(f.smallest, best.value.smallest)) then Some(f) else best
  }

  method FindSmallestBoundaryFile(files: seq<File>, k: IKey) returns (b: Option<File>)
    ensures b == Boundary(files, k)
  {
    b := None;
    for i := 0 to |files|
      invariant b == Boundary(files[..i], k)
    {
      assert files[..i + 1][..i] == files[..i];
      if IsBoundary(files[i], k) {
        if b.None? || Less(files[i].smallest, b.value.smallest) {
          b := Some(files[i]);
        }
      }
    }
    assert files[..|files|] == files;
  }

  ghost function Beyond(files: seq<File>, k: IKey): set<File> {
    set f | f in files && Less(k, f.smallest)
  }

  lemma BeyondShrinks(files: seq<File>, k: IKey, b: File)
    requires b in files && Less(k, b.smallest) && AtMost(b.smallest, b.largest)
    ensures |Beyond(files, b.largest)| < |Beyond(files, k)|
  {
    assert b in Beyond(files, k) && b !in Beyond(files, b.largest);
    SubsetSize(Beyond(files, b.largest), Beyond(files, k) - {b});
  }

  ghost predicate SpansOk(files: seq<File>) {
    forall f :: f in files ==> AtMost(f.smallest, f.largest)
  }

  /** The chain of boundary files reached from the end key k. */
  ghost function BoundaryChain(files: seq<File>, k: IKey): seq<File>
    requires SpansOk(files)
    decreases |Beyond(files, k)|
  {
    var b := Boundary(files, k);
    if b.None? then []
    else
      BeyondShrinks(files, k, b.value);
      [b.value] + BoundaryChain(files, b.value.largest)
  }

  function LargestKey(files: seq<File>): IKey
    requires files != []
  {
    var f := files[|files| - 1];
    if |files| == 1 then f.largest
    else
      var k := LargestKey(files[..|files| - 1]);
      if Less(k, f.largest) then f.largest else k
  }

  function SmallestKey(files: seq<File>): IKey
    requires files != []
  {
    var f := files[|files| - 1];
    if |files| == 1 then f.smallest
    else
      var k := SmallestKey(files[..|files| - 1]);
      if Less(f.smallest, k) then f.smallest else k
  }

  lemma {:induction false} RangeCovers(files: seq<File>)
    requires files != []
    ensures exists f :: f in files && f.smallest == SmallestKey(files)
    ensures exists f :: f in files && f.largest == LargestKey(files)
    ensures forall f :: f in files ==> AtMost(SmallestKey(files), f.smallest) && AtMost(f.largest, LargestKey(files))
  {
    var n := |files| - 1;
    if n > 0 {
      RangeCovers(files[..n]);
      assert files == files[..n] + [files[n]];
      assert forall f :: f in files <==> f in files[..n] || f == files[n];
    } else {
      assert files[0] in files;
    }
  }

  /** GetRange: the smallest range covering all files. */
  method GetRange(files: seq<File>) returns (smallest: IKey, largest: IKey)
    requires files != []
    ensures smallest == SmallestKey(files) && largest == LargestKey(files)
  {
    smallest, largest := files[0].smallest, files[0].largest;
    for i := 1 to |files|
      invariant smallest == SmallestKey(files[..i]) && largest == LargestKey(files[..i])
    {
      assert files[..i + 1][..i] == files[..i];
      if Less(files[i].smallest, smallest) {
        smallest := files[i].smallest;
      }
      if Less(largest, files[i].largest) {
        largest := files[i].largest;
      }
    }
    assert files[..|files|] == files;
  }

  /** AddBoundaryInputs: extends the inputs by the chain of boundary files. */
  method AddBoundaryInputs(levelFiles: seq<File>, inputs: seq<File>) returns (r: seq<File>)
    requires SpansOk(levelFiles)
    ensures r == if inputs == [] then [] else inputs + BoundaryChain(levelFiles, LargestKey(inputs))
  {
    if inputs == [] {
      return [];
    }
    var _, largest := GetRange(inputs);
    r := inputs;
    while true
      invariant r + BoundaryChain(levelFiles, largest) == inputs + BoundaryChain(levelFiles, LargestKey(inputs))
      decreases |Beyond(levelFiles, largest)|
    {
      var b := FindSmallestBoundaryFile(levelFiles, largest);
      if b.None? {
        return;
      }
      BeyondShrinks(levelFiles, largest, b.value);
      assert r + ([b.value] + BoundaryChain(levelFiles, b.value.largest))
             == (r + [b.value]) + BoundaryChain(levelFiles, b.value.largest);
      r := r + [b.value];
      largest := b.value.largest;
    }
  }

  lemma MeetsBetween(files: seq<File>, i: nat, j: nat, k: nat, lo: Option<UserKey>, hi: Option<UserKey>)
    requires SortedApart(files) && i <= j <= k < |files|
    requires Meets(files[i], lo, hi) && Meets(files[k], lo, hi)
    ensures Meets(files[j], lo, hi)
  {
    EndsAscend(files);
  }

  lemma MeetingSnoc(files: seq<File>, f: File, lo: Option<UserKey>, hi: Option<UserKey>)
    ensures Meeting(files + [f], lo, hi) == Meeting(files, lo, hi) + if Meets(f, lo, hi) then [f] else []
  {
    assert (files + [f])[..|files|] == files;
  }

  lemma {:induction false} SliceOfMeeting(files: seq<File>, a: nat, b: nat, lo: Option<UserKey>, hi: Option<UserKey>)
    requires a <= b <= |files|
    requires forall i :: 0 <= i < |files| ==> (Meets(files[i], lo, hi) <==> a <= i < b)
    ensures Meeting(files, lo, hi) == files[a..b]
  {
    hide Meets;
    if files != [] {
      var n := |files| - 1;
      var a', b' := if a <= n then a else n, if b <= n then b else n;
      assert files == files[..n] + [files[n]];
      SliceOfMeeting(files[..n], a', b', lo, hi);
      MeetingSnoc(files[..n], files[n], lo, hi);
      assert files[..n][a'..b'] == files[a'..b'];
      assert b == n + 1 && a <= n ==> files[a..b] == files[a..n] + [files[n]];
    }
  }

  /** In a sorted level the files meeting a range form a slice. */
  lemma MeetingIsSlice(files: seq<File>, lo: Option<UserKey>, hi: Option<UserKey>)
    returns (a: nat, b: nat)
    requires SortedApart(files)
    ensures a <= b <= |files| && Meeting(files, lo, hi) == files[a..b]
    ensures forall i :: 0 <= i < |files| ==> (Meets(files[i], lo, hi) <==> a <= i < b)
  {
    a := 0;
    while a < |files| && !Meets(files[a], lo, hi)
      invariant a <= |files|
      invariant forall i :: 0 <= i < a ==> !Meets(files[i], lo, hi)
    {
      a := a + 1;
    }
    b := a;
    while b < |files| && Meets(files[b], lo, hi)
      invariant a <= b <= |files|
      invariant forall i :: a <= i < b ==> Meets(files[i], lo, hi)
    {
      b := b + 1;
    }
    hide SortedApart, Meets;
    forall i | b <= i < |files|
      ensures !Meets(files[i], lo, hi)
    {
      if Meets(files[i], lo, hi) {
        MeetsBetween(files, a, b, i, lo, hi);
      }
    }
    SliceOfMeeting(files, a, b, lo, hi);
  }

  ghost predicate ClosedAt(files: seq<File>, b: nat)
    requires 0 < b <= |files|
  {
    b < |files| ==> files[b].smallest.user != files[b - 1].largest.user
  }

  lemma NextBoundary(files: seq<File>, b: nat)
    requires SortedApart(files) && 0 < b <= |files|
    ensures ClosedAt(files, b) ==> Boundary(files, files[b - 1].largest) == None
    ensures !ClosedAt(files, b) ==> Boundary(files, files[b - 1].largest) == Some(files[b])
  {
    var k := files[b - 1].largest;
    hide FileOk;
    forall i | 0 <= i < |files| && i != b
      ensures !IsBoundary(files[i], k) || (i > b && IsBoundary(files[b], k) && Less(files[b].smallest, files[i].smallest))
    {
      if i > b {
        assert Less(files[b].largest, files[i].smallest);
        StartsBeforeEnds(files, b);
        assert Less(k, files[b].smallest);
      } else {
        StartsBeforeEnds(files, i);
        assert i == b - 1 || Less(files[i].largest, files[b - 1].smallest);
        StartsBeforeEnds(files, b - 1);
      }
    }
    hide SortedApart;
    assert ClosedAt(files, b) ==> forall i :: 0 <= i < |files| ==> !IsBoundary(files[i], k);
  }

  /** In a sorted level the chain continues a slice up to the first change of user key. */
  lemma {:induction false} ChainExtendsSlice(files: seq<File>, b: nat) returns (b': nat)
    requires SortedApart(files) && SpansOk(files) && 0 < b <= |files|
    ensures b <= b' <= |files| && ClosedAt(files, b')
    ensures BoundaryChain(files, files[b - 1].largest) == files[b..b']
    decreases |files| - b
  {
    NextBoundary(files, b);
    hide SortedApart, SpansOk, Boundary;
    if ClosedAt(files, b) {
      b' := b;
    } else {
      b' := ChainExtendsSlice(files, b + 1);
      assert files[b..b'] == [files[b]] + files[b + 1..b'];
    }
  }

  lemma {:induction false} SliceEnds(files: seq<File>, a: nat, b: nat)
    requires SortedApart(files) && a < b <= |files|
    ensures LargestKey(files[a..b]) == files[b - 1].largest
    ensures SmallestKey(files[a..b]) == files[a].smallest
  {
    var s := files[a..b];
    if b > a + 1 {
      assert s[..|s| - 1] == files[a..b - 1];
      SliceEnds(files, a, b - 1);
      EndsAscend(files);
      assert Less(files[a].largest, files[b - 1].smallest);
      StartsBeforeEnds(files, a);
    }
  }

  lemma StartsBeforeEnds(files: seq<File>, i: nat)
    requires SortedApart(files) && i < |files|
    ensures AtMost(files[i].smallest, files[i].largest)
  {
    assert files[i] in files;
    FileSpan(files[i]);
  }
}
