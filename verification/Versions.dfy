/** A version (Version in version_set.cc): the files of each level in the order the engine keeps them, and the
    searches over them. */
module Versions {
  import opened InternalKeys
  import opened Visibility
  import opened Levels

  datatype Version = Version(files: seq<seq<File>>)

  ghost function LevelsOf(v: Version): Levels
    requires |v.files| == NUM_LEVELS
  {
    seq(NUM_LEVELS, i requires 0 <= i < NUM_LEVELS => set f | f in v.files[i])
  }

  /** BySmallestKey: the order in which a level lists its files. */
  predicate BySmallest(f: File, g: File) {
    Less(f.smallest, g.smallest) || (f.smallest == g.smallest && f.number < g.number)
  }

  ghost predicate InOrder(fs: seq<File>) {
    forall i, j :: 0 <= i < j < |fs| ==> BySmallest(fs[i], fs[j])
  }

  ghost predicate VersionOk(v: Version, next: nat) {
    && |v.files| == NUM_LEVELS
    && LevelsOk(LevelsOf(v), next)
    && forall i :: 0 <= i < NUM_LEVELS ==> InOrder(v.files[i])
  }

  /** A sorted list of non-overlapping files. */
  ghost predicate SortedApart(fs: seq<File>) {
    && (forall f :: f in fs ==> FileOk(f))
    && forall i, j :: 0 <= i < j < |fs| ==> Less(fs[i].largest, fs[j].smallest)
  }

  /** Below level 0 every level of a version is sorted and disjoint by internal key. */
  lemma LevelSortedApart(v: Version, next: nat, level: nat)
    requires VersionOk(v, next) && 1 <= level < NUM_LEVELS
    ensures SortedApart(v.files[level])
  {
    var fs, ls := v.files[level], LevelsOf(v);
    forall i, j | 0 <= i < j < |fs|
      ensures Less(fs[i].largest, fs[j].smallest)
    {
      assert fs[i] in ls[level] && fs[j] in ls[level];
      assert InOrder(fs) && BySmallest(fs[i], fs[j]);
      assert FileOk(fs[i]) && FileOk(fs[j]);
      NotAfter(fs[i], fs[j]);
    }
    forall f | f in fs ensures FileOk(f) {
      assert f in ls[level];
    }
  }

  lemma NotAfter(f: File, g: File)
    requires FileOk(f) && FileOk(g) && BySmallest(f, g) && (f != g ==> Apart(f, g))
    ensures Less(f.largest, g.smallest)
  {
    FileSpan(f);
    FileSpan(g);
  }

  /** Where the binary search of FindFile comes out, on any list of files. */
  function Bisect(files: seq<File>, key: IKey, left: nat, right: nat): (r: nat)
    requires left <= right <= |files|
    ensures left <= r <= right
    decreases right - left
  {
    if left == right then right
    else
      var mid := (left + right) / 2;
      if Less(files[mid].largest, key) then Bisect(files, key, mid + 1, right) else Bisect(files, key, left, mid)
  }

  lemma ThroughMiddle(a: IKey, b: IKey, key: IKey)
    requires Less(a, b)
    ensures Less(b, key) ==> Less(a, key)
    ensures AtMost(key, a) ==> AtMost(key, b)
  {
  }

  lemma NotLess(a: IKey, b: IKey)
    ensures AtMost(b, a) <==> !Less(a, b)
  {
  }

  lemma {:induction false} BisectSplits(files: seq<File>, key: IKey, left: nat, right: nat)
    requires forall i, j :: 0 <= i < j < |files| ==> Less(files[i].largest, files[j].largest)
    requires left <= right <= |files|
    requires forall i :: 0 <= i < left ==> Less(files[i].largest, key)
    requires forall i :: right <= i < |files| ==> AtMost(key, files[i].largest)
    ensures var r := Bisect(files, key, left, right);
            && (forall i :: 0 <= i < r ==> Less(files[i].largest, key))
            && forall i :: r <= i < |files| ==> AtMost(key, files[i].largest)
    decreases right - left
  {
    hide Less, AtMost;
    if left < right {
      var mid := (left + right) / 2;
      if Less(files[mid].largest, key) {
        forall i | 0 <= i < mid + 1 ensures Less(files[i].largest, key) {
          if i < mid {
            ThroughMiddle(files[i].largest, files[mid].largest, key);
          }
        }
        BisectSplits(files, key, mid + 1, right);
      } else {
        NotLess(files[mid].largest, key);
        forall i | mid <= i < |files| ensures AtMost(key, files[i].largest) {
          if i > mid {
            ThroughMiddle(files[mid].largest, files[i].largest, key);
          }
        }
        BisectSplits(files, key, left, mid);
      }
    }
  }

  /** Smallest index whose file ends at or after key (FindFile), on a sorted level: binary search. */
  method FindFile(files: seq<File>, key: IKey) returns (r: nat)
    ensures r <= |files| && r == Bisect(files, key, 0, |files|)
    ensures SortedApart(files) ==>
              && (forall i :: 0 <= i < r ==> Less(files[i].largest, key))
              && (forall i :: r <= i < |files| ==> AtMost(key, files[i].largest))
  {
    var left, right := 0, |files|;
    while left < right
      invariant left <= right <= |files| && Bisect(files, key, left, right) == Bisect(files, key, 0, |files|)
    {
      var mid := (left + right) / 2;
      if Less(files[mid].largest, key) {
        left := mid + 1;
      } else {
        right := mid;
      }
    }
    r := right;
    if SortedApart(files) {
      EndsAscend(files);
      BisectSplits(files, key, 0, |files|);
    }
  }

  lemma EndsAscend(files: seq<File>)
    requires SortedApart(files)
    ensures forall i, j :: 0 <= i < j < |files| ==> Less(files[i].largest, files[j].largest)
    ensures forall i :: 0 <= i < |files| ==> files[i].smallest.user <= files[i].largest.user
  {
    forall j | 0 <= j < |files|
      ensures AtMost(files[j].smallest, files[j].largest) && files[j].smallest.user <= files[j].largest.user
    {
      assert files[j] in files;
      FileSpan(files[j]);
    }
  }

  /** FindFile from the earliest possible internal key of u splits the files by their last user key. */
  lemma EarliestSeek(f: File, u: UserKey)
    requires FileOk(f)
    ensures AtMost(SeekKey(u, MAX_SEQUENCE), f.largest) <==> u <= f.largest.user
  {
    assert f.entries[|f.entries| - 1] in f.entries;
    SeekKeySplits(u, MAX_SEQUENCE, f.largest);
  }

  /** f meets the user key range [lo, hi], either end of which may be open. */
  predicate Meets(f: File, lo: Option<UserKey>, hi: Option<UserKey>) {
    (lo.Some? ==> lo.value <= f.largest.user) && (hi.Some? ==> f.smallest.user <= hi.value)
  }

  /** SomeFileOverlapsRange: binary search on sorted disjoint files, a scan otherwise; both answer alike. */
  method SomeFileOverlapsRange(disjointSorted: bool, files: seq<File>, lo: Option<UserKey>, hi: Option<UserKey>)
    returns (overlaps: bool)
    requires disjointSorted ==> SortedApart(files)
    ensures overlaps <==> exists f :: f in files && Meets(f, lo, hi)
  {
    if !disjointSorted {
      for i := 0 to |files|
        invariant forall j :: 0 <= j < i ==> !Meets(files[j], lo, hi)
      {
        if Meets(files[i], lo, hi) {
          return true;
        }
      }
      return false;
    }
    var index := 0;
    if lo.Some? {
      index := FindFile(files, SeekKey(lo.value, MAX_SEQUENCE));
    }
    EndsAscend(files);
    forall j | 0 <= j < |files| && lo.Some?
      ensures j < index <==> files[j].largest.user < lo.value
    {
      assert files[j] in files;
      EarliestSeek(files[j], lo.value);
    }
    if index >= |files| {
      return false;
    }
    overlaps := Meets(files[index], None, hi);
    if !overlaps {
      forall j | index <= j < |files|
        ensures !Meets(files[j], lo, hi)
      {
        assert index == j || Less(files[index].largest, files[j].smallest);
      }
    } else {
      assert files[index] in files;
    }
  }

  // ---- Lookup ------------------------------------------------------------------------------------------------

  /** Position of the first entry at or after key. */
  function LowerBound(es: seq<Entry>, key: IKey): (n: nat)
    ensures n <= |es|
    ensures forall i :: 0 <= i < n ==> Less(es[i].key, key)
    ensures n < |es| ==> AtMost(key, es[n].key)
  {
    if es == [] || !Less(es[0].key, key) then 0 else 1 + LowerBound(es[1..], key)
  }

  /** What a table lookup tells the caller (SaverState): the first entry at or after the seek key counts if it
      is of the right user key. */
  datatype Found = NotFound | Hit(entry: Entry)

  function TableGet(es: seq<Entry>, u: UserKey, s: nat): Found {
    var n := LowerBound(es, SeekKey(u, s));
    if n < |es| && es[n].key.user == u then Hit(es[n]) else NotFound
  }

  /** A level below 0: one file is searched, the one that FindFile names, if it begins at or before u. */
  function LevelGet(files: seq<File>, u: UserKey, s: nat): Found {
    var index := Bisect(files, SeekKey(u, s), 0, |files|);
    if index < |files| && u >= files[index].smallest.user then TableGet(files[index].entries, u, s) else NotFound
  }

  ghost predicate Visible(e: Entry, u: UserKey, s: nat) {
    e.key.user == u && e.key.seqno <= s
  }

  /** A table lookup finds the newest visible entry of the key in the table, if there is one. */
  lemma TableGetNewest(es: seq<Entry>, u: UserKey, s: nat)
    requires Sorted(es)
    ensures TableGet(es, u, s).NotFound? ==> forall e :: e in es ==> !Visible(e, u, s)
    ensures TableGet(es, u, s).Hit? ==> Newest(ToSet(es), u, s, TableGet(es, u, s).entry)
  {
    var n := LowerBound(es, SeekKey(u, s));
    forall e | e in es && Visible(e, u, s)
      ensures n < |es| && es[n].key.user == u && e.key.seqno <= es[n].key.seqno
    {
      var i :| 0 <= i < |es| && es[i] == e;
      SeekKeySplits(u, s, e.key);
      assert n <= i;
      SeekKeySplits(u, s, es[n].key);
      assert n == i || Less(es[n].key, es[i].key);
    }
    if n < |es| {
      SeekKeySplits(u, s, es[n].key);
    }
  }

  ghost predicate NothingIn(fs: set<File>, u: UserKey, s: nat) {
    forall f, e :: f in fs && e in f.entries ==> !Visible(e, u, s)
  }

  /** std::sort by NewestFirst. */
  method SortNewestFirst(files: seq<File>) returns (r: seq<File>)
    ensures |r| == |files| && forall f :: f in r <==> f in files
    ensures forall i, j :: 0 <= i < j < |r| ==> r[i].number >= r[j].number
  {
    r := [];
    for k := 0 to |files|
      invariant |r| == k && forall f :: f in r <==> f in files[..k]
      invariant forall i, j :: 0 <= i < j < |r| ==> r[i].number >= r[j].number
    {
      var p := 0;
      while p < |r| && r[p].number >= files[k].number
        invariant p <= |r|
        invariant forall i :: 0 <= i < p ==> r[i].number >= files[k].number
      {
        p := p + 1;
      }
      r := InsertAt(r, p, files[k]);
      assert files[..k + 1] == files[..k] + [files[k]];
    }
    assert files[..|files|] == files;
  }

  function InsertAt(fs: seq<File>, p: nat, f: File): (r: seq<File>)
    requires p <= |fs|
    ensures |r| == |fs| + 1 && forall g :: g in r <==> g in fs || g == f
    ensures forall i :: 0 <= i < |r| ==> r[i] == if i < p then fs[i] else if i == p then f else fs[i - 1]
  {
    assert fs == fs[..p] + fs[p..];
    fs[..p] + [f] + fs[p..]
  }

  /** A hit in a level-0 file settles the read when the newer level-0 files hold nothing visible. */
  lemma ZeroHit(ls: Levels, next: nat, f: File, u: UserKey, s: nat, e: Entry)
    requires LevelsOk(ls, next) && f in ls[0] && Newest(ToSet(f.entries), u, s, e)
    requires forall g, x :: g in ls[0] && g.number > f.number && x in g.entries ==> !Visible(x, u, s)
    ensures Newest(Contents(ls), u, s, e)
  {
    assert e in f.entries;
    forall x | x in Contents(ls) && Visible(x, u, s)
      ensures x.key.seqno <= e.key.seqno
    {
      var i, g :| 0 <= i < NUM_LEVELS && g in ls[i] && x in g.entries;
      if i > 0 {
        assert Above(f, g);
      } else if g.number == f.number {
        assert x in ToSet(f.entries);
      } else {
        assert Above(f, g);
      }
    }
  }

  lemma DeepHit(ls: Levels, next: nat, level: nat, f: File, u: UserKey, s: nat, e: Entry)
    requires LevelsOk(ls, next) && 1 <= level < NUM_LEVELS && f in ls[level] && Newest(ToSet(f.entries), u, s, e)
    requires forall i, g, x :: 0 <= i < level && g in ls[i] && x in g.entries ==> !Visible(x, u, s)
    requires forall g, x :: g in ls[level] && g != f && x in g.entries && Visible(x, u, s) ==> x.key.seqno <= e.key.seqno
    ensures Newest(Contents(ls), u, s, e)
  {
    assert e in f.entries;
    forall x | x in Contents(ls) && Visible(x, u, s)
      ensures x.key.seqno <= e.key.seqno
    {
      var i, g :| 0 <= i < NUM_LEVELS && g in ls[i] && x in g.entries;
      if i > level {
        assert Above(f, g);
      } else if i < level {
      } else if g == f {
        assert x in ToSet(f.entries);
      }
    }
  }

  lemma NoHit(ls: Levels, u: UserKey, s: nat)
    requires forall i, g, x :: 0 <= i < NUM_LEVELS && g in ls[i] && x in g.entries ==> !Visible(x, u, s)
    ensures Read(Contents(ls), u, s) == None
  {
    forall x | x in Contents(ls) && x.key.user == u
      ensures x.key.seqno > s
    {
      var i, g :| 0 <= i < NUM_LEVELS && g in ls[i] && x in g.entries;
      assert !Visible(x, u, s);
    }
    ReadNothing(Contents(ls), u, s);
  }

  /** In a sorted level the file FindFile names holds the newest visible entry, if any file does. */
  lemma OnlyFoundFile(files: seq<File>, index: nat, u: UserKey, s: nat, j: nat, x: Entry)
    requires SortedApart(files) && index <= |files| && j < |files| && x in files[j].entries && Visible(x, u, s)
    requires forall i :: 0 <= i < index ==> Less(files[i].largest, SeekKey(u, s))
    requires forall i :: index <= i < |files| ==> AtMost(SeekKey(u, s), files[i].largest)
    ensures index <= j && files[index].smallest.user <= u
    ensures TableGet(files[index].entries, u, s).Hit?
    ensures x.key.seqno <= TableGet(files[index].entries, u, s).entry.key.seqno
  {
    assert files[j] in files;
    FileBounds(files[j], x);
    SeekKeySplits(u, s, x.key);
    assert index <= j;
    var f := files[index];
    assert f in files;
    var last := f.entries[|f.entries| - 1];
    FileBounds(f, last);
    TableGetNewest(f.entries, u, s);
    if j == index {
      assert x in ToSet(f.entries);
    } else {
      assert Less(f.largest, files[j].smallest);
      SeekKeySplits(u, s, f.largest);
      assert Visible(last, u, s) && last in f.entries && last in ToSet(f.entries);
    }
  }

  /** The level-0 files whose range holds u, newest first. */
  method ZeroCandidates(files: seq<File>, u: UserKey) returns (tmp: seq<File>)
    ensures forall f :: f in tmp <==> f in files && f.smallest.user <= u <= f.largest.user
    ensures forall i, j :: 0 <= i < j < |tmp| ==> tmp[i].number >= tmp[j].number
  {
    tmp := [];
    for i := 0 to |files|
      invariant forall f :: f in tmp <==> f in files[..i] && f.smallest.user <= u <= f.largest.user
    {
      assert files[..i + 1] == files[..i] + [files[i]];
      var f := files[i];
      if u >= f.smallest.user && u <= f.largest.user {
        tmp := tmp + [f];
      }
    }
    assert files[..|files|] == files;
    tmp := SortNewestFirst(tmp);
  }

  lemma FilesAreOk(v: Version, next: nat)
    requires VersionOk(v, next)
    ensures |v.files| == NUM_LEVELS
    ensures forall i, f :: 0 <= i < NUM_LEVELS && f in v.files[i] ==> f in LevelsOf(v)[i] && FileOk(f)
    ensures LevelsOk(LevelsOf(v), next)
  {
    forall i, f | 0 <= i < NUM_LEVELS && f in v.files[i]
      ensures f in LevelsOf(v)[i] && FileOk(f)
    {
      assert f in LevelsOf(v)[i];
    }
  }

  lemma EntriesSorted(f: File)
    requires FileOk(f)
    ensures Sorted(f.entries)
  {
  }

  /** Level 0 of Version::Get: the overlapping files from the newest, up to the first hit. */
  method GetFromZero(v: Version, ghost next: nat, u: UserKey, s: nat) returns (found: Found)
    requires VersionOk(v, next)
    ensures found.Hit? ==> Newest(Contents(LevelsOf(v)), u, s, found.entry)
    ensures found.NotFound? ==> NothingIn(LevelsOf(v)[0], u, s)
  {
    hide LevelsOk, LevelsOf, VersionOk, FileOk, Contents, NothingIn, TableGet, Newest, Sorted;
    FilesAreOk(v, next);
    var tmp := ZeroCandidates(v.files[0], u);
    for i := 0 to |tmp|
      invariant forall j, x :: 0 <= j < i && x in tmp[j].entries ==> !Visible(x, u, s)
    {
      var f := tmp[i];
      assert f in tmp;
      EntriesSorted(f);
      TableGetNewest(f.entries, u, s);
      found := TableGet(f.entries, u, s);
      if found.Hit? {
        NewerZeroFilesSearched(v, next, tmp, i, u, s);
        ZeroHit(LevelsOf(v), next, f, u, s, found.entry);
        return;
      }
    }
    ZeroFilesSearched(v, next, tmp, u, s);
    found := NotFound;
  }

  method GetFromLevel(files: seq<File>, u: UserKey, s: nat) returns (found: Found)
    ensures found == LevelGet(files, u, s)
  {
    var index := FindFile(files, SeekKey(u, s));
    found := NotFound;
    if index < |files| && u >= files[index].smallest.user {
      found := TableGet(files[index].entries, u, s);
    }
  }

  ghost predicate NothingAbove(ls: Levels, level: nat, u: UserKey, s: nat)
    requires level <= NUM_LEVELS
  {
    forall i, g, x :: 0 <= i < level && g in ls[i] && x in g.entries ==> !Visible(x, u, s)
  }

  lemma NothingInZero(ls: Levels, u: UserKey, s: nat)
    ensures NothingIn(ls[0], u, s) ==> NothingAbove(ls, 1, u, s)
  {
  }

  /** When nothing shallower is visible, a hit is the newest visible entry of the whole version. */
  lemma LevelHit(v: Version, next: nat, level: nat, u: UserKey, s: nat)
    requires VersionOk(v, next) && 1 <= level < NUM_LEVELS && NothingAbove(LevelsOf(v), level, u, s)
    requires LevelGet(v.files[level], u, s).Hit?
    ensures Newest(Contents(LevelsOf(v)), u, s, LevelGet(v.files[level], u, s).entry)
  {
    hide Disjoint, Recency, ZeroRecency, Numbered, Contents, Unique, Newest, Sorted, TableGet;
    LevelSortedApart(v, next, level);
    var files := v.files[level];
    var index := Bisect(files, SeekKey(u, s), 0, |files|);
    EndsAscend(files);
    BisectSplits(files, SeekKey(u, s), 0, |files|);
    FoundFileDecides(v, next, level, index, u, s);
    assert files[index] in LevelsOf(v)[level];
    TableGetNewest(files[index].entries, u, s);
    DeepHit(LevelsOf(v), next, level, files[index], u, s, LevelGet(files, u, s).entry);
  }

  lemma LevelMiss(v: Version, next: nat, level: nat, u: UserKey, s: nat)
    requires VersionOk(v, next) && 1 <= level < NUM_LEVELS && NothingAbove(LevelsOf(v), level, u, s)
    requires LevelGet(v.files[level], u, s).NotFound?
    ensures NothingAbove(LevelsOf(v), level + 1, u, s)
  {
    hide LevelsOk, Contents, TableGet;
    LevelSortedApart(v, next, level);
    var files := v.files[level];
    EndsAscend(files);
    BisectSplits(files, SeekKey(u, s), 0, |files|);
    FoundFileDecides(v, next, level, Bisect(files, SeekKey(u, s), 0, |files|), u, s);
    hide SortedApart, InOrder;
  }

  /** Version::Get: level 0 from the newest file, then one file per level; the first hit is the answer. */
  method Get(v: Version, ghost next: nat, u: UserKey, s: nat) returns (r: Option<Value>)
    requires VersionOk(v, next)
    ensures r == Read(Contents(LevelsOf(v)), u, s)
  {
    ghost var ls := LevelsOf(v);
    var zero := GetFromZero(v, next, u, s);
    if zero.Hit? {
      ReadIsNewest(Contents(ls), u, s, zero.entry);
      return Payload(zero.entry);
    }
    hide LevelsOk, LevelsOf, VersionOk, FileOk, Contents, NothingIn, LevelGet, Newest, Read;
    FilesAreOk(v, next);
    NothingInZero(ls, u, s);
    for level := 1 to NUM_LEVELS
      invariant NothingAbove(ls, level, u, s)
    {
      var found := GetFromLevel(v.files[level], u, s);
      if found.Hit? {
        LevelHit(v, next, level, u, s);
        ReadIsNewest(Contents(ls), u, s, found.entry);
        return Payload(found.entry);
      }
      LevelMiss(v, next, level, u, s);
    }
    NoHit(ls, u, s);
    r := None;
  }

  lemma ZeroFilesSearched(v: Version, next: nat, tmp: seq<File>, u: UserKey, s: nat)
    requires VersionOk(v, next)
    requires forall f :: f in v.files[0] && f.smallest.user <= u <= f.largest.user ==> f in tmp
    requires forall j, x :: 0 <= j < |tmp| && x in tmp[j].entries ==> !Visible(x, u, s)
    ensures NothingIn(LevelsOf(v)[0], u, s)
  {
    forall f, x | f in LevelsOf(v)[0] && x in f.entries
      ensures !Visible(x, u, s)
    {
      FileBounds(f, x);
    }
  }

  lemma NewerZeroFilesSearched(v: Version, next: nat, tmp: seq<File>, i: nat, u: UserKey, s: nat)
    requires VersionOk(v, next) && i < |tmp|
    requires forall f :: f in v.files[0] && f.smallest.user <= u <= f.largest.user ==> f in tmp
    requires forall i, j :: 0 <= i < j < |tmp| ==> tmp[i].number >= tmp[j].number
    requires forall j, x :: 0 <= j < i && x in tmp[j].entries ==> !Visible(x, u, s)
    ensures forall g, x :: g in LevelsOf(v)[0] && g.number > tmp[i].number && x in g.entries ==> !Visible(x, u, s)
  {
    forall g, x | g in LevelsOf(v)[0] && g.number > tmp[i].number && x in g.entries
      ensures !Visible(x, u, s)
    {
      FileBounds(g, x);
      if g in tmp {
        var j :| 0 <= j < |tmp| && tmp[j] == g;
        assert j < i;
      }
    }
  }

  lemma FoundFileDecides(v: Version, next: nat, level: nat, index: nat, u: UserKey, s: nat)
    requires VersionOk(v, next) && 1 <= level < NUM_LEVELS && index <= |v.files[level]|
    requires forall i :: 0 <= i < index ==> Less(v.files[level][i].largest, SeekKey(u, s))
    requires forall i :: index <= i < |v.files[level]| ==> AtMost(SeekKey(u, s), v.files[level][i].largest)
    ensures index == |v.files[level]| || u < v.files[level][index].smallest.user
            || TableGet(v.files[level][index].entries, u, s).NotFound?
            ==> NothingIn(LevelsOf(v)[level], u, s)
    ensures index < |v.files[level]| && TableGet(v.files[level][index].entries, u, s).Hit?
            ==> forall g, x :: g in LevelsOf(v)[level] && x in g.entries && Visible(x, u, s)
                               ==> x.key.seqno <= TableGet(v.files[level][index].entries, u, s).entry.key.seqno
  {
    LevelSortedApart(v, next, level);
    forall g, x | g in LevelsOf(v)[level] && x in g.entries && Visible(x, u, s)
      ensures index < |v.files[level]| && v.files[level][index].smallest.user <= u
      ensures TableGet(v.files[level][index].entries, u, s).Hit?
      ensures x.key.seqno <= TableGet(v.files[level][index].entries, u, s).entry.key.seqno
    {
      var j :| 0 <= j < |v.files[level]| && v.files[level][j] == g;
      OnlyFoundFile(v.files[level], index, u, s, j, x);
    }
  }
}
