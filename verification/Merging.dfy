/** The sorted union of sorted entry lists: what a merging iterator yields. */
module Merging {
  import opened InternalKeys
  import opened Visibility
  import opened Levels

  function Merge2(a: seq<Entry>, b: seq<Entry>): seq<Entry>
    decreases |a| + |b|
  {
    if a == [] then b
    else if b == [] then a
    else if Less(b[0].key, a[0].key) then [b[0]] + Merge2(a, b[1..])
    else [a[0]] + Merge2(a[1..], b)
  }

  function MergeAll(children: seq<seq<Entry>>): seq<Entry> {
    if children == [] then [] else Merge2(children[0], MergeAll(children[1..]))
  }

  /** Every entry of es sorts after k. */
  ghost predicate AllAfter(k: IKey, es: seq<Entry>) {
    forall e :: e in es ==> Less(k, e.key)
  }

  ghost predicate NoSharedKey(a: seq<Entry>, b: seq<Entry>) {
    forall x, y :: x in a && y in b ==> x.key != y.key
  }

  lemma SortedTail(es: seq<Entry>)
    requires Sorted(es) && es != []
    ensures Sorted(es[1..]) && AllAfter(es[0].key, es[1..])
  {
  }

  lemma SortedCons(e: Entry, es: seq<Entry>)
    requires Sorted(es) && AllAfter(e.key, es)
    ensures Sorted([e] + es)
  {
    forall i, j | 0 <= i < j < |es| + 1
      ensures Less(([e] + es)[i].key, ([e] + es)[j].key)
    {
      if i == 0 {
        assert es[j - 1] in es;
      }
    }
  }

  lemma {:induction false} Merge2Members(a: seq<Entry>, b: seq<Entry>)
    ensures forall e :: e in Merge2(a, b) <==> e in a || e in b
    decreases |a| + |b|
  {
    if a != [] && b != [] {
      assert a == [a[0]] + a[1..] && b == [b[0]] + b[1..];
      if Less(b[0].key, a[0].key) {
        Merge2Members(a, b[1..]);
      } else {
        Merge2Members(a[1..], b);
      }
    }
  }

  lemma HeadBefore(k: IKey, es: seq<Entry>)
    requires Sorted(es) && es != [] && Less(k, es[0].key)
    ensures AllAfter(k, es)
  {
    forall e | e in es ensures Less(k, e.key) {
      var i :| 0 <= i < |es| && es[i] == e;
      assert i == 0 || Less(es[0].key, es[i].key);
    }
  }

  lemma {:induction false} Merge2Sorted(a: seq<Entry>, b: seq<Entry>)
    requires Sorted(a) && Sorted(b) && NoSharedKey(a, b)
    ensures Sorted(Merge2(a, b))
    decreases |a| + |b|
  {
    if a != [] && b != [] {
      assert a[0] in a && b[0] in b;
      SortedTail(a);
      SortedTail(b);
      if Less(b[0].key, a[0].key) {
        HeadBefore(b[0].key, a);
        Merge2Sorted(a, b[1..]);
        Merge2Members(a, b[1..]);
        SortedCons(b[0], Merge2(a, b[1..]));
      } else {
        HeadBefore(a[0].key, b);
        Merge2Sorted(a[1..], b);
        Merge2Members(a[1..], b);
        SortedCons(a[0], Merge2(a[1..], b));
      }
    }
  }

  ghost predicate Mergeable(children: seq<seq<Entry>>) {
    && (forall i :: 0 <= i < |children| ==> Sorted(children[i]))
    && (forall i, j :: 0 <= i < j < |children| ==> NoSharedKey(children[i], children[j]))
  }

  ghost function Union(children: seq<seq<Entry>>): set<Entry> {
    set i, e | 0 <= i < |children| && e in children[i] :: e
  }

  /** Merging sorted children with distinct keys gives the sorted list of all their entries. */
  lemma {:induction false} MergeAllSorted(children: seq<seq<Entry>>)
    requires Mergeable(children)
    ensures Sorted(MergeAll(children)) && ToSet(MergeAll(children)) == Union(children)
  {
    if children == [] {
    } else {
      var rest := children[1..];
      MergeAllSorted(rest);
      forall x, y | x in children[0] && y in MergeAll(rest)
        ensures x.key != y.key
      {
        assert y in ToSet(MergeAll(rest));
        var i :| 0 <= i < |rest| && y in rest[i];
        assert NoSharedKey(children[0], children[i + 1]);
      }
      Merge2Sorted(children[0], MergeAll(rest));
      Merge2Members(children[0], MergeAll(rest));
      forall e | e in Union(children)
        ensures e in children[0] || e in MergeAll(rest)
      {
        var i :| 0 <= i < |children| && e in children[i];
        if i > 0 {
          assert rest[i - 1] == children[i] && e in Union(rest);
          assert e in ToSet(MergeAll(rest));
        }
      }
      forall e | e in MergeAll(rest)
        ensures e in Union(children)
      {
        assert e in ToSet(MergeAll(rest));
        var i :| 0 <= i < |rest| && e in rest[i];
        assert e in children[i + 1];
      }
    }
  }

  lemma FirstIsLeast(es: seq<Entry>, e: Entry)
    requires Sorted(es) && e in es
    ensures e == es[0] || Less(es[0].key, e.key)
  {
    var i :| 0 <= i < |es| && es[i] == e;
  }

  lemma HasEntries(es: seq<Entry>)
    requires es != []
    ensures ToSet(es) != {}
  {
    assert es[0] in ToSet(es);
  }

  /** A sorted list is determined by its entries. */
  lemma {:induction false} SortedUnique(a: seq<Entry>, b: seq<Entry>)
    requires Sorted(a) && Sorted(b) && ToSet(a) == ToSet(b)
    ensures a == b
  {
    if a == [] {
      if b != [] {
        HasEntries(b);
      }
    } else {
      HasEntries(a);
      assert b != [] && a[0] in ToSet(a) && b[0] in ToSet(b);
      FirstIsLeast(a, b[0]);
      FirstIsLeast(b, a[0]);
      SortedTail(a);
      SortedTail(b);
      forall e | e in ToSet(a[1..]) ensures e in ToSet(b[1..]) {
        assert e in ToSet(a) && Less(a[0].key, e.key);
        assert b == [b[0]] + b[1..];
      }
      forall e | e in ToSet(b[1..]) ensures e in ToSet(a[1..]) {
        assert e in ToSet(b) && Less(b[0].key, e.key);
        assert a == [a[0]] + a[1..];
      }
      SortedUnique(a[1..], b[1..]);
    }
  }

  /** A concatenating iterator over files walks their entries one after another. */
  function Concat(files: seq<File>): seq<Entry> {
    if files == [] then [] else files[0].entries + Concat(files[1..])
  }

  lemma {:induction false} ConcatMembers(files: seq<File>)
    ensures ToSet(Concat(files)) == EntriesOf(set f | f in files)
  {
    var all := EntriesOf(set f | f in files);
    if files != [] {
      ConcatMembers(files[1..]);
      assert files == [files[0]] + files[1..];
      assert EntriesOf(set f | f in files[1..]) <= all;
      assert files[0] in (set f | f in files);
      forall e | e in all ensures e in Concat(files) {
        var f :| f in files && e in f.entries;
        if f != files[0] {
          assert f in files[1..];
          assert e in EntriesOf(set f | f in files[1..]);
          assert e in ToSet(Concat(files[1..]));
        }
      }
      forall e | e in Concat(files) ensures e in all {
        if e !in files[0].entries {
          assert e in ToSet(Concat(files[1..]));
        }
      }
    }
  }

  lemma SortedAppend(a: seq<Entry>, b: seq<Entry>)
    requires Sorted(a) && Sorted(b) && forall x, y :: x in a && y in b ==> Less(x.key, y.key)
    ensures Sorted(a + b)
  {
    var c := a + b;
    forall i, j | 0 <= i < j < |c|
      ensures Less(c[i].key, c[j].key)
    {
      if i < |a| <= j {
        assert c[i] in a && c[j] in b;
      }
    }
  }

  /** Over sorted files that do not meet, the concatenation is sorted. */
  lemma {:induction false} ConcatSorted(files: seq<File>)
    requires forall f :: f in files ==> FileOk(f)
    requires forall i, j :: 0 <= i < j < |files| ==> Less(files[i].largest, files[j].smallest)
    ensures Sorted(Concat(files))
  {
    if files != [] {
      var rest := files[1..];
      ConcatSorted(rest);
      ConcatMembers(rest);
      assert files[0] in files;
      forall x, y | x in files[0].entries && y in Concat(rest)
        ensures Less(x.key, y.key)
      {
        assert y in ToSet(Concat(rest));
        var f :| f in rest && y in f.entries;
        var i :| 0 <= i < |rest| && rest[i] == f;
        assert f in files && files[i + 1] == f;
        FileBounds(files[0], x);
        FileBounds(f, y);
      }
      SortedAppend(files[0].entries, Concat(rest));
    }
  }
}
