/** MergingIterator (table/merger.cc): a cursor over the sorted union of its children. */
module MergingIterators {
  import opened InternalKeys
  import opened Visibility
  import opened Versions
  import opened Merging
  import opened Cursors

  /** A place between entries; what lies before it has been passed. */
  datatype Cut = Start | Before(key: IKey) | After(key: IKey) | End

  predicate Passed(cut: Cut, k: IKey) {
    match cut
    case Start => false
    case Before(key) => Less(k, key)
    case After(key) => AtMost(k, key)
    case End => true
  }

  /** How many entries of a sorted list a cut passes. */
  function Index(es: seq<Entry>, cut: Cut): (n: nat)
    ensures n <= |es|
    ensures forall i :: 0 <= i < n ==> Passed(cut, es[i].key)
    ensures n < |es| ==> !Passed(cut, es[n].key)
  {
    if es == [] || !Passed(cut, es[0].key) then 0 else 1 + Index(es[1..], cut)
  }

  lemma PassedDown(cut: Cut, a: IKey, b: IKey)
    requires Passed(cut, b) && AtMost(a, b)
    ensures Passed(cut, a)
  {
  }

  lemma IndexIs(es: seq<Entry>, cut: Cut, n: nat)
    requires Sorted(es) && n <= |es|
    requires n > 0 ==> Passed(cut, es[n - 1].key)
    requires n < |es| ==> !Passed(cut, es[n].key)
    ensures Index(es, cut) == n
  {
    var m := Index(es, cut);
    if m < n {
      NotBefore(es, m, n - 1);
      PassedDown(cut, es[m].key, es[n - 1].key);
    }
  }

  lemma NotBefore(es: seq<Entry>, i: nat, j: nat)
    requires Sorted(es) && i <= j < |es|
    ensures AtMost(es[i].key, es[j].key)
  {
    assert i == j || Less(es[i].key, es[j].key);
  }

  lemma NotPassedBehind(es: seq<Entry>, cut: Cut, i: nat)
    requires Sorted(es) && Index(es, cut) <= i < |es|
    ensures !Passed(cut, es[i].key)
  {
    var n := Index(es, cut);
    assert i == n || Less(es[n].key, es[i].key);
  }

  lemma SeekIsBefore(es: seq<Entry>, key: IKey)
    requires Sorted(es)
    ensures LowerBound(es, key) == Index(es, Before(key))
  {
    IndexIs(es, Before(key), LowerBound(es, key));
  }

  lemma StartAndEnd(es: seq<Entry>)
    requires Sorted(es)
    ensures Index(es, Start) == 0 && Index(es, End) == |es|
  {
    IndexIs(es, Start, 0);
    IndexIs(es, End, |es|);
  }

  /** Around an entry of the list the two cuts differ by one; around a foreign key they agree. */
  lemma AroundKey(es: seq<Entry>, n: nat, key: IKey)
    requires Sorted(es)
    requires n < |es| ==> es[n].key == key
    requires n >= |es| ==> forall e :: e in es ==> e.key != key
    ensures n < |es| ==> Index(es, Before(key)) == n && Index(es, After(key)) == n + 1
    ensures n >= |es| ==> Index(es, Before(key)) == Index(es, After(key))
  {
    if n < |es| {
      assert n == 0 || Less(es[n - 1].key, es[n].key);
      assert n == |es| - 1 || Less(es[n].key, es[n + 1].key);
      IndexIs(es, Before(key), n);
      IndexIs(es, After(key), n + 1);
    } else {
      var m := Index(es, Before(key));
      assert m < |es| ==> es[m] in es;
      KeyOrder(key);
      IndexIs(es, After(key), m);
    }
  }

  lemma KeyOrder(key: IKey)
    ensures forall k: IKey :: Less(k, key) ==> AtMost(k, key)
  {
  }

  ghost predicate AtCut(c: Cursor<Entry>, cut: Cut) {
    c == c.ToIndex(Index(c.items, cut))
  }

  ghost predicate JustBeforeCut(c: Cursor<Entry>, cut: Cut) {
    c == c.ToIndex(Index(c.items, cut) - 1)
  }

  ghost function Lists(cs: seq<Cursor<Entry>>): seq<seq<Entry>> {
    seq(|cs|, i requires 0 <= i < |cs| => cs[i].items)
  }

  lemma ChildHas(cs: seq<Cursor<Entry>>, i: nat, e: Entry)
    requires Mergeable(Lists(cs)) && i < |cs| && e in cs[i].items
    ensures e in MergeAll(Lists(cs)) && Sorted(cs[i].items)
  {
    MergeAllSorted(Lists(cs));
    assert Lists(cs)[i] == cs[i].items;
    assert e in Union(Lists(cs)) && e in ToSet(MergeAll(Lists(cs)));
  }

  lemma SomeChildHas(cs: seq<Cursor<Entry>>, e: Entry) returns (i: nat)
    requires Mergeable(Lists(cs)) && e in MergeAll(Lists(cs))
    ensures i < |cs| && e in cs[i].items && Sorted(cs[i].items)
  {
    MergeAllSorted(Lists(cs));
    assert e in ToSet(MergeAll(Lists(cs)));
    var j: int :| 0 <= j < |Lists(cs)| && e in Lists(cs)[j];
    i := j;
  }

  ghost predicate Least(cs: seq<Cursor<Entry>>, current: Option<nat>) {
    && (current.None? ==> forall j :: 0 <= j < |cs| ==> !cs[j].Valid())
    && (current.Some? ==> current.value < |cs| && cs[current.value].Valid()
                          && forall j :: 0 <= j < |cs| && cs[j].Valid()
                                         ==> AtMost(cs[current.value].Item().key, cs[j].Item().key))
  }

  ghost predicate Greatest(cs: seq<Cursor<Entry>>, current: Option<nat>) {
    && (current.None? ==> forall j :: 0 <= j < |cs| ==> !cs[j].Valid())
    && (current.Some? ==> current.value < |cs| && cs[current.value].Valid()
                          && forall j :: 0 <= j < |cs| && cs[j].Valid()
                                         ==> AtMost(cs[j].Item().key, cs[current.value].Item().key))
  }

  /** The first entry of a child past the cut comes no later than any entry of that child past it. */
  lemma ChildFront(c: Cursor<Entry>, cut: Cut, e: Entry)
    requires Sorted(c.items) && AtCut(c, cut) && e in c.items && !Passed(cut, e.key)
    ensures c.Valid() && AtMost(c.Item().key, e.key)
  {
    var i :| 0 <= i < |c.items| && c.items[i] == e;
    var n := Index(c.items, cut);
    assert n <= i;
    assert n == i || Less(c.items[n].key, c.items[i].key);
  }

  lemma ChildBack(c: Cursor<Entry>, cut: Cut, e: Entry)
    requires Sorted(c.items) && JustBeforeCut(c, cut) && e in c.items && Passed(cut, e.key)
    ensures c.Valid() && AtMost(e.key, c.Item().key)
  {
    var i :| 0 <= i < |c.items| && c.items[i] == e;
    var n := Index(c.items, cut);
    if n <= i {
      NotPassedBehind(c.items, cut, i);
    }
    assert i == n - 1 || Less(c.items[i].key, c.items[n - 1].key);
  }

  lemma PassedLimit(es: seq<Entry>, cut: Cut, q: nat)
    requires Sorted(es) && q < |es|
    ensures Passed(cut, es[q].key) <==> q < Index(es, cut)
  {
    if q >= Index(es, cut) {
      NotPassedBehind(es, cut, q);
    }
  }

  lemma AtMostTrans(a: IKey, b: IKey, c: IKey)
    requires AtMost(a, b) && AtMost(b, c)
    ensures AtMost(a, c)
  {
  }

  lemma SamePlace(es: seq<Entry>, i: nat, j: nat)
    requires Sorted(es) && i < |es| && j < |es| && AtMost(es[i].key, es[j].key) && AtMost(es[j].key, es[i].key)
    ensures i == j
  {
  }

  /** Where in the merged list the children's least entry past a common cut is. */
  lemma SmallestIsNext(cs: seq<Cursor<Entry>>, cut: Cut, current: Option<nat>)
    requires Mergeable(Lists(cs)) && Least(cs, current) && forall i :: 0 <= i < |cs| ==> AtCut(cs[i], cut)
    ensures var m := MergeAll(Lists(cs));
            var n := Index(m, cut);
            if current.None? then n == |m|
            else n < |m| && m[n] == cs[current.value].Item()
  {
    hide Less, AtMost, Mergeable, Union, Lists, Index, Passed, MergeAll;
    var m := MergeAll(Lists(cs));
    var n := Index(m, cut);
    MergeAllSorted(Lists(cs));
    if n < |m| {
      var j := SomeChildHas(cs, m[n]);
      ChildFront(cs[j], cut, m[n]);
      if current.Some? {
        var c := cs[current.value];
        AtMostTrans(c.Item().key, cs[j].Item().key, m[n].key);
      }
    }
    if current.Some? {
      var c := cs[current.value];
      ChildHas(cs, current.value, c.Item());
      var q: nat :| q < |m| && m[q] == c.Item();
      PassedLimit(m, cut, q);
      NotBefore(m, n, q);
      SamePlace(m, n, q);
    }
  }

  lemma LargestIsPrevious(cs: seq<Cursor<Entry>>, cut: Cut, current: Option<nat>)
    requires Mergeable(Lists(cs)) && Greatest(cs, current) && forall i :: 0 <= i < |cs| ==> JustBeforeCut(cs[i], cut)
    ensures var m := MergeAll(Lists(cs));
            var n := Index(m, cut);
            if current.None? then n == 0
            else n > 0 && m[n - 1] == cs[current.value].Item()
  {
    hide Less, AtMost, Mergeable, Union, Lists, Index, Passed, MergeAll;
    var m := MergeAll(Lists(cs));
    var n := Index(m, cut);
    MergeAllSorted(Lists(cs));
    if n > 0 {
      var j := SomeChildHas(cs, m[n - 1]);
      ChildBack(cs[j], cut, m[n - 1]);
      if current.Some? {
        var c := cs[current.value];
        AtMostTrans(m[n - 1].key, cs[j].Item().key, c.Item().key);
      }
    }
    if current.Some? {
      var c := cs[current.value];
      ChildHas(cs, current.value, c.Item());
      var q: nat :| q < |m| && m[q] == c.Item();
      PassedLimit(m, cut, q);
      NotBefore(m, q, n - 1);
      SamePlace(m, q, n - 1);
    }
  }

  method FindSmallest(cs: seq<Cursor<Entry>>) returns (current: Option<nat>)
    ensures Least(cs, current)
  {
    current := None;
    for i := 0 to |cs|
      invariant Least(cs[..i], current)
    {
      assert cs[..i + 1] == cs[..i] + [cs[i]];
      if cs[i].Valid() {
        if current.None? || Less(cs[i].Item().key, cs[current.value].Item().key) {
          current := Some(i);
        }
      }
    }
    assert cs[..|cs|] == cs;
  }

  method FindLargest(cs: seq<Cursor<Entry>>) returns (current: Option<nat>)
    ensures Greatest(cs, current)
  {
    current := None;
    for i := |cs| downto 0
      invariant current.None? ==> forall j :: i <= j < |cs| ==> !cs[j].Valid()
      invariant current.Some? ==> i <= current.value < |cs| && cs[current.value].Valid()
                                  && forall j :: i <= j < |cs| && cs[j].Valid()
                                                 ==> AtMost(cs[j].Item().key, cs[current.value].Item().key)
    {
      if cs[i].Valid() {
        if current.None? || Less(cs[current.value].Item().key, cs[i].Item().key) {
          current := Some(i);
        }
      }
    }
  }

  ghost predicate InPlace(c: Cursor<Entry>, forward: bool, key: IKey) {
    if forward then AtCut(c, Before(key)) else JustBeforeCut(c, After(key))
  }

  lemma Between(cut: Cut, passed: IKey, key: IKey)
    ensures Passed(cut, passed) && !Passed(cut, key) ==> Less(passed, key)
  {
  }

  /** Once the least entry past a cut is chosen, every child is also at the cut before that entry. */
  lemma SettleForward(cs: seq<Cursor<Entry>>, cut: Cut, current: Option<nat>)
    requires Mergeable(Lists(cs)) && Least(cs, current) && forall i :: 0 <= i < |cs| ==> AtCut(cs[i], cut)
    ensures var m := MergeAll(Lists(cs));
            if current.None? then Index(m, cut) == |m|
            else var key := cs[current.value].Item().key;
                 && Index(m, cut) < |m| && Index(m, Before(key)) == Index(m, cut)
                 && forall i :: 0 <= i < |cs| ==> InPlace(cs[i], true, key)
  {
    SmallestIsNext(cs, cut, current);
    if current.Some? {
      var m := MergeAll(Lists(cs));
      var key := cs[current.value].Item().key;
      MergeAllSorted(Lists(cs));
      AroundKey(m, Index(m, cut), key);
      forall i | 0 <= i < |cs| ensures InPlace(cs[i], true, key) {
        var n := Index(cs[i].items, cut);
        assert Lists(cs)[i] == cs[i].items;
        if n > 0 {
          Between(cut, cs[i].items[n - 1].key, key);
        }
        assert n < |cs[i].items| ==> cs[i].Valid();
        IndexIs(cs[i].items, Before(key), n);
      }
    }
  }

  lemma CutAfterGreatest(c: Cursor<Entry>, cut: Cut, key: IKey)
    requires Sorted(c.items) && JustBeforeCut(c, cut) && Passed(cut, key)
    requires c.Valid() ==> AtMost(c.Item().key, key)
    ensures Index(c.items, After(key)) == Index(c.items, cut)
  {
    var n := Index(c.items, cut);
    if n < |c.items| {
      Between(cut, key, c.items[n].key);
    }
    assert n > 0 ==> c.Valid();
    IndexIs(c.items, After(key), n);
  }

  lemma SettleBackward(cs: seq<Cursor<Entry>>, cut: Cut, current: Option<nat>)
    requires Mergeable(Lists(cs)) && Greatest(cs, current) && forall i :: 0 <= i < |cs| ==> JustBeforeCut(cs[i], cut)
    ensures var m := MergeAll(Lists(cs));
            if current.None? then Index(m, cut) == 0
            else var key := cs[current.value].Item().key;
                 && Index(m, Before(key)) == Index(m, cut) - 1
                 && forall i :: 0 <= i < |cs| ==> InPlace(cs[i], false, key)
  {
    hide Less, AtMost, Sorted, Mergeable, MergeAll, Lists, Index, Passed;
    LargestIsPrevious(cs, cut, current);
    if current.Some? {
      var m := MergeAll(Lists(cs));
      var key := cs[current.value].Item().key;
      MergeAllSorted(Lists(cs));
      AroundKey(m, Index(m, cut) - 1, key);
      forall i | 0 <= i < |cs| ensures InPlace(cs[i], false, key) {
        ChildSorted(cs, i);
        CutAfterGreatest(cs[i], cut, key);
      }
    }
  }

  /** A child the current key does not come from. */
  lemma ForeignKey(cs: seq<Cursor<Entry>>, c: nat, i: nat)
    requires Mergeable(Lists(cs)) && c < |cs| && i < |cs| && i != c && cs[c].Valid()
    ensures Sorted(cs[i].items) && Index(cs[i].items, Before(cs[c].Item().key)) == Index(cs[i].items, After(cs[c].Item().key))
    ensures forall e :: e in cs[i].items ==> e.key != cs[c].Item().key
  {
    assert Lists(cs)[i] == cs[i].items && Lists(cs)[c] == cs[c].items && cs[c].Item() in cs[c].items;
    AroundKey(cs[i].items, |cs[i].items|, cs[c].Item().key);
  }

  lemma OwnKey(cs: seq<Cursor<Entry>>, c: nat)
    requires Mergeable(Lists(cs)) && c < |cs| && cs[c].Valid()
    ensures Sorted(cs[c].items) && Index(cs[c].items, Before(cs[c].Item().key)) == cs[c].at.value
    ensures Index(cs[c].items, After(cs[c].Item().key)) == cs[c].at.value + 1
  {
    assert Lists(cs)[c] == cs[c].items;
    AroundKey(cs[c].items, cs[c].at.value, cs[c].Item().key);
  }

  ghost predicate SameLists(a: seq<Cursor<Entry>>, b: seq<Cursor<Entry>>) {
    |a| == |b| && forall i :: 0 <= i < |a| ==> a[i].items == b[i].items
  }

  lemma SameMerge(a: seq<Cursor<Entry>>, b: seq<Cursor<Entry>>)
    requires SameLists(a, b)
    ensures Lists(a) == Lists(b)
  {
  }

  lemma ChildSorted(cs: seq<Cursor<Entry>>, i: nat)
    requires Mergeable(Lists(cs)) && i < |cs|
    ensures Sorted(cs[i].items)
  {
    assert Lists(cs)[i] == cs[i].items;
  }

  /** A child that stands at key moves past it. */
  function SkipEqual(child: Cursor<Entry>, key: IKey): Cursor<Entry> {
    if child.Valid() && child.Item().key == key then child.Next() else child
  }

  class MergingIterator {
    var children: seq<Cursor<Entry>>
    var current: Option<nat>
    var forward: bool

    /** While the iterator is at key k, moving forward every child is at its first entry not before k, and moving
        backward at its last entry not after k. */
    ghost predicate Valid()
      reads this
    {
      && Mergeable(Lists(children))
      && (current.Some? ==>
            && current.value < |children| && children[current.value].Valid()
            && forall i :: 0 <= i < |children| ==> InPlace(children[i], forward, Key()))
    }

    function Key(): IKey
      reads this
      requires current.Some? && current.value < |children| && children[current.value].Valid()
    {
      children[current.value].Item().key
    }

    ghost function Merged(): seq<Entry>
      reads this
    {
      MergeAll(Lists(children))
    }

    /** The cursor this iterator amounts to. */
    ghost function Abs(): (a: Cursor<Entry>)
      reads this
      requires Valid()
      ensures current.Some? <==> a.Valid()
    {
      if current.Some? then MergedAround(children, current.value); Cursor(Merged(), None).ToIndex(Index(Merged(), Before(Key())))
      else
        Cursor(Merged(), None)
    }

    constructor (lists: seq<seq<Entry>>)
      requires Mergeable(lists)
      ensures Valid() && Abs() == Cursor(MergeAll(lists), None)
    {
      children := seq(|lists|, i requires 0 <= i < |lists| => Cursor(lists[i], None));
      current, forward := None, true;
      new;
      assert Lists(children) == lists;
    }

    /** The entry the iterator shows is the one its cursor is on. */
    method Item() returns (e: Entry)
      requires Valid() && current.Some?
      ensures Abs().Valid() && e == Abs().Item()
    {
      hide Less, AtMost, Sorted, Mergeable, MergeAll, Lists, Index, Passed;
      e := children[current.value].Item();
      MergedAround(children, current.value);
    }

    method SettleSmallest(ghost cut: Cut)
      requires Mergeable(Lists(children)) && forall i :: 0 <= i < |children| ==> AtCut(children[i], cut)
      modifies this
      ensures Valid() && children == old(children)
      ensures Abs() == Cursor(Merged(), None).ToIndex(Index(Merged(), cut))
    {
      hide Less, AtMost, Sorted, Mergeable, MergeAll, Lists, Index, Passed;
      current := FindSmallest(children);
      forward := true;
      SettleForward(children, cut, current);
    }

    method SettleLargest(ghost cut: Cut)
      requires Mergeable(Lists(children)) && forall i :: 0 <= i < |children| ==> JustBeforeCut(children[i], cut)
      modifies this
      ensures Valid() && children == old(children)
      ensures Abs() == Cursor(Merged(), None).ToIndex(Index(Merged(), cut) - 1)
    {
      hide Less, AtMost, Sorted, Mergeable, MergeAll, Lists, Index, Passed;
      current := FindLargest(children);
      forward := false;
      SettleBackward(children, cut, current);
    }

    method SeekToFirst()
      requires Valid()
      modifies this
      ensures Valid() && Abs() == old(Abs()).First()
    {
      hide Less, AtMost, Sorted, Mergeable, MergeAll, Lists, Index, Passed;
      ghost var before := children;
      for i := 0 to |children|
        invariant SameLists(before, children) && forall j :: 0 <= j < i ==> AtCut(children[j], Start)
      {
        SameMerge(before, children);
        ChildSorted(children, i);
        StartAndEnd(children[i].items);
        children := children[i := children[i].First()];
      }
      SameMerge(before, children);
      SettleSmallest(Start);
      MergeAllSorted(Lists(children));
      StartAndEnd(Merged());
    }

    method SeekToLast()
      requires Valid()
      modifies this
      ensures Valid() && Abs() == old(Abs()).Last()
    {
      hide Less, AtMost, Sorted, Mergeable, MergeAll, Lists, Index, Passed;
      ghost var before := children;
      for i := 0 to |children|
        invariant SameLists(before, children) && forall j :: 0 <= j < i ==> JustBeforeCut(children[j], End)
      {
        SameMerge(before, children);
        ChildSorted(children, i);
        StartAndEnd(children[i].items);
        children := children[i := children[i].Last()];
      }
      SameMerge(before, children);
      SettleLargest(End);
      MergeAllSorted(Lists(children));
      StartAndEnd(Merged());
    }

    method Seek(target: IKey)
      requires Valid()
      modifies this
      ensures Valid() && Abs() == SeekEntry(old(Abs()), target)
    {
      hide Less, AtMost, Sorted, Mergeable, MergeAll, Lists, Index, Passed;
      ghost var before := children;
      for i := 0 to |children|
        invariant SameLists(before, children) && forall j :: 0 <= j < i ==> AtCut(children[j], Before(target))
      {
        SameMerge(before, children);
        ChildSorted(children, i);
        SeekIsBefore(children[i].items, target);
        children := children[i := SeekEntry(children[i], target)];
      }
      SameMerge(before, children);
      SettleSmallest(Before(target));
      MergeAllSorted(Lists(children));
      SeekIsBefore(Merged(), target);
    }

    /** On a change of direction every other child is moved to its first entry past the key. */
    method TurnForward()
      requires Valid() && current.Some?
      modifies this
      ensures Valid() && current == old(current) && forward && Abs() == old(Abs()) && Key() == old(Key())
    {
      hide Less, AtMost, Sorted, Mergeable, MergeAll, Lists, Index, Passed;
      ghost var before := children;
      var c, key := current.value, Key();
      OwnKey(children, c);
      for i := 0 to |children|
        invariant current == old(current) && SameLists(before, children) && children[c] == before[c]
        invariant forall j :: 0 <= j < i ==> AtCut(children[j], Before(key))
      {
        SameMerge(before, children);
        if i != c {
          ForeignKey(children, c, i);
          SeekIsBefore(children[i].items, key);
          children := children[i := SkipEqual(SeekEntry(children[i], key), key)];
        }
      }
      SameMerge(before, children);
      forward := true;
    }

    method Next()
      requires Valid() && current.Some?
      modifies this
      ensures Valid() && Abs() == old(Abs()).Next()
    {
      hide Less, AtMost, Sorted, Mergeable, MergeAll, Lists, Index, Passed;
      ghost var cut := After(Key());
      var c := current.value;
      if !forward {
        TurnForward();
      }
      ghost var before := children;
      OwnKey(children, c);
      forall i | 0 <= i < |children| && i != c ensures AtCut(children[i], cut) {
        ForeignKey(children, c, i);
      }
      MergedAround(children, c);
      children := children[c := children[c].Next()];
      SameMerge(before, children);
      SettleSmallest(cut);
    }

    method TurnBackward()
      requires Valid() && current.Some?
      modifies this
      ensures Valid() && current == old(current) && !forward && Abs() == old(Abs()) && Key() == old(Key())
    {
      hide Less, AtMost, Sorted, Mergeable, MergeAll, Lists, Index, Passed;
      ghost var before := children;
      var c, key := current.value, Key();
      OwnKey(children, c);
      for i := 0 to |children|
        invariant current == old(current) && SameLists(before, children) && children[c] == before[c]
        invariant forall j :: 0 <= j < i ==> JustBeforeCut(children[j], After(key))
      {
        SameMerge(before, children);
        if i != c {
          ForeignKey(children, c, i);
          SeekIsBefore(children[i].items, key);
          var child := SeekEntry(children[i], key);
          if child.Valid() {
            child := child.Prev();
          } else {
            child := child.Last();
          }
          children := children[i := child];
        }
      }
      SameMerge(before, children);
      forward := false;
    }

    method Prev()
      requires Valid() && current.Some?
      modifies this
      ensures Valid() && Abs() == old(Abs()).Prev()
    {
      hide Less, AtMost, Sorted, Mergeable, MergeAll, Lists, Index, Passed;
      ghost var cut := Before(Key());
      var c := current.value;
      if forward {
        TurnBackward();
      }
      ghost var before := children;
      OwnKey(children, c);
      forall i | 0 <= i < |children| && i != c ensures JustBeforeCut(children[i], cut) {
        ForeignKey(children, c, i);
      }
      MergedAround(children, c);
      children := children[c := children[c].Prev()];
      SameMerge(before, children);
      SettleLargest(cut);
    }
  }

  lemma MergedAround(cs: seq<Cursor<Entry>>, c: nat)
    requires Mergeable(Lists(cs)) && c < |cs| && cs[c].Valid()
    ensures var m, key := MergeAll(Lists(cs)), cs[c].Item().key;
            var n := Index(m, Before(key));
            n < |m| && m[n] == cs[c].Item() && Index(m, After(key)) == n + 1
  {
    var m, e := MergeAll(Lists(cs)), cs[c].Item();
    ChildHas(cs, c, e);
    MergeAllSorted(Lists(cs));
    var q: nat :| q < |m| && m[q] == e;
    AroundKey(m, q, e.key);
  }
}
