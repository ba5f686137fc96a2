/** Reading a block (Block::Iter): a cursor over the pairs that were added to it. On a finished block none of the
    branches that detect corruption can be taken; they are not modelled. */
module BlockIterators {
  import opened InternalKeys
  import opened Coding
  import opened Blocks
  import opened Cursors
  import ByteValues

  type Order = (Bytes, Bytes) -> bool

  ghost predicate StrictOrder(less: Order) {
    && (forall a, b :: less(a, b) ==> !less(b, a))
    && (forall a, b, c :: less(a, b) && less(b, c) ==> less(a, c))
    && (forall a, b, c :: less(a, c) ==> less(a, b) || less(b, c))
  }

  ghost predicate KeysAscend(pairs: seq<Pair>, less: Order) {
    forall i, j :: 0 <= i < j < |pairs| ==> less(pairs[i].key, pairs[j].key)
  }

  /** How many keys come before target. */
  function KeysBefore(pairs: seq<Pair>, target: Bytes, less: Order): (n: nat)
    ensures n <= |pairs|
    ensures forall i :: 0 <= i < n ==> less(pairs[i].key, target)
    ensures n < |pairs| ==> !less(pairs[n].key, target)
  {
    if pairs == [] || !less(pairs[0].key, target) then 0 else 1 + KeysBefore(pairs[1..], target, less)
  }

  lemma KeysBeforeIs(pairs: seq<Pair>, target: Bytes, less: Order, n: nat)
    requires n <= |pairs| && (forall i :: 0 <= i < n ==> less(pairs[i].key, target))
    requires n < |pairs| ==> !less(pairs[n].key, target)
    ensures KeysBefore(pairs, target, less) == n
  {
  }

  // ---- The parts of a finished block ---------------------------------------------------------------------------

  /** What opening a finished block finds. */
  ghost predicate Opened(data: Bytes, restarts: nat, numRestarts: nat, l: Layout) {
    && LayoutOk(l) && (forall i :: 0 <= i < |l.pairs| ==> PairFits(l.pairs[i]))
    && numRestarts == |l.restarts| && restarts == Offset(l, |l.pairs|)
    && |data| == restarts + 4 * numRestarts + 4
    && data[..restarts] == DataBytes(l, |l.pairs|)
    && forall j :: 0 <= j < numRestarts ==> RestartIs(data, restarts, l, j)
  }

  ghost predicate RestartIs(data: Bytes, restarts: nat, l: Layout, j: nat)
    requires j < |l.restarts| && |l.shared| == |l.pairs|
  {
    && restarts + 4 * j + 4 <= |data| && l.restarts[j] <= |l.pairs|
    && FixedAt(data, restarts + 4 * j) == Offset(l, l.restarts[j])
  }

  lemma BlockOpens(l: Layout)
    requires LayoutOk(l) && |BlockBytes(l)| < TWO_32 && forall i :: 0 <= i < |l.pairs| ==> PairFits(l.pairs[i])
    ensures var data := BlockBytes(l);
            && |data| >= 4 && FixedAt(data, |data| - 4) == |l.restarts|
            && Opened(data, Offset(l, |l.pairs|), |l.restarts|, l)
  {
    hide DataBytes, LayoutOk, Fixed, FixedOf, FixedAt;
    LayoutFacts(l);
    var data, front, offsets := BlockBytes(l), DataBytes(l, |l.pairs|), Offsets(l);
    WordsLength(offsets);
    assert data == front + Words(offsets) + Fixed(|l.restarts|, 4) + [];
    FixedThere(front + Words(offsets), |l.restarts|, []);
    assert data[..|front|] == front;
    forall j | 0 <= j < |l.restarts| ensures RestartIs(data, |front|, l, j) {
      RestartOffset(l, j);
      WordPlaced(front, offsets, Fixed(|l.restarts|, 4), j);
    }
  }

  lemma RestartOffset(l: Layout, j: nat)
    requires LayoutOk(l) && j < |l.restarts|
    ensures l.restarts[j] <= |l.pairs| && Offsets(l)[j] == Offset(l, l.restarts[j]) <= Offset(l, |l.pairs|)
  {
    assert RestartOk(l, j);
    DataPrefix(l, l.restarts[j], |l.pairs|);
  }

  /** Parsing at entry i. */
  lemma ParsesAt(data: Bytes, restarts: nat, numRestarts: nat, l: Layout, i: nat)
    requires Opened(data, restarts, numRestarts, l) && i < |l.pairs|
    ensures |l.shared| == |l.pairs| && Offset(l, i) + 3 <= Offset(l, i + 1) <= restarts <= |data|
    ensures l.shared[i] <= |l.pairs[i].key|
    ensures var p, shared := l.pairs[i], l.shared[i];
            var start := Offset(l, i + 1) - |p.value| - (|p.key| - shared);
            && LengthsOf(data[Offset(l, i)..restarts])
               == Parsed(Lengths(shared, |p.key| - shared, |p.value|), data[start..restarts])
            && 0 <= start && data[start..start + (|p.key| - shared)] == p.key[shared..]
            && data[start + (|p.key| - shared)..Offset(l, i + 1)] == p.value
  {
    hide LayoutOk, DataBytes, EntryBytes, LengthsOf;
    OpenedFacts(data, restarts, numRestarts, l);
    DataSnoc(l, i);
    EntryInData(l, i);
    var p, shared := l.pairs[i], l.shared[i];
    var body := data[..restarts];
    var rest := body[Offset(l, i + 1)..];
    EntryDecodes(p, shared, rest);
    var tail := p.key[shared..] + p.value + rest;
    var start := Offset(l, i + 1) - |p.value| - (|p.key| - shared);
    assert body[Offset(l, i)..] == data[Offset(l, i)..restarts];
    EntryEnds(p, shared);
    TailOf(data, restarts, Offset(l, i), Offset(l, i + 1), EntryBytes(p, shared), p.key[shared..], p.value);
  }

  lemma OpenedFacts(data: Bytes, restarts: nat, numRestarts: nat, l: Layout)
    requires Opened(data, restarts, numRestarts, l)
    ensures LayoutOk(l) && |l.shared| == |l.pairs| && numRestarts == |l.restarts| > 0 && restarts <= |data|
    ensures restarts == Offset(l, |l.pairs|) && data[..restarts] == DataBytes(l, |l.pairs|)
    ensures forall i :: 0 <= i < |l.pairs| ==> PairFits(l.pairs[i])
  {
  }

  lemma EntryEnds(p: Pair, shared: nat)
    requires shared <= |p.key|
    ensures |EntryBytes(p, shared)| >= |p.key| - shared + |p.value|
    ensures EntryBytes(p, shared)[|EntryBytes(p, shared)| - |p.value| - (|p.key| - shared)..] == p.key[shared..] + p.value
  {
    hide Varint;
    var head := Varint(shared) + (Varint(|p.key| - shared) + Varint(|p.value|));
    assert EntryBytes(p, shared) == head + (p.key[shared..] + p.value);
  }

  /** The last two parts of an entry, seen from the whole data. */
  lemma TailOf(data: Bytes, limit: nat, from: nat, to: nat, entry: Bytes, a: Bytes, b: Bytes)
    requires from <= to <= limit <= |data| && to - from == |entry| && |a| + |b| <= |entry|
    requires data[from..limit] == entry + data[to..limit]
    requires entry[|entry| - |b| - |a|..] == a + b
    ensures var start := to - |b| - |a|;
            data[start..start + |a|] == a && data[start + |a|..to] == b && data[start..limit] == a + b + data[to..limit]
  {
    ByteValues.SliceOfSlice(data, from, limit, 0, |entry|);
    assert data[from..to] == (entry + data[to..limit])[..|entry|] == entry;
    var start := to - |b| - |a|;
    forall i | 0 <= i < |a| + |b| ensures data[start + i] == (a + b)[i] {
      assert data[start + i] == data[from..to][start + i - from] == entry[|entry| - |b| - |a| + i];
    }
    assert data[start..to] == a + b && data[start..start + |a|] == (a + b)[..|a|] && data[start + |a|..to] == (a + b)[|a|..];
    assert data[start..limit] == data[start..to] + data[to..limit];
  }

  // ---- The iterator --------------------------------------------------------------------------------------------

  class BlockIter {
    const data: Bytes
    const restarts: nat
    const numRestarts: nat
    const less: Order
    ghost const layout: Layout
    /** Offset of the current entry; restarts when there is none. */
    var current: nat
    var restartIndex: nat
    var key: Bytes
    var valueStart: nat
    var valueSize: nat
    ghost var at: Option<nat>

    ghost predicate Valid()
      reads this
    {
      && Opened(data, restarts, numRestarts, layout)
      && (at.None? ==> current == restarts)
      && (at.Some? ==> On(at.value))
    }

    ghost predicate On(i: nat)
      reads this
    {
      && i < |layout.pairs| && |layout.shared| == |layout.pairs| && restartIndex < numRestarts
      && current == Offset(layout, i) < restarts && key == layout.pairs[i].key
      && valueStart + valueSize == Offset(layout, i + 1) <= |data|
      && data[valueStart..valueStart + valueSize] == layout.pairs[i].value
    }

    /** The next parse will read entry j: it needs its predecessor's key, unless it shares nothing. */
    ghost predicate Before(j: nat)
      reads this
    {
      && Opened(data, restarts, numRestarts, layout)
      && j <= |layout.pairs| && |layout.shared| == |layout.pairs| && restartIndex < numRestarts
      && valueStart + valueSize == Offset(layout, j)
      && (j < |layout.pairs| && layout.shared[j] > 0 ==> j > 0 && key == layout.pairs[j - 1].key)
    }

    /** The cursor this iterator amounts to. */
    ghost function Abs(): Cursor<Pair>
      reads this
      requires Valid()
    {
      Cursor(layout.pairs, at)
    }

    predicate HasEntry()
      reads this
    {
      current < restarts
    }

    /** Valid() of the iterator interface: there is an entry exactly when the cursor is on one. */
    method Positioned() returns (some: bool)
      requires Valid()
      ensures some == Abs().Valid() == HasEntry()
    {
      some := current < restarts;
    }

    constructor (contents: Bytes, less: Order, ghost l: Layout)
      requires LayoutOk(l) && contents == BlockBytes(l) && |contents| < TWO_32
      requires forall i :: 0 <= i < |l.pairs| ==> PairFits(l.pairs[i])
      ensures Valid() && Abs() == Cursor(l.pairs, None) && layout == l && this.less == less
    {
      BlockOpens(l);
      data, this.less, layout := contents, less, l;
      var n := FixedAt(contents, |contents| - 4);
      numRestarts := n;
      var offset := |contents| - (1 + n) * 4;
      restarts := offset;
      current, restartIndex, key, valueStart, valueSize, at := offset, n, [], 0, 0, None;
    }

    /** The entry shown is the one the cursor is on. */
    method Item() returns (p: Pair)
      requires Valid() && HasEntry()
      ensures Abs().Valid() && p == Abs().Item()
    {
      p := Pair(key, data[valueStart..valueStart + valueSize]);
    }

    function GetRestartPoint(index: nat): nat
      requires index < numRestarts && restarts + 4 * index + 4 <= |data|
    {
      FixedAt(data, restarts + 4 * index)
    }

    method SeekToRestartPoint(index: nat)
      requires Opened(data, restarts, numRestarts, layout) && index < numRestarts
      modifies this
      ensures Before(layout.restarts[index])
    {
      RestartFacts(data, restarts, numRestarts, layout, index);
      key, restartIndex := [], index;
      valueStart, valueSize := GetRestartPoint(index), 0;
    }

    method ParseNextKey(ghost j: nat) returns (ok: bool)
      requires Before(j)
      modifies this
      ensures Valid() && ok == (j < |layout.pairs|) && at == (if ok then Some(j) else None)
      ensures ok ==> Before(j + 1)
    {
      hide Opened, DataBytes, LengthsOf, FixedAt, LayoutOk;
      OpenedFacts(data, restarts, numRestarts, layout);
      current := valueStart + valueSize;
      var p := current;
      EndsThere(data, restarts, numRestarts, layout, j);
      if p >= restarts {
        current, restartIndex, at := restarts, numRestarts, None;
        return false;
      }
      ParsesKey(data, restarts, numRestarts, layout, j, key);
      var r := LengthsOf(data[p..restarts]);
      var start := restarts - |r.rest|;
      key := key[..r.value.shared] + data[start..start + r.value.nonShared];
      valueStart, valueSize := start + r.value.nonShared, r.value.value;
      at := Some(j);
      AdvanceRestart();
      ok := true;
    }

    /** Moves the restart index up to the last restart point before the current entry. */
    method AdvanceRestart()
      requires Opened(data, restarts, numRestarts, layout) && restartIndex < numRestarts
      modifies this`restartIndex
      ensures restartIndex < numRestarts
    {
      hide FixedAt;
      RestartBounds(data, restarts, numRestarts, layout);
      hide Opened;
      while restartIndex + 1 < numRestarts && GetRestartPoint(restartIndex + 1) < current
        invariant restartIndex < numRestarts
      {
        restartIndex := restartIndex + 1;
      }
    }

    method Next()
      requires Valid() && HasEntry()
      modifies this
      ensures Valid() && Abs() == old(Abs()).Next()
    {
      hide Opened, DataBytes;
      OpenedFacts(data, restarts, numRestarts, layout);
      ghost var i := at.value;
      var _ := ParseNextKey(i + 1);
    }

    method SeekToFirst()
      requires Valid()
      modifies this
      ensures Valid() && Abs() == old(Abs()).First()
    {
      hide Opened, DataBytes;
      OpenedFacts(data, restarts, numRestarts, layout);
      LayoutFacts(layout);
      SeekToRestartPoint(0);
      var _ := ParseNextKey(0);
    }

    method SeekToLast()
      requires Valid()
      modifies this
      ensures Valid() && Abs() == old(Abs()).Last()
    {
      hide Opened, DataBytes;
      OpenedFacts(data, restarts, numRestarts, layout);
      LastRestart(layout);
      SeekToRestartPoint(numRestarts - 1);
      ghost var n, j := |layout.pairs|, layout.restarts[numRestarts - 1];
      var ok := ParseNextKey(j);
      while ok && valueStart + valueSize < restarts
        invariant Valid() && (ok <==> n > 0)
        invariant ok ==> j < n && at == Some(j) && Before(j + 1)
        invariant !ok ==> at == None
        decreases n - j, ok
      {
        OffsetsGrow(layout, j + 1);
        j := j + 1;
        ok := ParseNextKey(j);
      }
      if ok {
        OffsetsGrow(layout, j + 1);
      }
    }

    /** Prev goes back to the last restart point before the current entry and forward again up to that entry. */
    method Prev()
      requires Valid() && HasEntry()
      modifies this
      ensures Valid() && Abs() == old(Abs()).Prev()
    {
      hide Opened, DataBytes;
      OpenedFacts(data, restarts, numRestarts, layout);
      RestartBounds(data, restarts, numRestarts, layout);
      ghost var i := at.value;
      var original, index: nat := current, restartIndex;
      while GetRestartPoint(index) >= original
        invariant index < numRestarts
        decreases index
      {
        if index == 0 {
          FirstOnly(data, restarts, numRestarts, layout, i);
          current, restartIndex, at := restarts, numRestarts, None;
          return;
        }
        index := index - 1;
      }
      RestartFacts(data, restarts, numRestarts, layout, index);
      ghost var j := layout.restarts[index];
      OffsetOrder(layout, j, i);
      SeekToRestartPoint(index);
      var ok := ParseNextKey(j);
      while ok && valueStart + valueSize < original
        invariant ok && Valid() && j < i && at == Some(j) && Before(j + 1)
        decreases i - j
      {
        OffsetOrder(layout, j + 1, i);
        j := j + 1;
        ok := ParseNextKey(j);
      }
      OffsetOrder(layout, j + 1, i);
    }

    /** Seek: binary search over the restart points, then a scan, to the first key at or after target. */
    method Seek(target: Bytes)
      requires Valid() && StrictOrder(less) && KeysAscend(layout.pairs, less)
      modifies this
      ensures Valid() && Abs() == old(Abs()).ToIndex(KeysBefore(layout.pairs, target, less))
    {
      hide Opened, DataBytes, StrictOrder, KeysAscend;
      OpenedFacts(data, restarts, numRestarts, layout);
      RestartBounds(data, restarts, numRestarts, layout);
      ghost var n := |layout.pairs|;
      var left: nat, right: nat := 0, numRestarts - 1;
      while left < right
        invariant left <= right < numRestarts
        invariant left > 0 ==> layout.restarts[left] < n && less(layout.pairs[layout.restarts[left]].key, target)
      {
        var mid := (left + right + 1) / 2;
        var region := GetRestartPoint(mid);
        RestartParses(data, restarts, numRestarts, layout, mid);
        var r := LengthsOf(data[region..restarts]);
        var start := restarts - |r.rest|;
        var midKey := data[start..start + r.value.nonShared];
        if less(midKey, target) {
          left := mid;
        } else {
          right := mid - 1;
        }
      }
      RestartFacts(data, restarts, numRestarts, layout, left);
      ghost var j := layout.restarts[left];
      ScanStarts(layout.pairs, less, target, left, j);
      SeekToRestartPoint(left);
      while true
        invariant Before(j) && forall i :: 0 <= i < j ==> less(layout.pairs[i].key, target)
        decreases n - j
      {
        var ok := ParseNextKey(j);
        if !ok || !less(key, target) {
          KeysBeforeIs(layout.pairs, target, less, j);
          return;
        }
        j := j + 1;
      }
    }
  }

  lemma RestartFacts(data: Bytes, restarts: nat, numRestarts: nat, l: Layout, j: nat)
    requires Opened(data, restarts, numRestarts, l) && j < numRestarts
    ensures |l.shared| == |l.pairs| && j < |l.restarts| && l.restarts[j] <= |l.pairs|
    ensures restarts + 4 * j + 4 <= |data| && FixedAt(data, restarts + 4 * j) == Offset(l, l.restarts[j])
    ensures l.restarts[j] < |l.pairs| ==> l.shared[l.restarts[j]] == 0
    ensures l.pairs != [] ==> l.restarts[j] < |l.pairs|
    ensures j == 0 ==> l.restarts[j] == 0
  {
    assert RestartIs(data, restarts, l, j) && RestartOk(l, j);
  }

  lemma RestartBounds(data: Bytes, restarts: nat, numRestarts: nat, l: Layout)
    requires Opened(data, restarts, numRestarts, l)
    ensures forall j :: 0 <= j < numRestarts ==> restarts + 4 * j + 4 <= |data|
  {
  }

  lemma EndsThere(data: Bytes, restarts: nat, numRestarts: nat, l: Layout, j: nat)
    requires Opened(data, restarts, numRestarts, l) && j <= |l.pairs| && |l.shared| == |l.pairs|
    ensures j < |l.pairs| <==> Offset(l, j) < restarts
  {
    OffsetsGrow(l, j);
  }

  /** What ParseNextKey computes for entry j from the bytes and the previous key. */
  lemma ParsesKey(data: Bytes, restarts: nat, numRestarts: nat, l: Layout, j: nat, key: Bytes)
    requires Opened(data, restarts, numRestarts, l) && j < |l.pairs| && |l.shared| == |l.pairs|
    requires l.shared[j] > 0 ==> j > 0 && key == l.pairs[j - 1].key
    ensures Offset(l, j) <= restarts <= |data|
    ensures var r := LengthsOf(data[Offset(l, j)..restarts]);
            && r.Parsed? && |r.rest| <= restarts && r.value.shared <= |key|
            && var start := restarts - |r.rest|;
            && start + r.value.nonShared + r.value.value == Offset(l, j + 1) <= |data|
            && key[..r.value.shared] + data[start..start + r.value.nonShared] == l.pairs[j].key
            && data[start + r.value.nonShared..Offset(l, j + 1)] == l.pairs[j].value
  {
    hide LayoutOk, DataBytes, LengthsOf;
    OpenedFacts(data, restarts, numRestarts, l);
    ParsesAt(data, restarts, numRestarts, l, j);
    SharedKey(l, j, key);
  }

  /** With its predecessor's key at hand, or nothing to share, an entry's key is put together right. */
  lemma SharedKey(l: Layout, j: nat, key: Bytes)
    requires LayoutOk(l) && j < |l.pairs|
    requires l.shared[j] > 0 ==> j > 0 && key == l.pairs[j - 1].key
    ensures l.shared[j] <= |l.pairs[j].key| && l.shared[j] <= |key|
    ensures key[..l.shared[j]] + l.pairs[j].key[l.shared[j]..] == l.pairs[j].key
  {
    assert SharedOk(l, j);
  }

  lemma LastRestart(l: Layout)
    requires LayoutOk(l)
    ensures |l.restarts| > 0 && (l.pairs != [] ==> l.restarts[|l.restarts| - 1] < |l.pairs|)
    ensures l.restarts[|l.restarts| - 1] <= |l.pairs|
  {
    assert RestartOk(l, |l.restarts| - 1);
  }

  /** Offsets grow with every entry, up to the restart array. */
  lemma OffsetsGrow(l: Layout, j: nat)
    requires LayoutOk(l) && j <= |l.pairs| && |l.shared| == |l.pairs|
    ensures Offset(l, j) < Offset(l, |l.pairs|) <==> j < |l.pairs|
  {
    DataPrefix(l, j, |l.pairs|);
  }

  lemma OffsetOrder(l: Layout, i: nat, j: nat)
    requires LayoutOk(l) && i <= |l.pairs| && j <= |l.pairs| && |l.shared| == |l.pairs|
    ensures Offset(l, i) < Offset(l, j) <==> i < j
    ensures Offset(l, i) == Offset(l, j) <==> i == j
  {
    hide LayoutOk, DataBytes;
    if i <= j {
      DataPrefix(l, i, j);
    } else {
      DataPrefix(l, j, i);
    }
  }

  lemma FirstOnly(data: Bytes, restarts: nat, numRestarts: nat, l: Layout, i: nat)
    requires Opened(data, restarts, numRestarts, l) && i < |l.pairs| && numRestarts > 0
    requires |l.shared| == |l.pairs| && restarts + 4 <= |data| && FixedAt(data, restarts) >= Offset(l, i)
    ensures i == 0
  {
    RestartFacts(data, restarts, numRestarts, l, 0);
    OffsetOrder(l, 0, i);
  }

  lemma RestartParses(data: Bytes, restarts: nat, numRestarts: nat, l: Layout, j: nat)
    requires Opened(data, restarts, numRestarts, l) && 0 < j < numRestarts
    ensures |l.shared| == |l.pairs| && j < |l.restarts| && l.restarts[j] < |l.pairs|
    ensures restarts + 4 * j + 4 <= |data| && FixedAt(data, restarts + 4 * j) <= restarts <= |data|
    ensures var r := LengthsOf(data[FixedAt(data, restarts + 4 * j)..restarts]);
            && r.Parsed? && r.value.shared == 0 && |r.rest| <= restarts
            && restarts - |r.rest| + r.value.nonShared <= |data|
            && data[restarts - |r.rest|..restarts - |r.rest| + r.value.nonShared] == l.pairs[l.restarts[j]].key
  {
    hide LayoutOk, DataBytes, LengthsOf;
    RestartFacts(data, restarts, numRestarts, l, j);
    RestartInside(l, j);
    ParsesAt(data, restarts, numRestarts, l, l.restarts[j]);
  }

  lemma RestartInside(l: Layout, j: nat)
    requires LayoutOk(l) && 0 < j < |l.restarts|
    ensures l.restarts[j] < |l.pairs|
  {
    assert RestartOk(l, j);
  }

  lemma ScanStarts(pairs: seq<Pair>, less: Order, target: Bytes, left: nat, j: nat)
    requires StrictOrder(less) && KeysAscend(pairs, less) && j <= |pairs|
    requires left > 0 ==> j < |pairs| && less(pairs[j].key, target)
    requires left == 0 ==> j == 0
    ensures forall i :: 0 <= i < j ==> less(pairs[i].key, target)
  {
  }
}
