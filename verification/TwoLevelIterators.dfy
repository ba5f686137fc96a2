/** TwoLevelIterator (table/two_level_iterator.cc): a cursor over the concatenation of the blocks an index names. */
module TwoLevelIterators {
  import opened InternalKeys
  import opened Levels
  import opened Versions
  import opened Merging
  import opened Cursors

  datatype IndexEntry = IndexEntry(key: IKey, handle: nat)

  /** What a handle opens. */
  type BlockFunction = nat -> seq<Entry>

  function Blocks(index: seq<IndexEntry>, open: BlockFunction): seq<Entry> {
    if index == [] then [] else Blocks(index[..|index| - 1], open) + open(index[|index| - 1].handle)
  }

  /** Index keys separate the blocks: no entry of a block is past its key, every entry of a later block is. */
  ghost predicate Separated(index: seq<IndexEntry>, open: BlockFunction) {
    && (forall i :: 0 <= i < |index| ==> Sorted(open(index[i].handle)))
    && (forall i, e :: 0 <= i < |index| && e in open(index[i].handle) ==> AtMost(e.key, index[i].key))
    && (forall i, j, e :: 0 <= i < j < |index| && e in open(index[j].handle) ==> Less(index[i].key, e.key))
  }

  function Offset(index: seq<IndexEntry>, open: BlockFunction, i: nat): nat
    requires i <= |index|
  {
    |Blocks(index[..i], open)|
  }

  lemma OffsetSnoc(index: seq<IndexEntry>, open: BlockFunction, i: nat)
    requires i < |index|
    ensures Blocks(index[..i + 1], open) == Blocks(index[..i], open) + open(index[i].handle)
    ensures Offset(index, open, i + 1) == Offset(index, open, i) + |open(index[i].handle)|
  {
    assert index[..i + 1][..i] == index[..i];
  }

  /** The blocks up to i begin the concatenation. */
  lemma {:induction false} BlocksPrefix(index: seq<IndexEntry>, open: BlockFunction, i: nat)
    requires i <= |index|
    ensures Blocks(index[..i], open) <= Blocks(index, open)
    decreases |index| - i
  {
    if i < |index| {
      OffsetSnoc(index, open, i);
      BlocksPrefix(index, open, i + 1);
    } else {
      assert index[..i] == index;
    }
  }

  lemma EntryAt(index: seq<IndexEntry>, open: BlockFunction, i: nat, n: nat)
    requires i < |index| && n < |open(index[i].handle)|
    ensures Offset(index, open, i) + n < |Blocks(index, open)|
    ensures Blocks(index, open)[Offset(index, open, i) + n] == open(index[i].handle)[n]
  {
    OffsetSnoc(index, open, i);
    BlocksPrefix(index, open, i + 1);
    assert Blocks(index[..i + 1], open)[Offset(index, open, i) + n] == open(index[i].handle)[n];
  }

  /** Position of the first index entry whose key is at or past key. */
  function IndexBound(index: seq<IndexEntry>, key: IKey): (n: nat)
    ensures n <= |index|
    ensures forall i :: 0 <= i < n ==> Less(index[i].key, key)
    ensures n < |index| ==> AtMost(key, index[n].key)
  {
    if index == [] || AtMost(key, index[0].key) then 0 else 1 + IndexBound(index[1..], key)
  }

  /** Every entry of the first i blocks is before key when their index keys are. */
  lemma {:induction false} BlocksBefore(index: seq<IndexEntry>, open: BlockFunction, i: nat, key: IKey)
    requires Separated(index, open) && i <= |index| && forall k :: 0 <= k < i ==> Less(index[k].key, key)
    ensures forall e :: e in Blocks(index[..i], open) ==> Less(e.key, key)
  {
    if i > 0 {
      BlocksBefore(index, open, i - 1, key);
      OffsetSnoc(index, open, i - 1);
      forall e | e in open(index[i - 1].handle) ensures Less(e.key, key) {
        assert AtMost(e.key, index[i - 1].key);
      }
    }
  }

  /** Bounds of a position in a list fix its lower bound. */
  lemma LowerBoundIs(es: seq<Entry>, key: IKey, n: nat)
    requires n <= |es| && (forall i :: 0 <= i < n ==> Less(es[i].key, key)) && (n < |es| ==> AtMost(key, es[n].key))
    ensures LowerBound(es, key) == n
  {
  }

  /** Everything before position n of block i is before key when the earlier index keys and the first n entries of
      the block are. */
  lemma FrontBefore(index: seq<IndexEntry>, open: BlockFunction, i: nat, n: nat, key: IKey)
    requires Separated(index, open) && i < |index| && n <= |open(index[i].handle)|
    requires forall k :: 0 <= k < i ==> Less(index[k].key, key)
    requires forall k :: 0 <= k < n ==> Less(open(index[i].handle)[k].key, key)
    ensures Offset(index, open, i) + n <= |Blocks(index, open)|
    ensures forall k :: 0 <= k < Offset(index, open, i) + n ==> Less(Blocks(index, open)[k].key, key)
  {
    hide Separated, Less;
    BlocksBefore(index, open, i, key);
    BlocksPrefix(index, open, i + 1);
    OffsetSnoc(index, open, i);
    var all, upto, front := Blocks(index, open), Blocks(index[..i + 1], open), Blocks(index[..i], open);
    forall k | 0 <= k < |front| + n ensures Less(all[k].key, key) {
      assert all[k] == upto[k];
      if k < |front| {
        assert upto[k] == front[k];
      } else {
        assert upto[k] == open(index[i].handle)[k - |front|];
      }
    }
  }

  lemma LessIsAtMost(a: IKey, b: IKey, c: IKey)
    requires AtMost(a, b) && Less(b, c)
    ensures AtMost(a, c)
  {
  }

  /** Seeking the index and then the block it names is seeking the concatenation. */
  lemma SeekThrough(index: seq<IndexEntry>, open: BlockFunction, key: IKey)
    requires Separated(index, open)
    ensures var i := IndexBound(index, key);
            LowerBound(Blocks(index, open), key)
            == if i < |index| then Offset(index, open, i) + LowerBound(open(index[i].handle), key)
               else |Blocks(index, open)|
  {
    hide Separated, Less, AtMost, LowerBound, IndexBound, Blocks;
    var i := IndexBound(index, key);
    var all := Blocks(index, open);
    if i < |index| {
      var block := open(index[i].handle);
      var n := LowerBound(block, key);
      var p := Offset(index, open, i) + n;
      FrontBefore(index, open, i, n, key);
      OffsetSnoc(index, open, i);
      if n < |block| {
        EntryAt(index, open, i, n);
      } else if p < |all| {
        PastBlock(index, open, i, p);
        LessIsAtMost(key, index[i].key, all[p].key);
      }
      LowerBoundIs(all, key, p);
    } else {
      BlocksBefore(index, open, i, key);
      assert index[..i] == index;
      LowerBoundIs(all, key, |all|);
    }
  }

  /** An entry behind the first i + 1 blocks is past their index keys. */
  lemma {:induction false} PastBlock(index: seq<IndexEntry>, open: BlockFunction, i: nat, k: nat)
    requires Separated(index, open) && i < |index| && Offset(index, open, i + 1) <= k < |Blocks(index, open)|
    ensures Less(index[i].key, Blocks(index, open)[k].key)
  {
    var j := FindBlock(index, open, i + 1, k);
    EntryAt(index, open, j, k - Offset(index, open, j));
    assert Blocks(index, open)[k] in open(index[j].handle);
  }

  lemma {:induction false} FindBlock(index: seq<IndexEntry>, open: BlockFunction, from: nat, k: nat) returns (j: nat)
    requires from <= |index| && Offset(index, open, from) <= k < |Blocks(index, open)|
    ensures from <= j < |index| && Offset(index, open, j) <= k < Offset(index, open, j) + |open(index[j].handle)|
    decreases |index| - from
  {
    assert index[..|index|] == index;
    OffsetSnoc(index, open, from);
    if k < Offset(index, open, from + 1) {
      j := from;
    } else {
      j := FindBlock(index, open, from + 1, k);
    }
  }

  lemma NoBlocks(index: seq<IndexEntry>, open: BlockFunction)
    ensures Offset(index, open, 0) == 0
  {
    assert index[..0] == [];
  }

  class TwoLevelIterator {
    const open: BlockFunction
    var indexIter: Cursor<IndexEntry>
    var data: Option<Cursor<Entry>>
    /** The handle data was opened with. */
    var dataHandle: nat

    /** Between operations the iterator has a block open only while it is on an entry of it. */
    ghost predicate Valid()
      reads this
    {
      && Opened()
      && (data.Some? ==> indexIter.Valid() && dataHandle == indexIter.Item().handle && data.value.Valid())
    }

    ghost predicate Opened()
      reads this
    {
      data.Some? ==> data.value.items == open(dataHandle)
    }

    ghost function All(): seq<Entry>
      reads this
    {
      Blocks(indexIter.items, open)
    }

    /** The cursor this iterator amounts to. */
    ghost function Abs(): (a: Cursor<Entry>)
      reads this
      requires Valid()
      ensures data.Some? <==> a.Valid()
      ensures data.Some? ==> a.Item() == data.value.Item()
    {
      if data.None? then Cursor(All(), None)
      else
        EntryAt(indexIter.items, open, indexIter.at.value, data.value.at.value);
        Cursor(All(), None).ToIndex(Offset(indexIter.items, open, indexIter.at.value) + data.value.at.value)
    }

    constructor (index: seq<IndexEntry>, open: BlockFunction)
      ensures Valid() && Abs() == Cursor(Blocks(index, open), None)
    {
      this.open := open;
      indexIter, data, dataHandle := Cursor(index, None), None, 0;
    }

    method InitDataBlock()
      requires Opened()
      modifies this
      ensures Opened() && indexIter == old(indexIter)
      ensures data.Some? <==> indexIter.Valid()
      ensures data.Some? ==> dataHandle == indexIter.Item().handle
    {
      if !indexIter.Valid() {
        data := None;
      } else {
        var handle := indexIter.Item().handle;
        if data.Some? && handle == dataHandle {
        } else {
          data, dataHandle := Some(Cursor(open(handle), None)), handle;
        }
      }
    }

    /** Where a forward scan stands: on an entry, at the end of a block, or at the end of everything. */
    ghost predicate Ahead(p: nat)
      reads this
    {
      && Opened() && (data.Some? <==> indexIter.Valid())
      && (data.Some? ==> dataHandle == indexIter.Item().handle)
      && p == (if data.None? then |All()|
               else if data.value.Valid() then Offset(indexIter.items, open, indexIter.at.value) + data.value.at.value
               else Offset(indexIter.items, open, indexIter.at.value + 1))
    }

    method SkipEmptyDataBlocksForward(ghost p: nat)
      requires Ahead(p)
      modifies this
      ensures Valid() && All() == old(All()) && Abs() == Cursor(All(), None).ToIndex(p)
    {
      hide Blocks, LowerBound, IndexBound, Separated;
      while data.None? || !data.value.Valid()
        invariant Ahead(p) && indexIter.items == old(indexIter.items)
        decreases if indexIter.Valid() then |indexIter.items| - indexIter.at.value else 0
      {
        if !indexIter.Valid() {
          data := None;
          return;
        }
        ghost var i := indexIter.at.value;
        indexIter := indexIter.Next();
        InitDataBlock();
        if data.Some? {
          data := Some(data.value.First());
          OffsetSnoc(indexIter.items, open, i + 1);
        } else {
          assert indexIter.items[..i + 1] == indexIter.items;
        }
      }
      EntryAt(indexIter.items, open, indexIter.at.value, data.value.at.value);
    }

    ghost predicate Behind(p: int)
      reads this
    {
      && Opened() && (data.Some? <==> indexIter.Valid())
      && (data.Some? ==> dataHandle == indexIter.Item().handle)
      && p == (if data.None? then -1
               else if data.value.Valid() then Offset(indexIter.items, open, indexIter.at.value) + data.value.at.value
               else Offset(indexIter.items, open, indexIter.at.value) - 1)
    }

    method SkipEmptyDataBlocksBackward(ghost p: int)
      requires Behind(p)
      modifies this
      ensures Valid() && All() == old(All()) && Abs() == Cursor(All(), None).ToIndex(p)
    {
      hide Blocks, LowerBound, IndexBound, Separated;
      while data.None? || !data.value.Valid()
        invariant Behind(p) && indexIter.items == old(indexIter.items)
        decreases if indexIter.Valid() then indexIter.at.value + 1 else 0
      {
        if !indexIter.Valid() {
          data := None;
          return;
        }
        ghost var i := indexIter.at.value;
        indexIter := indexIter.Prev();
        InitDataBlock();
        if data.Some? {
          data := Some(data.value.Last());
          OffsetSnoc(indexIter.items, open, i - 1);
        } else {
          NoBlocks(indexIter.items, open);
        }
      }
      EntryAt(indexIter.items, open, indexIter.at.value, data.value.at.value);
    }

    method Seek(target: IKey)
      requires Valid() && Separated(indexIter.items, open)
      modifies this
      ensures Valid() && Abs() == SeekEntry(old(Abs()), target)
    {
      hide Blocks, LowerBound, IndexBound, Separated;
      SeekThrough(indexIter.items, open, target);
      indexIter := indexIter.ToIndex(IndexBound(indexIter.items, target));
      InitDataBlock();
      if data.Some? {
        data := Some(SeekEntry(data.value, target));
        OffsetSnoc(indexIter.items, open, indexIter.at.value);
      }
      SkipEmptyDataBlocksForward(LowerBound(All(), target));
    }

    method SeekToFirst()
      requires Valid()
      modifies this
      ensures Valid() && Abs() == old(Abs()).First()
    {
      hide Blocks, LowerBound, IndexBound, Separated;
      indexIter := indexIter.First();
      InitDataBlock();
      NoBlocks(indexIter.items, open);
      if data.Some? {
        data := Some(data.value.First());
        OffsetSnoc(indexIter.items, open, 0);
      }
      SkipEmptyDataBlocksForward(0);
    }

    method SeekToLast()
      requires Valid()
      modifies this
      ensures Valid() && Abs() == old(Abs()).Last()
    {
      hide Blocks, LowerBound, IndexBound, Separated;
      ghost var n := |indexIter.items|;
      indexIter := indexIter.Last();
      InitDataBlock();
      if data.Some? {
        data := Some(data.value.Last());
        OffsetSnoc(indexIter.items, open, n - 1);
      }
      NoBlocks(indexIter.items, open);
      assert indexIter.items[..n] == indexIter.items;
      SkipEmptyDataBlocksBackward(|All()| - 1);
    }

    method Next()
      requires Valid() && data.Some?
      modifies this
      ensures Valid() && Abs() == old(Abs()).Next()
    {
      hide Blocks, LowerBound, IndexBound, Separated;
      EntryAt(indexIter.items, open, indexIter.at.value, data.value.at.value);
      OffsetSnoc(indexIter.items, open, indexIter.at.value);
      ghost var p := Abs().at.value + 1;
      data := Some(data.value.Next());
      SkipEmptyDataBlocksForward(p);
    }

    method Prev()
      requires Valid() && data.Some?
      modifies this
      ensures Valid() && Abs() == old(Abs()).Prev()
    {
      hide Blocks, LowerBound, IndexBound, Separated;
      EntryAt(indexIter.items, open, indexIter.at.value, data.value.at.value);
      ghost var p := Abs().at.value - 1;
      data := Some(data.value.Prev());
      SkipEmptyDataBlocksBackward(p);
    }
  }

  // ---- The concatenating iterator of a level ------------------------------------------------------------------

  /** The index LevelFileNumIterator presents: each file's largest key, and its position. */
  function LevelIndex(files: seq<File>): seq<IndexEntry> {
    seq(|files|, i requires 0 <= i < |files| => IndexEntry(files[i].largest, i))
  }

  function OpenFile(files: seq<File>): BlockFunction {
    (i: nat) => if i < |files| then files[i].entries else []
  }

  lemma ConcatLast(files: seq<File>, f: File)
    ensures Concat(files + [f]) == Concat(files) + f.entries
  {
    if files == [] {
      assert files + [f] == [f] && [f][1..] == [];
    } else {
      assert (files + [f])[1..] == files[1..] + [f];
      ConcatLast(files[1..], f);
    }
  }

  lemma {:induction false} LevelBlocks(files: seq<File>, n: nat)
    requires n <= |files|
    ensures Blocks(LevelIndex(files)[..n], OpenFile(files)) == Concat(files[..n])
  {
    if n > 0 {
      LevelBlocks(files, n - 1);
      OffsetSnoc(LevelIndex(files), OpenFile(files), n - 1);
      ConcatLast(files[..n - 1], files[n - 1]);
      assert files[..n] == files[..n - 1] + [files[n - 1]];
    }
  }

  /** Over a sorted level the iterator's list is the level's entries in order, and its index separates the files. */
  lemma LevelConcatenates(files: seq<File>)
    requires SortedApart(files)
    ensures Blocks(LevelIndex(files), OpenFile(files)) == Concat(files)
    ensures Separated(LevelIndex(files), OpenFile(files))
  {
    LevelBlocks(files, |files|);
    assert files[..|files|] == files && LevelIndex(files)[..|files|] == LevelIndex(files);
    forall i, e | 0 <= i < |files| && e in files[i].entries
      ensures AtMost(e.key, files[i].largest) && AtMost(files[i].smallest, e.key)
    {
      assert files[i] in files;
      FileBounds(files[i], e);
    }
    forall i | 0 <= i < |files| ensures Sorted(files[i].entries) {
      assert files[i] in files;
    }
  }
}
