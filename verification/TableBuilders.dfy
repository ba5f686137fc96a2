/** Writing a table (TableBuilder): sorted blocks, filters, an index with an entry for each block, a footer. */
module TableBuilders {
  import opened InternalKeys
  import opened Coding
  import opened Comparators
  import opened Blocks
  import opened BlockBuilders
  import opened BlockIterators
  import opened FilterBlocks
  import opened TableFormats
  import opened Tables

  /** Filters are looked up under "filter." and the policy's name. */
  const FILTER_PREFIX: Bytes := [102, 105, 108, 116, 101, 114, 46]

  datatype Options = Options(blockSize: nat, interval: nat, crc: Checksum, policy: Option<Policy>, policyName: Bytes)

  predicate OptionsOk(o: Options) {
    o.interval >= 1 && (o.policy.Some? ==> PolicyOk(o.policy.value))
  }

  /** What has been written: data blocks, where they are, and their separators. */
  datatype Parts = Parts(blocks: seq<Layout>, handles: seq<Handle>, seps: seq<Bytes>)

  const NO_PARTS: Parts := Parts([], [], [])

  /** Internal keys end with an eight-byte tag. */
  predicate Tagged(p: Pair) { |p.key| >= 8 }

  /** The pairs of each block, the one being filled last. */
  function ListsOf(blocks: seq<Layout>, open: seq<Pair>): Lists {
    seq(|blocks|, i requires 0 <= i < |blocks| => blocks[i].pairs) + if open == [] then [] else [open]
  }

  function Added(blocks: seq<Layout>, open: seq<Pair>): seq<Pair> { Joined(ListsOf(blocks, open)) }

  function IndexPairs(t: Parts): seq<Pair>
    requires |t.seps| <= |t.handles|
  {
    seq(|t.seps|, i requires 0 <= i < |t.seps| => Pair(t.seps[i], HandleBytes(t.handles[i])))
  }

  ghost predicate StoredAs(file: Bytes, crc: Checksum, h: Handle, l: Layout) {
    LayoutOk(l) && BlockAt(file, crc, h, BlockBytes(l))
  }

  ghost predicate Stored(file: Bytes, crc: Checksum, t: Parts) {
    && |t.handles| == |t.blocks|
    && forall i :: 0 <= i < |t.blocks| ==> StoredAs(file, crc, t.handles[i], t.blocks[i])
  }

  /** An index entry is pending exactly when blocks are finished and no new one is begun. */
  ghost predicate Shape(t: Parts, open: seq<Pair>, pending: bool) {
    && |t.handles| == |t.blocks| == |t.seps| + (if pending then 1 else 0)
    && (pending ==> open == []) && (open == [] && !pending ==> t.blocks == [])
    && Separated(ListsOf(t.blocks, open), t.seps)
    && forall i :: 0 <= i < |Added(t.blocks, open)| ==> Tagged(Added(t.blocks, open)[i])
  }

  // ---- Growing -------------------------------------------------------------------------------------------------

  lemma AscendSnoc(pairs: seq<Pair>, p: Pair)
    requires KeysAscend(pairs, InternalLess) && (pairs != [] ==> InternalLess(LastKey(pairs), p.key))
    ensures KeysAscend(pairs + [p], InternalLess)
  {
    hide InternalLess;
    var n := |pairs|;
    forall i | 0 <= i < n ensures InternalLess(pairs[i].key, p.key) {
      if i + 1 < n {
        InternalOrder(pairs[i].key, pairs[n - 1].key, p.key);
      }
    }
  }

  lemma LastOfAll(blocks: Lists)
    requires blocks != [] && blocks[|blocks| - 1] != []
    ensures Joined(blocks) != [] && LastKey(Joined(blocks)) == LastKey(blocks[|blocks| - 1])
  {
  }

  lemma SameLast(k: Bytes)
    ensures !InternalLess(k, k)
  {
    InternalOrder(k, k, k);
  }

  lemma NotBefore(sep: Bytes, last: Bytes)
    requires sep == last || Comparators.Less(UserOf(last), UserOf(sep))
    ensures !InternalLess(sep, last)
  {
    hide Comparators.Less, UserOf;
    SameLast(last);
    LessOrder(UserOf(last), UserOf(sep), UserOf(last));
  }

  lemma SeparatorNotBefore(sep: Bytes, last: Bytes, first: Bytes)
    requires Separates(sep, last, first)
    ensures !InternalLess(sep, last)
  {
    hide InternalLess, Comparators.Less, UserOf;
    NotBefore(sep, last);
  }

  /** A separator, and the first pair of the next block. */
  lemma SeparatedNew(bs: Lists, seps: seq<Bytes>, sep: Bytes, p: Pair)
    requires Separated(bs, seps) && |bs| == |seps| + 1 && InternalLess(LastKey(bs[|bs| - 1]), p.key)
    requires Separates(sep, LastKey(bs[|bs| - 1]), p.key)
    ensures Separated(bs + [[p]], seps + [sep]) && Joined(bs + [[p]]) == Joined(bs) + [p]
  {
    hide KeysAscend, Joined, InternalLess, Separates;
    SeparatorNotBefore(sep, LastKey(bs[|bs| - 1]), p.key);
    LastOfAll(bs);
    AscendSnoc(Joined(bs), p);
    JoinedSnoc(bs, [p]);
    OneMoreSeparator(bs, seps, bs + [[p]], seps + [sep]);
  }

  lemma OneMoreSeparator(bs: Lists, seps: seq<Bytes>, bs': Lists, seps': seq<Bytes>)
    requires Separated(bs, seps) && |bs| == |seps| + 1 == |seps'| && |bs'| == |bs| + 1
    requires (forall i {:trigger bs'[i]} :: 0 <= i < |bs| ==> bs'[i] == bs[i]) && bs'[|bs|] != []
    requires forall i {:trigger seps'[i]} :: 0 <= i < |seps| ==> seps'[i] == seps[i]
    requires KeysAscend(Joined(bs'), InternalLess) && !InternalLess(seps'[|seps|], LastKey(bs[|seps|]))
    requires Separates(seps'[|seps|], LastKey(bs[|seps|]), bs'[|bs|][0].key)
    ensures Separated(bs', seps')
  {
    hide KeysAscend, Joined, InternalLess, Separates;
  }

  /** The block being filled takes another pair. */
  lemma SeparatedLonger(bs: Lists, open: seq<Pair>, seps: seq<Bytes>, p: Pair)
    requires Separated(bs + [open], seps) && |bs| == |seps| && InternalLess(LastKey(open), p.key)
    requires open != []
    ensures Separated(bs + [open + [p]], seps) && Joined(bs + [open + [p]]) == Joined(bs + [open]) + [p]
  {
    hide KeysAscend, Joined, InternalLess, Separates;
    var now, then' := bs + [open], bs + [open + [p]];
    LastOfAll(now);
    AscendSnoc(Joined(now), p);
    JoinedSnoc(bs, open);
    JoinedSnoc(bs, open + [p]);
    assert Joined(bs) + (open + [p]) == Joined(bs) + open + [p];
    forall i | 0 <= i < |then'|
      ensures then'[i] != [] && now[i] != [] && (i < |bs| ==> then'[i] == now[i]) && then'[i][0] == now[i][0]
    {
      assert now[i] != [];
      assert i < |bs| || (now[i] == open && then'[i] == open + [p]);
    }
  }

  lemma SeparatedFirst(p: Pair)
    ensures Separated([[p]], []) && Joined([[p]]) == [p]
  {
    var bs: Lists := [];
    JoinedSnoc(bs, [p]);
    assert bs + [[p]] == [[p]];
  }

  /** The index entry that is due when p is added. */
  function Indexed(t: Parts, pending: bool, sep: Bytes): Parts {
    if pending then t.(seps := t.seps + [sep]) else t
  }

  lemma ListsFacts(blocks: seq<Layout>, open: seq<Pair>, p: Pair)
    ensures ListsOf(blocks, open + [p]) == ListsOf(blocks, []) + [open + [p]]
    ensures open != [] ==> ListsOf(blocks, open) == ListsOf(blocks, []) + [open]
    ensures |ListsOf(blocks, [])| == |blocks|
  {
  }

  lemma AddedEnd(blocks: seq<Layout>, open: seq<Pair>)
    requires forall i :: 0 <= i < |ListsOf(blocks, open)| ==> ListsOf(blocks, open)[i] != []
    ensures Added(blocks, open) == [] <==> ListsOf(blocks, open) == []
    ensures var lists := ListsOf(blocks, open); lists != [] ==> LastKey(Added(blocks, open)) == LastKey(lists[|lists| - 1])
  {
    if ListsOf(blocks, open) != [] {
      LastOfAll(ListsOf(blocks, open));
    }
  }

  lemma AddPair(t: Parts, open: seq<Pair>, pending: bool, sep: Bytes, p: Pair)
    requires Shape(t, open, pending) && Tagged(p)
    requires var all := Added(t.blocks, open);
             all != [] ==> InternalLess(LastKey(all), p.key) && (pending ==> Separates(sep, LastKey(all), p.key))
    ensures Shape(Indexed(t, pending, sep), open + [p], false)
    ensures Added(t.blocks, open + [p]) == Added(t.blocks, open) + [p]
  {
    hide InternalLess, Separates, Joined, KeysAscend;
    ListsFacts(t.blocks, open, p);
    AddedEnd(t.blocks, open);
    var bs := ListsOf(t.blocks, []);
    if pending {
      SeparatedNew(bs, t.seps, sep, p);
      assert open + [p] == [p];
    } else if t.blocks == [] && open == [] {
      SeparatedFirst(p);
      assert open + [p] == [p] && t.seps == [];
      assert bs + [open + [p]] == [[p]];
      assert Added(t.blocks, open) == [];
      assert ListsOf(t.blocks, open + [p]) == [[p]];
      assert Separated(ListsOf(t.blocks, open + [p]), t.seps);
      assert Added(t.blocks, open + [p]) == [p];
    } else {
      SeparatedLonger(bs, open, t.seps, p);
    }
  }

  function Closed(t: Parts, l: Layout, h: Handle): Parts {
    Parts(t.blocks + [l], t.handles + [h], t.seps)
  }

  /** Finishing a block changes nothing of what was added. */
  lemma CloseBlock(t: Parts, l: Layout, h: Handle)
    requires Shape(t, l.pairs, false) && l.pairs != []
    ensures Shape(Closed(t, l, h), [], true) && Added(Closed(t, l, h).blocks, []) == Added(t.blocks, l.pairs)
  {
    hide Separated, Joined;
    var t' := Closed(t, l, h);
    assert ListsOf(t'.blocks, []) == ListsOf(t.blocks, l.pairs);
    assert Added(t'.blocks, []) == Added(t.blocks, l.pairs);
    assert t'.blocks != [];
    assert Separated(ListsOf(t'.blocks, []), t'.seps);
    forall i | 0 <= i < |Added(t'.blocks, [])| ensures Tagged(Added(t'.blocks, [])[i]) {
      assert Tagged(Added(t.blocks, l.pairs)[i]);
    }
  }

  /** The last index entry. */
  lemma LastEntry(t: Parts, sep: Bytes)
    requires Shape(t, [], true) && var all := Added(t.blocks, []);
             all != [] ==> sep == LastKey(all) || Comparators.Less(UserOf(LastKey(all)), UserOf(sep))
    ensures Separated(ListsOf(t.blocks, []), t.seps + [sep])
  {
    hide KeysAscend, Joined, Comparators.Less, UserOf, InternalLess;
    var bs := ListsOf(t.blocks, []);
    AddedEnd(t.blocks, []);
    NotBefore(sep, LastKey(bs[|bs| - 1]));
  }

  lemma StoredStays(file: Bytes, crc: Checksum, t: Parts, file': Bytes)
    requires Stored(file, crc, t) && file <= file'
    ensures Stored(file', crc, t)
  {
    hide LayoutOk, BlockAt;
    forall i | 0 <= i < |t.blocks| ensures StoredAs(file', crc, t.handles[i], t.blocks[i]) {
      assert StoredAs(file, crc, t.handles[i], t.blocks[i]);
      BlockStays(file, crc, t.handles[i], BlockBytes(t.blocks[i]), file');
    }
  }

  // ---- Filters -------------------------------------------------------------------------------------------------

  /** A key of a block at this offset is in the filter of its range, or waiting for it. */
  predicate Filed(key: Bytes, offset: nat, covered: seq<seq<Bytes>>, pending: seq<Bytes>) {
    var x := offset / BASE;
    (x < |covered| && key in covered[x]) || (x == |covered| && key in pending)
  }

  ghost predicate BlocksFiled(t: Parts, covered: seq<seq<Bytes>>, pending: seq<Bytes>) {
    && |t.handles| == |t.blocks|
    && forall i, m :: 0 <= i < |t.blocks| && 0 <= m < |t.blocks[i].pairs|
                      ==> Filed(t.blocks[i].pairs[m].key, t.handles[i].offset, covered, pending)
  }

  ghost predicate AllFiled(t: Parts, open: seq<Pair>, covered: seq<seq<Bytes>>, pending: seq<Bytes>, offset: nat) {
    && |covered| == offset / BASE && BlocksFiled(t, covered, pending)
    && forall m :: 0 <= m < |open| ==> open[m].key in pending
  }

  lemma FiledAdd(t: Parts, t': Parts, open: seq<Pair>, covered: seq<seq<Bytes>>, pending: seq<Bytes>, offset: nat, p: Pair)
    requires AllFiled(t, open, covered, pending, offset) && t'.blocks == t.blocks && t'.handles == t.handles
    ensures AllFiled(t', open + [p], covered, pending + [p.key], offset)
  {
    forall i, m | 0 <= i < |t.blocks| && 0 <= m < |t.blocks[i].pairs|
      ensures Filed(t.blocks[i].pairs[m].key, t.handles[i].offset, covered, pending + [p.key])
    {
      assert Filed(t.blocks[i].pairs[m].key, t.handles[i].offset, covered, pending);
    }
  }

  /** Either still in the same range, or the pending keys became the filter of the range they belong to. */
  predicate Advanced(covered: seq<seq<Bytes>>, pending: seq<Bytes>, covered': seq<seq<Bytes>>, pending': seq<Bytes>) {
    (covered' == covered && pending' == pending) || (pending' == [] && covered + [pending] <= covered')
  }

  lemma StillFiled(key: Bytes, offset: nat, covered: seq<seq<Bytes>>, pending: seq<Bytes>,
                   covered': seq<seq<Bytes>>, pending': seq<Bytes>)
    requires Filed(key, offset, covered, pending) && Advanced(covered, pending, covered', pending')
    ensures Filed(key, offset, covered', pending')
  {
    if covered + [pending] <= covered' {
      assert covered' == (covered + [pending]) + covered'[|covered| + 1..];
      assert covered'[|covered|] == pending && forall x :: 0 <= x < |covered| ==> covered'[x] == covered[x];
    }
  }

  lemma FiledClose(t: Parts, l: Layout, h: Handle, covered: seq<seq<Bytes>>, pending: seq<Bytes>,
                   covered': seq<seq<Bytes>>, pending': seq<Bytes>, offset': nat)
    requires AllFiled(t, l.pairs, covered, pending, h.offset) && |covered'| == offset' / BASE
    requires Advanced(covered, pending, covered', pending')
    ensures AllFiled(Closed(t, l, h), [], covered', pending', offset')
  {
    var t' := Closed(t, l, h);
    forall i, m | 0 <= i < |t'.blocks| && 0 <= m < |t'.blocks[i].pairs|
      ensures Filed(t'.blocks[i].pairs[m].key, t'.handles[i].offset, covered', pending')
    {
      StillFiled(t'.blocks[i].pairs[m].key, t'.handles[i].offset, covered, pending, covered', pending');
    }
  }

  /** Finishing the filters leaves no key waiting. */
  lemma FiledEnd(t: Parts, covered: seq<seq<Bytes>>, pending: seq<Bytes>, covered': seq<seq<Bytes>>)
    requires BlocksFiled(t, covered, pending)
    requires covered' == if pending == [] then covered else covered + [pending]
    ensures BlocksFiled(t, covered', [])
  {
    forall i, m | 0 <= i < |t.blocks| && 0 <= m < |t.blocks[i].pairs|
      ensures Filed(t.blocks[i].pairs[m].key, t.handles[i].offset, covered', [])
    {
      StillFiled(t.blocks[i].pairs[m].key, t.handles[i].offset, covered, pending, covered', []);
    }
  }

  // ---- The finished file ---------------------------------------------------------------------------------------

  datatype Filters = Filters(handle: Handle, filters: seq<Bytes>, covered: seq<seq<Bytes>>)

  datatype Image = Image(parts: Parts, index: Layout, indexHandle: Handle, meta: Layout, metaHandle: Handle,
                         filters: Option<Filters>)

  ghost predicate FiltersOk(file: Bytes, crc: Checksum, p: Policy, t: Parts, f: Filters) {
    && BlockAt(file, crc, f.handle, FilterBlock(f.filters)) && |f.covered| == |f.filters|
    && (forall i :: 0 <= i < |f.filters| ==> FilterFor(p, f.filters[i], f.covered[i]))
    && BlocksFiled(t, f.covered, [])
  }

  function MetaPairs(name: Bytes, filters: Option<Filters>): seq<Pair> {
    if filters.None? then [] else [Pair(FILTER_PREFIX + name, HandleBytes(filters.value.handle))]
  }

  /** A complete table of the pairs all. */
  ghost predicate TableFile(file: Bytes, o: Options, t: Image, all: seq<Pair>) {
    && Stored(file, o.crc, t.parts) && |t.parts.seps| == |t.parts.blocks|
    && Separated(ListsOf(t.parts.blocks, []), t.parts.seps) && all == Added(t.parts.blocks, [])
    && (forall i :: 0 <= i < |all| ==> Tagged(all[i]))
    && StoredAs(file, o.crc, t.indexHandle, t.index) && t.index.pairs == IndexPairs(t.parts)
    && StoredAs(file, o.crc, t.metaHandle, t.meta) && t.meta.pairs == MetaPairs(o.policyName, t.filters)
    && (t.filters.Some? <==> o.policy.Some?)
    && (t.filters.Some? ==> FiltersOk(file, o.crc, o.policy.value, t.parts, t.filters.value))
    && EndsWith(file, FooterBytes(Footer(t.metaHandle, t.indexHandle)))
  }

  predicate EndsWith(file: Bytes, end: Bytes) {
    |end| <= |file| && file[|file| - |end|..] == end
  }

  /** Where a block ends: one that has reached the block size is finished, a smaller one goes on. */
  ghost predicate CutAsDue(o: Options, before: Parts, grown: Layout, after: Parts, open: Layout) {
    && LayoutOk(grown)
    && if |BlockBytes(grown)| < o.blockSize then after.blocks == before.blocks && open == grown
       else after.blocks == before.blocks + [grown] && open == EMPTY
  }

  lemma CutDue(o: Options, before: Parts, grown: Layout, after: Parts, open: Layout)
    requires LayoutOk(grown)
    requires if |BlockBytes(grown)| < o.blockSize then after.blocks == before.blocks && open == grown
             else after.blocks == before.blocks + [grown] && open == EMPTY
    ensures CutAsDue(o, before, grown, after, open)
  {
    hide LayoutOk;
  }

  // ---- The builder ---------------------------------------------------------------------------------------------

  class TableBuilder {
    const o: Options
    const dataBlock: BlockBuilder
    const indexBlock: BlockBuilder
    const filterBlock: FilterBlockBuilder?
    var file: Bytes
    var offset: nat
    var lastKey: Bytes
    var numEntries: nat
    var closed: bool
    var pendingIndexEntry: bool
    var pendingHandle: Handle
    ghost var parts: Parts

    ghost predicate Valid()
      reads this, dataBlock, indexBlock, filterBlock
    {
      && OptionsOk(o) && dataBlock != indexBlock && dataBlock.Valid() && indexBlock.Valid()
      && offset == |file| && Stored(file, o.crc, parts)
      && (filterBlock == null <==> o.policy.None?)
      && (filterBlock != null ==> filterBlock.Valid() && filterBlock.policy == o.policy.value)
      && (!closed ==> Open())
    }

    ghost predicate Open()
      reads this, dataBlock, indexBlock, filterBlock
    {
      && !dataBlock.finished && !indexBlock.finished
      && Shape(parts, dataBlock.layout.pairs, pendingIndexEntry)
      && indexBlock.layout.pairs == IndexPairs(parts)
      && (pendingIndexEntry ==> parts.handles != [] && pendingHandle == parts.handles[|parts.handles| - 1])
      && numEntries == |Contents()| && (Contents() != [] ==> lastKey == LastKey(Contents()))
      && (filterBlock != null ==>
            AllFiled(parts, dataBlock.layout.pairs, filterBlock.covered, filterBlock.pending, offset))
    }

    /** The pairs added so far. */
    ghost function Contents(): seq<Pair>
      reads this, dataBlock
    {
      Added(parts.blocks, dataBlock.layout.pairs)
    }

    constructor (o: Options)
      requires OptionsOk(o)
      ensures Valid() && !closed && Contents() == [] && this.o == o
      ensures fresh(dataBlock) && fresh(indexBlock) && (filterBlock != null ==> fresh(filterBlock))
    {
      hide Shape, Added, Joined, Stored, AllFiled, BlockBuilder.Valid, FilterBlockBuilder.Valid, BlocksFiled;
      this.o := o;
      var data := new BlockBuilder(o.interval);
      var index := new BlockBuilder(1);
      dataBlock, indexBlock := data, index;
      file, offset, lastKey, numEntries, closed, pendingIndexEntry := [], 0, [], 0, false, false;
      pendingHandle, parts := Handle(0, 0), NO_PARTS;
      var filter: FilterBlockBuilder? := null;
      if o.policy.Some? {
        filter := new FilterBlockBuilder(o.policy.value);
        filter.StartBlock(0);
      }
      filterBlock := filter;
      new;
      NothingYet();
    }

    /** Keys come in increasing order, each with its tag. The block they go to is finished when it has reached its size. */
    method Add(p: Pair)
      requires Valid() && !closed && Tagged(p) && (numEntries > 0 ==> InternalLess(lastKey, p.key))
      modifies this, dataBlock, indexBlock, filterBlock
      ensures Valid() && !closed && Contents() == old(Contents()) + [p]
      ensures lastKey == p.key && numEntries == old(numEntries) + 1
      ensures parts.seps == old(parts.seps) + if old(pendingIndexEntry) then [SeparatorKey(old(lastKey), p.key)] else []
      ensures CutAsDue(o, old(parts), old(dataBlock.With(p)), parts, dataBlock.layout)
    {
      hide Shape, Added, Joined, InternalLess, Separates, Stored, AllFiled, BlockBuilder.Valid, FilterBlockBuilder.Valid, LayoutOk,
           BlockBuilder.With, CutAsDue, SeparatorKey;
      ghost var was := parts;
      Enter(p);
      dataBlock.SizeIsExact();
      ghost var grown := dataBlock.layout;
      if dataBlock.CurrentSizeEstimate() >= o.blockSize {
        Flush();
      }
      CutDue(o, was, grown, parts, dataBlock.layout);
    }

    /** The pair goes to the open block and to the filters; the block before it gets its index entry first. */
    method Enter(p: Pair)
      requires Valid() && !closed && Tagged(p) && (numEntries > 0 ==> InternalLess(lastKey, p.key))
      modifies this, dataBlock, indexBlock, filterBlock
      ensures Valid() && !closed && Contents() == old(Contents()) + [p]
      ensures lastKey == p.key && numEntries == old(numEntries) + 1
      ensures parts.seps == old(parts.seps) + if old(pendingIndexEntry) then [SeparatorKey(old(lastKey), p.key)] else []
      ensures parts.blocks == old(parts.blocks) && dataBlock.layout == old(dataBlock.With(p)) && dataBlock.layout.pairs != []
    {
      hide Shape, Added, Joined, InternalLess, Separates, Stored, AllFiled, BlockBuilder.Valid, FilterBlockBuilder.Valid, LayoutOk,
           BlockBuilder.With, SeparatorKey;
      ghost var pending, open := pendingIndexEntry, dataBlock.layout.pairs;
      ghost var all, sep, was := Contents(), lastKey, parts;
      ShapeFacts(parts, open, pending);
      if pendingIndexEntry {
        lastKey := InternalSeparator(lastKey, p.key);
        sep := lastKey;
        SeparatorStands(sep, LastKey(all), p.key);
        AddIndexEntry();
      }
      if filterBlock != null {
        FiledAdd(was, parts, open, filterBlock.covered, filterBlock.pending, offset, p);
        filterBlock.AddKey(p.key);
      }
      StoredIndexed(file, o.crc, was, pending, sep);
      AddPair(was, open, pending, sep, p);
      lastKey := p.key;
      numEntries := numEntries + 1;
      dataBlock.Add(p);
    }

    /** The entry for the last finished block, under lastKey as its separator. */
    method AddIndexEntry()
      requires indexBlock.Valid() && !indexBlock.finished && |parts.seps| + 1 == |parts.handles|
      requires indexBlock.layout.pairs == IndexPairs(parts) && pendingHandle == parts.handles[|parts.handles| - 1]
      modifies this`pendingIndexEntry, this`parts, indexBlock
      ensures indexBlock.Valid() && !indexBlock.finished && !pendingIndexEntry
      ensures parts == old(Indexed(parts, true, lastKey)) && indexBlock.layout.pairs == IndexPairs(parts)
    {
      hide BlockBuilder.Valid;
      indexBlock.Add(Pair(lastKey, HandleBytes(pendingHandle)));
      IndexSnoc(parts, lastKey);
      parts := Indexed(parts, true, lastKey);
      pendingIndexEntry := false;
    }

    method Flush()
      requires Valid() && !closed
      modifies this, dataBlock, filterBlock
      ensures Valid() && !closed && Contents() == old(Contents()) && dataBlock.layout.pairs == []
      ensures lastKey == old(lastKey) && numEntries == old(numEntries) && parts.seps == old(parts.seps)
      ensures old(dataBlock.layout.pairs) == [] ==> parts == old(parts) && dataBlock.layout == old(dataBlock.layout)
      ensures old(dataBlock.layout.pairs) != []
              ==> parts.blocks == old(parts.blocks) + [old(dataBlock.layout)] && dataBlock.layout == EMPTY
    {
      hide Shape, Added, Joined, Stored, AllFiled, BlockBuilder.Valid, FilterBlockBuilder.Valid;
      dataBlock.SizeIsExact();
      if dataBlock.Empty() {
        return;
      }
      ghost var layout, was := dataBlock.layout, parts;
      ShapeFacts(parts, layout.pairs, pendingIndexEntry);
      pendingHandle := WriteBlock(dataBlock);
      pendingIndexEntry := true;
      ghost var h := pendingHandle;
      parts := Closed(parts, layout, h);
      StoredClosed(old(file), file, o.crc, was, layout, h);
      CloseBlock(was, layout, h);
      if filterBlock != null {
        ghost var covered, pending := filterBlock.covered, filterBlock.pending;
        NextRange(was, layout.pairs, covered, pending, h.offset, offset);
        filterBlock.StartBlock(offset);
        FiledClose(was, layout, h, covered, pending, filterBlock.covered, filterBlock.pending, offset);
      }
    }

    /** The finished block goes to the end of the file, and the builder starts another. */
    method WriteBlock(block: BlockBuilder) returns (h: Handle)
      requires block.Valid() && !block.finished && offset == |file|
      modifies this`file, this`offset, block
      ensures block.Valid() && !block.finished && block.layout == EMPTY
      ensures offset == |file| && old(file) <= file && h.offset == old(offset)
      ensures StoredAs(file, o.crc, h, old(block.layout))
    {
      hide LayoutOk, BlockAt, BlockBuilder.Valid;
      var raw := block.Finish();
      h := WriteRawBlock(raw);
      block.Reset();
    }

    method WriteRawBlock(contents: Bytes) returns (h: Handle)
      requires offset == |file|
      modifies this`file, this`offset
      ensures offset == |file| && old(file) <= file && h.offset == old(offset)
      ensures BlockAt(file, o.crc, h, contents)
    {
      h := Handle(offset, |contents|);
      BlockAppended(file, o.crc, contents);
      file := file + contents;
      file := file + Trailer(o.crc, contents);
      offset := offset + |contents| + TRAILER;
    }

    /** The filter block, and the metaindex block that names it. */
    method WriteMeta() returns (metaHandle: Handle, ghost meta: Layout, ghost filters: Option<Filters>, ghost f1: Bytes)
      requires Valid() && closed
      requires filterBlock != null ==> BlocksFiled(parts, filterBlock.covered, filterBlock.pending)
      modifies this`file, this`offset, filterBlock
      ensures offset == |file| && old(file) <= f1 <= file
      ensures StoredAs(file, o.crc, metaHandle, meta) && meta.pairs == MetaPairs(o.policyName, filters)
      ensures filters.Some? <==> o.policy.Some?
      ensures filters.Some? ==> FiltersOk(f1, o.crc, o.policy.value, parts, filters.value)
    {
      hide BlockBuilder.Valid, Stored, BlocksFiled, StoredAs, LayoutOk, BlockAt, FilterFor, FilterBlock, Shape, AllFiled;
      filters := None;
      var metaIndexBlock := new BlockBuilder(o.interval);
      if filterBlock != null {
        ghost var covered, waiting := filterBlock.covered, filterBlock.pending;
        var contents := filterBlock.Finish();
        FiledEnd(parts, covered, waiting, filterBlock.covered);
        var filterHandle := WriteRawBlock(contents);
        filters := Some(Filters(filterHandle, filterBlock.filters, filterBlock.covered));
        metaIndexBlock.Add(Pair(FILTER_PREFIX + o.policyName, HandleBytes(filterHandle)));
      }
      f1, meta := file, metaIndexBlock.layout;
      metaHandle := WriteBlock(metaIndexBlock);
    }

    /** The last index entry, if it is due, and the index block. */
    method WriteIndex() returns (indexHandle: Handle, ghost index: Layout, ghost sep: Bytes)
      requires indexBlock.Valid() && !indexBlock.finished && offset == |file| && Shape(parts, [], pendingIndexEntry)
      requires indexBlock.layout.pairs == IndexPairs(parts)
      requires pendingIndexEntry ==> |lastKey| >= 8 && parts.handles != []
                                     && pendingHandle == parts.handles[|parts.handles| - 1]
      modifies this, indexBlock
      ensures offset == |file| && old(file) <= file && closed == old(closed)
      ensures parts == old(Indexed(parts, pendingIndexEntry, sep))
      ensures StoredAs(file, o.crc, indexHandle, index) && |parts.seps| <= |parts.handles| && index.pairs == IndexPairs(parts)
      ensures old(pendingIndexEntry) ==>
                sep == old(lastKey) || Comparators.Less(UserOf(old(lastKey)), UserOf(sep))
      ensures old(pendingIndexEntry) ==> sep == SuccessorKey(old(lastKey))
    {
      hide BlockBuilder.Valid, StoredAs, LayoutOk, BlockAt, Added, Separated;
      sep := lastKey;
      if pendingIndexEntry {
        lastKey := InternalSuccessor(lastKey);
        sep := lastKey;
        AddIndexEntry();
      }
      index := indexBlock.layout;
      indexHandle := WriteBlock(indexBlock);
    }

    /** Writes out everything still due; the file is then a complete table of the pairs added. */
    method Finish() returns (ghost image: Image)
      requires Valid() && !closed
      modifies this, dataBlock, indexBlock, filterBlock
      ensures closed && TableFile(file, o, image, old(Contents()))
    {
      hide Shape, Joined, Stored, AllFiled, BlockBuilder.Valid, FilterBlockBuilder.Valid, BlocksFiled, StoredAs,
           LayoutOk, BlockAt, FooterBytes, FilterFor, TableFile, InternalLess, UserOf;
      ghost var all := Contents();
      Flush();
      ghost var now, pending, f0 := parts, pendingIndexEntry, file;
      ShapeFacts(now, [], pending);
      if filterBlock != null {
        AllFiledFacts(now, [], filterBlock.covered, filterBlock.pending, offset);
      }
      closed := true;
      var metaHandle, meta, filters, f1 := WriteMeta();
      ghost var f2 := file;
      var indexHandle, index, sep := WriteIndex();
      ghost var f3 := file;
      image := Image(parts, index, indexHandle, meta, metaHandle, filters);
      Complete(o, f0, f1, f2, f3, now, pending, sep, image, all);
      file := file + FooterBytes(Footer(metaHandle, indexHandle));
      offset := |file|;
    }
  }

  /** The pieces, written one after the other, make a table. */
  lemma Complete(o: Options, f0: Bytes, f1: Bytes, f2: Bytes, f3: Bytes, now: Parts, pending: bool, sep: Bytes, t: Image,
                 all: seq<Pair>)
    requires f0 <= f1 <= f2 <= f3 && Stored(f0, o.crc, now) && Shape(now, [], pending) && all == Added(now.blocks, [])
    requires pending && all != [] ==> sep == LastKey(all) || Comparators.Less(UserOf(LastKey(all)), UserOf(sep))
    requires t.parts == Indexed(now, pending, sep) && |t.parts.seps| <= |t.parts.handles|
    requires StoredAs(f2, o.crc, t.metaHandle, t.meta) && t.meta.pairs == MetaPairs(o.policyName, t.filters)
    requires StoredAs(f3, o.crc, t.indexHandle, t.index) && t.index.pairs == IndexPairs(t.parts)
    requires t.filters.Some? <==> o.policy.Some?
    requires t.filters.Some? ==> FiltersOk(f1, o.crc, o.policy.value, now, t.filters.value)
    ensures TableFile(f3 + FooterBytes(Footer(t.metaHandle, t.indexHandle)), o, t, all)
  {
    hide Separated, Joined, LayoutOk, BlockAt, Filed, FilterFor, FilterBlock, FooterBytes, Comparators.Less, UserOf;
    var end := FooterBytes(Footer(t.metaHandle, t.indexHandle));
    var file := f3 + end;
    StoredStays(f0, o.crc, now, file);
    StoredIndexed(file, o.crc, now, pending, sep);
    BlockStays(f2, o.crc, t.metaHandle, BlockBytes(t.meta), file);
    BlockStays(f3, o.crc, t.indexHandle, BlockBytes(t.index), file);
    if t.filters.Some? {
      BlockStays(f1, o.crc, t.filters.value.handle, FilterBlock(t.filters.value.filters), file);
    }
    if pending {
      LastEntry(now, sep);
    }
    assert file[|file| - |end|..] == end;
  }

  /** What the two keys around a separator guarantee. */
  lemma SeparatorStands(sep: Bytes, last: Bytes, first: Bytes)
    requires sep == last || (Comparators.Less(UserOf(last), UserOf(sep)) && Comparators.Less(UserOf(sep), UserOf(first)))
    ensures Separates(sep, last, first)
  {
  }

  lemma ShapeFacts(t: Parts, open: seq<Pair>, pending: bool)
    requires Shape(t, open, pending)
    ensures |t.handles| == |t.blocks| == |t.seps| + (if pending then 1 else 0)
    ensures (pending ==> open == []) && (open == [] && !pending ==> t.blocks == [])
    ensures Added(t.blocks, open) != [] ==> |LastKey(Added(t.blocks, open))| >= 8
    ensures pending ==> Added(t.blocks, open) != []
  {
    hide KeysAscend, Separates, InternalLess, Joined;
    if pending {
      AddedEnd(t.blocks, open);
    }
  }

  lemma IndexSnoc(t: Parts, sep: Bytes)
    requires |t.seps| + 1 == |t.handles|
    ensures IndexPairs(Indexed(t, true, sep)) == IndexPairs(t) + [Pair(sep, HandleBytes(t.handles[|t.seps|]))]
  {
  }

  lemma StoredIndexed(file: Bytes, crc: Checksum, t: Parts, pending: bool, sep: Bytes)
    requires Stored(file, crc, t)
    ensures Stored(file, crc, Indexed(t, pending, sep))
  {
    hide StoredAs;
  }

  lemma StoredClosed(file: Bytes, file': Bytes, crc: Checksum, t: Parts, l: Layout, h: Handle)
    requires Stored(file, crc, t) && file <= file' && StoredAs(file', crc, h, l)
    ensures Stored(file', crc, Closed(t, l, h))
  {
    StoredStays(file, crc, t, file');
    hide StoredAs;
  }

  lemma NextRange(t: Parts, open: seq<Pair>, covered: seq<seq<Bytes>>, pending: seq<Bytes>, offset: nat, offset': nat)
    requires AllFiled(t, open, covered, pending, offset) && offset <= offset'
    ensures |covered| <= offset' / BASE
  {
  }

  lemma AllFiledFacts(t: Parts, open: seq<Pair>, covered: seq<seq<Bytes>>, pending: seq<Bytes>, offset: nat)
    requires AllFiled(t, open, covered, pending, offset)
    ensures BlocksFiled(t, covered, pending)
  {
  }

  lemma NothingYet()
    ensures Shape(NO_PARTS, [], false) && Added([], []) == [] && IndexPairs(NO_PARTS) == []
    ensures AllFiled(NO_PARTS, [], [], [], 0) && forall crc :: Stored([], crc, NO_PARTS)
  {
    var none: Lists := [];
    assert ListsOf([], []) == none;
  }
}
