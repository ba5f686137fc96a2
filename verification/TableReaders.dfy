/** Reading a table (Table): the index says which block may hold a key, the filter whether it can. */
module TableReaders {
  import opened InternalKeys
  import opened Coding
  import opened Comparators
  import opened Blocks
  import opened BlockIterators
  import opened FilterBlocks
  import opened TableFormats
  import opened Tables
  import opened TableBuilders

  datatype Table = Table(file: Bytes, crc: Checksum, indexBlock: Bytes, filter: Option<FilterBlockReader>)

  /** The same checksum and, if both have one under that name, the same filter policy. */
  ghost predicate Compatible(o: Options, built: Options) {
    && o.crc == built.crc && o.policyName == built.policyName
    && (o.policy.Some? && built.policy.Some? ==> o.policy == built.policy)
  }

  /** Block contents are addressed with 32-bit offsets, places in the file with 64-bit ones. */
  predicate Addressed(file: Bytes, t: Image) {
    && |file| < TWO_64 && t.indexHandle.size < TWO_32 && t.metaHandle.size < TWO_32
    && (forall h :: h in t.parts.handles ==> h.size < TWO_32)
    && (t.filters.Some? ==> t.filters.value.handle.size < TWO_32)
  }

  ghost predicate IsOpen(t: Table, o: Options, file: Bytes, built: Options, image: Image) {
    && t.file == file && t.crc == built.crc && LayoutOk(image.index) && t.indexBlock == BlockBytes(image.index)
    && t.filter == if o.policy.Some? && image.filters.Some?
                   then Some(FilterBlocks.Open(o.policy.value, FilterBlock(image.filters.value.filters))) else None
  }

  lemma FileFacts(file: Bytes, o: Options, t: Image, all: seq<Pair>)
    requires TableFile(file, o, t, all)
    ensures Stored(file, o.crc, t.parts) && |t.parts.seps| == |t.parts.blocks| == |t.parts.handles|
    ensures Separated(ListsOf(t.parts.blocks, []), t.parts.seps) && all == Added(t.parts.blocks, [])
    ensures StoredAs(file, o.crc, t.indexHandle, t.index) && t.index.pairs == IndexPairs(t.parts)
    ensures StoredAs(file, o.crc, t.metaHandle, t.meta) && t.meta.pairs == MetaPairs(o.policyName, t.filters)
    ensures t.filters.Some? <==> o.policy.Some?
    ensures t.filters.Some? ==> FiltersOk(file, o.crc, o.policy.value, t.parts, t.filters.value)
    ensures EndsWith(file, FooterBytes(Footer(t.metaHandle, t.indexHandle)))
  {
  }

  /** A stored block can be opened, and its handle is read back. */
  lemma InFile(file: Bytes, crc: Checksum, h: Handle, l: Layout)
    requires StoredAs(file, crc, h, l) && |file| < TWO_64 && h.size < TWO_32
    ensures LayoutOk(l) && BlockAt(file, crc, h, BlockBytes(l)) && |BlockBytes(l)| < TWO_32 && HandleFits(h)
    ensures forall i :: 0 <= i < |l.pairs| ==> PairFits(l.pairs[i])
  {
    hide LayoutOk;
    SmallBlock(l);
  }

  lemma BytewiseStrict()
    ensures StrictOrder(Comparators.Less)
  {
    forall a, b, c
      ensures Comparators.Less(a, b) ==> !Comparators.Less(b, a)
      ensures Comparators.Less(a, b) && Comparators.Less(b, c) ==> Comparators.Less(a, c)
      ensures Comparators.Less(a, c) ==> Comparators.Less(a, b) || Comparators.Less(b, c)
    {
      LessOrder(a, b, c);
    }
    hide Comparators.Less;
  }

  lemma SoleKey(p: Pair)
    ensures KeysBefore([p], p.key, Comparators.Less) == 0
  {
    LessOrder(p.key, p.key, p.key);
  }

  /** A table that was written is opened: its index block is found, and its filter, if there is one to use. */
  method Open(file: Bytes, o: Options, paranoid: bool, ghost built: Options, ghost image: Image, ghost all: seq<Pair>)
    returns (t: Option<Table>)
    requires TableFile(file, built, image, all) && Addressed(file, image) && Compatible(o, built)
    ensures t.Some? && IsOpen(t.value, o, file, built, image)
  {
    hide TableFile, Stored, Separated, LayoutOk, BlockAt, FiltersOk, FooterBytes, HandleBytes, HandleOf, FilterBlock,
         StoredAs, FooterOf, ReadBlock, FilterBlocks.Open;
    FileFacts(file, built, image, all);
    InFile(file, built.crc, image.indexHandle, image.index);
    InFile(file, built.crc, image.metaHandle, image.meta);
    FooterRoundTrip(Footer(image.metaHandle, image.indexHandle));
    if |file| < FOOTER {
      return None;
    }
    var footer := FooterOf(file[|file| - FOOTER..]);
    if footer.None? {
      return None;
    }
    ReadsBlock(file, built.crc, paranoid, image.indexHandle, BlockBytes(image.index));
    var index := ReadBlock(file, o.crc, paranoid, footer.value.index);
    if index.None? {
      return None;
    }
    var filter := None;
    if o.policy.Some? {
      filter := ReadMeta(file, o, paranoid, footer.value.metaindex, built, image);
    }
    t := Some(Table(file, o.crc, index.value, filter));
  }

  method ReadMeta(file: Bytes, o: Options, paranoid: bool, metaHandle: Handle, ghost built: Options, ghost image: Image)
    returns (filter: Option<FilterBlockReader>)
    requires Addressed(file, image) && Compatible(o, built) && o.policy.Some? && metaHandle == image.metaHandle
    requires StoredAs(file, built.crc, metaHandle, image.meta) && image.meta.pairs == MetaPairs(built.policyName, image.filters)
    requires image.filters.Some? <==> built.policy.Some?
    requires image.filters.Some? ==> FiltersOk(file, built.crc, built.policy.value, image.parts, image.filters.value)
    ensures filter == if image.filters.Some?
                      then Some(FilterBlocks.Open(o.policy.value, FilterBlock(image.filters.value.filters))) else None
  {
    hide Stored, LayoutOk, BlockAt, FiltersOk, HandleBytes, HandleOf, FilterBlock, StoredAs, ReadBlock, FilterBlocks.Open,
         StrictOrder, Comparators.Less, KeysBefore;
    InFile(file, built.crc, metaHandle, image.meta);
    ReadsBlock(file, built.crc, paranoid, metaHandle, BlockBytes(image.meta));
    var contents := ReadBlock(file, o.crc, paranoid, metaHandle);
    if contents.None? {
      return None;
    }
    BytewiseStrict();
    var iter := new BlockIter(contents.value, Comparators.Less, image.meta);
    var key := FILTER_PREFIX + o.policyName;
    iter.Seek(key);
    if image.filters.Some? {
      SoleKey(image.meta.pairs[0]);
      FilterPlace(file, built.crc, built.policy.value, image.parts, image.filters.value, paranoid);
    }
    filter := None;
    var some := iter.Positioned();
    if some {
      var p := iter.Item();
      if p.key == key {
        filter := ReadFilter(file, o, paranoid, p.value);
      }
    }
  }

  method ReadFilter(file: Bytes, o: Options, paranoid: bool, handleValue: Bytes) returns (filter: Option<FilterBlockReader>)
    requires o.policy.Some?
    ensures filter == match HandleOf(handleValue)
                      case Failed => None
                      case Parsed(h, _) =>
                        match ReadBlock(file, o.crc, paranoid, h)
                        case None => None
                        case Some(block) => Some(FilterBlocks.Open(o.policy.value, block))
  {
    var h := HandleOf(handleValue);
    if h.Failed? {
      return None;
    }
    var block := ReadBlock(file, o.crc, paranoid, h.value);
    if block.None? {
      return None;
    }
    filter := Some(FilterBlocks.Open(o.policy.value, block.value));
  }

  lemma FilterPlace(file: Bytes, crc: Checksum, p: Policy, t: Parts, f: Filters, paranoid: bool)
    requires FiltersOk(file, crc, p, t, f) && |file| < TWO_64
    ensures HandleOf(HandleBytes(f.handle)) == Parsed(f.handle, [])
    ensures ReadBlock(file, crc, paranoid, f.handle) == Some(FilterBlock(f.filters))
  {
    hide HandleBytes, HandleOf, FilterBlock, ReadBlock;
    HandleRoundTrip(f.handle, []);
    assert HandleBytes(f.handle) + [] == HandleBytes(f.handle);
    ReadsBlock(file, crc, paranoid, f.handle, FilterBlock(f.filters));
  }

  // ---- Lookup --------------------------------------------------------------------------------------------------

  /** The index block's keys ascend. */
  lemma IndexAscends(t: Parts)
    requires Separated(ListsOf(t.blocks, []), t.seps) && |t.seps| <= |t.handles|
    ensures KeysAscend(IndexPairs(t), InternalLess)
  {
    hide InternalLess, Separated;
    forall i, j | 0 <= i < j < |t.seps| ensures InternalLess(t.seps[i], t.seps[j]) {
      SepsAscend(ListsOf(t.blocks, []), t.seps, i, j);
    }
  }

  /** Filters do not deny a block's own user keys. */
  lemma FilterPasses(file: Bytes, crc: Checksum, p: Policy, t: Parts, f: Filters, i: nat, m: nat, k: Bytes)
    requires FiltersOk(file, crc, p, t, f) && f.handle.size < TWO_32 && i < |t.blocks| && m < |t.blocks[i].pairs|
    requires UserOf(t.blocks[i].pairs[m].key) == UserOf(k)
    ensures KeyMayMatch(FilterBlocks.Open(p, FilterBlock(f.filters)), t.handles[i].offset, k)
  {
    hide FilterFor, FilterBlock, FilterBlocks.Open, UserOf, FixedAt, Shifted;
    var key := t.blocks[i].pairs[m].key;
    assert Filed(key, t.handles[i].offset, f.covered, []);
    FilterNeverDenies(p, f.filters, f.covered[t.handles[i].offset / BASE], t.handles[i].offset, key);
  }

  /** What is found for k: all[n] if any pair is, and surely if all[n] has k's user key. */
  ghost predicate Found(r: Option<Pair>, all: seq<Pair>, k: Bytes) {
    var n := KeysBefore(all, k, InternalLess);
    && (r.Some? ==> n < |all| && r.value == all[n])
    && (n < |all| && UserOf(all[n].key) == UserOf(k) ==> r.Some?)
  }

  /** The block the index points to decides. */
  lemma Answer(t: Parts, all: seq<Pair>, k: Bytes, i: nat)
    requires Separated(ListsOf(t.blocks, []), t.seps) && all == Added(t.blocks, [])
    requires |t.seps| == |t.blocks| == |t.handles| && i == KeysBefore(IndexPairs(t), k, InternalLess)
    ensures i == |t.blocks| ==> Found(None, all, k)
    ensures i < |t.blocks| ==>
              var pairs := t.blocks[i].pairs;
              var m := KeysBefore(pairs, k, InternalLess);
              Found(if m < |pairs| then Some(pairs[m]) else None, all, k)
  {
    hide InternalLess, Separated, UserOf, Joined;
    var index := IndexPairs(t);
    forall j | 0 <= j < i ensures InternalLess(t.seps[j], k) {
      assert InternalLess(index[j].key, k);
    }
    assert i < |t.blocks| ==> !InternalLess(index[i].key, k);
    LookupDecides(ListsOf(t.blocks, []), t.seps, k, i);
  }

  /** When the filter denies k, no pair of its user key is in the block. */
  lemma Denied(file: Bytes, crc: Checksum, p: Policy, t: Parts, f: Filters, all: seq<Pair>, k: Bytes, i: nat)
    requires FiltersOk(file, crc, p, t, f) && f.handle.size < TWO_32 && i < |t.blocks|
    requires !KeyMayMatch(FilterBlocks.Open(p, FilterBlock(f.filters)), t.handles[i].offset, k)
    requires var pairs := t.blocks[i].pairs;
             var m := KeysBefore(pairs, k, InternalLess);
             Found(if m < |pairs| then Some(pairs[m]) else None, all, k)
    ensures Found(None, all, k)
  {
    hide InternalLess, UserOf, FiltersOk, FilterBlock, FilterBlocks.Open, KeyMayMatch;
    var pairs := t.blocks[i].pairs;
    var m := KeysBefore(pairs, k, InternalLess);
    if m < |pairs| && UserOf(pairs[m].key) == UserOf(k) {
      FilterPasses(file, crc, p, t, f, i, m, k);
    }
  }

  lemma BlockInFile(file: Bytes, crc: Checksum, t: Parts, i: nat)
    requires Stored(file, crc, t) && i < |t.blocks| && |file| < TWO_64 && forall h :: h in t.handles ==> h.size < TWO_32
    ensures i < |t.handles| && LayoutOk(t.blocks[i]) && BlockAt(file, crc, t.handles[i], BlockBytes(t.blocks[i]))
    ensures |BlockBytes(t.blocks[i])| < TWO_32 && forall m :: 0 <= m < |t.blocks[i].pairs| ==> PairFits(t.blocks[i].pairs[m])
    ensures HandleOf(HandleBytes(t.handles[i])) == Parsed(t.handles[i], [])
  {
    hide LayoutOk, HandleOf, HandleBytes;
    assert StoredAs(file, crc, t.handles[i], t.blocks[i]);
    InFile(file, crc, t.handles[i], t.blocks[i]);
    HandleRoundTrip(t.handles[i], []);
    assert HandleBytes(t.handles[i]) + [] == HandleBytes(t.handles[i]);
  }

  lemma BlockAscends(t: Parts, i: nat)
    requires Separated(ListsOf(t.blocks, []), t.seps) && i < |t.blocks|
    ensures KeysAscend(t.blocks[i].pairs, InternalLess)
  {
    hide InternalLess, Joined;
    var lists := ListsOf(t.blocks, []);
    var pairs: seq<Pair> := lists[i];
    forall m, n | 0 <= m < n < |pairs| ensures InternalLess(pairs[m].key, pairs[n].key) {
      SameBlock(lists, i, m, n);
    }
  }

  /** An iterator over the block that an index entry points to. */
  method BlockReader(t: Table, verify: bool, indexValue: Bytes, ghost l: Layout) returns (iter: BlockIter?)
    requires LayoutOk(l) && |BlockBytes(l)| < TWO_32 && forall i :: 0 <= i < |l.pairs| ==> PairFits(l.pairs[i])
    requires HandleOf(indexValue).Parsed? && BlockAt(t.file, t.crc, HandleOf(indexValue).value, BlockBytes(l))
    ensures iter != null && fresh(iter) && iter.Valid() && iter.layout == l && iter.less == InternalLess
  {
    hide LayoutOk, BlockAt, HandleOf, ReadBlock, InternalLess;
    var h := HandleOf(indexValue);
    ReadsBlock(t.file, t.crc, verify, h.value, BlockBytes(l));
    if h.Failed? {
      return null;
    }
    var contents := ReadBlock(t.file, t.crc, verify, h.value);
    if contents.None? {
      return null;
    }
    iter := new BlockIter(contents.value, InternalLess, l);
  }

  /** The first pair at or past k in a block, if there is one. */
  method BlockGet(t: Table, verify: bool, indexValue: Bytes, k: Bytes, ghost l: Layout) returns (r: Option<Pair>)
    requires LayoutOk(l) && |BlockBytes(l)| < TWO_32 && forall i :: 0 <= i < |l.pairs| ==> PairFits(l.pairs[i])
    requires HandleOf(indexValue).Parsed? && BlockAt(t.file, t.crc, HandleOf(indexValue).value, BlockBytes(l))
    requires KeysAscend(l.pairs, InternalLess)
    ensures var m := KeysBefore(l.pairs, k, InternalLess); r == if m < |l.pairs| then Some(l.pairs[m]) else None
  {
    hide LayoutOk, BlockAt, HandleOf, InternalLess, KeysAscend, StrictOrder;
    InternalStrict();
    var iter := BlockReader(t, verify, indexValue, l);
    iter.Seek(k);
    var some := iter.Positioned();
    r := None;
    if some {
      var p := iter.Item();
      r := Some(p);
    }
  }

  /** InternalGet: the index names a block, the filter may rule it out, and otherwise the block is searched. */
  method InternalGet(t: Table, verify: bool, k: Bytes, ghost o: Options, ghost built: Options, ghost image: Image,
                     ghost all: seq<Pair>)
    returns (r: Option<Pair>)
    requires TableFile(t.file, built, image, all) && Addressed(t.file, image) && Compatible(o, built)
    requires IsOpen(t, o, t.file, built, image)
    ensures Found(r, all, k)
    ensures var i := KeysBefore(image.index.pairs, k, InternalLess);
            i < |image.parts.handles| && t.filter.Some? && !KeyMayMatch(t.filter.value, image.parts.handles[i].offset, k)
            ==> r.None?
  {
    hide TableFile, Stored, Separated, LayoutOk, BlockAt, FiltersOk, HandleBytes, HandleOf, FilterBlock, FilterBlocks.Open,
         StoredAs, ReadBlock, StrictOrder, InternalLess, KeysBefore, KeysAscend, KeyMayMatch, UserOf, Found, BlockIter.Valid;
    ghost var parts := image.parts;
    FileFacts(t.file, built, image, all);
    InFile(t.file, built.crc, image.indexHandle, image.index);
    InternalStrict();
    IndexAscends(parts);
    ghost var i := KeysBefore(image.index.pairs, k, InternalLess);
    Answer(parts, all, k, i);
    r := None;
    var iiter := new BlockIter(t.indexBlock, InternalLess, image.index);
    iiter.Seek(k);
    var some := iiter.Positioned();
    if some {
      var entry := iiter.Item();
      BlockInFile(t.file, built.crc, parts, i);
      var h := HandleOf(entry.value);
      if t.filter.Some? && h.Parsed? && !KeyMayMatch(t.filter.value, h.value.offset, k) {
        Denied(t.file, built.crc, built.policy.value, parts, image.filters.value, all, k, i);
      } else {
        BlockAscends(parts, i);
        r := BlockGet(t, verify, entry.value, k, parts.blocks[i]);
      }
    }
  }

  /** The answer to a read of user at sequence and type tag: the newest entry no newer than tag, or that there is
      none. The callback compares user keys. */
  method GetNewest(t: Table, verify: bool, user: Bytes, tag: nat, ghost o: Options, ghost built: Options,
                   ghost image: Image, ghost all: seq<Pair>)
    returns (r: Option<Pair>)
    requires TableFile(t.file, built, image, all) && Addressed(t.file, image) && Compatible(o, built) && tag < TWO_64
    requires IsOpen(t, o, t.file, built, image)
    ensures r.Some? ==> r.value in all && UserOf(r.value.key) == user && TagOf(r.value.key) <= tag
    ensures r.Some? ==> forall p :: p in all && UserOf(p.key) == user && TagOf(p.key) <= tag ==> TagOf(p.key) <= TagOf(r.value.key)
    ensures r.None? ==> forall p :: p in all && UserOf(p.key) == user ==> TagOf(p.key) > tag
  {
    hide InternalLess, KeysBefore, UserOf, TagOf, InternalKey, TableFile, IsOpen;
    var k := InternalKey(user, tag);
    r := InternalGet(t, verify, k, o, built, image, all);
    FileAscends(t.file, built, image, all);
    FirstIsNewest(all, user, tag);
    InternalKeyParts(user, tag);
    if r.Some? && UserOf(r.value.key) != user {
      r := None;
    }
  }

  lemma FileAscends(file: Bytes, o: Options, t: Image, all: seq<Pair>)
    requires TableFile(file, o, t, all)
    ensures KeysAscend(all, InternalLess)
  {
    hide InternalLess, Joined;
  }
}
