/** The filter block of a table (table/filter_block.cc): one filter for each 2 KiB range of block offsets. */
module FilterBlocks {
  import opened Coding
  import opened Comparators
  import opened BloomFilters

  const BASE_LG: nat := 11
  const BASE: nat := 2048

  /** The built-in policy with its parameters, applied to the user part of internal keys. */
  datatype Policy = Policy(hash: Hash, bitsPerKey: nat, k: nat)

  predicate PolicyOk(p: Policy) { 1 <= p.k <= 30 }

  predicate Passes(p: Policy, key: Bytes, filter: Bytes) {
    MayMatch(p.hash, UserOf(key), filter)
  }

  function Flat(parts: seq<Bytes>): Bytes {
    if parts == [] then [] else Flat(parts[..|parts| - 1]) + parts[|parts| - 1]
  }

  lemma FlatSnoc(parts: seq<Bytes>, p: Bytes)
    ensures Flat(parts + [p]) == Flat(parts) + p
  {
    assert (parts + [p])[..|parts|] == parts;
  }

  /** Where the parts begin inside their concatenation. */
  function Starts(parts: seq<Bytes>): seq<nat> {
    seq(|parts|, i requires 0 <= i < |parts| => |Flat(parts[..i])|)
  }

  lemma StartsSnoc(parts: seq<Bytes>, p: Bytes)
    ensures Starts(parts + [p]) == Starts(parts) + [|Flat(parts)|]
  {
    forall i | 0 <= i <= |parts| ensures (parts + [p])[..i] == parts[..i] {
    }
    assert parts[..|parts|] == parts;
  }

  /** Part i is found between its start and the next one's. */
  lemma {:induction false} PartInside(parts: seq<Bytes>, i: nat)
    requires i < |parts|
    ensures |Flat(parts[..i])| <= |Flat(parts[..i + 1])| <= |Flat(parts)|
    ensures Flat(parts)[|Flat(parts[..i])|..|Flat(parts[..i + 1])|] == parts[i]
  {
    var n := |parts| - 1;
    assert parts[..i + 1][..i] == parts[..i];
    if i < n {
      PartInside(parts[..n], i);
      assert parts[..n][..i] == parts[..i] && parts[..n][..i + 1] == parts[..i + 1];
      var a, b := |Flat(parts[..i])|, |Flat(parts[..i + 1])|;
      assert Flat(parts)[a..b] == Flat(parts[..n])[a..b];
    } else {
      assert parts[..i + 1] == parts;
    }
  }

  /** filter is empty for no keys and passes every one of its keys. */
  ghost predicate FilterFor(p: Policy, filter: Bytes, keys: seq<Bytes>) {
    (keys == [] ==> filter == []) && forall key :: key in keys ==> Passes(p, key, filter)
  }

  class FilterBlockBuilder {
    const policy: Policy
    /** The pending keys, flattened, and where each begins. */
    var keys: Bytes
    var start: seq<nat>
    var result: Bytes
    var filterOffsets: seq<nat>
    ghost var pending: seq<Bytes>
    ghost var filters: seq<Bytes>
    /** The keys each finished filter was made from. */
    ghost var covered: seq<seq<Bytes>>

    ghost predicate Valid()
      reads this
    {
      && PolicyOk(policy) && keys == Flat(pending) && start == Starts(pending)
      && result == Flat(filters) && filterOffsets == Starts(filters) && |covered| == |filters|
      && forall i :: 0 <= i < |filters| ==> FilterFor(policy, filters[i], covered[i])
    }

    constructor (policy: Policy)
      requires PolicyOk(policy)
      ensures Valid() && pending == [] && covered == [] && this.policy == policy
    {
      this.policy := policy;
      keys, start, result, filterOffsets, pending, filters, covered := [], [], [], [], [], [], [];
    }

    /** The filters of the 2 KiB ranges before the block's are finished; its keys will go to its own range's. */
    method StartBlock(blockOffset: nat)
      requires Valid() && |covered| <= blockOffset / BASE
      modifies this
      ensures Valid() && |covered| == blockOffset / BASE
      ensures if |old(covered)| == blockOffset / BASE then covered == old(covered) && pending == old(pending)
              else pending == [] && old(covered) + [old(pending)] <= covered
    {
      hide Flat, Starts, FilterFor;
      var index := blockOffset / BASE;
      StartsLength(filters);
      while index > |filterOffsets|
        invariant Valid() && |covered| <= index && |filterOffsets| == |covered|
        invariant if |covered| == |old(covered)| then covered == old(covered) && pending == old(pending)
                  else pending == [] && old(covered) + [old(pending)] <= covered
        decreases index - |covered|
      {
        GenerateFilter();
      }
    }

    method AddKey(key: Bytes)
      requires Valid()
      modifies this
      ensures Valid() && pending == old(pending) + [key] && covered == old(covered)
    {
      FlatSnoc(pending, key);
      StartsSnoc(pending, key);
      start := start + [|keys|];
      keys := keys + key;
      pending := pending + [key];
    }

    method GenerateFilter()
      requires Valid()
      modifies this
      ensures Valid() && pending == [] && covered == old(covered) + [old(pending)]
      ensures |filterOffsets| == |covered|
    {
      hide Flat, Starts, FilterFor, MayMatch;
      StartsLength(filters);
      var numKeys := |start|;
      StartsLength(pending);
      var filter := [];
      if numKeys == 0 {
        EmptyFilter(policy);
      } else {
        var tmpKeys := TempKeys(start + [|keys|], keys, pending);
        filter := CreateFilter(policy.hash, policy.bitsPerKey, policy.k, tmpKeys, []);
        PolicyFilter(policy, filter, tmpKeys, pending);
      }
      FlatSnoc(filters, filter);
      StartsSnoc(filters, filter);
      filterOffsets := filterOffsets + [|result|];
      result := result + filter;
      ghost var last := pending;
      filters, covered := filters + [filter], covered + [last];
      NothingFlat();
      keys, start, pending := [], [], [];
    }

    /** The filters, their offsets, the offset of that array, and the size of a range. */
    method Finish() returns (block: Bytes)
      requires Valid()
      modifies this
      ensures Valid() && covered == (if old(pending) == [] then old(covered) else old(covered) + [old(pending)])
      ensures block == FilterBlock(filters)
    {
      hide Flat, FilterFor, Starts;
      StartsLength(pending);
      if start != [] {
        GenerateFilter();
      }
      var arrayOffset := |result|;
      var out := result;
      assert filterOffsets[..0] == [];
      for i := 0 to |filterOffsets|
        invariant out == result + Words(filterOffsets[..i])
      {
        assert filterOffsets[..i + 1][..i] == filterOffsets[..i];
        out := out + Fixed(filterOffsets[i], 4);
      }
      assert filterOffsets[..|filterOffsets|] == filterOffsets;
      block := out + Fixed(arrayOffset, 4) + [BASE_LG];
    }
  }

  /** The pending keys, cut out of their concatenation and reduced to their user parts. */
  method TempKeys(starts: seq<nat>, keys: Bytes, ghost pending: seq<Bytes>) returns (tmpKeys: seq<Bytes>)
    requires keys == Flat(pending) && starts == Starts(pending) + [|keys|]
    ensures |tmpKeys| == |pending| && forall i :: 0 <= i < |pending| ==> tmpKeys[i] == UserOf(pending[i])
  {
    hide Flat, Starts, UserOf;
    StartsLength(pending);
    tmpKeys := [];
    for i := 0 to |starts| - 1
      invariant |tmpKeys| == i && forall m :: 0 <= m < i ==> tmpKeys[m] == UserOf(pending[m])
    {
      KeySlice(pending, i);
      tmpKeys := tmpKeys + [UserOf(keys[starts[i]..starts[i + 1]])];
    }
  }

  lemma StartsLength(parts: seq<Bytes>)
    ensures |Starts(parts)| == |parts|
  {
  }

  lemma NothingFlat()
    ensures Flat([]) == [] && Starts([]) == []
  {
  }

  lemma EmptyFilter(p: Policy)
    ensures FilterFor(p, [], [])
  {
  }

  /** A key taken back out of the flattened pending keys. */
  lemma KeySlice(parts: seq<Bytes>, i: nat)
    requires i < |parts|
    ensures var starts := Starts(parts) + [|Flat(parts)|];
            starts[i] <= starts[i + 1] <= |Flat(parts)| && Flat(parts)[starts[i]..starts[i + 1]] == parts[i]
  {
    PartInside(parts, i);
    assert parts[..|parts|] == parts;
  }

  lemma PolicyFilter(p: Policy, filter: Bytes, users: seq<Bytes>, keys: seq<Bytes>)
    requires PolicyOk(p) && keys != [] && |users| == |keys| && forall i :: 0 <= i < |keys| ==> users[i] == UserOf(keys[i])
    requires |filter| >= 9 && filter[|filter| - 1] == p.k
    requires forall i :: 0 <= i < |users| ==> AllMarked(filter[..|filter| - 1], p.hash(users[i]), p.k)
    ensures FilterFor(p, filter, keys)
  {
    forall key | key in keys ensures Passes(p, key, filter) {
      var i :| 0 <= i < |keys| && keys[i] == key;
      NoFalseNegatives(p.hash, filter, p.k, users[i]);
    }
  }

  function FilterBlock(filters: seq<Bytes>): Bytes {
    Flat(filters) + Words(Starts(filters)) + Fixed(|Flat(filters)|, 4) + [BASE_LG]
  }

  // ---- Reading -------------------------------------------------------------------------------------------------

  /** FilterBlockReader: num is 0 when the contents cannot be a filter block. */
  datatype FilterBlockReader = FilterBlockReader(policy: Policy, contents: Bytes, offset: nat, num: nat, baseLg: nat)

  function Open(policy: Policy, contents: Bytes): FilterBlockReader {
    var n := |contents|;
    if n < 5 then FilterBlockReader(policy, [], 0, 0, 0)
    else
      var lastWord := FixedAt(contents, n - 5);
      if lastWord > n - 5 then FilterBlockReader(policy, [], 0, 0, contents[n - 1])
      else FilterBlockReader(policy, contents, lastWord, (n - 5 - lastWord) / 4, contents[n - 1])
  }

  /** block_offset >> base_lg. */
  function Shifted(n: nat, lg: nat): nat
  {
    if lg == 0 then n else Shifted(n / 2, lg - 1)
  }

  predicate RangeMatches(r: FilterBlockReader, index: nat, key: Bytes) {
    if index < r.num && r.offset + 4 * index + 8 <= |r.contents| then
      var start, limit := FixedAt(r.contents, r.offset + 4 * index), FixedAt(r.contents, r.offset + 4 * index + 4);
      if start <= limit <= r.offset then Passes(r.policy, key, r.contents[start..limit])
      else start != limit
    else true
  }

  predicate KeyMayMatch(r: FilterBlockReader, blockOffset: nat, key: Bytes) {
    RangeMatches(r, Shifted(blockOffset, r.baseLg), key)
  }

  lemma OpenFinished(policy: Policy, filters: seq<Bytes>)
    requires |FilterBlock(filters)| < TWO_32
    ensures Open(policy, FilterBlock(filters))
            == FilterBlockReader(policy, FilterBlock(filters), |Flat(filters)|, |filters|, BASE_LG)
  {
    hide Flat, Fixed, FixedOf, FixedAt, Words;
    var contents, front := FilterBlock(filters), Flat(filters);
    StartsLength(filters);
    WordsLength(Starts(filters));
    FixedThere(front + Words(Starts(filters)), |front|, [BASE_LG]);
  }

  /** The offsets around filter i: its own, and the next one's or the end of the filters. */
  lemma OffsetsAround(filters: seq<Bytes>, i: nat)
    requires i < |filters| && |FilterBlock(filters)| < TWO_32
    ensures var contents, front := FilterBlock(filters), |Flat(filters)|;
            && front + 4 * i + 8 <= |contents|
            && FixedAt(contents, front + 4 * i) == |Flat(filters[..i])|
            && FixedAt(contents, front + 4 * i + 4) == |Flat(filters[..i + 1])|
  {
    hide Flat, Fixed, FixedOf, FixedAt, Words;
    var front, vs := Flat(filters), Starts(filters) + [|Flat(filters)|];
    StartsLength(filters);
    WordsSnoc(Starts(filters), |front|);
    PartInside(filters, i);
    assert filters[..|filters|] == filters;
    assert FilterBlock(filters) == front + Words(vs) + [BASE_LG];
    WordPlaced(front, vs, [BASE_LG], i);
    WordPlaced(front, vs, [BASE_LG], i + 1);
  }

  lemma WordsSnoc(vs: seq<nat>, v: nat)
    ensures Words(vs + [v]) == Words(vs) + Fixed(v, 4)
  {
    assert (vs + [v])[..|vs|] == vs;
  }

  lemma ThreeBits(n: nat, lg: nat)
    requires lg >= 3
    ensures Shifted(n, lg) == Shifted(n / 8, lg - 3)
  {
    assert Shifted(n / 2, lg - 1) == Shifted(n / 2 / 2, lg - 2) == Shifted(n / 2 / 2 / 2, lg - 3);
    assert n / 2 / 2 / 2 == n / 8;
  }

  lemma RangeIs(n: nat)
    ensures Shifted(n, BASE_LG) == n / BASE
  {
    ThreeBits(n, 11);
    ThreeBits(n / 8, 8);
    ThreeBits(n / 8 / 8, 5);
    var m := n / 8 / 8 / 8;
    assert Shifted(m, 2) == Shifted(m / 2, 1) == Shifted(m / 2 / 2, 0);
    assert m / 2 / 2 == n / 2048;
  }

  /** A finished filter block never denies a key at a block offset under which it was added. */
  lemma FilterNeverDenies(policy: Policy, filters: seq<Bytes>, keys: seq<Bytes>, blockOffset: nat, key: Bytes)
    requires |FilterBlock(filters)| < TWO_32 && blockOffset / BASE < |filters|
    requires FilterFor(policy, filters[blockOffset / BASE], keys) && key in keys
    ensures KeyMayMatch(Open(policy, FilterBlock(filters)), blockOffset, key)
  {
    hide Flat, FixedAt, Passes, FilterBlock, Shifted;
    var i := blockOffset / BASE;
    RangeIs(blockOffset);
    OpenFinished(policy, filters);
    OffsetsAround(filters, i);
    PartInside(filters, i);
    FrontOf(filters, |Flat(filters[..i])|, |Flat(filters[..i + 1])|);
  }

  lemma FrontOf(filters: seq<Bytes>, a: nat, b: nat)
    requires a <= b <= |Flat(filters)|
    ensures |FilterBlock(filters)| >= |Flat(filters)| && FilterBlock(filters)[a..b] == Flat(filters)[a..b]
  {
  }
}
