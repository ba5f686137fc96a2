/** The memtable's entries as bytes (db/memtable.cc, LookupKey of db/dbformat.cc): a length-prefixed internal key and a
    length-prefixed value, in internal key order. The order itself is kept by the skip list. */
module MemTableEntries {
  import opened Coding
  import opened Comparators
  import opened Blocks
  import opened BlockIterators
  import opened Tables

  const VALUE_TYPE: nat := 1
  const DELETION_TYPE: nat := 0
  const TYPE_FOR_SEEK: nat := VALUE_TYPE
  const MAX_SEQUENCE: nat := 0xFF_FFFF_FFFF_FFFF

  /** PackSequenceAndType. */
  function Packed(s: nat, kind: nat): nat { s * 256 + kind }

  function SequenceOf(p: Pair): nat { TagOf(p.key) / 256 }

  function KindOf(p: Pair): nat { TagOf(p.key) % 256 }

  function EntryFor(p: Pair): Bytes { Prefixed(p.key) + Prefixed(p.value) }

  /** GetLengthPrefixedSlice, on bytes known to begin with one. */
  function PrefixAt(data: Bytes): Parsed<Bytes> { PrefixedOf(data) }

  predicate PairOk(p: Pair) {
    PairFits(p) && |p.key| >= 8 && KindOf(p) in {VALUE_TYPE, DELETION_TYPE}
  }

  /** An entry is taken apart again, and its key is the internal key. */
  lemma EntryParts(p: Pair, rest: Bytes)
    requires PairFits(p)
    ensures PrefixAt(EntryFor(p) + rest) == Parsed(p.key, Prefixed(p.value) + rest)
    ensures PrefixAt(Prefixed(p.value) + rest) == Parsed(p.value, rest)
  {
    hide Prefixed, PrefixedOf;
    assert EntryFor(p) + rest == Prefixed(p.key) + (Prefixed(p.value) + rest);
    PrefixedRoundTrip(p.key, Prefixed(p.value) + rest);
    PrefixedRoundTrip(p.value, rest);
  }

  /** KeyComparator compares the internal keys of two entries. */
  predicate EntryLess(a: Bytes, b: Bytes) {
    var x, y := PrefixAt(a), PrefixAt(b);
    x.Parsed? && y.Parsed? && InternalLess(x.value, y.value)
  }

  lemma EntryOrder(p: Pair, key: Bytes)
    requires PairFits(p) && |key| < TWO_32
    ensures EntryLess(EntryFor(p), Prefixed(key)) <==> InternalLess(p.key, key)
  {
    hide Prefixed, PrefixedOf, InternalLess;
    EntryParts(p, []);
    assert EntryFor(p) + [] == EntryFor(p) && Prefixed(key) + [] == Prefixed(key);
    PrefixedRoundTrip(key, []);
  }

  /** LookupKey: the seek key, with its length in front. */
  function LookupKey(user: Bytes, s: nat): Bytes { Prefixed(InternalKey(user, Packed(s, TYPE_FOR_SEEK))) }

  datatype Lookup = Found(value: Bytes) | Deleted | Missing

  /** p is the newest pair of user that a read at s sees. */
  predicate NewestPair(pairs: seq<Pair>, user: Bytes, s: nat, p: Pair) {
    && p in pairs && UserOf(p.key) == user && SequenceOf(p) <= s
    && forall q :: q in pairs && UserOf(q.key) == user && SequenceOf(q) <= s ==> SequenceOf(q) <= SequenceOf(p)
  }

  /** The entries are those of the pairs, in internal key order. */
  ghost predicate Holds(table: seq<Bytes>, pairs: seq<Pair>) {
    && |table| == |pairs| && KeysAscend(pairs, InternalLess)
    && forall i :: 0 <= i < |pairs| ==> PairOk(pairs[i]) && table[i] == EntryFor(pairs[i])
  }

  class MemTable {
    var table: seq<Bytes>
    ghost var pairs: seq<Pair>

    ghost predicate Valid()
      reads this
    {
      Holds(table, pairs)
    }

    constructor ()
      ensures Valid() && pairs == []
    {
      table, pairs := [], [];
    }

    /** Seek of the list: the first entry not before the one sought. */
    method Position(memkey: Bytes, ghost key: Bytes) returns (n: nat)
      requires Valid() && |key| < TWO_32 && memkey == Prefixed(key)
      ensures n == KeysBefore(pairs, key, InternalLess)
    {
      hide Prefixed, PrefixedOf, InternalLess, EntryLess, EntryFor;
      n := 0;
      while n < |table|
        invariant n <= |table| && forall i :: 0 <= i < n ==> InternalLess(pairs[i].key, key)
      {
        EntryOrder(pairs[n], key);
        if !EntryLess(table[n], memkey) {
          KeysBeforeIs(pairs, key, InternalLess, n);
          return;
        }
        n := n + 1;
      }
      KeysBeforeIs(pairs, key, InternalLess, n);
    }

    /** Add: the new entry takes its place in the order. */
    method Add(s: nat, kind: nat, user: Bytes, value: Bytes)
      requires Valid() && s <= MAX_SEQUENCE && kind in {VALUE_TYPE, DELETION_TYPE}
      requires |user| + 8 < TWO_32 && |value| < TWO_32
      requires forall p :: p in pairs ==> UserOf(p.key) != user || SequenceOf(p) != s
      modifies this
      ensures Valid()
      ensures multiset(pairs) == multiset(old(pairs)) + multiset{Pair(InternalKey(user, Packed(s, kind)), value)}
    {
      hide Holds, InternalLess, Prefixed, PrefixedOf, KeysBefore, UserOf, TagOf, InternalKey, Fixed, PairOk;
      var internalKey := user + Fixed(Packed(s, kind), 8);
      KeyFits(user, Packed(s, kind));
      ghost var p := Pair(internalKey, value);
      NewPair(user, s, kind, value);
      var n := Position(Prefixed(internalKey), internalKey);
      forall q | q in pairs ensures UserOf(q.key) != UserOf(internalKey) || TagOf(q.key) != TagOf(internalKey) {
        OtherEntry(q, internalKey, user, s, kind);
      }
      HoldsFacts(table, pairs);
      ComesAfter(pairs, n, p);
      InsertedItems(pairs, n, p);
      HoldsInserted(table, pairs, n, p);
      table := table[..n] + [Prefixed(internalKey) + Prefixed(value)] + table[n..];
      pairs := pairs[..n] + [p] + pairs[n..];
    }

    /** Get: the first entry at or after the lookup key decides, if it is of the same user key. */
    method Get(user: Bytes, s: nat) returns (r: Lookup)
      requires Valid() && s <= MAX_SEQUENCE && |user| + 8 < TWO_32
      ensures r.Missing? <==> forall p :: p in pairs && UserOf(p.key) == user ==> SequenceOf(p) > s
      ensures !r.Missing? ==> exists p :: NewestPair(pairs, user, s, p)
                                          && r == if KindOf(p) == VALUE_TYPE then Found(p.value) else Deleted
    {
      hide InternalLess, Prefixed, PrefixedOf, KeysBefore, UserOf, TagOf, InternalKey, FixedOf, KeysAscend, EntryFor;
      var tag := Packed(s, TYPE_FOR_SEEK);
      KeyFits(user, tag);
      var n := Position(LookupKey(user, s), InternalKey(user, tag));
      FirstIsNewest(pairs, user, tag);
      forall p | p in pairs ensures SequenceOf(p) <= s <==> TagOf(p.key) <= tag {
        var i :| 0 <= i < |pairs| && pairs[i] == p;
      }
      r := Missing;
      if n < |table| {
        ghost var p := pairs[n];
        EntryParts(p, []);
        assert EntryFor(p) + [] == EntryFor(p);
        var entry := PrefixAt(table[n]);
        if UserOf(entry.value) == user {
          assert NewestPair(pairs, user, s, p);
          var kind := TagOf(entry.value) % 256;
          if kind == VALUE_TYPE {
            var v := PrefixAt(entry.rest);
            assert Prefixed(p.value) + [] == entry.rest;
            r := Found(v.value);
          } else if kind == DELETION_TYPE {
            r := Deleted;
          }
        }
      }
    }
  }

  lemma KeyFits(user: Bytes, tag: nat)
    ensures InternalKey(user, tag) == user + Fixed(tag, 8) && |InternalKey(user, tag)| == |user| + 8
  {
  }

  lemma NewPair(user: Bytes, s: nat, kind: nat, value: Bytes)
    requires s <= MAX_SEQUENCE && kind in {VALUE_TYPE, DELETION_TYPE} && |user| + 8 < TWO_32 && |value| < TWO_32
    ensures var k := InternalKey(user, Packed(s, kind));
            UserOf(k) == user && TagOf(k) == Packed(s, kind) && PairOk(Pair(k, value))
  {
    hide UserOf, TagOf, InternalKey;
    KeyFits(user, Packed(s, kind));
    InternalKeyParts(user, Packed(s, kind));
  }

  lemma HoldsFacts(table: seq<Bytes>, pairs: seq<Pair>)
    requires Holds(table, pairs)
    ensures |table| == |pairs| && KeysAscend(pairs, InternalLess)
  {
    hide KeysAscend;
  }

  lemma HoldsInserted(table: seq<Bytes>, pairs: seq<Pair>, n: nat, p: Pair)
    requires Holds(table, pairs) && n <= |pairs| && PairOk(p)
    requires forall i :: 0 <= i < n ==> InternalLess(pairs[i].key, p.key)
    requires forall i :: n <= i < |pairs| ==> InternalLess(p.key, pairs[i].key)
    ensures Holds(table[..n] + [EntryFor(p)] + table[n..], pairs[..n] + [p] + pairs[n..])
  {
    hide InternalLess, UserOf, TagOf, EntryFor, PairOk, KeysAscend;
    InsertAscends(pairs, n, p);
    var table', pairs' := table[..n] + [EntryFor(p)] + table[n..], pairs[..n] + [p] + pairs[n..];
    forall i | 0 <= i < |pairs'| ensures PairOk(pairs'[i]) && table'[i] == EntryFor(pairs'[i]) {
      var k := if i < n then i else i - 1;
      assert i != n ==> pairs'[i] == pairs[k] && table'[i] == table[k] && PairOk(pairs[k]);
    }
  }

  lemma ComesAfter(pairs: seq<Pair>, n: nat, p: Pair)
    requires KeysAscend(pairs, InternalLess) && n == KeysBefore(pairs, p.key, InternalLess)
    requires forall q :: q in pairs ==> UserOf(q.key) != UserOf(p.key) || TagOf(q.key) != TagOf(p.key)
    ensures forall i :: n <= i < |pairs| ==> InternalLess(p.key, pairs[i].key)
  {
    hide InternalLess, UserOf, TagOf, KeysAscend;
    forall i | n <= i < |pairs| ensures InternalLess(p.key, pairs[i].key) {
      assert pairs[i] in pairs;
      NotEqualKeys(pairs, p.key, n, i);
    }
  }

  lemma InsertedItems(pairs: seq<Pair>, n: nat, p: Pair)
    requires n <= |pairs|
    ensures multiset(pairs[..n] + [p] + pairs[n..]) == multiset(pairs) + multiset{p}
  {
    assert pairs == pairs[..n] + pairs[n..];
  }

  lemma OtherEntry(p: Pair, k: Bytes, user: Bytes, s: nat, kind: nat)
    requires UserOf(k) == user && TagOf(k) == Packed(s, kind) && kind < 256
    requires UserOf(p.key) != user || SequenceOf(p) != s
    ensures UserOf(p.key) != UserOf(k) || TagOf(p.key) != TagOf(k)
  {
    hide UserOf, TagOf;
  }

  /** Keys that are not before k and do not equal it come after. */
  lemma NotEqualKeys(pairs: seq<Pair>, k: Bytes, n: nat, i: nat)
    requires KeysAscend(pairs, InternalLess) && n <= i < |pairs| && !InternalLess(pairs[n].key, k)
    requires UserOf(pairs[i].key) != UserOf(k) || TagOf(pairs[i].key) != TagOf(k)
    ensures InternalLess(k, pairs[i].key)
  {
    hide Comparators.Less, UserOf, TagOf;
    InternalOrder(pairs[n].key, pairs[i].key, k);
    InternalOrder(pairs[n].key, k, pairs[i].key);
    LessOrder(UserOf(pairs[i].key), UserOf(k), UserOf(k));
  }

  lemma InsertAscends(pairs: seq<Pair>, n: nat, p: Pair)
    requires KeysAscend(pairs, InternalLess) && n <= |pairs|
    requires forall i :: 0 <= i < n ==> InternalLess(pairs[i].key, p.key)
    requires forall i :: n <= i < |pairs| ==> InternalLess(p.key, pairs[i].key)
    ensures KeysAscend(pairs[..n] + [p] + pairs[n..], InternalLess)
  {
    hide InternalLess;
    forall i, j | 0 <= i < n <= j < |pairs| ensures InternalLess(pairs[i].key, pairs[j].key) {
    }
  }
}
