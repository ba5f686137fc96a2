/** Memtables as sorted lists of entries (MemTable over the skip list). */
module MemTables {
  import opened InternalKeys
  import opened Visibility
  import opened Versions
  import opened Merging
  import opened Batches

  function InsertEntry(es: seq<Entry>, e: Entry): seq<Entry> {
    var n := LowerBound(es, e.key);
    es[..n] + [e] + es[n..]
  }

  lemma BoundParts(es: seq<Entry>, n: nat, e: Entry)
    requires Sorted(es) && n == LowerBound(es, e.key) && forall x :: x in es ==> x.key != e.key
    ensures Sorted(es[..n]) && Sorted(es[n..])
    ensures (forall x :: x in es[..n] ==> Less(x.key, e.key)) && (forall x :: x in es[n..] ==> Less(e.key, x.key))
  {
    forall x | x in es[n..] ensures Less(e.key, x.key) {
      var i :| n <= i < |es| && es[i] == x;
      assert es[n] in es && (i == n || Less(es[n].key, es[i].key));
    }
  }

  lemma JoinAround(a: seq<Entry>, e: Entry, b: seq<Entry>)
    requires Sorted(a) && Sorted(b)
    requires (forall x :: x in a ==> Less(x.key, e.key)) && (forall x :: x in b ==> Less(e.key, x.key))
    ensures Sorted(a + [e] + b)
  {
    hide Sorted, Less;
    Singleton(e);
    LessTrans(e);
    SortedAppend(a, [e]);
    SortedAppend(a + [e], b);
  }

  lemma InsertEntryKeeps(es: seq<Entry>, e: Entry)
    requires Sorted(es) && forall x :: x in es ==> x.key != e.key
    ensures Sorted(InsertEntry(es, e)) && ToSet(InsertEntry(es, e)) == ToSet(es) + {e}
  {
    hide Sorted, Less, ToSet;
    var n := LowerBound(es, e.key);
    BoundParts(es, n, e);
    JoinAround(es[..n], e, es[n..]);
    AroundMembers(es, n, e);
  }

  lemma AroundMembers(es: seq<Entry>, n: nat, e: Entry)
    requires n <= |es|
    ensures ToSet(es[..n] + [e] + es[n..]) == ToSet(es) + {e}
  {
    assert es == es[..n] + es[n..];
  }

  lemma Singleton(e: Entry)
    ensures Sorted([e])
  {
  }

  lemma LessTrans(e: Entry)
    ensures forall x: Entry, y: Entry :: Less(x.key, e.key) && Less(e.key, y.key) ==> Less(x.key, y.key)
  {
  }

  lemma NumberingSnoc(ops: seq<Op>, i: nat, first: nat)
    requires i < |ops|
    ensures Numbering(ops[..i + 1], first) == Numbering(ops[..i], first) + {EntryOf(ops[i], first + i)}
  {
    var all := Numbering(ops[..i + 1], first);
    assert EntryOf(ops[..i + 1][i], first + i) in all;
    forall e | e in Numbering(ops[..i], first) ensures e in all {
      var k :| 0 <= k < i && e == EntryOf(ops[..i][k], first + k);
      assert e == EntryOf(ops[..i + 1][k], first + k);
    }
    forall e | e in all && e != EntryOf(ops[i], first + i) ensures e in Numbering(ops[..i], first) {
      var k :| 0 <= k < i + 1 && e == EntryOf(ops[..i + 1][k], first + k);
      assert e == EntryOf(ops[..i][k], first + k);
    }
  }

  /** WriteBatchInternal::InsertInto: adds a batch to a memtable, numbered from first. */
  method InsertInto(ops: seq<Op>, first: nat, mem: seq<Entry>) returns (mem': seq<Entry>)
    requires Sorted(mem) && forall e :: e in mem ==> e.key.seqno < first
    ensures Sorted(mem') && ToSet(mem') == ToSet(mem) + Numbering(ops, first)
  {
    hide Sorted, Numbering, InsertEntry;
    mem' := mem;
    NumberingNone(first);
    assert ops[..0] == [];
    for i := 0 to |ops|
      invariant Sorted(mem') && ToSet(mem') == ToSet(mem) + Numbering(ops[..i], first)
      invariant forall e :: e in ToSet(mem') ==> e.key.seqno < first + i
    {
      var e := EntryOf(ops[i], first + i);
      assert forall x :: x in mem' ==> x in ToSet(mem');
      InsertEntryKeeps(mem', e);
      NumberingSnoc(ops, i, first);
      mem' := InsertEntry(mem', e);
    }
    assert ops[..|ops|] == ops;
  }

  lemma NumberingNone(first: nat)
    ensures Numbering([], first) == {}
  {
  }
}
