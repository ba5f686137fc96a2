/** The cache's hash table (HandleTable): buckets of chained handles, refining a map. */
module HandleTables {
  import opened InternalKeys

  /** What a handle is found by. */
  datatype Slot = Slot(key: string, hash: nat)

  /** A handle in a chain: its slot and its address. */
  datatype Item = Item(slot: Slot, id: nat)

  predicate PowerOfTwo(n: nat) { n == 1 || (n > 1 && n % 2 == 0 && PowerOfTwo(n / 2)) }

  /** Position of the chain's item for the slot; past the end if there is none (FindPointer). */
  function Position(chain: seq<Item>, slot: Slot): (n: nat)
    ensures n <= |chain|
    ensures n < |chain| ==> chain[n].slot == slot
    ensures forall i :: 0 <= i < n ==> chain[i].slot != slot
  {
    if chain == [] || chain[0].slot == slot then 0 else 1 + Position(chain[1..], slot)
  }

  /** Chains hold items of their own bucket, no slot twice. */
  ghost predicate ChainOk(chain: seq<Item>, bucket: nat, length: nat)
    requires length > 0
  {
    && (forall x :: x in chain ==> x.slot.hash % length == bucket)
    && (forall i, j :: 0 <= i < j < |chain| ==> chain[i].slot != chain[j].slot)
  }

  ghost predicate ChainsOk(list: seq<seq<Item>>) {
    forall b :: 0 <= b < |list| ==> ChainOk(list[b], b, |list|)
  }

  /** The chains hold exactly the items of the map. */
  ghost predicate Holds(list: seq<seq<Item>>, contents: map<Slot, nat>) {
    && list != [] && ChainsOk(list)
    && (forall b, x :: 0 <= b < |list| && x in list[b] ==> x.slot in contents && contents[x.slot] == x.id)
    && (forall s :: s in contents ==> Item(s, contents[s]) in list[s.hash % |list|])
  }

  /** In its bucket a slot is found exactly when the map has it. */
  lemma FindFinds(list: seq<seq<Item>>, contents: map<Slot, nat>, slot: Slot)
    requires Holds(list, contents)
    ensures var chain := list[slot.hash % |list|];
            var n := Position(chain, slot);
            (n < |chain| <==> slot in contents) && (n < |chain| ==> chain[n].id == contents[slot])
  {
    var chain := list[slot.hash % |list|];
    var n := Position(chain, slot);
    if n < |chain| {
      assert chain[n] in chain;
    }
    if slot in contents {
      var i :| 0 <= i < |chain| && chain[i] == Item(slot, contents[slot]);
    }
  }

  /** The chain with item in the place of the one with its slot, or at the end. */
  function Replaced(chain: seq<Item>, item: Item): seq<Item> {
    var n := Position(chain, item.slot);
    chain[..n] + [item] + if n < |chain| then chain[n + 1..] else []
  }

  function Removed(chain: seq<Item>, slot: Slot): seq<Item> {
    var n := Position(chain, slot);
    if n < |chain| then chain[..n] + chain[n + 1..] else chain
  }

  ghost predicate DistinctSlots(chain: seq<Item>) {
    forall i, j :: 0 <= i < j < |chain| ==> chain[i].slot != chain[j].slot
  }

  lemma ReplacedItems(chain: seq<Item>, item: Item)
    requires DistinctSlots(chain)
    ensures DistinctSlots(Replaced(chain, item))
    ensures forall x :: x in Replaced(chain, item) <==> x == item || (x in chain && x.slot != item.slot)
  {
    var n, after := Position(chain, item.slot), Replaced(chain, item);
    assert forall i :: 0 <= i < |after| ==> after[i] == if i == n then item else chain[i];
    forall x | x in chain && x.slot != item.slot ensures x in after {
      var i :| 0 <= i < |chain| && chain[i] == x;
      assert after[i] == x;
    }
    assert after[n] == item;
    forall i, j | 0 <= i < j < |after| ensures after[i].slot != after[j].slot {
      assert n < |chain| ==> chain[i].slot != chain[j].slot;
    }
  }

  lemma RemovedItems(chain: seq<Item>, slot: Slot)
    requires DistinctSlots(chain)
    ensures DistinctSlots(Removed(chain, slot))
    ensures forall x :: x in Removed(chain, slot) <==> x in chain && x.slot != slot
  {
    var n, after := Position(chain, slot), Removed(chain, slot);
    assert forall i :: 0 <= i < |after| ==> after[i] == chain[if i < n then i else i + 1];
    forall x | x in chain && x.slot != slot ensures x in after {
      var i :| 0 <= i < |chain| && chain[i] == x;
      assert after[if i < n then i else i - 1] == x;
    }
    forall i, j | 0 <= i < j < |after| ensures after[i].slot != after[j].slot {
      assert after[i] == chain[if i < n then i else i + 1] && after[j] == chain[if j < n then j else j + 1];
    }
  }

  /** Changing what one chain holds for one slot changes the map there. */
  lemma ChainChanged(list: seq<seq<Item>>, contents: map<Slot, nat>, slot: Slot, chain: seq<Item>,
                     contents': map<Slot, nat>)
    requires Holds(list, contents) && DistinctSlots(chain)
    requires forall x :: x in chain <==> (x in list[slot.hash % |list|] && x.slot != slot)
                                         || (x.slot == slot && slot in contents' && x.id == contents'[slot])
    requires forall s :: s != slot ==> (s in contents' <==> s in contents)
    requires forall s :: s != slot && s in contents ==> contents'[s] == contents[s]
    ensures Holds(list[slot.hash % |list| := chain], contents')
  {
    var b := slot.hash % |list|;
    var list' := list[b := chain];
    assert ChainOk(list[b], b, |list|);
    forall c | 0 <= c < |list'| ensures ChainOk(list'[c], c, |list'|) {
      assert ChainOk(list[c], c, |list|);
    }
    forall c: nat, x: Item | c < |list'| && x in list'[c] ensures x.slot in contents' && contents'[x.slot] == x.id {
      if c != b {
        assert ChainOk(list[c], c, |list|);
      }
    }
    forall s | s in contents' ensures Item(s, contents'[s]) in list'[s.hash % |list|] {
      if s != slot {
        assert Item(s, contents[s]) in list[s.hash % |list|];
      }
    }
  }

  lemma BucketDistinct(list: seq<seq<Item>>, contents: map<Slot, nat>, b: nat)
    requires Holds(list, contents) && b < |list|
    ensures DistinctSlots(list[b]) && forall x :: x in list[b] ==> x.slot in contents && contents[x.slot] == x.id
  {
    assert ChainOk(list[b], b, |list|);
  }

  lemma ReplaceHolds(list: seq<seq<Item>>, contents: map<Slot, nat>, item: Item)
    requires Holds(list, contents)
    ensures var b := item.slot.hash % |list|;
            Holds(list[b := Replaced(list[b], item)], contents[item.slot := item.id])
  {
    hide Replaced, DistinctSlots, ChainsOk;
    var b := item.slot.hash % |list|;
    BucketDistinct(list, contents, b);
    ReplacedItems(list[b], item);
    ChainChanged(list, contents, item.slot, Replaced(list[b], item), contents[item.slot := item.id]);
  }

  lemma RemoveHolds(list: seq<seq<Item>>, contents: map<Slot, nat>, slot: Slot)
    requires Holds(list, contents)
    ensures var b := slot.hash % |list|;
            Holds(list[b := Removed(list[b], slot)], contents - {slot})
  {
    hide Removed, DistinctSlots, ChainsOk;
    var b := slot.hash % |list|;
    BucketDistinct(list, contents, b);
    RemovedItems(list[b], slot);
    ChainChanged(list, contents, slot, Removed(list[b], slot), contents - {slot});
  }

  lemma AddHolds(list: seq<seq<Item>>, contents: map<Slot, nat>, item: Item)
    requires Holds(list, contents) && item.slot !in contents
    ensures var b := item.slot.hash % |list|;
            Holds(list[b := [item] + list[b]], contents[item.slot := item.id])
  {
    var b := item.slot.hash % |list|;
    BucketDistinct(list, contents, b);
    forall i | 0 <= i < |list[b]| ensures list[b][i].slot != item.slot {
      assert list[b][i] in list[b];
    }
    ChainChanged(list, contents, item.slot, [item] + list[b], contents[item.slot := item.id]);
  }

  class HandleTable {
    var length: nat
    var elems: nat
    var list: seq<seq<Item>>
    /** The map the table stands for. */
    ghost var contents: map<Slot, nat>

    /** There are never more handles than chains. */
    ghost predicate Valid()
      reads this
    {
      && |list| == length && length >= 4 && PowerOfTwo(length)
      && Holds(list, contents) && elems == |contents| <= length
    }

    constructor ()
      ensures Valid() && contents == map[] && length == 4
    {
      length, elems, list, contents := 4, 0, [[], [], [], []], map[];
    }

    method Lookup(slot: Slot) returns (r: Option<nat>)
      requires Valid()
      ensures r == if slot in contents then Some(contents[slot]) else None
    {
      FindFinds(list, contents, slot);
      var chain := list[slot.hash % length];
      var n := Position(chain, slot);
      r := if n < |chain| then Some(chain[n].id) else None;
    }

    /** Puts the handle in the place of the one with its slot, if any, and returns that one. */
    method Insert(slot: Slot, id: nat) returns (old': Option<nat>)
      requires Valid()
      modifies this
      ensures Valid() && contents == old(contents)[slot := id]
      ensures old' == if slot in old(contents) then Some(old(contents)[slot]) else None
      ensures if |contents| <= old(length) then length == old(length) else |contents| <= length < 2 * |contents|
    {
      hide Holds, Position, PowerOfTwo, Replaced;
      FindFinds(list, contents, slot);
      ReplaceHolds(list, contents, Item(slot, id));
      var b := slot.hash % length;
      var chain := list[b];
      var n := Position(chain, slot);
      old' := if n < |chain| then Some(chain[n].id) else None;
      list := list[b := Replaced(chain, Item(slot, id))];
      SizeAfter(contents, slot, id);
      contents := contents[slot := id];
      if old'.None? {
        elems := elems + 1;
        if elems > length {
          Resize();
        }
      }
    }

    method Remove(slot: Slot) returns (r: Option<nat>)
      requires Valid()
      modifies this
      ensures Valid() && contents == old(contents) - {slot} && length == old(length)
      ensures r == if slot in old(contents) then Some(old(contents)[slot]) else None
    {
      hide Holds, Position, PowerOfTwo, Removed;
      FindFinds(list, contents, slot);
      var b := slot.hash % length;
      var chain := list[b];
      var n := Position(chain, slot);
      if n < |chain| {
        RemoveHolds(list, contents, slot);
        r := Some(chain[n].id);
        list := list[b := Removed(chain, slot)];
        SizeWithout(contents, slot);
        contents := contents - {slot};
        elems := elems - 1;
      } else {
        r := None;
        assert contents - {slot} == contents;
      }
    }

    /** Resize: every chain is walked and its handles pushed onto the chains of a larger array; the map stays. */
    method Resize()
      requires |list| == length && length > 0 && Holds(list, contents) && elems == |contents|
      modifies this
      ensures Valid() && contents == old(contents) && elems == old(elems)
      ensures length == 4 || length < 2 * elems
    {
      hide Holds;
      var newLength := 4;
      while newLength < elems
        invariant newLength >= 4 && PowerOfTwo(newLength) && (newLength == 4 || newLength < 2 * elems)
      {
        newLength := newLength * 2;
      }
      var newList: seq<seq<Item>> := seq(newLength, _ => []);
      ghost var moved: map<Slot, nat> := map[];
      NothingHeld(newList);
      for i := 0 to length
        invariant |newList| == newLength && Holds(newList, moved) && Moved(list, contents, moved, i, 0)
        invariant list == old(list) && length == old(length) && contents == old(contents) && elems == old(elems)
      {
        for j := 0 to |list[i]|
          invariant |newList| == newLength && Holds(newList, moved) && Moved(list, contents, moved, i, j)
          invariant list == old(list) && length == old(length) && contents == old(contents) && elems == old(elems)
        {
          var h := list[i][j];
          MoveOne(list, contents, moved, i, j);
          AddHolds(newList, moved, h);
          var b := h.slot.hash % newLength;
          newList := newList[b := [h] + newList[b]];
          moved := moved[h.slot := h.id];
        }
        MovedChain(list, contents, moved, i);
      }
      AllMoved(list, contents, moved);
      list, length := newList, newLength;
    }
  }

  lemma SizeAfter(m: map<Slot, nat>, slot: Slot, id: nat)
    ensures |m[slot := id]| == if slot in m then |m| else |m| + 1
  {
    assert m[slot := id].Keys == m.Keys + {slot};
  }

  lemma SizeWithout(m: map<Slot, nat>, slot: Slot)
    requires slot in m
    ensures |m - {slot}| == |m| - 1
  {
    assert (m - {slot}).Keys == m.Keys - {slot};
  }

  lemma NothingHeld(list: seq<seq<Item>>)
    requires list != [] && forall b :: 0 <= b < |list| ==> list[b] == []
    ensures Holds(list, map[])
  {
  }

  /** Exactly the items of the first i chains, and the first j of the next, have been moved. */
  ghost predicate Moved(list: seq<seq<Item>>, contents: map<Slot, nat>, moved: map<Slot, nat>, i: nat, j: nat) {
    && i <= |list| && (j > 0 ==> i < |list| && j <= |list[i]|)
    && (forall s :: s in moved ==> s in contents && moved[s] == contents[s])
    && (forall b, k :: 0 <= b < |list| && 0 <= k < |list[b]|
                       ==> (list[b][k].slot in moved <==> b < i || (b == i && k < j)))
  }

  lemma MoveOne(list: seq<seq<Item>>, contents: map<Slot, nat>, moved: map<Slot, nat>, i: nat, j: nat)
    requires Holds(list, contents) && i < |list| && j < |list[i]| && Moved(list, contents, moved, i, j)
    ensures list[i][j].slot !in moved
    ensures Moved(list, contents, moved[list[i][j].slot := list[i][j].id], i, j + 1)
  {
    var h := list[i][j];
    assert h in list[i];
    forall b, k | 0 <= b < |list| && 0 <= k < |list[b]| && (b != i || k != j)
      ensures list[b][k].slot != h.slot
    {
      assert list[b][k] in list[b];
      assert ChainOk(list[i], i, |list|) && ChainOk(list[b], b, |list|);
    }
  }

  lemma MovedChain(list: seq<seq<Item>>, contents: map<Slot, nat>, moved: map<Slot, nat>, i: nat)
    requires i < |list| && Moved(list, contents, moved, i, |list[i]|)
    ensures Moved(list, contents, moved, i + 1, 0)
  {
  }

  lemma AllMoved(list: seq<seq<Item>>, contents: map<Slot, nat>, moved: map<Slot, nat>)
    requires Holds(list, contents) && Moved(list, contents, moved, |list|, 0)
    ensures moved == contents
  {
    forall s | s in contents ensures s in moved {
      var b := s.hash % |list|;
      var k :| 0 <= k < |list[b]| && list[b][k] == Item(s, contents[s]);
      assert list[b][k].slot in moved;
    }
  }
}
