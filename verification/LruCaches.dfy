/** One shard of the LRU cache (util/cache.cc): a hash table, two intrusive lists and reference counts, changed in
    place, refining a map from slots to handles. */
module LruCaches {
  import opened InternalKeys
  import opened Rings
  import opened HandleTables

  /** The dummy heads of the two lists; handles are numbered from 2. */
  const LRU: nat := 0
  const IN_USE: nat := 1

  datatype Handle = Handle(slot: Slot, value: string, charge: nat, inCache: bool, refs: nat)

  type Handles = map<nat, Handle>

  /** References held outside the cache. */
  function Clients(h: Handle): int {
    h.refs - if h.inCache then 1 else 0
  }

  ghost predicate ListsOk(next: map<nat, nat>, prev: map<nat, nat>, lru: seq<nat>, inUse: seq<nat>) {
    && Ring(next, prev, LRU, lru) && Ring(next, prev, IN_USE, inUse)
    && (forall e :: e in lru ==> e >= 2 && e !in inUse) && (forall e :: e in inUse ==> e >= 2)
  }

  /** Every cached handle is on exactly one list: unreferenced ones on the LRU list, the others in use. */
  ghost predicate HandlesOk(handles: Handles, lru: seq<nat>, inUse: seq<nat>) {
    && (forall e :: e in handles ==> handles[e].refs >= 1
                                     && (e in lru <==> handles[e].inCache && handles[e].refs == 1)
                                     && (e in inUse <==> handles[e].inCache && handles[e].refs >= 2))
    && (forall e :: e in lru || e in inUse ==> e in handles)
  }

  /** The table maps exactly the slots of the cached handles to them, save one handle whose slot it has just
      lost. */
  ghost predicate TableOk(contents: map<Slot, nat>, handles: Handles, lost: Option<nat>) {
    && (forall s :: s in contents ==> contents[s] in handles && handles[contents[s]].inCache
                                      && handles[contents[s]].slot == s && Some(contents[s]) != lost)
    && (forall e :: e in handles && handles[e].inCache && Some(e) != lost
                    ==> handles[e].slot in contents && contents[handles[e].slot] == e)
  }

  function Charges(handles: Handles, es: seq<nat>): nat {
    if es == [] then 0
    else Charges(handles, es[..|es| - 1]) + if es[|es| - 1] in handles then handles[es[|es| - 1]].charge else 0
  }

  /** Every handle ever made is live or has been passed to its deleter, once. */
  ghost predicate Accounted(handles: Handles, deleted: seq<nat>, fresh': nat) {
    && Distinct(deleted) && (forall e :: e in deleted ==> e !in handles)
    && forall e :: 2 <= e < fresh' <==> e in handles || e in deleted
  }

  // ---- Lists without an element ------------------------------------------------------------------------------

  function Drop(es: seq<nat>, e: nat): seq<nat> {
    if es == [] then [] else if es[0] == e then es[1..] else [es[0]] + Drop(es[1..], e)
  }

  lemma {:induction false} DropIsWithout(es: seq<nat>, e: nat) returns (k: nat)
    requires Distinct(es) && e in es
    ensures k < |es| && es[k] == e && Drop(es, e) == Without(es, k)
  {
    if es[0] == e {
      k := 0;
    } else {
      var k' := DropIsWithout(es[1..], e);
      k := k' + 1;
    }
  }

  lemma {:induction false} DropNothing(es: seq<nat>, e: nat)
    requires e !in es
    ensures Drop(es, e) == es
  {
    if es != [] {
      DropNothing(es[1..], e);
    }
  }

  lemma DropMembers(es: seq<nat>, e: nat)
    requires Distinct(es)
    ensures forall x :: x in Drop(es, e) <==> x in es && x != e
  {
    if e in es {
      var k := DropIsWithout(es, e);
      var r := Without(es, k);
      forall x | x in es && x != e ensures x in r {
        var i :| 0 <= i < |es| && es[i] == x;
        assert r[if i < k then i else i - 1] == x;
      }
      forall x | x in r ensures x in es && x != e {
        var i :| 0 <= i < |r| && r[i] == x;
        Apart(es, if i < k then i else i + 1, k);
      }
    } else {
      DropNothing(es, e);
    }
  }

  lemma ChargesSnoc(handles: Handles, es: seq<nat>, e: nat)
    requires e in handles
    ensures Charges(handles, es + [e]) == Charges(handles, es) + handles[e].charge
  {
    assert (es + [e])[..|es|] == es;
  }

  lemma {:induction false} ChargesConcat(handles: Handles, a: seq<nat>, b: seq<nat>)
    ensures Charges(handles, a + b) == Charges(handles, a) + Charges(handles, b)
  {
    if b == [] {
      assert a + b == a;
    } else {
      var n := |b| - 1;
      assert (a + b)[..|a| + n] == a + b[..n];
      ChargesConcat(handles, a, b[..n]);
    }
  }

  lemma ChargesDrop(handles: Handles, es: seq<nat>, e: nat)
    requires Distinct(es) && e in es && e in handles
    ensures Charges(handles, Drop(es, e)) == Charges(handles, es) - handles[e].charge
  {
    var k := DropIsWithout(es, e);
    assert es == es[..k] + [e] + es[k + 1..];
    ChargesConcat(handles, es[..k] + [e], es[k + 1..]);
    ChargesSnoc(handles, es[..k], e);
    ChargesConcat(handles, es[..k], es[k + 1..]);
  }

  lemma {:induction false} ChargesSame(a: Handles, b: Handles, es: seq<nat>)
    requires forall e :: e in es ==> e in a && e in b && a[e].charge == b[e].charge
    ensures Charges(a, es) == Charges(b, es)
  {
    if es != [] {
      assert es[|es| - 1] in es;
      ChargesSame(a, b, es[..|es| - 1]);
    }
  }

  // ---- Lists under Remove and Append -------------------------------------------------------------------------

  lemma ListsSeparate(next: map<nat, nat>, prev: map<nat, nat>, lru: seq<nat>, inUse: seq<nat>)
    requires ListsOk(next, prev, lru, inUse)
    ensures Separate(LRU, lru, IN_USE, inUse) && Separate(IN_USE, inUse, LRU, lru)
    ensures Distinct(lru) && Distinct(inUse)
  {
    RingFacts(next, prev, LRU, lru);
    RingFacts(next, prev, IN_USE, inUse);
    assert forall i :: 0 <= i < |lru| ==> lru[i] in lru;
    assert forall i :: 0 <= i < |inUse| ==> inUse[i] in inUse;
  }

  lemma RemoveKeepsLists(next: map<nat, nat>, prev: map<nat, nat>, lru: seq<nat>, inUse: seq<nat>, e: nat)
    requires ListsOk(next, prev, lru, inUse) && (e in lru || e in inUse)
    ensures e in next && e in prev
    ensures ListsOk(UnlinkNext(next, prev, e), UnlinkPrev(next, prev, e), Drop(lru, e), Drop(inUse, e))
  {
    hide Ring, UnlinkNext, UnlinkPrev, Separate, Drop, Distinct;
    ListsSeparate(next, prev, lru, inUse);
    DropMembers(lru, e);
    DropMembers(inUse, e);
    if e in lru {
      var k := DropIsWithout(lru, e);
      DropNothing(inUse, e);
      UnlinkKeepsRing(next, prev, LRU, lru, k);
      UnlinkKeepsOther(next, prev, LRU, lru, k, IN_USE, inUse);
    } else {
      var k := DropIsWithout(inUse, e);
      DropNothing(lru, e);
      UnlinkKeepsRing(next, prev, IN_USE, inUse, k);
      UnlinkKeepsOther(next, prev, IN_USE, inUse, k, LRU, lru);
    }
  }

  lemma AppendKeepsLists(next: map<nat, nat>, prev: map<nat, nat>, lru: seq<nat>, inUse: seq<nat>, e: nat)
    requires ListsOk(next, prev, lru, inUse) && e >= 2 && e !in lru && e !in inUse
    ensures LRU in prev && IN_USE in prev
    ensures ListsOk(LinkNext(next, prev, LRU, e), LinkPrev(prev, LRU, e), lru + [e], inUse)
    ensures ListsOk(LinkNext(next, prev, IN_USE, e), LinkPrev(prev, IN_USE, e), lru, inUse + [e])
  {
    hide Ring, LinkNext, LinkPrev, Separate, Distinct;
    ListsSeparate(next, prev, lru, inUse);
    LinkKeepsRing(next, prev, LRU, lru, e);
    LinkKeepsOther(next, prev, LRU, lru, e, IN_USE, inUse);
    LinkKeepsRing(next, prev, IN_USE, inUse, e);
    LinkKeepsOther(next, prev, IN_USE, inUse, e, LRU, lru);
  }

  /** All that holds of the cache's fields, whatever the table says. */
  ghost predicate Sound(next: map<nat, nat>, prev: map<nat, nat>, handles: Handles, usage: nat, lru: seq<nat>,
                        inUse: seq<nat>, deleted: seq<nat>, fresh': nat) {
    && ListsOk(next, prev, lru, inUse) && HandlesOk(handles, lru, inUse)
    && usage == Charges(handles, lru) + Charges(handles, inUse)
    && Accounted(handles, deleted, fresh')
  }

  // ---- What the primitives do to the handles -------------------------------------------------------------------

  function Refed(handles: Handles, e: nat): Handles
    requires e in handles
  {
    handles[e := handles[e].(refs := handles[e].refs + 1)]
  }

  /** One reference less; without any, the handle is gone. */
  function Unrefed(handles: Handles, e: nat): Handles
    requires e in handles
  {
    if handles[e].refs <= 1 then handles - {e} else handles[e := handles[e].(refs := handles[e].refs - 1)]
  }

  /** Out of the cache: the cache's reference is given up. */
  function Dropped(handles: Handles, e: nat): Handles
    requires e in handles
  {
    handles[e := handles[e].(inCache := false)]
  }

  /** The deleter runs when the last reference goes. */
  function DeletedBy(handles: Handles, e: nat): seq<nat>
    requires e in handles
  {
    if handles[e].refs <= 1 then [e] else []
  }

  predicate Unreferenced(handles: Handles, e: nat)
    requires e in handles
  {
    handles[e].inCache && handles[e].refs == 1
  }

  /** This reference is the only one besides the cache's. */
  predicate LastClient(handles: Handles, e: nat)
    requires e in handles
  {
    handles[e].inCache && handles[e].refs == 2
  }

  /** A cached handle is on exactly one of the lists; its charge leaves the sum with it. */
  lemma OneListCharges(handles: Handles, lru: seq<nat>, inUse: seq<nat>, e: nat)
    requires Distinct(lru) && Distinct(inUse) && (forall x :: x in lru ==> x !in inUse) && e in handles
    requires e in lru || e in inUse
    ensures Charges(handles, Drop(lru, e)) + Charges(handles, Drop(inUse, e))
            == Charges(handles, lru) + Charges(handles, inUse) - handles[e].charge
  {
    if e in lru {
      ChargesDrop(handles, lru, e);
      DropNothing(inUse, e);
    } else {
      ChargesDrop(handles, inUse, e);
      DropNothing(lru, e);
    }
  }

  lemma DroppedCharges(a: Handles, b: Handles, lru: seq<nat>, inUse: seq<nat>, e: nat)
    requires e in a && b == a[e := a[e].(inCache := false)]
    requires forall x :: x in lru || x in inUse ==> x in a
    ensures Charges(b, lru) == Charges(a, lru) && Charges(b, inUse) == Charges(a, inUse)
  {
    ChargesSame(a, b, lru);
    ChargesSame(a, b, inUse);
  }

  lemma UnrefCharges(a: Handles, b: Handles, lru: seq<nat>, inUse: seq<nat>, e: nat)
    requires e in a && a[e].refs > 0 && b == a[e := a[e].(refs := a[e].refs - 1)]
    requires forall x :: x in lru || x in inUse ==> x in a
    ensures Charges(b, lru) == Charges(a, lru) && Charges(b, inUse) == Charges(a, inUse)
  {
    ChargesSame(a, b, lru);
    ChargesSame(a, b, inUse);
  }

  lemma RefKeepsHandles(handles: Handles, lru: seq<nat>, inUse: seq<nat>, e: nat)
    requires HandlesOk(handles, lru, inUse) && e in handles && Distinct(lru)
    ensures HandlesOk(handles[e := handles[e].(refs := handles[e].refs + 1)], Drop(lru, e),
                      if e in lru then inUse + [e] else inUse)
  {
    DropMembers(lru, e);
  }

  lemma UnrefKeepsHandles(handles: Handles, lru: seq<nat>, inUse: seq<nat>, e: nat)
    requires HandlesOk(handles, lru, inUse) && e in handles && Clients(handles[e]) > 0 && Distinct(inUse)
    ensures handles[e].refs == 1 ==> e !in lru && e !in inUse && HandlesOk(handles - {e}, lru, inUse)
    ensures handles[e].refs > 1 ==>
              var moves := handles[e].inCache && handles[e].refs == 2;
              (moves ==> e in inUse) &&
              HandlesOk(handles[e := handles[e].(refs := handles[e].refs - 1)], if moves then lru + [e] else lru,
                        if moves then Drop(inUse, e) else inUse)
  {
    DropMembers(inUse, e);
  }

  lemma DropKeepsHandles(handles: Handles, lru: seq<nat>, inUse: seq<nat>, e: nat)
    requires HandlesOk(handles, lru, inUse) && e in handles && handles[e].inCache && Distinct(lru) && Distinct(inUse)
    ensures e in lru || e in inUse
    ensures HandlesOk(handles[e := handles[e].(inCache := false)], Drop(lru, e), Drop(inUse, e))
    ensures forall x :: x in Drop(lru, e) || x in Drop(inUse, e) ==> x in handles
  {
    DropMembers(lru, e);
    DropMembers(inUse, e);
  }

  lemma AccountedDeleted(handles: Handles, deleted: seq<nat>, fresh': nat, e: nat)
    requires Accounted(handles, deleted, fresh') && e in handles
    ensures Accounted(handles - {e}, deleted + [e], fresh')
  {
    forall i | 0 <= i < |deleted| ensures deleted[i] != e {
      assert deleted[i] in deleted;
    }
  }

  lemma TableFacts(contents: map<Slot, nat>, handles: Handles, slot: Slot)
    requires TableOk(contents, handles, None)
    ensures slot in contents ==> contents[slot] in handles && handles[contents[slot]].inCache
                                 && handles[contents[slot]].slot == slot
  {
  }

  lemma TableAfterRemove(contents: map<Slot, nat>, handles: Handles, slot: Slot)
    requires TableOk(contents, handles, None)
    ensures TableOk(contents - {slot}, handles, if slot in contents then Some(contents[slot]) else None)
  {
  }

  lemma TableAfterErase(contents: map<Slot, nat>, handles: Handles, e: nat)
    requires TableOk(contents, handles, Some(e)) && e in handles
    ensures TableOk(contents, Unrefed(Dropped(handles, e), e), None)
  {
  }

  lemma SoundFacts(next: map<nat, nat>, prev: map<nat, nat>, handles: Handles, usage: nat, lru: seq<nat>,
                   inUse: seq<nat>, deleted: seq<nat>, fresh': nat)
    requires Sound(next, prev, handles, usage, lru, inUse, deleted, fresh')
    ensures Distinct(lru) && Distinct(inUse) && LRU in next && LRU in prev && IN_USE in prev
    ensures (if lru == [] then next[LRU] == LRU else next[LRU] == lru[0] && lru[0] != LRU)
    ensures forall e :: e in handles ==> handles[e].refs >= 1 && (e in lru <==> Unreferenced(handles, e))
    ensures forall e :: e in lru ==> e in handles && e >= 2
    ensures fresh' >= 2 ==> fresh' !in handles
  {
    ListFacts(next, prev, lru, inUse);
    RingFacts(next, prev, LRU, lru);
    RingFacts(next, prev, IN_USE, inUse);
    assert lru != [] ==> lru[0] in lru;
  }

  lemma RefsPositive(next: map<nat, nat>, prev: map<nat, nat>, handles: Handles, usage: nat, lru: seq<nat>,
                     inUse: seq<nat>, deleted: seq<nat>, fresh': nat, e: nat)
    requires Sound(next, prev, handles, usage, lru, inUse, deleted, fresh') && e in handles
    ensures handles[e].refs >= 1
  {
    hide ListsOk, Charges, Accounted;
  }

  lemma RefInPlace(next: map<nat, nat>, prev: map<nat, nat>, handles: Handles, usage: nat, lru: seq<nat>,
                   inUse: seq<nat>, deleted: seq<nat>, fresh': nat, e: nat)
    requires Sound(next, prev, handles, usage, lru, inUse, deleted, fresh') && e in handles && !Unreferenced(handles, e)
    ensures Drop(lru, e) == lru && Sound(next, prev, Refed(handles, e), usage, lru, inUse, deleted, fresh')
  {
    hide ListsOk, HandlesOk, Charges, Accounted;
    RefHandles(handles, lru, inUse, e);
    ListFacts(next, prev, lru, inUse);
    RefKeepsHandles(handles, lru, inUse, e);
    DropNothing(lru, e);
    RefCharges(handles, Refed(handles, e), lru, inUse, e);
    AccountedSame(handles, Refed(handles, e), deleted, fresh');
  }

  lemma RefMoves(next: map<nat, nat>, prev: map<nat, nat>, handles: Handles, usage: nat, lru: seq<nat>,
                 inUse: seq<nat>, deleted: seq<nat>, fresh': nat, e: nat)
    requires Sound(next, prev, handles, usage, lru, inUse, deleted, fresh') && e in handles && Unreferenced(handles, e)
    ensures e in next && e in prev
    ensures var n, p := UnlinkNext(next, prev, e), UnlinkPrev(next, prev, e);
            && IN_USE in p && Sound(LinkNext(n, p, IN_USE, e), LinkPrev(p, IN_USE, e), Refed(handles, e), usage,
                                    Drop(lru, e), inUse + [e], deleted, fresh')
  {
    hide ListsOk, HandlesOk, Charges, Accounted, UnlinkNext, UnlinkPrev, LinkNext, LinkPrev;
    RefHandles(handles, lru, inUse, e);
    ListFacts(next, prev, lru, inUse);
    RefKeepsHandles(handles, lru, inUse, e);
    RemoveKeepsLists(next, prev, lru, inUse, e);
    DropMembers(lru, e);
    DropNothing(inUse, e);
    AppendKeepsLists(UnlinkNext(next, prev, e), UnlinkPrev(next, prev, e), Drop(lru, e), inUse, e);
    ChargesDrop(handles, lru, e);
    ChargesSnoc(handles, inUse, e);
    RefCharges(handles, Refed(handles, e), Drop(lru, e), inUse + [e], e);
    AccountedSame(handles, Refed(handles, e), deleted, fresh');
  }

  lemma UnrefInPlace(next: map<nat, nat>, prev: map<nat, nat>, handles: Handles, usage: nat, lru: seq<nat>,
                     inUse: seq<nat>, deleted: seq<nat>, fresh': nat, e: nat)
    requires Sound(next, prev, handles, usage, lru, inUse, deleted, fresh') && e in handles
    requires Clients(handles[e]) > 0 && !LastClient(handles, e)
    ensures Sound(next, prev, Unrefed(handles, e), usage, lru, inUse, deleted + DeletedBy(handles, e), fresh')
  {
    hide ListsOk, HandlesOk, Charges, Accounted;
    ListFacts(next, prev, lru, inUse);
    RefHandles(handles, lru, inUse, e);
    UnrefKeepsHandles(handles, lru, inUse, e);
    if handles[e].refs <= 1 {
      ChargesSame(handles, handles - {e}, lru);
      ChargesSame(handles, handles - {e}, inUse);
      AccountedDeleted(handles, deleted, fresh', e);
    } else {
      assert deleted + [] == deleted;
      UnrefCharges(handles, Unrefed(handles, e), lru, inUse, e);
      AccountedSame(handles, Unrefed(handles, e), deleted, fresh');
    }
  }

  lemma UnrefMoves(next: map<nat, nat>, prev: map<nat, nat>, handles: Handles, usage: nat, lru: seq<nat>,
                   inUse: seq<nat>, deleted: seq<nat>, fresh': nat, e: nat)
    requires Sound(next, prev, handles, usage, lru, inUse, deleted, fresh') && e in handles && LastClient(handles, e)
    ensures e in next && e in prev && deleted + DeletedBy(handles, e) == deleted
    ensures var n, p := UnlinkNext(next, prev, e), UnlinkPrev(next, prev, e);
            && LRU in p && Sound(LinkNext(n, p, LRU, e), LinkPrev(p, LRU, e), Unrefed(handles, e), usage,
                                 lru + [e], Drop(inUse, e), deleted, fresh')
  {
    hide ListsOk, HandlesOk, Charges, Accounted, UnlinkNext, UnlinkPrev, LinkNext, LinkPrev;
    RefHandles(handles, lru, inUse, e);
    ListFacts(next, prev, lru, inUse);
    UnrefKeepsHandles(handles, lru, inUse, e);
    RemoveKeepsLists(next, prev, lru, inUse, e);
    DropMembers(inUse, e);
    DropNothing(lru, e);
    AppendKeepsLists(UnlinkNext(next, prev, e), UnlinkPrev(next, prev, e), lru, Drop(inUse, e), e);
    ChargesDrop(handles, inUse, e);
    ChargesSnoc(handles, lru, e);
    UnrefCharges(handles, Unrefed(handles, e), lru + [e], Drop(inUse, e), e);
    AccountedSame(handles, Unrefed(handles, e), deleted, fresh');
  }

  lemma DropKeeps(next: map<nat, nat>, prev: map<nat, nat>, handles: Handles, usage: nat, lru: seq<nat>,
                  inUse: seq<nat>, deleted: seq<nat>, fresh': nat, e: nat)
    requires Sound(next, prev, handles, usage, lru, inUse, deleted, fresh') && e in handles && handles[e].inCache
    ensures e in next && e in prev && handles[e].charge <= usage
    ensures Sound(UnlinkNext(next, prev, e), UnlinkPrev(next, prev, e), Dropped(handles, e), usage - handles[e].charge,
                  Drop(lru, e), Drop(inUse, e), deleted, fresh')
    ensures Clients(Dropped(handles, e)[e]) > 0 && !LastClient(Dropped(handles, e), e)
  {
    hide ListsOk, Charges, Accounted, UnlinkNext, UnlinkPrev;
    ListFacts(next, prev, lru, inUse);
    RefHandles(handles, lru, inUse, e);
    DropKeepsHandles(handles, lru, inUse, e);
    RemoveKeepsLists(next, prev, lru, inUse, e);
    OneListCharges(handles, lru, inUse, e);
    DroppedCharges(handles, Dropped(handles, e), Drop(lru, e), Drop(inUse, e), e);
    AccountedSame(handles, Dropped(handles, e), deleted, fresh');
  }

  /** A new handle: known to the cache, with references for the cache and the caller, or only to the caller. */
  lemma NewCached(next: map<nat, nat>, prev: map<nat, nat>, handles: Handles, usage: nat, lru: seq<nat>,
                  inUse: seq<nat>, deleted: seq<nat>, fresh': nat, h: Handle)
    requires Sound(next, prev, handles, usage, lru, inUse, deleted, fresh') && fresh' >= 2 && h.inCache && h.refs == 2
    ensures IN_USE in prev
    ensures Sound(LinkNext(next, prev, IN_USE, fresh'), LinkPrev(prev, IN_USE, fresh'), handles[fresh' := h],
                  usage + h.charge, lru, inUse + [fresh'], deleted, fresh' + 1)
  {
    hide ListsOk, Charges, LinkNext, LinkPrev;
    assert fresh' !in lru && fresh' !in inUse;
    AppendKeepsLists(next, prev, lru, inUse, fresh');
    ChargesSame(handles, handles[fresh' := h], lru);
    ChargesSame(handles, handles[fresh' := h], inUse);
    ChargesSnoc(handles[fresh' := h], inUse, fresh');
  }

  lemma NewUncached(next: map<nat, nat>, prev: map<nat, nat>, handles: Handles, usage: nat, lru: seq<nat>,
                    inUse: seq<nat>, deleted: seq<nat>, fresh': nat, h: Handle)
    requires Sound(next, prev, handles, usage, lru, inUse, deleted, fresh') && fresh' >= 2 && !h.inCache && h.refs == 1
    ensures Sound(next, prev, handles[fresh' := h], usage, lru, inUse, deleted, fresh' + 1)
  {
    hide ListsOk, Charges;
    ChargesSame(handles, handles[fresh' := h], lru);
    ChargesSame(handles, handles[fresh' := h], inUse);
  }

  class LruCache {
    const capacity: nat
    const table: HandleTable
    var usage: nat
    var next: map<nat, nat>
    var prev: map<nat, nat>
    var handles: Handles
    var fresh': nat
    /** Handles passed to their deleters, in order. */
    var deleted: seq<nat>
    /** Least recently used first. */
    ghost var lru: seq<nat>
    ghost var inUse: seq<nat>

    ghost predicate Core()
      reads this
    {
      fresh' >= 2 && Sound(next, prev, handles, usage, lru, inUse, deleted, fresh')
    }

    ghost predicate Valid()
      reads this, table
    {
      Core() && table.Valid() && TableOk(table.contents, handles, None)
    }

    constructor (capacity: nat)
      ensures Valid() && this.capacity == capacity && table.contents == map[] && handles == map[] && deleted == []
      ensures fresh(table)
    {
      this.capacity := capacity;
      table := new HandleTable();
      usage, fresh', handles, deleted := 0, 2, map[], [];
      next, prev := map[LRU := LRU, IN_USE := IN_USE], map[LRU := LRU, IN_USE := IN_USE];
      lru, inUse := [], [];
      new;
      EmptyLists();
    }

    method LRU_Remove(e: nat)
      requires e in next && e in prev
      modifies this`next, this`prev
      ensures next == old(UnlinkNext(next, prev, e)) && prev == old(UnlinkPrev(next, prev, e))
    {
      next, prev := next[prev[e] := next[e]], prev[next[e] := prev[e]];
    }

    method LRU_Append(list: nat, e: nat)
      requires list in prev
      modifies this`next, this`prev
      ensures next == old(LinkNext(next, prev, list, e)) && prev == old(LinkPrev(prev, list, e))
    {
      var last := prev[list];
      next := next[e := list][last := e];
      prev := prev[e := last][list := e];
    }

    /** Another reference; a handle on the LRU list comes into use. */
    method Ref(e: nat)
      requires Core() && e in handles
      modifies this
      ensures Core() && usage == old(usage) && deleted == old(deleted) && fresh' == old(fresh')
      ensures handles == Refed(old(handles), e) && lru == Drop(old(lru), e)
    {
      hide Sound, UnlinkNext, UnlinkPrev, LinkNext, LinkPrev;
      if handles[e].refs == 1 && handles[e].inCache {
        RefMoves(next, prev, handles, usage, lru, inUse, deleted, fresh', e);
        LRU_Remove(e);
        LRU_Append(IN_USE, e);
        lru, inUse := Drop(lru, e), inUse + [e];
      } else {
        RefInPlace(next, prev, handles, usage, lru, inUse, deleted, fresh', e);
      }
      handles := handles[e := handles[e].(refs := handles[e].refs + 1)];
    }

    /** A reference given up: the last one passes the handle to its deleter, the last one outside the cache puts it
        at the recent end of the LRU list. */
    method Unref(e: nat)
      requires Core() && e in handles && Clients(handles[e]) > 0
      modifies this
      ensures Core() && usage == old(usage) && fresh' == old(fresh')
      ensures handles == Unrefed(old(handles), e) && deleted == old(deleted) + DeletedBy(old(handles), e)
      ensures lru == if LastClient(old(handles), e) then old(lru) + [e] else old(lru)
    {
      hide Sound, UnlinkNext, UnlinkPrev, LinkNext, LinkPrev;
      SoundFacts(next, prev, handles, usage, lru, inUse, deleted, fresh');
      var h := handles[e];
      ghost var hs := handles;
      if h.refs == 1 {
        UnrefInPlace(next, prev, handles, usage, lru, inUse, deleted, fresh', e);
        handles, deleted := handles - {e}, deleted + [e];
      } else {
        if h.inCache && h.refs == 2 {
          UnrefMoves(next, prev, handles, usage, lru, inUse, deleted, fresh', e);
          LRU_Remove(e);
          LRU_Append(LRU, e);
          lru, inUse := lru + [e], Drop(inUse, e);
        } else {
          UnrefInPlace(next, prev, handles, usage, lru, inUse, deleted, fresh', e);
          assert deleted + [] == deleted;
        }
        handles := handles[e := h.(refs := h.refs - 1)];
      }
    }

    /** The part of Insert that makes the new handle and enters it, in place of the one with its slot. */
    method Add(slot: Slot, value: string, charge: nat) returns (e: nat, ghost replaced: Option<nat>)
      requires Valid()
      modifies this, table
      ensures Valid() && e == old(fresh') && fresh' == e + 1 && e !in lru
      ensures replaced == if capacity > 0 && slot in old(table.contents) then Some(old(table.contents)[slot]) else None
      ensures replaced.Some? ==> replaced.value in old(handles)
      ensures lru == if replaced.Some? then Drop(old(lru), replaced.value) else old(lru)
      ensures table.contents == if capacity > 0 then old(table.contents)[slot := e] else old(table.contents)
      ensures deleted == old(deleted) + if replaced.Some? then DeletedBy(old(handles), replaced.value) else []
      ensures e in handles
      ensures handles[e] == Handle(slot, value, charge, capacity > 0, if capacity > 0 then 2 else 1)
      ensures var all := old(handles)[e := handles[e]];
              handles == if replaced.Some? then Unrefed(Dropped(all, replaced.value), replaced.value) else all
      ensures usage == old(usage) + (if capacity > 0 then charge else 0)
                       - if replaced.Some? then old(handles)[replaced.value].charge else 0
      ensures forall x :: x in lru ==> x in old(handles) && x in handles && handles[x] == old(handles)[x]
    {
      hide Sound, TableOk, Unrefed, Dropped, DeletedBy, Drop, Holds, PowerOfTwo;
      SoundFacts(next, prev, handles, usage, lru, inUse, deleted, fresh');
      e, replaced := fresh', None;
      if capacity > 0 {
        replaced := AddCached(Handle(slot, value, charge, true, 2));
      } else {
        var h := Handle(slot, value, charge, false, 1);
        NewUncached(next, prev, handles, usage, lru, inUse, deleted, fresh', h);
        TableAfterUncached(table.contents, handles, e, h);
        handles, fresh' := handles[e := h], fresh' + 1;
        assert deleted == old(deleted) + [];
      }
    }

    method AddCached(h: Handle) returns (replaced: Option<nat>)
      requires Valid() && h.inCache && h.refs == 2
      modifies this, table
      ensures Valid() && fresh' == old(fresh') + 1 && old(fresh') !in lru
      ensures replaced == if h.slot in old(table.contents) then Some(old(table.contents)[h.slot]) else None
      ensures replaced.Some? ==> replaced.value in old(handles)
      ensures lru == if replaced.Some? then Drop(old(lru), replaced.value) else old(lru)
      ensures table.contents == old(table.contents)[h.slot := old(fresh')]
      ensures deleted == old(deleted) + if replaced.Some? then DeletedBy(old(handles), replaced.value) else []
      ensures old(fresh') in handles && handles[old(fresh')] == h
      ensures var all := old(handles)[old(fresh') := h];
              handles == if replaced.Some? then Unrefed(Dropped(all, replaced.value), replaced.value) else all
      ensures usage == old(usage) + h.charge - if replaced.Some? then old(handles)[replaced.value].charge else 0
      ensures forall x :: x in lru ==> x in old(handles) && x in handles && handles[x] == old(handles)[x]
    {
      hide Sound, TableOk, Unrefed, Dropped, DeletedBy, Drop, LinkNext, LinkPrev, Holds, PowerOfTwo;
      ghost var hs, e := handles, fresh';
      SoundFacts(next, prev, handles, usage, lru, inUse, deleted, fresh');
      TableFacts(table.contents, handles, h.slot);
      NewCached(next, prev, handles, usage, lru, inUse, deleted, fresh', h);
      TableAfterNew(table.contents, handles, h.slot, fresh', h);
      LRU_Append(IN_USE, fresh');
      handles := handles[fresh' := h];
      inUse := inUse + [fresh'];
      usage := usage + h.charge;
      replaced := table.Insert(h.slot, fresh');
      fresh' := fresh' + 1;
      if replaced.Some? {
        ReplacedHandle(hs, e, h, replaced.value, lru);
      } else {
        assert deleted == deleted + [];
      }
      var _ := FinishErase(replaced);
    }

    /** Takes a handle the table has just lost out of the cache and gives up the cache's reference. */
    method FinishErase(e: Option<nat>) returns (erased: bool)
      requires Core() && TableOk(table.contents, handles, e)
      requires e.Some? ==> e.value in handles && handles[e.value].inCache
      modifies this
      ensures Core() && TableOk(table.contents, handles, None) && erased == e.Some? && fresh' == old(fresh')
      ensures e.None? ==> handles == old(handles) && deleted == old(deleted) && lru == old(lru) && usage == old(usage)
      ensures e.Some? ==> handles == Unrefed(Dropped(old(handles), e.value), e.value)
                          && deleted == old(deleted) + DeletedBy(old(handles), e.value)
                          && lru == Drop(old(lru), e.value)
                          && usage == old(usage) - old(handles)[e.value].charge
    {
      hide Sound, UnlinkNext, UnlinkPrev, TableOk, Clients, Unrefed;
      if e.Some? {
        var x := e.value;
        DropKeeps(next, prev, handles, usage, lru, inUse, deleted, fresh', x);
        TableAfterErase(table.contents, handles, x);
        LRU_Remove(x);
        usage := usage - handles[x].charge;
        lru, inUse := Drop(lru, x), Drop(inUse, x);
        handles := handles[x := handles[x].(inCache := false)];
        Unref(x);
      }
      erased := e.Some?;
    }

    /** Lookup agrees with the map, and pins what it returns. */
    method Lookup(slot: Slot) returns (e: Option<nat>)
      requires Valid()
      modifies this
      ensures Valid() && deleted == old(deleted) && usage == old(usage) && fresh' == old(fresh')
      ensures e == if slot in table.contents then Some(table.contents[slot]) else None
      ensures e.None? ==> handles == old(handles) && lru == old(lru)
      ensures e.Some? ==> e.value in old(handles) && lru == Drop(old(lru), e.value)
                          && handles == old(handles)[e.value := old(handles)[e.value].(refs := old(handles)[e.value].refs + 1)]
    {
      hide Sound, TableOk;
      TableFacts(table.contents, handles, slot);
      e := table.Lookup(slot);
      if e.Some? {
        TableAfterRef(table.contents, handles, e.value);
        Ref(e.value);
      }
    }

    method Release(e: nat)
      requires Valid() && e in handles && Clients(handles[e]) > 0
      modifies this
      ensures Valid() && usage == old(usage) && fresh' == old(fresh')
      ensures old(handles)[e].refs == 1 ==> handles == old(handles) - {e} && deleted == old(deleted) + [e]
      ensures old(handles)[e].refs > 1
              ==> handles == old(handles)[e := old(handles)[e].(refs := old(handles)[e].refs - 1)] && deleted == old(deleted)
      ensures lru == if old(handles)[e].inCache && old(handles)[e].refs == 2 then old(lru) + [e] else old(lru)
    {
      hide Sound, TableOk;
      SoundFacts(next, prev, handles, usage, lru, inUse, deleted, fresh');
      assert deleted + [] == deleted;
      TableAfterUnref(table.contents, handles, e);
      Unref(e);
    }

    method Erase(slot: Slot)
      requires Valid()
      modifies this, table
      ensures Valid() && table.contents == old(table.contents) - {slot} && fresh' == old(fresh')
      ensures slot !in old(table.contents) ==>
                handles == old(handles) && deleted == old(deleted) && lru == old(lru) && usage == old(usage)
      ensures slot in old(table.contents) ==>
                var x := old(table.contents)[slot];
                && x in old(handles) && old(handles)[x].refs >= 1 && GaveUp(old(handles), x, handles, old(deleted), deleted)
                && lru == Drop(old(lru), x) && usage == old(usage) - old(handles)[x].charge
    {
      hide Sound, TableOk, Unrefed, Dropped, DeletedBy, GaveUp;
      TableFacts(table.contents, handles, slot);
      TableAfterRemove(table.contents, handles, slot);
      var e := table.Remove(slot);
      ghost var hs, before := handles, deleted;
      if e.Some? {
        RefsPositive(next, prev, handles, usage, lru, inUse, deleted, fresh', e.value);
      }
      var _ := FinishErase(e);
      if e.Some? {
        Erased(hs, e.value, handles, before, deleted);
      }
    }

    /** Evicts the oldest unreferenced handle. */
    method EvictOldest()
      requires Valid() && lru != []
      modifies this, table
      ensures Valid() && fresh' == old(fresh') && lru == old(lru)[1..] && deleted == old(deleted) + [old(lru)[0]]
      ensures old(lru)[0] in old(handles) && handles == old(handles) - {old(lru)[0]}
      ensures old(handles)[old(lru)[0]].slot in old(table.contents)
      ensures table.contents == old(table.contents) - {old(handles)[old(lru)[0]].slot}
      ensures usage == old(usage) - old(handles)[old(lru)[0]].charge
    {
      hide Sound, TableOk, Unrefed, Dropped, DeletedBy, Drop;
      SoundFacts(next, prev, handles, usage, lru, inUse, deleted, fresh');
      var oldest := next[LRU];
      assert oldest == lru[0] && oldest in lru;
      TableSlot(table.contents, handles, oldest);
      Evicted(handles, oldest);
      DropFirst(lru);
      Erase(handles[oldest].slot);
    }

    method Prune()
      requires Valid()
      modifies this, table
      ensures Valid() && lru == [] && fresh' == old(fresh') && deleted == old(deleted) + old(lru)
      ensures table.contents == WithoutIds(old(table.contents), old(lru))
    {
      hide Sound, TableOk, Holds, PowerOfTwo, WithoutIds, Unreferenced;
      ghost var lru0, done := lru, 0;
      NothingWithout(table.contents);
      assert lru0[..0] == [];
      SoundFacts(next, prev, handles, usage, lru, inUse, deleted, fresh');
      while next[LRU] != LRU
        invariant Valid() && fresh' == old(fresh') && done <= |lru0| && lru == lru0[done..] && LRU in next
        invariant (next[LRU] == LRU <==> lru == [])
        invariant deleted == old(deleted) + lru0[..done]
        invariant table.contents == WithoutIds(old(table.contents), lru0[..done])
        decreases |lru|
      {
        SoundFacts(next, prev, handles, usage, lru, inUse, deleted, fresh');
        assert lru[0] in lru;
        OneMoreWithout(old(table.contents), table.contents, handles, lru0, done, lru[0]);
        EvictOldest();
        SoundFacts(next, prev, handles, usage, lru, inUse, deleted, fresh');
        done := done + 1;
      }
      assert lru0[..done] == lru0;
    }

    /** Insert: the new handle replaces the one of its slot, and unreferenced handles go, oldest first, only while the
        cache is over its capacity. */
    method Insert(slot: Slot, value: string, charge: nat)
      returns (e: nat, ghost replaced: Option<nat>, ghost evicted: seq<nat>)
      requires Valid()
      modifies this, table
      ensures Valid() && e == old(fresh') && fresh' == e + 1
      ensures e in handles
      ensures handles[e] == Handle(slot, value, charge, capacity > 0, if capacity > 0 then 2 else 1)
      ensures replaced == if capacity > 0 && slot in old(table.contents) then Some(old(table.contents)[slot]) else None
      ensures (if replaced.Some? then Drop(old(lru), replaced.value) else old(lru)) == evicted + lru
      ensures table.contents
              == WithoutIds(if capacity > 0 then old(table.contents)[slot := e] else old(table.contents), evicted)
      ensures usage <= capacity || lru == []
      ensures evicted != [] ==> evicted[|evicted| - 1] in old(handles)
                                && usage + old(handles)[evicted[|evicted| - 1]].charge > capacity
      ensures replaced.Some? ==> replaced.value in old(handles)
      ensures deleted == old(deleted)
                         + (if replaced.Some? && old(handles)[replaced.value].refs == 1 then [replaced.value] else [])
                         + evicted
      ensures var all := old(handles)[e := handles[e]];
              handles == (if replaced.None? then all
                          else
                            var h := old(handles)[replaced.value];
                            if h.refs == 1 then all - {replaced.value}
                            else all[replaced.value := h.(inCache := false, refs := h.refs - 1)])
                         - Members(evicted)
    {
      hide Sound, TableOk, Unrefed, Dropped, DeletedBy, Drop, Holds, PowerOfTwo, WithoutIds, Distinct, Unreferenced, Members;
      SoundFacts(next, prev, handles, usage, lru, inUse, deleted, fresh');
      e, replaced := Add(slot, value, charge);
      ghost var handles1 := handles;
      if replaced.Some? {
        GivenUp(old(handles)[e := handles[e]], replaced.value);
        GivenUp(old(handles), replaced.value);
      }
      evicted := EvictWhileOver(e);
      assert evicted != [] ==> handles1[evicted[|evicted| - 1]] == old(handles)[evicted[|evicted| - 1]];
    }

    /** The loop of Insert: unreferenced handles go, oldest first, while the cache is over its capacity. */
    method EvictWhileOver(ghost e: nat) returns (ghost evicted: seq<nat>)
      requires Valid() && e in handles && e !in lru
      modifies this, table
      ensures Valid() && fresh' == old(fresh') && old(lru) == evicted + lru && deleted == old(deleted) + evicted
      ensures table.contents == WithoutIds(old(table.contents), evicted)
      ensures usage <= capacity || lru == []
      ensures e in handles && handles[e] == old(handles)[e] && handles == old(handles) - Members(evicted)
      ensures evicted != [] ==> evicted[|evicted| - 1] in old(lru) && evicted[|evicted| - 1] in old(handles)
                                && usage + old(handles)[evicted[|evicted| - 1]].charge > capacity
    {
      hide Sound, TableOk, Holds, PowerOfTwo, Unreferenced, EvictedSoFar;
      ghost var lru0, contents0, done := lru, table.contents, 0;
      NoneEvicted(capacity, lru, table.contents, handles, deleted, usage);
      SoundFacts(next, prev, handles, usage, lru, inUse, deleted, fresh');
      while usage > capacity && next[LRU] != LRU
        invariant Valid() && fresh' == old(fresh') && LRU in next && (next[LRU] == LRU <==> lru == [])
        invariant EvictedSoFar(capacity, lru0, done, contents0, table.contents, old(handles), handles, old(deleted), deleted,
                               lru, usage)
        decreases |lru|
      {
        SoundFacts(next, prev, handles, usage, lru, inUse, deleted, fresh');
        assert lru[0] in lru;
        ghost var contents, hs, ds, list, used := table.contents, handles, deleted, lru, usage;
        EvictOldest();
        OneMoreEvicted(capacity, lru0, done, contents0, contents, old(handles), hs, old(deleted), ds, list, used);
        SoundFacts(next, prev, handles, usage, lru, inUse, deleted, fresh');
        done := done + 1;
      }
      evicted := EvictedThese(capacity, lru0, done, contents0, table.contents, old(handles), handles, old(deleted), deleted,
                              lru, usage);
      StillThere(old(handles), handles, evicted, e);
    }
  }

  ghost function Members(es: seq<nat>): set<nat> { set x | x in es }

  /** The first done handles of the LRU list were evicted, the last of them while the cache was over its capacity. */
  ghost predicate EvictedSoFar(capacity: nat, lru0: seq<nat>, done: nat, contents0: map<Slot, nat>, contents: map<Slot, nat>,
                               handles0: Handles, handles: Handles, deleted0: seq<nat>, deleted: seq<nat>, lru: seq<nat>,
                               usage: nat) {
    && done <= |lru0| && lru == lru0[done..] && deleted == deleted0 + lru0[..done]
    && contents == WithoutIds(contents0, lru0[..done]) && handles == handles0 - Members(lru0[..done])
    && (done > 0 ==> lru0[done - 1] in handles0 && usage + handles0[lru0[done - 1]].charge > capacity)
  }

  lemma NoneEvicted(capacity: nat, lru: seq<nat>, contents: map<Slot, nat>, handles: Handles, deleted: seq<nat>, usage: nat)
    ensures EvictedSoFar(capacity, lru, 0, contents, contents, handles, handles, deleted, deleted, lru, usage)
  {
    hide WithoutIds, Members;
    assert lru[..0] == [] && deleted + [] == deleted;
    NothingWithout(contents);
    NoMembers(handles);
  }

  lemma OneMoreEvicted(capacity: nat, lru0: seq<nat>, done: nat, contents0: map<Slot, nat>, contents: map<Slot, nat>,
                       handles0: Handles, handles: Handles, deleted0: seq<nat>, deleted: seq<nat>, lru: seq<nat>, usage: nat)
    requires EvictedSoFar(capacity, lru0, done, contents0, contents, handles0, handles, deleted0, deleted, lru, usage)
    requires usage > capacity && lru != [] && lru[0] in handles && TableOk(contents, handles, None)
    requires Unreferenced(handles, lru[0]) && handles[lru[0]].charge <= usage
    ensures EvictedSoFar(capacity, lru0, done + 1, contents0, contents - {handles[lru[0]].slot}, handles0, handles - {lru[0]},
                         deleted0, deleted + [lru[0]], lru[1..], usage - handles[lru[0]].charge)
  {
    hide WithoutIds, Members, TableOk, Unreferenced;
    CutOne(lru0, done);
    OneMoreWithout(contents0, contents, handles, lru0, done, lru[0]);
    OneMoreGone(handles0, handles, lru0, done);
    StillThere(handles0, handles, lru0[..done], lru[0]);
    assert deleted0 + lru0[..done] + [lru0[done]] == deleted0 + (lru0[..done] + [lru0[done]]);
  }

  lemma EvictedThese(capacity: nat, lru0: seq<nat>, done: nat, contents0: map<Slot, nat>, contents: map<Slot, nat>,
                     handles0: Handles, handles: Handles, deleted0: seq<nat>, deleted: seq<nat>, lru: seq<nat>, usage: nat)
    returns (evicted: seq<nat>)
    requires EvictedSoFar(capacity, lru0, done, contents0, contents, handles0, handles, deleted0, deleted, lru, usage)
    ensures lru0 == evicted + lru && deleted == deleted0 + evicted && handles == handles0 - Members(evicted)
    ensures contents == WithoutIds(contents0, evicted)
    ensures evicted != [] ==> evicted[|evicted| - 1] in lru0 && evicted[|evicted| - 1] in handles0
                              && usage + handles0[evicted[|evicted| - 1]].charge > capacity
  {
    hide WithoutIds, Members;
    evicted := lru0[..done];
  }

  /** The map without the slots that lead to some of the handles. */
  ghost function WithoutIds(contents: map<Slot, nat>, ids: seq<nat>): map<Slot, nat> {
    map s | s in contents && contents[s] !in ids :: contents[s]
  }

  lemma NothingWithout(contents: map<Slot, nat>)
    ensures WithoutIds(contents, []) == contents
  {
  }

  lemma OneMoreWithout(contents0: map<Slot, nat>, contents: map<Slot, nat>, handles: Handles, ids: seq<nat>, n: nat, e: nat)
    requires n < |ids| && ids[n] == e && contents == WithoutIds(contents0, ids[..n])
    requires TableOk(contents, handles, None) && e in handles && Unreferenced(handles, e)
    ensures contents - {handles[e].slot} == WithoutIds(contents0, ids[..n + 1])
  {
    assert ids[..n + 1] == ids[..n] + [e];
  }

  lemma CutOne(es: seq<nat>, n: nat)
    requires n < |es|
    ensures es[..n + 1] == es[..n] + [es[n]] && es[n..][1..] == es[n + 1..] && es[n..][0] == es[n]
  {
  }

  lemma StillThere(before: Handles, now: Handles, es: seq<nat>, e: nat)
    requires now == before - Members(es)
    ensures e in now <==> e in before && e !in es
    ensures e in now ==> now[e] == before[e]
  {
  }

  lemma NoMembers(handles: Handles)
    ensures handles - Members([]) == handles
  {
  }

  lemma OneMoreGone(handles: Handles, now: Handles, es: seq<nat>, n: nat)
    requires n < |es| && now == handles - Members(es[..n])
    ensures now - {es[n]} == handles - Members(es[..n + 1])
  {
    assert es[..n + 1] == es[..n] + [es[n]];
  }

  lemma Evicted(handles: Handles, e: nat)
    requires e in handles && Unreferenced(handles, e)
    ensures Unrefed(Dropped(handles, e), e) == handles - {e} && DeletedBy(handles, e) == [e]
  {
  }

  /** Out of the cache with the cache's reference given up, in plain terms. */
  lemma GivenUp(handles: Handles, e: nat)
    requires e in handles && handles[e].refs >= 1
    ensures handles[e].refs == 1 ==> Unrefed(Dropped(handles, e), e) == handles - {e} && DeletedBy(handles, e) == [e]
    ensures handles[e].refs > 1
            ==> Unrefed(Dropped(handles, e), e) == handles[e := handles[e].(inCache := false, refs := handles[e].refs - 1)]
                && DeletedBy(handles, e) == []
  {
    var d := handles[e := handles[e].(inCache := false)];
    assert d - {e} == handles - {e};
  }

  /** Handle x is out of the cache, and the cache's reference is given up: without another it goes to its deleter. */
  ghost predicate GaveUp(hs: Handles, x: nat, after: Handles, before: seq<nat>, deleted: seq<nat>)
    requires x in hs && hs[x].refs >= 1
  {
    if hs[x].refs == 1 then after == hs - {x} && deleted == before + [x]
    else after == hs[x := hs[x].(inCache := false, refs := hs[x].refs - 1)] && deleted == before
  }

  lemma Erased(hs: Handles, x: nat, after: Handles, before: seq<nat>, deleted: seq<nat>)
    requires x in hs && hs[x].refs >= 1
    requires after == Unrefed(Dropped(hs, x), x) && deleted == before + DeletedBy(hs, x)
    ensures GaveUp(hs, x, after, before, deleted)
  {
    hide Unrefed, Dropped, DeletedBy;
    GivenUp(hs, x);
    assert before + [] == before;
  }

  lemma DropFirst(es: seq<nat>)
    requires es != []
    ensures Drop(es, es[0]) == es[1..]
  {
  }

  lemma TableAfterNew(contents: map<Slot, nat>, handles: Handles, slot: Slot, e: nat, h: Handle)
    requires TableOk(contents, handles, None) && e !in handles && h.inCache && h.slot == slot
    ensures TableOk(contents[slot := e], handles[e := h], if slot in contents then Some(contents[slot]) else None)
  {
  }

  lemma TableAfterUncached(contents: map<Slot, nat>, handles: Handles, e: nat, h: Handle)
    requires TableOk(contents, handles, None) && e !in handles && !h.inCache
    ensures TableOk(contents, handles[e := h], None)
  {
  }

  /** Erasing the replaced handle leaves the new one, and those on the LRU list, as they are. */
  lemma ReplacedHandle(handles: Handles, e: nat, h: Handle, x: nat, lru: seq<nat>)
    requires x in handles && e !in handles && Distinct(lru) && forall y :: y in lru ==> y in handles
    ensures var after := Unrefed(Dropped(handles[e := h], x), x);
            && e in after && after[e] == h
            && forall y :: y in Drop(lru, x) ==> y in lru && y in after && after[y] == handles[y]
    ensures DeletedBy(handles[e := h], x) == DeletedBy(handles, x)
    ensures e !in Drop(lru, x)
  {
    DropMembers(lru, x);
  }

  lemma TableAfterRef(contents: map<Slot, nat>, handles: Handles, e: nat)
    requires TableOk(contents, handles, None) && e in handles
    ensures TableOk(contents, Refed(handles, e), None)
  {
  }

  lemma TableAfterUnref(contents: map<Slot, nat>, handles: Handles, e: nat)
    requires TableOk(contents, handles, None) && e in handles && Clients(handles[e]) > 0
    ensures TableOk(contents, Unrefed(handles, e), None)
  {
  }

  lemma TableSlot(contents: map<Slot, nat>, handles: Handles, e: nat)
    requires TableOk(contents, handles, None)
    ensures e in handles && handles[e].inCache ==> handles[e].slot in contents && contents[handles[e].slot] == e
  {
  }

  lemma EmptyLists()
    ensures var links := map[LRU := LRU, IN_USE := IN_USE];
            ListsOk(links, links, [], []) && HandlesOk(map[], [], []) && Accounted(map[], [], 2)
  {
    assert [LRU] + [] == [LRU] && [IN_USE] + [] == [IN_USE];
  }

  lemma ListFacts(next: map<nat, nat>, prev: map<nat, nat>, lru: seq<nat>, inUse: seq<nat>)
    requires ListsOk(next, prev, lru, inUse)
    ensures Distinct(lru) && Distinct(inUse) && (forall e :: e in lru ==> e >= 2 && e !in inUse)
    ensures forall e :: e in inUse ==> e >= 2
  {
    ListsSeparate(next, prev, lru, inUse);
  }

  lemma RefHandles(handles: Handles, lru: seq<nat>, inUse: seq<nat>, e: nat)
    requires HandlesOk(handles, lru, inUse) && e in handles
    ensures (handles[e].inCache && handles[e].refs == 1) <==> e in lru
    ensures forall x :: x in lru || x in inUse ==> x in handles
  {
  }

  lemma AccountedSame(a: Handles, b: Handles, deleted: seq<nat>, fresh': nat)
    requires Accounted(a, deleted, fresh') && b.Keys == a.Keys
    ensures Accounted(b, deleted, fresh')
  {
  }

  lemma RefCharges(a: Handles, b: Handles, lru: seq<nat>, inUse: seq<nat>, e: nat)
    requires e in a && b == a[e := a[e].(refs := a[e].refs + 1)]
    requires forall x :: x in lru || x in inUse ==> x in a
    ensures Charges(b, lru) == Charges(a, lru) && Charges(b, inUse) == Charges(a, inUse)
  {
    ChargesSame(a, b, lru);
    ChargesSame(a, b, inUse);
  }
}
