/** Building a block (BlockBuilder). */
module BlockBuilders {
  import opened Coding
  import opened Blocks

  /** Length of the longest common prefix. */
  function Common(a: Bytes, b: Bytes): (n: nat)
    ensures n <= |a| && n <= |b| && a[..n] == b[..n]
    ensures n < |a| && n < |b| ==> a[n] != b[n]
  {
    if a == [] || b == [] || a[0] != b[0] then 0
    else
      var n := 1 + Common(a[1..], b[1..]);
      assert a[..n] == [a[0]] + a[1..][..n - 1] && b[..n] == [b[0]] + b[1..][..n - 1];
      n
  }

  method SharedPrefix(a: Bytes, b: Bytes) returns (shared: nat)
    ensures shared == Common(a, b)
  {
    var minLength := if |a| < |b| then |a| else |b|;
    shared := 0;
    while shared < minLength && a[shared] == b[shared]
      invariant shared <= minLength && forall i :: 0 <= i < shared ==> a[i] == b[i]
    {
      shared := shared + 1;
    }
    CommonIs(a, b, shared);
  }

  lemma CommonIs(a: Bytes, b: Bytes, n: nat)
    requires n <= |a| && n <= |b| && (forall i :: 0 <= i < n ==> a[i] == b[i])
    requires n < |a| && n < |b| ==> a[n] != b[n]
    ensures Common(a, b) == n
  {
    CommonAgrees(a, b);
  }

  lemma CommonAgrees(a: Bytes, b: Bytes)
    ensures forall i :: 0 <= i < Common(a, b) ==> a[i] == b[i]
  {
    var m := Common(a, b);
    forall i | 0 <= i < m ensures a[i] == b[i] {
      assert a[..m][i] == b[..m][i];
    }
  }

  /** How much of its key entry i leaves out: nothing at a restart point, otherwise all it has in common with its
      predecessor. */
  function ShareOf(l: Layout, i: nat): nat
    requires i < |l.pairs|
  {
    if i == 0 || i in l.restarts then 0 else Common(l.pairs[i - 1].key, l.pairs[i].key)
  }

  /** Every interval-th entry is a restart point, and the others share as much as they can. */
  ghost predicate Built(interval: nat, restarts: seq<nat>, counter: nat, lastKey: Bytes, l: Layout) {
    && interval >= 1 && LayoutOk(l) && Offsets(l) == restarts
    && lastKey == (if l.pairs == [] then [] else l.pairs[|l.pairs| - 1].key)
    && (forall j :: 0 <= j < |l.restarts| ==> l.restarts[j] == j * interval)
    && counter <= interval && |l.pairs| == (|l.restarts| - 1) * interval + counter
    && (l.pairs != [] ==> counter > 0) && (forall i :: 0 <= i < |l.pairs| ==> l.shared[i] == ShareOf(l, i))
  }

  /** The entry for p shares as much as it can with the last key, or nothing at a restart point. */
  ghost function Grown(interval: nat, counter: nat, lastKey: Bytes, l: Layout, p: Pair): Layout {
    if counter < interval then Extended(l, p, Common(lastKey, p.key), false) else Extended(l, p, 0, true)
  }

  lemma GrownBuilt(interval: nat, restarts: seq<nat>, counter: nat, lastKey: Bytes, l: Layout, p: Pair)
    requires Built(interval, restarts, counter, lastKey, l)
    ensures var l' := Grown(interval, counter, lastKey, l, p);
            var shared := if counter < interval then Common(lastKey, p.key) else 0;
            && Built(interval, if counter < interval then restarts else restarts + [Offset(l, |l.pairs|)],
                     if counter < interval then counter + 1 else 1, p.key, l')
            && DataBytes(l', |l'.pairs|) == DataBytes(l, |l.pairs|) + EntryBytes(p, shared)
  {
    hide LayoutOk, DataBytes, EntryBytes, Offsets;
    var n, restart := |l.pairs|, counter >= interval;
    var shared := if restart then 0 else Common(lastKey, p.key);
    LayoutFacts(l);
    RestartsBehind(l, interval, counter);
    ExtendedOk(l, p, shared, restart);
    ExtendedOffsets(l, p, shared, restart);
    CountUp(Extended(l, p, shared, restart), interval, if restart then 1 else counter + 1, restart, n);
  }

  class BlockBuilder {
    const interval: nat
    var buffer: Bytes
    var restarts: seq<nat>
    var counter: nat
    var finished: bool
    var lastKey: Bytes
    ghost var layout: Layout

    ghost predicate Valid()
      reads this
    {
      && Built(interval, restarts, counter, lastKey, layout)
      && (!finished ==> buffer == DataBytes(layout, |layout.pairs|))
    }

    constructor (interval: nat)
      requires interval >= 1
      ensures Valid() && !finished && layout == EMPTY
    {
      this.interval := interval;
      buffer, restarts, counter, finished, lastKey, layout := [], [0], 0, false, [], EMPTY;
      new;
      EmptyOk();
    }

    method Reset()
      requires Valid()
      modifies this
      ensures Valid() && !finished && layout == EMPTY
    {
      buffer, restarts, counter, finished, lastKey, layout := [], [0], 0, false, [], EMPTY;
      EmptyOk();
    }

    /** The layout with another pair. */
    ghost function With(p: Pair): Layout
      reads this
    {
      Grown(interval, counter, lastKey, layout, p)
    }

    method Add(p: Pair)
      requires Valid() && !finished
      modifies this
      ensures Valid() && !finished
      ensures layout == old(With(p)) && layout.pairs == old(layout).pairs + [p]
    {
      hide Built, DataBytes, EntryBytes, Common;
      GrownBuilt(interval, restarts, counter, lastKey, layout, p);
      BuiltFacts(interval, restarts, counter, lastKey, layout);
      ghost var grown := Grown(interval, counter, lastKey, layout, p);
      var shared := 0;
      if counter < interval {
        shared := SharedPrefix(lastKey, p.key);
      } else {
        restarts := restarts + [|buffer|];
        counter := 0;
      }
      buffer := buffer + EntryBytes(p, shared);
      lastKey := lastKey[..shared] + p.key[shared..];
      assert lastKey == p.key[..shared] + p.key[shared..] == p.key;
      counter := counter + 1;
      layout := grown;
    }

    predicate Empty()
      reads this
    {
      buffer == []
    }

    function CurrentSizeEstimate(): nat
      reads this
    {
      |buffer| + 4 * |restarts| + 4
    }

    /** The estimate is the exact size, and only a block without pairs has no bytes. */
    lemma SizeIsExact()
      requires Valid() && !finished
      ensures LayoutOk(layout) && CurrentSizeEstimate() == |BlockBytes(layout)|
      ensures Empty() <==> layout.pairs == []
    {
      hide LayoutOk, DataBytes;
      BuiltFacts(interval, restarts, counter, lastKey, layout);
      WordsLength(restarts);
      DataPrefix(layout, 0, |layout.pairs|);
      NoData(layout);
    }

    method Finish() returns (block: Bytes)
      requires Valid() && !finished
      modifies this
      ensures Valid() && finished && LayoutOk(layout) && block == BlockBytes(layout) && layout == old(layout)
    {
      hide Built, LayoutOk, DataBytes;
      BuiltFacts(interval, restarts, counter, lastKey, layout);
      LayoutFacts(layout);
      assert restarts[..0] == [];
      block := buffer;
      for i := 0 to |restarts|
        invariant block == buffer + Words(restarts[..i])
      {
        assert restarts[..i + 1][..i] == restarts[..i];
        block := block + Fixed(restarts[i], 4);
      }
      assert restarts[..|restarts|] == restarts;
      block := block + Fixed(|restarts|, 4);
      buffer, finished := block, true;
    }
  }

  lemma BuiltFacts(interval: nat, restarts: seq<nat>, counter: nat, lastKey: Bytes, l: Layout)
    requires Built(interval, restarts, counter, lastKey, l)
    ensures LayoutOk(l) && Offsets(l) == restarts && |l.shared| == |l.pairs| && counter <= interval
  {
  }

  lemma NoData(l: Layout)
    requires LayoutOk(l)
    ensures DataBytes(l, 0) == []
  {
  }

  lemma EmptyOk()
    ensures LayoutOk(EMPTY) && Offsets(EMPTY) == [0] && DataBytes(EMPTY, 0) == []
  {
    assert RestartOk(EMPTY, 0);
  }

  lemma Ordered(i: nat, j: nat, k: nat)
    requires i <= j
    ensures i * k <= j * k
  {
  }

  lemma RestartsBehind(l: Layout, interval: nat, counter: nat)
    requires forall j :: 0 <= j < |l.restarts| ==> l.restarts[j] == j * interval
    requires interval >= 1 && |l.restarts| > 0 && |l.pairs| == (|l.restarts| - 1) * interval + counter && (l.pairs != [] ==> counter > 0)
    ensures forall j :: 0 <= j < |l.restarts| ==> l.restarts[j] < |l.pairs| || (l.pairs == [] && j == 0)
  {
    forall j | 0 <= j < |l.restarts| && l.pairs != [] ensures l.restarts[j] < |l.pairs| {
      Ordered(j, |l.restarts| - 1, interval);
    }
    if l.pairs == [] && |l.restarts| > 1 {
      Ordered(1, |l.restarts| - 1, interval);
    }
  }

  lemma CountUp(l: Layout, interval: nat, counter: nat, restart: bool, n: nat)
    requires |l.pairs| == n + 1 && |l.restarts| > 0
    requires restart ==> counter == 1 && |l.restarts| > 1 && n == (|l.restarts| - 2) * interval + interval
    requires !restart ==> counter > 0 && n == (|l.restarts| - 1) * interval + (counter - 1)
    ensures |l.pairs| == (|l.restarts| - 1) * interval + counter
  {
  }

  lemma ExtendedOffsets(l: Layout, p: Pair, shared: nat, restart: bool)
    requires LayoutOk(l) && LayoutOk(Extended(l, p, shared, restart))
    ensures Offsets(Extended(l, p, shared, restart))
            == Offsets(l) + if restart then [Offset(l, |l.pairs|)] else []
  {
    hide DataBytes;
    var l' := Extended(l, p, shared, restart);
    forall j | 0 <= j < |l'.restarts|
      ensures Offsets(l')[j] == if j < |l.restarts| then Offsets(l)[j] else Offset(l, |l.pairs|)
    {
      assert RestartOk(l', j);
      if j < |l.restarts| {
        assert RestartOk(l, j);
        ExtendedData(l, p, shared, restart, l.restarts[j]);
      } else {
        ExtendedData(l, p, shared, restart, |l.pairs|);
      }
    }
  }
}
