/** The format of a table block (table/block_builder.cc, table/block.cc): keys share a prefix with their predecessor,
    except at restart points, whose offsets follow the entries. */
module Blocks {
  import opened Coding

  datatype Pair = Pair(key: Coding.Bytes, value: Coding.Bytes)

  /** The pairs of a block, how many bytes of each key are shared with the key before, and which entries are restart
      points. */
  datatype Layout = Layout(pairs: seq<Pair>, shared: seq<nat>, restarts: seq<nat>)

  const EMPTY: Layout := Layout([], [], [0])

  /** Restart points share nothing, every other entry no more than it has in common with its predecessor. */
  ghost predicate LayoutOk(l: Layout) {
    && |l.shared| == |l.pairs| && l.restarts != [] && l.restarts[0] == 0
    && (forall i :: 0 <= i < |l.pairs| ==> SharedOk(l, i))
    && (forall j :: 0 <= j < |l.restarts| ==> RestartOk(l, j))
    && (forall i, j :: 0 <= i < j < |l.restarts| ==> l.restarts[i] < l.restarts[j])
  }

  ghost predicate SharedOk(l: Layout, i: nat)
    requires i < |l.pairs| && |l.shared| == |l.pairs|
  {
    && l.shared[i] <= |l.pairs[i].key|
    && (l.shared[i] > 0 ==> i > 0 && l.shared[i] <= |l.pairs[i - 1].key|
                            && l.pairs[i].key[..l.shared[i]] == l.pairs[i - 1].key[..l.shared[i]])
  }

  ghost predicate RestartOk(l: Layout, j: nat)
    requires j < |l.restarts|
  {
    l.restarts[j] <= |l.pairs| && (j > 0 ==> l.restarts[j] < |l.pairs|)
    && (l.restarts[j] < |l.shared| ==> l.shared[l.restarts[j]] == 0)
  }

  function EntryBytes(p: Pair, shared: nat): Coding.Bytes
    requires shared <= |p.key|
  {
    Varint(shared) + (Varint(|p.key| - shared) + (Varint(|p.value|) + (p.key[shared..] + p.value)))
  }

  /** The first n entries. */
  function DataBytes(l: Layout, n: nat): Coding.Bytes
    requires n <= |l.pairs| && |l.shared| == |l.pairs|
  {
    if n == 0 then []
    else
      DataBytes(l, n - 1)
      + if l.shared[n - 1] <= |l.pairs[n - 1].key| then EntryBytes(l.pairs[n - 1], l.shared[n - 1]) else []
  }

  function Offset(l: Layout, n: nat): nat
    requires n <= |l.pairs| && |l.shared| == |l.pairs|
  {
    |DataBytes(l, n)|
  }

  ghost function Offsets(l: Layout): seq<nat>
    requires LayoutOk(l)
  {
    seq(|l.restarts|, j requires 0 <= j < |l.restarts| =>
      if RestartOk(l, j) then Offset(l, l.restarts[j]) else 0)
  }

  /** A finished block. */
  ghost function BlockBytes(l: Layout): Coding.Bytes
    requires LayoutOk(l)
  {
    DataBytes(l, |l.pairs|) + Words(Offsets(l)) + Fixed(|l.restarts|, 4)
  }

  // ---- Decoding one entry ------------------------------------------------------------------------------------

  /** Shared length, unshared length, value length. */
  datatype Lengths = Lengths(shared: nat, nonShared: nat, value: nat)

  /** DecodeEntry on the bytes up to the limit: what is left begins with the key's unshared part. */
  function LengthsOf(input: Coding.Bytes): Parsed<Lengths> {
    if |input| < 3 then Failed
    else
      var r :=
        if input[0] < 128 && input[1] < 128 && input[2] < 128 then Parsed(Lengths(input[0], input[1], input[2]), input[3..])
        else
          match Varint32Of(input)
          case Failed => Failed
          case Parsed(shared, r1) =>
          match Varint32Of(r1)
          case Failed => Failed
          case Parsed(nonShared, r2) =>
          match Varint32Of(r2)
          case Failed => Failed
          case Parsed(value, r3) => Parsed(Lengths(shared, nonShared, value), r3);
      if r.Parsed? && |r.rest| < r.value.nonShared + r.value.value then Failed else r
  }

  predicate PairFits(p: Pair) { |p.key| < TWO_32 && |p.value| < TWO_32 }

  lemma VarintFirst(v: nat, rest: Coding.Bytes)
    ensures |Varint(v)| >= 1 && (Varint(v)[0] < 128 ==> v < 128 && Varint(v) == [v])
    ensures v < 128 ==> Varint(v) == [v]
  {
  }

  /** When the first three bytes each end a varint they are the three values. */
  lemma FastPath(a: nat, b: nat, c: nat, rest: Coding.Bytes)
    ensures var input := Varint(a) + (Varint(b) + (Varint(c) + rest));
            && |input| >= 3
            && (input[0] < 128 && input[1] < 128 && input[2] < 128
                ==> input[0] == a && input[1] == b && input[2] == c && input[3..] == rest)
  {
    hide Varint;
    VarintFirst(a, rest);
    VarintFirst(b, rest);
    VarintFirst(c, rest);
    var input := Varint(a) + (Varint(b) + (Varint(c) + rest));
    assert |input| == |Varint(a)| + |Varint(b)| + |Varint(c)| + |rest|;
    if input[0] < 128 && input[1] < 128 && input[2] < 128 {
      assert input[0] == Varint(a)[0];
      assert input[1] == (Varint(b) + (Varint(c) + rest))[0] == Varint(b)[0];
      assert input[2] == (Varint(c) + rest)[0] == Varint(c)[0];
      assert input == [a, b, c] + rest;
    }
  }

  lemma ThreeVarints(a: nat, b: nat, c: nat, rest: Coding.Bytes)
    requires a < TWO_32 && b < TWO_32 && c < TWO_32
    ensures Varint32Of(Varint(a) + (Varint(b) + (Varint(c) + rest))) == Parsed(a, Varint(b) + (Varint(c) + rest))
    ensures Varint32Of(Varint(b) + (Varint(c) + rest)) == Parsed(b, Varint(c) + rest)
    ensures Varint32Of(Varint(c) + rest) == Parsed(c, rest)
  {
    hide Varint, Varint32Of;
    Varint32RoundTrip(a, Varint(b) + (Varint(c) + rest));
    Varint32RoundTrip(b, Varint(c) + rest);
    Varint32RoundTrip(c, rest);
  }

  /** Three lengths are read back through either path, and refused when less is left than the key and value take. */
  lemma LengthsDecode(shared: nat, nonShared: nat, value: nat, rest: Coding.Bytes)
    requires shared < TWO_32 && nonShared < TWO_32 && value < TWO_32
    ensures LengthsOf(Varint(shared) + (Varint(nonShared) + (Varint(value) + rest)))
            == if nonShared + value <= |rest| then Parsed(Lengths(shared, nonShared, value), rest) else Failed
  {
    hide Varint, Varint32Of;
    ThreeVarints(shared, nonShared, value, rest);
    FastPath(shared, nonShared, value, rest);
  }

  lemma EntryDecodes(p: Pair, shared: nat, rest: Coding.Bytes)
    requires PairFits(p) && shared <= |p.key|
    ensures LengthsOf(EntryBytes(p, shared) + rest)
            == Parsed(Lengths(shared, |p.key| - shared, |p.value|), p.key[shared..] + p.value + rest)
  {
    hide Varint, LengthsOf;
    var tail := p.key[shared..] + p.value + rest;
    assert EntryBytes(p, shared) + rest == Varint(shared) + (Varint(|p.key| - shared) + (Varint(|p.value|) + tail));
    LengthsDecode(shared, |p.key| - shared, |p.value|, tail);
  }

  // ---- Layouts as they grow and are read ---------------------------------------------------------------------

  lemma DataSnoc(l: Layout, n: nat)
    requires LayoutOk(l) && n < |l.pairs|
    ensures l.shared[n] <= |l.pairs[n].key|
    ensures DataBytes(l, n + 1) == DataBytes(l, n) + EntryBytes(l.pairs[n], l.shared[n])
    ensures Offset(l, n + 1) == Offset(l, n) + |EntryBytes(l.pairs[n], l.shared[n])| >= Offset(l, n) + 3
  {
    assert SharedOk(l, n);
    VarintFirst(l.shared[n], []);
    VarintFirst(|l.pairs[n].key| - l.shared[n], []);
    VarintFirst(|l.pairs[n].value|, []);
  }

  lemma {:induction false} DataPrefix(l: Layout, m: nat, n: nat)
    requires LayoutOk(l) && m <= n <= |l.pairs|
    ensures DataBytes(l, m) <= DataBytes(l, n) && (m < n ==> Offset(l, m) + 3 <= Offset(l, n))
  {
    hide LayoutOk, EntryBytes;
    if m < n {
      LayoutFacts(l);
      DataPrefix(l, m, n - 1);
      DataSnoc(l, n - 1);
    }
  }

  lemma LayoutFacts(l: Layout)
    requires LayoutOk(l)
    ensures |l.shared| == |l.pairs| && l.restarts != [] && l.restarts[0] == 0
  {
  }

  /** The bytes of entry i, and of all that follows, inside the data. */
  lemma EntryInData(l: Layout, i: nat)
    requires LayoutOk(l) && i < |l.pairs|
    ensures l.shared[i] <= |l.pairs[i].key| && Offset(l, i) <= Offset(l, i + 1) <= Offset(l, |l.pairs|)
    ensures DataBytes(l, |l.pairs|)[Offset(l, i)..]
            == EntryBytes(l.pairs[i], l.shared[i]) + DataBytes(l, |l.pairs|)[Offset(l, i + 1)..]
  {
    hide LayoutOk, EntryBytes, DataBytes;
    LayoutFacts(l);
    DataSnoc(l, i);
    DataPrefix(l, i + 1, |l.pairs|);
    var all, upto := DataBytes(l, |l.pairs|), DataBytes(l, i + 1);
    assert upto == all[..|upto|];
    assert all == upto + all[|upto|..];
  }

  /** Keys and values are no longer than the data they are in. */
  lemma {:induction false} KeysInside(l: Layout, i: nat)
    requires LayoutOk(l) && i < |l.pairs|
    ensures |l.pairs[i].key| <= Offset(l, i + 1) && |l.pairs[i].value| <= Offset(l, i + 1)
  {
    hide LayoutOk, DataBytes;
    DataSnoc(l, i);
    SharedFact(l, i);
    if i > 0 {
      KeysInside(l, i - 1);
    }
  }

  lemma SharedFact(l: Layout, i: nat)
    requires LayoutOk(l) && i < |l.pairs|
    ensures |l.shared| == |l.pairs| && l.shared[i] <= |l.pairs[i].key|
    ensures l.shared[i] > 0 ==> i > 0 && l.shared[i] <= |l.pairs[i - 1].key|
  {
    assert SharedOk(l, i);
  }

  /** What fits into a small block fits the 32-bit lengths. */
  lemma SmallBlock(l: Layout)
    requires LayoutOk(l) && |BlockBytes(l)| < TWO_32
    ensures forall i :: 0 <= i < |l.pairs| ==> PairFits(l.pairs[i])
  {
    hide LayoutOk, DataBytes;
    LayoutFacts(l);
    forall i | 0 <= i < |l.pairs| ensures PairFits(l.pairs[i]) {
      KeysInside(l, i);
      DataPrefix(l, i + 1, |l.pairs|);
    }
  }

  /** Adding a pair at the end. */
  function Extended(l: Layout, p: Pair, shared: nat, restart: bool): Layout {
    Layout(l.pairs + [p], l.shared + [shared], if restart then l.restarts + [|l.pairs|] else l.restarts)
  }

  lemma {:induction false} ExtendedData(l: Layout, p: Pair, shared: nat, restart: bool, n: nat)
    requires n <= |l.pairs| && |l.shared| == |l.pairs|
    ensures DataBytes(Extended(l, p, shared, restart), n) == DataBytes(l, n)
  {
    if n > 0 {
      ExtendedData(l, p, shared, restart, n - 1);
    }
  }

  lemma ExtendedOk(l: Layout, p: Pair, shared: nat, restart: bool)
    requires LayoutOk(l) && shared <= |p.key| && (restart ==> shared == 0 && |l.pairs| > 0)
    requires l.pairs == [] ==> shared == 0
    requires forall j :: 0 <= j < |l.restarts| ==> l.restarts[j] < |l.pairs| || (l.pairs == [] && j == 0)
    requires l.pairs != [] ==> shared <= |l.pairs[|l.pairs| - 1].key|
                               && p.key[..shared] == l.pairs[|l.pairs| - 1].key[..shared]
    ensures LayoutOk(Extended(l, p, shared, restart))
    ensures DataBytes(Extended(l, p, shared, restart), |l.pairs| + 1) == DataBytes(l, |l.pairs|) + EntryBytes(p, shared)
  {
    hide EntryBytes, DataBytes;
    var l' := Extended(l, p, shared, restart);
    forall i | 0 <= i < |l'.pairs| ensures SharedOk(l', i) {
      if i < |l.pairs| {
        assert SharedOk(l, i);
      }
    }
    forall j | 0 <= j < |l'.restarts| ensures RestartOk(l', j) {
      if j < |l.restarts| {
        assert RestartOk(l, j);
      }
    }
    ExtendedData(l, p, shared, restart, |l.pairs|);
    DataSnoc(l', |l.pairs|);
  }
}
