/** The built-in filter policy (util/bloom.cc): a Bloom filter by double hashing. The hash itself is a parameter. */
module BloomFilters {
  import opened Bits
  import opened Coding

  /** BloomHash: a 32-bit hash of a key. */
  type Hash = Bytes -> nat

  function SetByte(b: byte, i: nat): byte
    requires i < 8
  {
    assert Pow2(4) == 16 && Pow2(8) == 16 * Pow2(4);
    SetBitFits(b, i, 8);
    SetBit(b, i)
  }

  // ---- The bit array ------------------------------------------------------------------------------------------

  predicate Marked(bits: Bytes, p: nat)
    requires p < 8 * |bits|
  {
    BitOf(bits[p / 8], p % 8)
  }

  function Mark(bits: Bytes, p: nat): (r: Bytes)
    requires p < 8 * |bits|
    ensures |r| == |bits|
  {
    bits[p / 8 := SetByte(bits[p / 8], p % 8)]
  }

  /** No bit is ever cleared. */
  ghost predicate Covers(more: Bytes, less: Bytes) {
    |more| == |less| && forall p :: 0 <= p < 8 * |less| && Marked(less, p) ==> Marked(more, p)
  }

  /** Marking one position marks nothing else. */
  lemma MarkOnly(bits: Bytes, p: nat, q: nat)
    requires p < 8 * |bits| && q < 8 * |bits|
    ensures Marked(Mark(bits, p), q) <==> q == p || Marked(bits, q)
  {
    SetBitSets(bits[p / 8], p % 8, q % 8);
  }

  lemma MarkMarks(bits: Bytes, p: nat)
    requires p < 8 * |bits|
    ensures Marked(Mark(bits, p), p) && Covers(Mark(bits, p), bits)
  {
    SetBitSets(bits[p / 8], p % 8, p % 8);
    forall q | 0 <= q < 8 * |bits| && Marked(bits, q) ensures Marked(Mark(bits, p), q) {
      SetBitSets(bits[p / 8], p % 8, q % 8);
    }
  }

  lemma CoversTrans(a: Bytes, b: Bytes, c: Bytes)
    requires Covers(a, b) && Covers(b, c)
    ensures Covers(a, c)
  {
  }

  // ---- Probes --------------------------------------------------------------------------------------------------

  /** Rotation right by 17 bits. */
  function Delta(h: nat): nat {
    h / 0x2_0000 + h % 0x2_0000 * 0x8000
  }

  lemma DeltaRotates(h: nat, i: nat)
    requires h < TWO_32 && i < 32
    ensures BitOf(Delta(h), i) <==> BitOf(h, (i + 17) % 32)
  {
    hide BitOf, Pow2;
    var q, r := h / 0x2_0000, h % 0x2_0000;
    assert Pow2(15) == 0x8000 && Pow2(17) == 0x2_0000 by { Powers(); }
    BitJoin(q, r, 15, i);
    BitJoin(r, q, 17, (i + 17) % 32);
    assert h == r + q * 0x2_0000;
  }

  lemma Powers()
    ensures Pow2(15) == 0x8000 && Pow2(17) == 0x2_0000
  {
    assert Pow2(4) == 16 && Pow2(8) == 16 * Pow2(4) && Pow2(12) == 16 * Pow2(8) && Pow2(15) == 8 * Pow2(12);
    assert Pow2(17) == 4 * Pow2(15);
  }

  /** The j-th hash of the sequence; sums wrap at 32 bits. */
  function Probe(h: nat, j: nat): nat {
    if j == 0 then h else (Probe(h, j - 1) + Delta(h)) % TWO_32
  }

  predicate AllMarked(bits: Bytes, h: nat, k: nat)
    requires bits != []
  {
    forall j :: 0 <= j < k ==> Marked(bits, Probe(h, j) % (8 * |bits|))
  }

  lemma AllMarkedCovered(more: Bytes, less: Bytes, h: nat, k: nat)
    requires less != [] && Covers(more, less) && AllMarked(less, h, k)
    ensures AllMarked(more, h, k)
  {
  }

  // ---- The policy ------------------------------------------------------------------------------------------------

  function FilterBytes(n: nat, bitsPerKey: nat): (bytes: nat)
    ensures bytes >= 8
  {
    ((if n * bitsPerKey < 64 then 64 else n * bitsPerKey) + 7) / 8
  }

  function Zeros(n: nat): Bytes { seq(n, _ => 0) }

  /** Position p is one of the first j probes of hash h. */
  ghost predicate Probed(h: nat, j: nat, length: nat, p: nat) {
    length > 0 && exists t :: 0 <= t < j && Probe(h, t) % length == p
  }

  /** Position p is a probe of one of the first i keys. */
  ghost predicate ProbedFor(hash: Hash, keys: seq<Bytes>, i: nat, k: nat, length: nat, p: nat) {
    exists m :: 0 <= m < i && m < |keys| && Probed(hash(keys[m]), k, length, p)
  }

  /** CreateFilter appends a bit array, the least of whole bytes with at least 64 bits and so many for each key, in which
      exactly the probes of the keys are marked, and the number of probes. */
  method CreateFilter(hash: Hash, bitsPerKey: nat, k: nat, keys: seq<Bytes>, dst: Bytes) returns (dst': Bytes)
    requires 1 <= k <= 30
    ensures |dst'| > |dst| + 8 && dst'[..|dst|] == dst && dst'[|dst'| - 1] == k
    ensures var bits := dst'[|dst|..|dst'| - 1];
            && bits != [] && (forall i :: 0 <= i < |keys| ==> AllMarked(bits, hash(keys[i]), k))
            && forall p :: 0 <= p < 8 * |bits| && Marked(bits, p) ==> ProbedFor(hash, keys, |keys|, k, 8 * |bits|, p)
    ensures var length, wanted := 8 * (|dst'| - |dst| - 1), |keys| * bitsPerKey;
            length >= 64 && wanted <= length && (length == 64 || length < wanted + 8)
  {
    hide Marked, Probe, Delta, FilterBytes, Probed, ProbedFor;
    var bits := Zeros(FilterBytes(|keys|, bitsPerKey));
    var length := 8 * |bits|;
    NoneMarked(hash, keys, k, |bits|);
    for i := 0 to |keys|
      invariant |bits| == FilterBytes(|keys|, bitsPerKey)
      invariant forall m :: 0 <= m < i ==> AllMarked(bits, hash(keys[m]), k)
      invariant forall p :: 0 <= p < length && Marked(bits, p) ==> ProbedFor(hash, keys, i, k, length, p)
    {
      var h0 := hash(keys[i]);
      var h, delta := h0, Delta(h0);
      ghost var before := bits;
      SelfCovers(bits);
      ProbeStart(h0);
      for j := 0 to k
        invariant |bits| == |before| && Covers(bits, before) && AllMarked(bits, h0, j) && h == Probe(h0, j)
        invariant forall p :: 0 <= p < length && Marked(bits, p) ==> Marked(before, p) || Probed(h0, j, length, p)
      {
        var p := h % length;
        MarkMarks(bits, p);
        CoversTrans(Mark(bits, p), bits, before);
        AllMarkedCovered(Mark(bits, p), bits, h0, j);
        OneMoreMarked(Mark(bits, p), h0, j);
        OneMoreProbed(before, bits, h0, j);
        ProbeNext(h0, j);
        bits := Mark(bits, p);
        h := (h + delta) % TWO_32;
      }
      forall m | 0 <= m < i ensures AllMarked(bits, hash(keys[m]), k) {
        AllMarkedCovered(bits, before, hash(keys[m]), k);
      }
      OneMoreKey(hash, keys, i, k, length);
    }
    SizeOfFilter(|keys|, bitsPerKey);
    dst' := dst + bits + [k];
    assert dst'[|dst|..|dst'| - 1] == bits;
  }

  lemma NoneMarked(hash: Hash, keys: seq<Bytes>, k: nat, n: nat)
    ensures forall p :: 0 <= p < 8 * n ==> !Marked(Zeros(n), p)
  {
    forall p | 0 <= p < 8 * n ensures !Marked(Zeros(n), p) {
      NoBits(p % 8);
    }
  }

  lemma {:induction false} NoBits(i: nat)
    ensures !BitOf(0, i)
  {
    if i > 0 {
      NoBits(i - 1);
    }
  }

  lemma OneMoreProbed(before: Bytes, bits: Bytes, h: nat, j: nat)
    requires bits != [] && |before| == |bits|
    requires forall p :: 0 <= p < 8 * |bits| && Marked(bits, p) ==> Marked(before, p) || Probed(h, j, 8 * |bits|, p)
    ensures forall p :: 0 <= p < 8 * |bits| && Marked(Mark(bits, Probe(h, j) % (8 * |bits|)), p)
                        ==> Marked(before, p) || Probed(h, j + 1, 8 * |bits|, p)
  {
    hide Marked, Mark, Probe;
    var here := Probe(h, j) % (8 * |bits|);
    forall p | 0 <= p < 8 * |bits| && Marked(Mark(bits, here), p)
      ensures Marked(before, p) || Probed(h, j + 1, 8 * |bits|, p)
    {
      MarkOnly(bits, here, p);
    }
  }

  lemma OneMoreKey(hash: Hash, keys: seq<Bytes>, i: nat, k: nat, length: nat)
    requires i < |keys|
    ensures forall p :: ProbedFor(hash, keys, i, k, length, p) || Probed(hash(keys[i]), k, length, p)
                        ==> ProbedFor(hash, keys, i + 1, k, length, p)
  {
    hide Probed;
  }

  lemma SizeOfFilter(n: nat, bitsPerKey: nat)
    ensures var length, wanted := 8 * FilterBytes(n, bitsPerKey), n * bitsPerKey;
            length >= 64 && wanted <= length && (length == 64 || length < wanted + 8)
  {
  }

  lemma SelfCovers(bits: Bytes)
    ensures Covers(bits, bits)
  {
  }

  lemma OneMoreMarked(bits: Bytes, h: nat, j: nat)
    requires bits != [] && AllMarked(bits, h, j) && Marked(bits, Probe(h, j) % (8 * |bits|))
    ensures AllMarked(bits, h, j + 1)
  {
  }

  /** KeyMayMatch, on any bytes as a filter. */
  predicate MayMatch(hash: Hash, key: Bytes, filter: Bytes) {
    if |filter| < 2 then false
    else if filter[|filter| - 1] > 30 then true
    else AllMarked(filter[..|filter| - 1], hash(key), filter[|filter| - 1])
  }

  method KeyMayMatch(hash: Hash, key: Bytes, filter: Bytes) returns (r: bool)
    ensures r == MayMatch(hash, key, filter)
  {
    hide Marked, Probe, Delta;
    var len := |filter|;
    if len < 2 {
      return false;
    }
    var bits, k := filter[..len - 1], filter[len - 1];
    if k > 30 {
      return true;
    }
    var length := (len - 1) * 8;
    var h0 := hash(key);
    var h, delta := h0, Delta(h0);
    ProbeStart(h0);
    for j := 0 to k
      invariant h == Probe(h0, j) && AllMarked(bits, h0, j)
    {
      if !Marked(bits, h % length) {
        return false;
      }
      OneMoreMarked(bits, h0, j);
      ProbeNext(h0, j);
      h := (h + delta) % TWO_32;
    }
    r := true;
  }

  lemma ProbeStart(h: nat)
    ensures Probe(h, 0) == h
  {
  }

  lemma ProbeNext(h: nat, j: nat)
    ensures Probe(h, j + 1) == (Probe(h, j) + Delta(h)) % TWO_32
  {
  }

  /** A filter of a policy's number of probes denies exactly the keys with a probe unmarked: never one it was made from. */
  lemma NoFalseNegatives(hash: Hash, filter: Bytes, k: nat, key: Bytes)
    requires 1 <= k <= 30 && |filter| >= 2 && filter[|filter| - 1] == k
    ensures MayMatch(hash, key, filter) <==> AllMarked(filter[..|filter| - 1], hash(key), k)
  {
  }
}
