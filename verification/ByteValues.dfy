/** Bytes as 8-bit words and as numbers. */
module ByteValues {
  type Bytes = seq<bv8>

  lemma Successor(b: bv8, n: nat)
    requires b as nat == n && n < 255
    ensures (b + 1) as nat == n + 1
  {
  }

  /** The byte of value n. */
  function ByteFrom(n: nat): (b: bv8)
    requires n < 256
    ensures b as nat == n
  {
    if n == 0 then 0
    else
      Successor(ByteFrom(n - 1), n - 1);
      ByteFrom(n - 1) + 1
  }

  lemma SliceOfSlice<T>(s: seq<T>, i: nat, j: nat, k: nat, m: nat)
    requires i <= j <= |s| && k <= m <= j - i
    ensures s[i..j][k..m] == s[i + k..i + m]
  {
    var a, b := s[i..j][k..m], s[i + k..i + m];
    assert |a| == |b|;
    forall x | 0 <= x < |a| ensures a[x] == b[x] {
      assert s[i..j][k + x] == s[i + k + x];
    }
  }
}
