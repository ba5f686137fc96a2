/** Numbers as rows of bits. */
module Bits {
  predicate BitOf(b: nat, i: nat) {
    if i == 0 then b % 2 == 1 else BitOf(b / 2, i - 1)
  }

  /** b | (1 << i). */
  function SetBit(b: nat, i: nat): nat {
    if i == 0 then (if b % 2 == 1 then b else b + 1) else b % 2 + 2 * SetBit(b / 2, i - 1)
  }

  function Pow2(n: nat): (p: nat)
    ensures p > 0
  {
    if n == 0 then 1 else 2 * Pow2(n - 1)
  }

  lemma {:induction false} SetBitFits(b: nat, i: nat, n: nat)
    requires i < n && b < Pow2(n)
    ensures SetBit(b, i) < Pow2(n)
  {
    var half := Pow2(n - 1);
    assert Pow2(n) == 2 * half;
    hide Pow2;
    if i > 0 {
      SetBitFits(b / 2, i - 1, n - 1);
    }
  }

  lemma {:induction false} SetBitSets(b: nat, i: nat, j: nat)
    ensures BitOf(SetBit(b, i), j) <==> j == i || BitOf(b, j)
  {
    if i > 0 {
      var s := SetBit(b / 2, i - 1);
      assert SetBit(b, i) / 2 == s && SetBit(b, i) % 2 == b % 2;
      if j > 0 {
        SetBitSets(b / 2, i - 1, j - 1);
      }
    } else if j > 0 {
      assert SetBit(b, 0) / 2 == b / 2;
    }
  }

  /** Low bits q below high bits r. */
  lemma {:induction false} BitJoin(q: nat, r: nat, k: nat, i: nat)
    requires q < Pow2(k)
    ensures BitOf(q + r * Pow2(k), i) <==> if i < k then BitOf(q, i) else BitOf(r, i - k)
  {
    if k > 0 {
      var c := r * Pow2(k - 1);
      assert r * Pow2(k) == 2 * c;
      assert (q + 2 * c) % 2 == q % 2 && (q + 2 * c) / 2 == q / 2 + c;
      if i > 0 {
        BitJoin(q / 2, r, k - 1, i - 1);
      }
    }
  }

  /** a | b. */
  function BitOr(a: nat, b: nat): nat
    decreases a + b
  {
    if a == 0 && b == 0 then 0
    else (if a % 2 == 1 || b % 2 == 1 then 1 else 0) + 2 * BitOr(a / 2, b / 2)
  }

  lemma {:induction false} OrZero(a: nat)
    ensures BitOr(a, 0) == a && BitOr(0, a) == a
  {
    if a > 0 {
      OrZero(a / 2);
    }
  }

  /** Bits that do not overlap are added. */
  lemma {:induction false} DisjointOr(a: nat, b: nat, k: nat)
    requires a < Pow2(k)
    ensures BitOr(a, b * Pow2(k)) == a + b * Pow2(k)
  {
    if k == 0 {
      OrZero(b);
    } else {
      var c := b * Pow2(k - 1);
      assert b * Pow2(k) == 2 * c;
      DisjointOr(a / 2, b, k - 1);
      if a != 0 || c != 0 {
        assert (2 * c) % 2 == 0 && (2 * c) / 2 == c;
      }
    }
  }
}
