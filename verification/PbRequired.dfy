/** The bitmap of required fields seen (nanopb pb_decode.c, pb_decode_noinit): two 32-bit words. */
module PbRequired {
  import opened Bits

  const MAX_REQUIRED: nat := 64

  type Bitmap = seq<nat>

  /** Word w holds the bits of indices 32 * w and up. */
  ghost predicate Records(words: Bitmap, seen: set<nat>) {
    && |words| == 2 && words[0] < Pow2(32) && words[1] < Pow2(32)
    && (forall i: nat :: i in seen ==> i < MAX_REQUIRED)
    && (forall i: nat :: BitOf(words[0], i) <==> i < 32 && i in seen)
    && (forall i: nat :: BitOf(words[1], i) <==> i < 32 && i + 32 in seen)
  }

  lemma {:induction false} NoBits(i: nat)
    ensures !BitOf(0, i)
  {
    if i > 0 {
      NoBits(i - 1);
    }
  }

  lemma EmptyRecords()
    ensures Records([0, 0], {})
  {
    forall i: nat ensures !BitOf(0, i) {
      NoBits(i);
    }
    assert Pow2(32) > 0;
  }

  method MarkSeen(words: Bitmap, index: nat, ghost seen: set<nat>) returns (r: Bitmap)
    requires Records(words, seen) && index < MAX_REQUIRED
    ensures Records(r, seen + {index})
  {
    hide Pow2, BitOf, SetBit;
    SetBitFits(words[index / 32], index % 32, 32);
    r := words[index / 32 := SetBit(words[index / 32], index % 32)];
    forall i: nat ensures BitOf(r[index / 32], i) <==> i == index % 32 || BitOf(words[index / 32], i) {
      SetBitSets(words[index / 32], index % 32, i);
    }
    assert index < 32 ==> index / 32 == 0 && index % 32 == index;
    assert index >= 32 ==> index / 32 == 1 && index % 32 + 32 == index;
    assert forall i: nat :: BitOf(r[0], i) <==> i < 32 && i in seen + {index};
    assert forall i: nat :: BitOf(r[1], i) <==> i < 32 && i + 32 in seen + {index};
  }

  /** The bits of 2^r - 1 are those below r. */
  lemma {:induction false} OnesBits(r: nat, i: nat)
    ensures BitOf(Pow2(r) - 1, i) <==> i < r
  {
    if r == 0 {
      NoBits(i);
    } else {
      var p := Pow2(r - 1);
      assert Pow2(r) - 1 == 2 * (p - 1) + 1;
      assert (Pow2(r) - 1) / 2 == p - 1 && (Pow2(r) - 1) % 2 == 1;
      if i > 0 {
        OnesBits(r - 1, i - 1);
      }
    }
  }

  /** A number is its bits. */
  lemma {:induction false} SameBits(a: nat, b: nat)
    requires forall i: nat :: BitOf(a, i) <==> BitOf(b, i)
    ensures a == b
    decreases a + b
  {
    assert BitOf(a, 0) <==> BitOf(b, 0);
    if a + b > 0 {
      forall i: nat ensures BitOf(a / 2, i) <==> BitOf(b / 2, i) {
        assert BitOf(a, i + 1) <==> BitOf(b, i + 1);
      }
      SameBits(a / 2, b / 2);
    }
  }

  /** allbits >> (32 - r). */
  function LowOnes(r: nat): nat { Pow2(r) - 1 }

  lemma WordIsFull(word: nat, base: nat, r: nat, seen: set<nat>)
    requires r <= 32 && forall i: nat :: BitOf(word, i) <==> i < 32 && i + base in seen
    requires forall x: nat :: x in seen && base <= x < base + 32 ==> x < base + r
    ensures word == LowOnes(r) <==> forall i: nat :: base <= i < base + r ==> i in seen
  {
    hide BitOf, Pow2;
    forall i: nat ensures BitOf(LowOnes(r), i) <==> i < r {
      OnesBits(r, i);
    }
    if word == LowOnes(r) {
      forall i: nat | base <= i < base + r ensures i in seen {
        assert BitOf(LowOnes(r), i - base);
        assert BitOf(word, i - base) && i - base + base in seen;
      }
    }
    if forall i: nat :: base <= i < base + r ==> i in seen {
      forall i: nat ensures BitOf(word, i) <==> BitOf(LowOnes(r), i) {
        if i < 32 && i + base in seen {
          assert i + base < base + r;
        }
        assert i < r ==> i + base in seen;
      }
      SameBits(word, LowOnes(r));
    }
  }

  /** The final test: whole words, then the remaining bits. It passes exactly when each of the first 64 required
      fields was seen. */
  method AllSeen(words: Bitmap, fieldCount: nat, ghost seen: set<nat>) returns (all: bool)
    requires Records(words, seen) && (fieldCount > 0 ==> forall i: nat :: i in seen ==> i < fieldCount)
    ensures all <==> forall i: nat :: i < fieldCount && i < MAX_REQUIRED ==> i in seen
  {
    hide BitOf, Pow2;
    var count := if fieldCount > MAX_REQUIRED then MAX_REQUIRED else fieldCount;
    if count == 0 {
      return true;
    }
    WordIsFull(words[0], 0, if count < 32 then count else 32, seen);
    WordIsFull(words[1], 32, if count < 32 then 0 else count - 32, seen);
    for i := 0 to count / 32
      invariant forall j :: 0 <= j < i ==> words[j] == LowOnes(32)
    {
      if words[i] != LowOnes(32) {
        return false;
      }
    }
    if count % 32 != 0 {
      if words[count / 32] != LowOnes(count % 32) {
        return false;
      }
    }
    all := true;
  }
}
