/** Reading 32-bit varints (nanopb pb_decode.c, pb_decode_varint32_eof), zigzag numbers and signed storage. */
module PbVarints {
  import opened Bits
  import opened Coding

  /** The multibyte case. Bits from position 32 on must be zero or repeat a sign; bitpos is eight bits wide. */
  function Varint32Rest(input: Bytes, bitpos: nat, result: nat): (r: Parsed<nat>)
    ensures r.Parsed? ==> |r.rest| < |input|
    decreases |input|
  {
    if input == [] then Failed
    else
      var b := input[0];
      if bitpos >= 32 && b % 128 != 0 && (result < 0x8000_0000 || b != if bitpos < 63 then 0xFF else 0x01) then Failed
      else
        var result' := if bitpos >= 32 then result else BitOr(result, b % 128 * Pow2(bitpos) % TWO_32);
        var bitpos' := (bitpos + 7) % 256;
        if b >= 128 then Varint32Rest(input[1..], bitpos', result')
        else if bitpos' == 35 && b / 16 % 8 != 0 then Failed
        else Parsed(result', input[1..])
  }

  function PbVarint32Of(input: Bytes): (r: Parsed<nat>)
    ensures r.Parsed? ==> |r.rest| < |input|
  {
    if input == [] then Failed
    else if input[0] < 128 then Parsed(input[0], input[1..])
    else Varint32Rest(input[1..], 7, input[0] % 128)
  }

  lemma Pow2Values()
    ensures Pow2(7) == 0x80 && Pow2(14) == 0x4000 && Pow2(21) == 0x20_0000 && Pow2(28) == 0x1000_0000
  {
    assert Pow2(4) == 16 && Pow2(7) == 8 * Pow2(4);
    assert forall n: nat :: Pow2(n + 1) == 2 * Pow2(n);
    Seven(7);
    Seven(14);
    Seven(21);
  }

  lemma Seven(n: nat)
    ensures Pow2(n + 7) == 128 * Pow2(n)
  {
    assert Pow2(n + 7) == 2 * Pow2(n + 6) == 4 * Pow2(n + 5) == 8 * Pow2(n + 4);
    assert Pow2(n + 4) == 2 * Pow2(n + 3) == 4 * Pow2(n + 2) == 8 * Pow2(n + 1);
  }

  lemma {:induction false} RestRoundTrip(v: nat, rest: Bytes, k: nat, r: nat)
    requires 1 <= k <= 4 && r < Pow2(7 * k) && v * Pow2(7 * k) < TWO_32
    ensures Varint32Rest(Varint(v) + rest, 7 * k, r) == Parsed(r + v * Pow2(7 * k), rest)
    decreases v
  {
    hide BitOr, Varint, Pow2;
    var p := Pow2(7 * k);
    Pow2Values();
    Seven(7 * k);
    var input := Varint(v) + rest;
    DisjointOr(r, v % 128, 7 * k);
    LowPart(v, p);
    if v < 128 {
      Varint1(v);
      assert input[0] == v && input[1..] == rest;
      LastOf(input, 7 * k, r);
    } else {
      LongVarint(v);
      assert input[0] == v % 128 + 128 && input[1..] == Varint(v / 128) + rest;
      MoreOf(input, 7 * k, r);
      RestRoundTrip(v / 128, rest, k + 1, r + v % 128 * p);
    }
  }

  lemma LowPart(v: nat, p: nat)
    requires v * p < TWO_32 && p > 0
    ensures v % 128 * p <= v * p && v % 128 * p % TWO_32 == v % 128 * p && (v % 128 + 128) % 128 == v % 128
    ensures v / 128 * (128 * p) + v % 128 * p == v * p && v % 128 * p <= 127 * p
    ensures p == 0x1000_0000 ==> v < 16
  {
    Regroup(v, p);
    SmallParts(v, p, TWO_32);
    Times(127, v % 128, p);
    Positive(v / 128, 128 * p);
    if p == 0x1000_0000 {
      assert v * 0x1000_0000 < TWO_32;
    }
  }

  lemma Positive(a: nat, b: nat)
    ensures a * b >= 0
  {
  }

  lemma LastOf(input: Bytes, bitpos: nat, r: nat)
    requires input != [] && bitpos < 32 && input[0] < 128 && (bitpos == 28 ==> input[0] < 16)
    ensures Varint32Rest(input, bitpos, r) == Parsed(BitOr(r, input[0] % 128 * Pow2(bitpos) % TWO_32), input[1..])
  {
    hide BitOr, Pow2;
  }

  lemma MoreOf(input: Bytes, bitpos: nat, r: nat)
    requires input != [] && bitpos < 32 && input[0] >= 128
    ensures Varint32Rest(input, bitpos, r)
            == Varint32Rest(input[1..], bitpos + 7, BitOr(r, input[0] % 128 * Pow2(bitpos) % TWO_32))
  {
    hide BitOr, Pow2;
  }

  /** Every 32-bit number is read back. */
  lemma PbVarint32RoundTrip(v: nat, rest: Bytes)
    requires v < TWO_32
    ensures PbVarint32Of(Varint(v) + rest) == Parsed(v, rest)
  {
    hide Varint, Varint32Rest, Pow2;
    var input := Varint(v) + rest;
    Pow2Values();
    if v < 128 {
      Varint1(v);
      assert input[0] == v && input[1..] == rest;
    } else {
      LongVarint(v);
      assert input[0] == v % 128 + 128 && input[1..] == Varint(v / 128) + rest;
      RestRoundTrip(v / 128, rest, 1, v % 128);
    }
  }

  // ---- Signed numbers --------------------------------------------------------------------------------------------

  /** 256 to the size. */
  function Span(size: nat): (n: nat)
    ensures n > 0
  {
    match size case 1 => 0x100 case 2 => 0x1_0000 case 4 => TWO_32 case _ => TWO_64
  }

  /** A cast to a signed type of so many bytes. */
  function AsSigned(n: int, size: nat): int {
    if n % Span(size) < Span(size) / 2 then n % Span(size) else n % Span(size) - Span(size)
  }

  predicate FitsSigned(n: int, size: nat) { -(Span(size) / 2) <= n < Span(size) / 2 }

  /** A cast to a signed type keeps exactly the numbers that fit it. */
  lemma AsSignedFits(n: int, size: nat)
    ensures AsSigned(n, size) == n <==> FitsSigned(n, size)
  {
  }

  /** Sign extension to 64 bits and back. */
  lemma SignExtended(n: int, size: nat)
    requires FitsSigned(n, size) && size in {1, 2, 4, 8}
    ensures AsSigned(n % TWO_64, if size == 8 then 8 else 4) == n
  {
    assert n % TWO_64 % TWO_32 == n % TWO_32;
  }

  /** pb_decode_svarint. */
  function UnZigZag(v: nat): int {
    if v % 2 == 1 then AsSigned(TWO_64 - 1 - v / 2, 8) else AsSigned(v / 2, 8)
  }

  /** pb_encode_svarint: negative numbers become odd ones. */
  function ZigZag(n: int): nat {
    if n < 0 then TWO_64 - 1 - n % TWO_64 * 2 % TWO_64 else n % TWO_64 * 2 % TWO_64
  }

  /** Small numbers of either sign become small numbers, and zigzag is undone. */
  lemma ZigZagRoundTrip(n: int)
    requires FitsSigned(n, 8)
    ensures ZigZag(n) == (if n < 0 then -2 * n - 1 else 2 * n) && UnZigZag(ZigZag(n)) == n
  {
    if n < 0 {
      assert n % TWO_64 == n + TWO_64;
      assert (n + TWO_64) * 2 == (2 * n + TWO_64) + TWO_64;
      assert (n + TWO_64) * 2 % TWO_64 == 2 * n + TWO_64;
      assert ZigZag(n) == -2 * n - 1 && (-2 * n - 1) / 2 == -n - 1 && (-2 * n - 1) % 2 == 1;
      AsSignedFits(n, 8);
      assert TWO_64 - 1 - (-n - 1) == n + TWO_64;
    } else {
      assert n % TWO_64 == n && n * 2 % TWO_64 == 2 * n;
      assert 2 * n % 2 == 0 && 2 * n / 2 == n;
    }
  }
}
