/** The 32-bit varint reader (nanopb pb_decode_varint32) on numbers of more than 32 bits. */
module PbWideVarints {
  import opened Bits
  import opened Coding
  import opened PbVarints

  /** A byte from position 35 on: zero bits are let through, and ones if they repeat the sign. */
  lemma TopByte(w: nat, bitpos: nat, r: nat, rest: Bytes)
    requires w > 0 && 35 <= bitpos <= 63 && (bitpos == 63 ==> w == 1)
    ensures Varint32Rest(Varint(w) + rest, bitpos, r)
            == if w < 128 then if bitpos == 63 && r >= 0x8000_0000 then Parsed(r, rest) else Failed
               else if w % 128 == 0 || (w % 128 == 127 && r >= 0x8000_0000)
               then Varint32Rest(Varint(w / 128) + rest, bitpos + 7, r) else Failed
  {
    hide BitOr, Varint, Pow2;
    var input := Varint(w) + rest;
    if w < 128 {
      Varint1(w);
      assert input[0] == w && input[1..] == rest;
    } else {
      LongVarint(w);
      assert input[0] == w % 128 + 128 && input[1..] == Varint(w / 128) + rest;
    }
  }

  /** No bits, or the sign's. */
  predicate Copies(w: nat, r: nat) { w % 128 == 0 || (w % 128 == 127 && r >= 0x8000_0000) }

  lemma TopBytes(w: nat, r: nat, rest: Bytes)
    requires 0 < w < 0x2000_0000
    ensures Varint32Rest(Varint(w) + rest, 35, r)
            == if w >= 0x1000_0000 && r >= 0x8000_0000 && Copies(w, r) && Copies(w / 0x80, r) && Copies(w / 0x4000, r)
                  && Copies(w / 0x20_0000, r)
               then Parsed(r, rest) else Failed
  {
    hide Varint, Varint32Rest;
    var w1, w2, w3, w4 := w / 0x80, w / 0x4000, w / 0x20_0000, w / 0x1000_0000;
    assert w1 / 128 == w2 && w2 / 128 == w3 && w3 / 128 == w4;
    TopByte(w, 35, r, rest);
    if w >= 128 {
      TopByte(w1, 42, r, rest);
      if w1 >= 128 {
        TopByte(w2, 49, r, rest);
        if w2 >= 128 {
          TopByte(w3, 56, r, rest);
          if w3 >= 128 {
            TopByte(w4, 63, r, rest);
          }
        }
      }
    }
  }

  /** A byte before position 28, then the one there, of which four bits fit. */
  lemma LowByte(w: nat, bitpos: nat, r: nat, rest: Bytes)
    requires w >= 128 && bitpos in {7, 14, 21} && r < Pow2(bitpos)
    ensures Varint32Rest(Varint(w) + rest, bitpos, r)
            == Varint32Rest(Varint(w / 128) + rest, bitpos + 7, r + w % 128 * Pow2(bitpos))
    ensures r + w % 128 * Pow2(bitpos) < Pow2(bitpos + 7)
  {
    hide BitOr, Varint, Pow2, Varint32Rest;
    LongVarint(w);
    var input := Varint(w) + rest;
    assert input[0] == w % 128 + 128 && input[1..] == Varint(w / 128) + rest;
    Pow2Values();
    DisjointOr(r, w % 128, bitpos);
    Seven(bitpos);
    MoreOf(input, bitpos, r);
  }

  lemma FourBits(w: nat, r: nat, rest: Bytes)
    requires w >= 16 && r < 0x1000_0000
    ensures Varint32Rest(Varint(w) + rest, 28, r)
            == if w < 128 then Failed else Varint32Rest(Varint(w / 128) + rest, 35, r + w % 16 * 0x1000_0000)
  {
    hide BitOr, Varint, Pow2, Varint32Rest;
    var input := Varint(w) + rest;
    Pow2Values();
    if w < 128 {
      Varint1(w);
      assert input[0] == w;
      LastTooBig(input, r);
    } else {
      LongVarint(w);
      assert input[0] == w % 128 + 128 && input[1..] == Varint(w / 128) + rest;
      MoreOf(input, 28, r);
      Truncated(w);
      DisjointOr(r, w % 16, 28);
    }
  }

  lemma LastTooBig(input: Bytes, r: nat)
    requires input != [] && 16 <= input[0] < 128
    ensures Varint32Rest(input, 28, r) == Failed
  {
    hide BitOr, Pow2;
  }

  lemma Truncated(w: nat)
    requires w >= 128
    ensures (w % 128 + 128) % 128 * 0x1000_0000 % TWO_32 == w % 16 * 0x1000_0000
  {
    assert (w % 128 + 128) % 128 == 16 * (w / 16 % 8) + w % 16;
    TwoParts(w / 16 % 8, w % 16);
  }

  lemma TwoParts(a: nat, b: nat)
    requires b < 16
    ensures (16 * a + b) * 0x1000_0000 % TWO_32 == b * 0x1000_0000
  {
    assert (16 * a + b) * 0x1000_0000 == a * TWO_32 + b * 0x1000_0000;
  }

  /** Bits 31 and 63 are set, and bits 35 to 62 are in groups of seven alike; bits 32 to 34 may be anything. */
  predicate LooksNegative(v: nat) {
    && v / 0x8000_0000_0000_0000 == 1 && v / 0x8000_0000 % 2 == 1
    && v / 0x8_0000_0000 % 128 in {0, 127} && v / 0x400_0000_0000 % 128 in {0, 127}
    && v / 0x2_0000_0000_0000 % 128 in {0, 127} && v / 0x100_0000_0000_0000 % 128 in {0, 127}
  }

  /** Of the numbers of 33 to 64 bits the reader takes those that look like a negative number, for their low 32 bits, and
      refuses the others. */
  lemma WideNumbers(v: nat, rest: Bytes)
    requires TWO_32 <= v < TWO_64
    ensures PbVarint32Of(Varint(v) + rest) == if LooksNegative(v) then Parsed(v % TWO_32, rest) else Failed
  {
    hide Varint, Varint32Rest, Pow2, LooksNegative, Copies;
    Pow2Values();
    LongVarint(v);
    var input := Varint(v) + rest;
    assert input[0] == v % 128 + 128 && input[1..] == Varint(v / 0x80) + rest;
    Digits(v);
    LowByte(v / 0x80, 7, v % 0x80, rest);
    LowByte(v / 0x4000, 14, v % 0x4000, rest);
    LowByte(v / 0x20_0000, 21, v % 0x20_0000, rest);
    FourBits(v / 0x1000_0000, v % 0x1000_0000, rest);
    if v >= 0x8_0000_0000 {
      TopBytes(v / 0x8_0000_0000, v % TWO_32, rest);
    }
    Looks(v);
  }

  lemma Digits(v: nat)
    requires TWO_32 <= v < TWO_64
    ensures v / 0x80 >= 128 && v / 0x80 / 128 == v / 0x4000 >= 128 && v / 0x4000 / 128 == v / 0x20_0000 >= 128
    ensures v / 0x20_0000 / 128 == v / 0x1000_0000 >= 16 && v / 0x1000_0000 / 128 == v / 0x8_0000_0000
    ensures v % 0x80 + v / 0x80 % 128 * 0x80 == v % 0x4000 && v % 0x4000 + v / 0x4000 % 128 * 0x4000 == v % 0x20_0000
    ensures v % 0x20_0000 + v / 0x20_0000 % 128 * 0x20_0000 == v % 0x1000_0000
    ensures v % 0x1000_0000 + v / 0x1000_0000 % 16 * 0x1000_0000 == v % TWO_32
    ensures (v % 128 + 128) % 128 == v % 128 && (v / 0x1000_0000 < 128 <==> v < 0x8_0000_0000)
    ensures v < 0x8_0000_0000 ==> v / 0x8_0000_0000 == 0
    ensures v >= 0x8_0000_0000 ==> 0 < v / 0x8_0000_0000 < 0x2000_0000
  {
  }

  lemma Looks(v: nat)
    requires TWO_32 <= v < TWO_64
    ensures var (w, r) := (v / 0x8_0000_0000, v % TWO_32);
            LooksNegative(v) <==> w >= 0x1000_0000 && r >= 0x8000_0000 && Copies(w, r) && Copies(w / 0x80, r)
                                  && Copies(w / 0x4000, r) && Copies(w / 0x20_0000, r)
  {
  }

  /** So every negative 32-bit number comes through, written as 64 bits, and so does a number that is none. */
  lemma NegativesAndMore(n: int, rest: Bytes)
    requires -0x8000_0000 <= n < 0
    ensures PbVarint32Of(Varint(n + TWO_64) + rest) == Parsed(n + TWO_32, rest)
    ensures PbVarint32Of(Varint(0x8000_0000_8000_0000) + rest) == Parsed(0x8000_0000, rest)
  {
    hide Varint, PbVarint32Of;
    WideNumbers(n + TWO_64, rest);
    WideNumbers(0x8000_0000_8000_0000, rest);
  }
}
