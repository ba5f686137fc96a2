/** CRC32C (util/crc32c.cc, portable path): the four-lane strided computation is the bit-by-bit remainder. */
module Crc32c {
  /** The Castagnoli polynomial of section 12.1 of RFC 3720, bit-reversed. */
  const POLYNOMIAL: bv32 := 0x82F6_3B78
  const ALL_ONES: bv32 := 0xFFFF_FFFF
  const MASK_DELTA: bv32 := 0xA282_EAD8

  // ---- The remainder, one bit at a time ----------------------------------------------------------------------

  function Xor(x: bv32, y: bv32): bv32 { x ^ y }

  /** The polynomial is taken off when the bit shifted out is set. */
  function Taken(x: bv32): bv32 {
    if x & 1 == 1 then POLYNOMIAL else 0
  }

  function Half(x: bv32): bv32 { x >> 1 }

  /** Division of one more (zero) bit. */
  function BitStep(x: bv32): bv32 {
    Xor(Half(x), Taken(x))
  }

  function Bits(n: nat, x: bv32): bv32 {
    if n == 0 then x else BitStep(Bits(n - 1, x))
  }

  function ByteStep(x: bv32): bv32 { Bits(8, x) }

  function Wide(b: bv8): bv32 { b as bv32 }

  function Fold(l: bv32, data: seq<bv8>): bv32
    decreases |data|
  {
    if data == [] then l else Fold(ByteStep(Xor(l, Wide(data[0]))), data[1..])
  }

  /** The checksum of some text followed by data, given the checksum crc of the text. */
  function Checksum(crc: bv32, data: seq<bv8>): bv32 {
    Xor(Fold(Xor(crc, ALL_ONES), data), ALL_ONES)
  }

  lemma {:induction false} FoldConcat(l: bv32, a: seq<bv8>, b: seq<bv8>)
    ensures Fold(l, a + b) == Fold(Fold(l, a), b)
    decreases |a|
  {
    hide Xor, ByteStep, Wide;
    if a == [] {
      assert a + b == b;
    } else {
      assert (a + b)[1..] == a[1..] + b;
      FoldConcat(ByteStep(Xor(l, Wide(a[0]))), a[1..], b);
    }
  }

  /** Extending twice is extending by the concatenation. */
  lemma ChecksumConcat(crc: bv32, a: seq<bv8>, b: seq<bv8>)
    ensures Checksum(Checksum(crc, a), b) == Checksum(crc, a + b)
  {
    hide Xor, Fold;
    FoldConcat(Xor(crc, ALL_ONES), a, b);
    XorTwice(Fold(Xor(crc, ALL_ONES), a), ALL_ONES);
  }

  // ---- Exclusive or ------------------------------------------------------------------------------------------

  lemma XorTwice(x: bv32, y: bv32)
    ensures Xor(Xor(x, y), y) == x
  {
  }

  lemma XorComm(x: bv32, y: bv32)
    ensures Xor(x, y) == Xor(y, x)
  {
  }

  lemma XorAssoc(x: bv32, y: bv32, z: bv32)
    ensures Xor(Xor(x, y), z) == Xor(x, Xor(y, z))
  {
  }

  lemma XorZero(x: bv32)
    ensures Xor(0, x) == x && Xor(x, 0) == x
  {
  }

  // ---- Linearity ---------------------------------------------------------------------------------------------

  lemma HalfLinear(x: bv32, y: bv32)
    ensures Half(Xor(x, y)) == Xor(Half(x), Half(y))
  {
  }

  lemma LowBit(x: bv32, y: bv32)
    ensures (x ^ y) & 1 == 1 <==> (x & 1 == 1) != (y & 1 == 1)
  {
  }

  lemma TakenLinear(x: bv32, y: bv32)
    ensures Taken(Xor(x, y)) == Xor(Taken(x), Taken(y))
  {
    LowBit(x, y);
  }

  /** (a, b) with (c, d) regrouped as (a, c) with (b, d). */
  lemma XorRegroup(a: bv32, b: bv32, c: bv32, d: bv32)
    ensures Xor(Xor(a, b), Xor(c, d)) == Xor(Xor(a, c), Xor(b, d))
  {
    hide Xor;
    XorAssoc(a, b, Xor(c, d));
    XorAssoc(b, c, d);
    XorComm(b, c);
    XorAssoc(c, b, d);
    XorAssoc(a, c, Xor(b, d));
  }

  lemma BitStepLinear(x: bv32, y: bv32)
    ensures BitStep(Xor(x, y)) == Xor(BitStep(x), BitStep(y))
  {
    hide Xor, Half, Taken;
    HalfLinear(x, y);
    TakenLinear(x, y);
    XorRegroup(Half(x), Half(y), Taken(x), Taken(y));
  }

  lemma {:induction false} BitsLinear(n: nat, x: bv32, y: bv32)
    ensures Bits(n, Xor(x, y)) == Xor(Bits(n, x), Bits(n, y))
  {
    hide Xor, BitStep;
    if n > 0 {
      BitsLinear(n - 1, x, y);
      BitStepLinear(Bits(n - 1, x), Bits(n - 1, y));
    }
  }

  lemma ByteStepLinear(x: bv32, y: bv32)
    ensures ByteStep(Xor(x, y)) == Xor(ByteStep(x), ByteStep(y))
  {
    hide Xor, Bits;
    BitsLinear(8, x, y);
  }

  /** n zero bytes. */
  function Zeros(n: nat, x: bv32): bv32 {
    if n == 0 then x else ByteStep(Zeros(n - 1, x))
  }

  lemma {:induction false} ZerosLinear(n: nat, x: bv32, y: bv32)
    ensures Zeros(n, Xor(x, y)) == Xor(Zeros(n, x), Zeros(n, y))
  {
    hide Xor, ByteStep;
    if n > 0 {
      ZerosLinear(n - 1, x, y);
      ByteStepLinear(Zeros(n - 1, x), Zeros(n - 1, y));
    }
  }

  lemma {:induction false} ZerosAdd(m: nat, n: nat, x: bv32)
    ensures Zeros(m + n, x) == Zeros(m, Zeros(n, x))
  {
    hide ByteStep;
    if m > 0 {
      ZerosAdd(m - 1, n, x);
    }
  }

  // ---- Tables ------------------------------------------------------------------------------------------------

  /** kByteExtensionTable. */
  function ByteTable(c: bv8): bv32 { ByteStep(Wide(c)) }

  /** kStrideExtensionTable3, 2, 1 and 0: sixteen zero bytes behind byte 0, 1, 2 and 3 of a lane. */
  function StrideTable(byte: nat, c: bv8): bv32
    requires byte < 4
  {
    Zeros(16, At(byte, c))
  }

  /** Byte c at position byte of a word. */
  function At(byte: nat, c: bv8): bv32
    requires byte < 4
  {
    match byte
    case 0 => c as bv32
    case 1 => (c as bv32) << 8
    case 2 => (c as bv32) << 16
    case _ => (c as bv32) << 24
  }

  /** Byte number byte of a word. */
  function ByteOf(byte: nat, x: bv32): bv8
    requires byte < 4
  {
    match byte
    case 0 => (x & 0xFF) as bv8
    case 1 => ((x >> 8) & 0xFF) as bv8
    case 2 => ((x >> 16) & 0xFF) as bv8
    case _ => (x >> 24) as bv8
  }

  predicate Even(x: bv32) { x & 1 == 0 }

  lemma EvenStep(x: bv32)
    requires Even(x)
    ensures BitStep(x) == Half(x)
  {
    XorZero(x >> 1);
  }

  lemma FourEven(x: bv32)
    requires x & 0xF == 0
    ensures Even(x) && Even(Half(x)) && Even(Half(Half(x))) && Even(Half(Half(Half(x))))
    ensures Half(Half(Half(Half(x)))) == x >> 4
  {
  }

  lemma FourBits(x: bv32)
    requires x & 0xF == 0
    ensures Bits(4, x) == x >> 4
  {
    hide BitStep, Half, Even;
    FourEven(x);
    EvenStep(x);
    EvenStep(Half(x));
    EvenStep(Half(Half(x)));
    EvenStep(Half(Half(Half(x))));
    assert Bits(1, x) == BitStep(Bits(0, x));
    assert Bits(2, x) == BitStep(Bits(1, x));
    assert Bits(3, x) == BitStep(Bits(2, x));
  }

  lemma {:induction false} BitsAdd(m: nat, n: nat, x: bv32)
    ensures Bits(m + n, x) == Bits(m, Bits(n, x))
  {
    hide BitStep;
    if m > 0 {
      BitsAdd(m - 1, n, x);
    }
  }

  lemma TwoNibbles(x: bv32)
    requires x & 0xFF == 0
    ensures x & 0xF == 0 && (x >> 4) & 0xF == 0 && (x >> 4) >> 4 == x >> 8
  {
  }

  /** A word whose low byte is clear just shifts. */
  lemma LowClear(x: bv32)
    requires x & 0xFF == 0
    ensures ByteStep(x) == x >> 8
  {
    hide Bits;
    TwoNibbles(x);
    FourBits(x);
    FourBits(x >> 4);
    BitsAdd(4, 4, x);
  }

  lemma SplitLow(x: bv32)
    ensures x == (x & 0xFF) ^ (x & 0xFFFF_FF00) && (x & 0xFFFF_FF00) & 0xFF == 0 && (x & 0xFFFF_FF00) >> 8 == x >> 8
  {
  }

  /** The table form of a byte step: look up the low byte, shift the rest. */
  lemma TableStep(x: bv32)
    ensures ByteStep(x) == Xor(ByteTable(ByteOf(0, x)), x >> 8)
  {
    hide ByteStep;
    SplitLow(x);
    LowIsByte(x);
    ByteStepLinear(x & 0xFF, x & 0xFFFF_FF00);
    LowClear(x & 0xFFFF_FF00);
  }

  lemma LowIsByte(x: bv32)
    ensures Wide(ByteOf(0, x)) == x & 0xFF
  {
  }

  lemma LowByteXor(l: bv32, b: bv8)
    ensures ByteOf(0, Xor(l, Wide(b))) == ByteOf(0, l) ^ b && Xor(l, Wide(b)) >> 8 == l >> 8
  {
  }

  lemma SplitWord(x: bv32)
    ensures x == Xor(Xor(Xor(At(0, ByteOf(0, x)), At(1, ByteOf(1, x))), At(2, ByteOf(2, x))), At(3, ByteOf(3, x)))
  {
  }

  lemma ShiftBack(b: bv8)
    ensures At(1, b) & 0xFF == 0 && At(2, b) & 0xFF == 0 && At(3, b) & 0xFF == 0
    ensures At(1, b) >> 8 == Wide(b) && At(2, b) >> 8 == At(1, b) && At(3, b) >> 8 == At(2, b)
    ensures At(0, b) == Wide(b)
  {
  }

  lemma AtLinear(byte: nat, b: bv8, x: bv32)
    requires 1 <= byte < 4
    ensures Xor(ByteStep(x), At(byte - 1, b)) == ByteStep(Xor(x, At(byte, b)))
  {
    hide Xor, ByteStep, At;
    ShiftBack(b);
    LowClear(At(byte, b));
    ByteStepLinear(x, At(byte, b));
  }

  /** The four stride tables together advance a lane by sixteen bytes. */
  lemma StrideStep(x: bv32)
    ensures Xor(Xor(Xor(StrideTable(0, ByteOf(0, x)), StrideTable(1, ByteOf(1, x))), StrideTable(2, ByteOf(2, x))),
                StrideTable(3, ByteOf(3, x)))
            == Zeros(16, x)
  {
    hide Xor, Zeros, At, ByteOf;
    var a, b, c, d := At(0, ByteOf(0, x)), At(1, ByteOf(1, x)), At(2, ByteOf(2, x)), At(3, ByteOf(3, x));
    SplitWord(x);
    ZerosLinear(16, a, b);
    ZerosLinear(16, Xor(a, b), c);
    ZerosLinear(16, Xor(Xor(a, b), c), d);
  }

  // ---- Words and lanes ---------------------------------------------------------------------------------------

  /** ReadUint32LE. */
  function Word(data: seq<bv8>, p: nat): bv32
    requires p + 4 <= |data|
  {
    Xor(Xor(Xor(At(0, data[p]), At(1, data[p + 1])), At(2, data[p + 2])), At(3, data[p + 3]))
  }

  lemma FoldFour(l: bv32, data: seq<bv8>, p: nat)
    requires p + 4 <= |data|
    ensures Fold(l, data[p..p + 4])
            == ByteStep(Xor(ByteStep(Xor(ByteStep(Xor(ByteStep(Xor(l, Wide(data[p]))), Wide(data[p + 1]))),
                                                  Wide(data[p + 2]))), Wide(data[p + 3])))
  {
    hide Xor, ByteStep, Wide, Fold;
    var d := data[p..p + 4];
    assert d[1..] == data[p + 1..p + 4] && d[0] == data[p];
    FoldOne(l, d);
    var l1 := ByteStep(Xor(l, Wide(data[p])));
    assert data[p + 1..p + 4][1..] == data[p + 2..p + 4];
    FoldOne(l1, data[p + 1..p + 4]);
    var l2 := ByteStep(Xor(l1, Wide(data[p + 1])));
    assert data[p + 2..p + 4][1..] == [data[p + 3]];
    FoldOne(l2, data[p + 2..p + 4]);
    var l3 := ByteStep(Xor(l2, Wide(data[p + 2])));
    assert [data[p + 3]][1..] == [];
    FoldOne(l3, [data[p + 3]]);
    FoldNone(ByteStep(Xor(l3, Wide(data[p + 3]))));
  }

  lemma FoldOne(l: bv32, data: seq<bv8>)
    requires data != []
    ensures Fold(l, data) == Fold(ByteStep(Xor(l, Wide(data[0]))), data[1..])
  {
  }

  lemma FoldNone(l: bv32)
    ensures Fold(l, []) == l
  {
  }

  lemma ZerosFour(x: bv32)
    ensures Zeros(4, x) == ByteStep(ByteStep(ByteStep(ByteStep(x))))
  {
    hide ByteStep;
    assert Zeros(1, x) == ByteStep(Zeros(0, x));
    assert Zeros(2, x) == ByteStep(Zeros(1, x));
    assert Zeros(3, x) == ByteStep(Zeros(2, x));
  }

  /** Four bytes at once. */
  lemma FoldWord(l: bv32, data: seq<bv8>, p: nat)
    requires p + 4 <= |data|
    ensures Fold(l, data[p..p + 4]) == Zeros(4, Xor(l, Word(data, p)))
  {
    hide Xor, ByteStep, Wide, Fold, Zeros, At;
    FoldFour(l, data, p);
    ShiftBack(data[p]);
    var b1, b2, b3 := data[p + 1], data[p + 2], data[p + 3];
    ShiftBack(b1);
    ShiftBack(b2);
    ShiftBack(b3);
    var x0 := Xor(l, At(0, data[p]));
    AtLinear(1, b1, x0);
    var x1 := Xor(x0, At(1, b1));
    AtLinear(1, b2, ByteStep(x1));
    AtLinear(2, b2, x1);
    var x2 := Xor(x1, At(2, b2));
    AtLinear(1, b3, ByteStep(ByteStep(x2)));
    AtLinear(2, b3, ByteStep(x2));
    AtLinear(3, b3, x2);
    ZerosFour(Xor(x2, At(3, b3)));
    XorWord(l, At(0, data[p]), At(1, b1), At(2, b2), At(3, b3));
  }

  lemma XorWord(l: bv32, a: bv32, b: bv32, c: bv32, d: bv32)
    ensures Xor(Xor(Xor(Xor(l, a), b), c), d) == Xor(l, Xor(Xor(Xor(a, b), c), d))
  {
    hide Xor;
    XorAssoc(l, a, b);
    XorAssoc(l, Xor(a, b), c);
    XorAssoc(l, Xor(Xor(a, b), c), d);
  }

  /** What the four lanes stand for: the words a, b, c, d folded in that order. */
  function Combined(a: bv32, b: bv32, c: bv32, d: bv32): bv32 {
    Zeros(4, Xor(Zeros(4, Xor(Zeros(4, Xor(Zeros(4, a), b)), c)), d))
  }

  /** Rotating the lanes past one word is folding the word: the oldest lane's share is sixteen bytes further on. */
  lemma RotateLanes(a: bv32, b: bv32, c: bv32, d: bv32, w: bv32)
    ensures Combined(b, c, d, Xor(w, Zeros(16, a))) == Zeros(4, Xor(Combined(a, b, c, d), w))
  {
    hide Xor, Zeros;
    var x := Zeros(4, a);
    // Each stage of the right-hand side splits into that of the left-hand side and a share of lane a.
    ZerosLinear(4, x, b);
    var y := Zeros(4, b);
    ZerosAdd(4, 4, a);
    XorAssoc(Zeros(8, a), y, c);
    ZerosLinear(4, Zeros(8, a), Xor(y, c));
    var z := Zeros(4, Xor(y, c));
    ZerosAdd(4, 8, a);
    XorAssoc(Zeros(12, a), z, d);
    ZerosLinear(4, Zeros(12, a), Xor(z, d));
    var u := Zeros(4, Xor(z, d));
    ZerosAdd(4, 12, a);
    assert Combined(a, b, c, d) == Xor(Zeros(16, a), u);
    XorComm(Zeros(16, a), u);
    XorAssoc(u, Zeros(16, a), w);
    XorComm(w, Zeros(16, a));
  }

  // ---- Extend ------------------------------------------------------------------------------------------------

  /** STEP1. */
  function Step1(l: bv32, b: bv8): bv32 {
    Xor(ByteTable(ByteOf(0, l) ^ b), l >> 8)
  }

  lemma Step1Is(l: bv32, b: bv8)
    ensures Step1(l, b) == ByteStep(Xor(l, Wide(b)))
  {
    hide Xor, ByteTable, ByteStep, ByteOf;
    TableStep(Xor(l, Wide(b)));
    LowByteXor(l, b);
  }

  /** STEP4 on one lane with the word read for it. */
  function Step4(w: bv32, crc: bv32): bv32 {
    Xor(w, Xor(Xor(Xor(StrideTable(0, ByteOf(0, crc)), StrideTable(1, ByteOf(1, crc))), StrideTable(2, ByteOf(2, crc))),
               StrideTable(3, ByteOf(3, crc))))
  }

  lemma FoldSnoc(l: bv32, data: seq<bv8>, p: nat)
    requires p < |data|
    ensures Fold(l, data[..p + 1]) == ByteStep(Xor(Fold(l, data[..p]), Wide(data[p])))
  {
    hide Xor, ByteStep, Wide, Fold;
    FoldConcat(l, data[..p], [data[p]]);
    assert data[..p + 1] == data[..p] + [data[p]];
    assert [data[p]][1..] == [];
    FoldOne(Fold(l, data[..p]), [data[p]]);
    FoldNone(ByteStep(Xor(Fold(l, data[..p]), Wide(data[p]))));
  }

  lemma FoldMore(l: bv32, data: seq<bv8>, p: nat)
    requires p + 4 <= |data|
    ensures Fold(l, data[..p + 4]) == Zeros(4, Xor(Fold(l, data[..p]), Word(data, p)))
  {
    hide Xor, Zeros, Fold, Word;
    assert data[..p + 4] == data[..p] + data[p..p + 4];
    FoldConcat(l, data[..p], data[p..p + 4]);
    FoldWord(Fold(l, data[..p]), data, p);
  }

  /** Bytes p to q through STEP1. */
  method Bytes(l: bv32, data: seq<bv8>, p: nat, q: nat, ghost l0: bv32) returns (l': bv32)
    requires p <= q <= |data| && l == Fold(l0, data[..p])
    ensures l' == Fold(l0, data[..q])
  {
    hide Fold, ByteStep, Step1, Xor, Wide;
    l' := l;
    for i := p to q
      invariant l' == Fold(l0, data[..i])
    {
      Step1Is(l', data[i]);
      FoldSnoc(l0, data, i);
      l' := Step1(l', data[i]);
    }
  }

  /** A lane step past the word at p, the lanes taking turns. */
  lemma OneWord(a: bv32, b: bv32, c: bv32, d: bv32, data: seq<bv8>, p: nat, l: bv32)
    requires p + 4 <= |data| && Combined(a, b, c, d) == Fold(l, data[..p])
    ensures Combined(b, c, d, Step4(Word(data, p), a)) == Fold(l, data[..p + 4])
  {
    hide Combined, Fold, Word, Zeros, Xor, StrideTable, ByteOf;
    StrideStep(a);
    RotateLanes(a, b, c, d, Word(data, p));
    FoldMore(l, data, p);
  }

  /** STEP16 is four such steps. */
  lemma Swath(a: bv32, b: bv32, c: bv32, d: bv32, data: seq<bv8>, p: nat, l: bv32)
    requires p + 16 <= |data| && Combined(a, b, c, d) == Fold(l, data[..p])
    ensures Combined(Step4(Word(data, p), a), Step4(Word(data, p + 4), b), Step4(Word(data, p + 8), c),
                     Step4(Word(data, p + 12), d)) == Fold(l, data[..p + 16])
  {
    hide Combined, Fold, Word, Step4;
    var a', b' := Step4(Word(data, p), a), Step4(Word(data, p + 4), b);
    var c' := Step4(Word(data, p + 8), c);
    OneWord(a, b, c, d, data, p, l);
    OneWord(b, c, d, a', data, p + 4, l);
    OneWord(c, d, a', b', data, p + 8, l);
    OneWord(d, a', b', c', data, p + 12, l);
  }

  lemma FirstSwath(l0: bv32, l: bv32, data: seq<bv8>, p: nat)
    requires p + 16 <= |data| && l == Fold(l0, data[..p])
    ensures Combined(Xor(Word(data, p), l), Word(data, p + 4), Word(data, p + 8), Word(data, p + 12))
            == Fold(l0, data[..p + 16])
  {
    hide Fold, Word, Zeros, Xor;
    FoldMore(l0, data, p);
    FoldMore(l0, data, p + 4);
    FoldMore(l0, data, p + 8);
    FoldMore(l0, data, p + 12);
    XorComm(l, Word(data, p));
  }

  /** STEP4W: four table steps over the word w combined with l. */
  method Step4W(w: bv32, l: bv32) returns (l': bv32)
    ensures l' == Zeros(4, Xor(l, w))
  {
    hide ByteTable, ByteStep, Xor, ByteOf;
    l' := Xor(w, l);
    XorComm(w, l);
    for i := 0 to 4
      invariant l' == Zeros(i, Xor(l, w))
    {
      TableStep(l');
      XorComm(l' >> 8, ByteTable(ByteOf(0, l')));
      l' := Xor(l' >> 8, ByteTable(ByteOf(0, l')));
    }
  }

  /** Extend, for data whose first byte sits at the given address. Whatever the length and the alignment, it is the
      checksum of the text extended by data. */
  method Extend(crc: bv32, data: seq<bv8>, address: nat) returns (r: bv32)
    ensures r == Checksum(crc, data)
  {
    hide Fold, Combined, Word, Step4, Zeros, ByteStep, Xor;
    ghost var l0 := Xor(crc, ALL_ONES);
    var l, p, e := Xor(crc, ALL_ONES), 0, |data|;
    assert data[..0] == [];
    FoldNone(l0);
    var x := (address + 3) / 4 * 4 - address;
    if x <= e {
      l := Bytes(l, data, p, x, l0);
      p := x;
    }
    if e - p >= 16 {
      FirstSwath(l0, l, data, p);
      var crc0, crc1, crc2, crc3 := Xor(Word(data, p), l), Word(data, p + 4), Word(data, p + 8), Word(data, p + 12);
      p := p + 16;
      while e - p >= 16
        invariant p <= e && Combined(crc0, crc1, crc2, crc3) == Fold(l0, data[..p])
      {
        Swath(crc0, crc1, crc2, crc3, data, p, l0);
        crc0, crc1, crc2, crc3 := Step4(Word(data, p), crc0), Step4(Word(data, p + 4), crc1),
                                  Step4(Word(data, p + 8), crc2), Step4(Word(data, p + 12), crc3);
        p := p + 16;
      }
      while e - p >= 4
        invariant p <= e && Combined(crc0, crc1, crc2, crc3) == Fold(l0, data[..p])
      {
        OneWord(crc0, crc1, crc2, crc3, data, p, l0);
        crc0, crc1, crc2, crc3 := crc1, crc2, crc3, Step4(Word(data, p), crc0);
        p := p + 4;
      }
      LanesCombined(crc0, crc1, crc2, crc3);
      l := Step4W(crc0, 0);
      l := Step4W(crc1, l);
      l := Step4W(crc2, l);
      l := Step4W(crc3, l);
    }
    l := Bytes(l, data, p, e, l0);
    assert data[..e] == data;
    r := Xor(l, ALL_ONES);
  }

  lemma LanesCombined(a: bv32, b: bv32, c: bv32, d: bv32)
    ensures Zeros(4, Xor(Zeros(4, Xor(Zeros(4, Xor(Zeros(4, Xor(0, a)), b)), c)), d)) == Combined(a, b, c, d)
  {
    hide Zeros, Xor;
    XorZero(a);
  }

  // ---- Masking -----------------------------------------------------------------------------------------------

  function RotateRight15(x: bv32): bv32 { (x >> 15) | (x << 17) }

  function RotateLeft15(x: bv32): bv32 { (x >> 17) | (x << 15) }

  function Mask(crc: bv32): bv32 {
    RotateRight15(crc) + MASK_DELTA
  }

  function Unmask(masked: bv32): bv32 {
    RotateLeft15(masked - MASK_DELTA)
  }

  lemma Rotations(x: bv32)
    ensures RotateLeft15(RotateRight15(x)) == x && RotateRight15(RotateLeft15(x)) == x
  {
  }

  lemma DeltaCancels(x: bv32)
    ensures x + MASK_DELTA - MASK_DELTA == x && x - MASK_DELTA + MASK_DELTA == x
  {
  }

  /** Masking loses nothing. */
  lemma MaskRoundTrip(x: bv32)
    ensures Unmask(Mask(x)) == x && Mask(Unmask(x)) == x
  {
    hide RotateLeft15, RotateRight15;
    DeltaCancels(RotateRight15(x));
    DeltaCancels(x);
    Rotations(x);
    Rotations(x - MASK_DELTA);
  }

  /** The recurrence gives the literals of kByteExtensionTable; by linearity its entries at powers of two fix the
      rest. */
  lemma TableLiterals()
    ensures ByteTable(1) == 0xF26B8303 && ByteTable(2) == 0xE13B70F7 && ByteTable(4) == 0xC79A971F
    ensures ByteTable(8) == 0x8AD958CF && ByteTable(16) == 0x105EC76F && ByteTable(32) == 0x20BD8EDE
    ensures ByteTable(64) == 0x417B1DBC && ByteTable(128) == 0x82F63B78
  {
  }

  // ---- A check value -----------------------------------------------------------------------------------------

  lemma {:induction false} FoldZeros(n: nat, x: bv32)
    ensures Fold(x, seq(n, _ => 0)) == Zeros(n, x)
  {
    hide Xor, ByteStep;
    if n > 0 {
      FoldZeros(n - 1, x);
      var data: seq<bv8> := seq(n, _ => 0);
      assert data[..n - 1] == seq(n - 1, _ => 0) && data[..n] == data;
      FoldSnoc(x, data, n - 1);
      XorZero(Zeros(n - 1, x));
      NoByte();
    }
  }

  lemma NoByte()
    ensures Wide(0) == 0
  {
  }

  lemma Eight(x: bv32)
    ensures ByteStep(x)
            == BitStep(BitStep(BitStep(BitStep(BitStep(BitStep(BitStep(BitStep(x))))))))
  {
    hide BitStep;
    assert Bits(1, x) == BitStep(Bits(0, x));
    assert Bits(2, x) == BitStep(Bits(1, x));
    assert Bits(3, x) == BitStep(Bits(2, x));
    assert Bits(4, x) == BitStep(Bits(3, x));
    assert Bits(5, x) == BitStep(Bits(4, x));
    assert Bits(6, x) == BitStep(Bits(5, x));
    assert Bits(7, x) == BitStep(Bits(6, x));
  }

  lemma TwoZeros(x: bv32)
    ensures var y := BitStep(BitStep(BitStep(BitStep(BitStep(BitStep(BitStep(BitStep(x))))))));
            var z := BitStep(BitStep(BitStep(BitStep(BitStep(BitStep(BitStep(BitStep(y))))))));
            Zeros(2, x) == z
  {
    hide ByteStep, BitStep;
    Eight(x);
    Eight(ByteStep(x));
    assert Zeros(1, x) == ByteStep(Zeros(0, x));
  }

  /** Bytes of zero from one remainder to another. */
  ghost predicate Leads(x: bv32, n: nat, y: bv32) { Zeros(n, x) == y }

  lemma LeadOn(x: bv32, m: nat, y: bv32, n: nat, z: bv32)
    requires Leads(x, m, y) && Leads(y, n, z)
    ensures Leads(x, m + n, z)
  {
    hide Zeros;
    ZerosAdd(n, m, x);
  }

  lemma EightMore(x: bv32, a: bv32, b: bv32, c: bv32, d: bv32)
    requires Leads(x, 2, a) && Leads(a, 2, b) && Leads(b, 2, c) && Leads(c, 2, d)
    ensures Leads(x, 8, d)
  {
    hide Leads;
    LeadOn(x, 2, a, 2, b);
    LeadOn(x, 4, b, 2, c);
    LeadOn(x, 6, c, 2, d);
  }

  lemma FirstEight()
    ensures Leads(0xFFFF_FFFF, 8, 0x73D7_4D75)
  {
    hide Zeros;
    TwoZeros(0xFFFF_FFFF);
    TwoZeros(0x0E9E_882D);
    TwoZeros(0xB798_B438);
    TwoZeros(0xA8D5_8375);
    EightMore(0xFFFF_FFFF, 0x0E9E_882D, 0xB798_B438, 0xA8D5_8375, 0x73D7_4D75);
  }

  lemma SecondEight()
    ensures Leads(0x73D7_4D75, 8, 0xBD8F_6515)
  {
    hide Zeros;
    TwoZeros(0x73D7_4D75);
    TwoZeros(0x1C22_0F94);
    TwoZeros(0xD49F_4AA2);
    TwoZeros(0x8994_C80E);
    EightMore(0x73D7_4D75, 0x1C22_0F94, 0xD49F_4AA2, 0x8994_C80E, 0xBD8F_6515);
  }

  lemma ThirdEight()
    ensures Leads(0xBD8F_6515, 8, 0x7B04_1311)
  {
    hide Zeros;
    TwoZeros(0xBD8F_6515);
    TwoZeros(0x36DA_32DB);
    TwoZeros(0x433A_A9C1);
    TwoZeros(0xCD8F_89DA);
    EightMore(0xBD8F_6515, 0x36DA_32DB, 0x433A_A9C1, 0xCD8F_89DA, 0x7B04_1311);
  }

  lemma FourthEight()
    ensures Leads(0x7B04_1311, 8, 0x756E_C955)
  {
    hide Zeros;
    TwoZeros(0x7B04_1311);
    TwoZeros(0x2F69_2669);
    TwoZeros(0x0836_3896);
    TwoZeros(0x17F3_4302);
    EightMore(0x7B04_1311, 0x2F69_2669, 0x0836_3896, 0x17F3_4302, 0x756E_C955);
  }

  /** The check value of section B.4 of RFC 3720 for 32 bytes of zeros. */
  lemma CheckValue()
    ensures Checksum(0, seq(32, _ => 0)) == 0x8A91_36AA
  {
    FirstEight();
    SecondEight();
    ThirdEight();
    FourthEight();
    LeadOn(0xFFFF_FFFF, 8, 0x73D7_4D75, 8, 0xBD8F_6515);
    LeadOn(0xFFFF_FFFF, 16, 0xBD8F_6515, 8, 0x7B04_1311);
    LeadOn(0xFFFF_FFFF, 24, 0x7B04_1311, 8, 0x756E_C955);
    FoldZeros(32, 0xFFFF_FFFF);
    hide Fold, Zeros;
    assert Xor(0, ALL_ONES) == 0xFFFF_FFFF && Xor(0x756E_C955, ALL_ONES) == 0x8A91_36AA;
  }
}
