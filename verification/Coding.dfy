/** Fixed and variable length integers and length-prefixed strings (util/coding.cc). Bytes are numbers below 256. */
module Coding {
  type byte = x: int | 0 <= x < 256
  type Bytes = seq<byte>

  const TWO_32: nat := 0x1_0000_0000
  const TWO_64: nat := 0x1_0000_0000_0000_0000

  /** What a parser takes off the front of its input. */
  datatype Parsed<T> = Parsed(value: T, rest: Bytes) | Failed

  function Pow128(k: nat): (p: nat)
    ensures p > 0
  {
    if k == 0 then 1 else 128 * Pow128(k - 1)
  }

  // ---- Varints -----------------------------------------------------------------------------------------------

  /** Seven bits a byte, low bits first, the high bit set on all bytes but the last. */
  function Varint(v: nat): Bytes {
    if v < 128 then [v] else [v % 128 + 128] + Varint(v / 128)
  }

  /** EncodeVarint64. */
  method EncodeVarint64(v: nat) returns (dst: Bytes)
    ensures dst == Varint(v)
  {
    dst := [];
    var left := v;
    while left >= 128
      invariant dst + Varint(left) == Varint(v)
    {
      assert dst + Varint(left) == dst + [left % 128 + 128] + Varint(left / 128);
      dst := dst + [left % 128 + 128];
      left := left / 128;
    }
    dst := dst + [left];
  }

  /** EncodeVarint32, unrolled by length. */
  method EncodeVarint32(v: nat) returns (dst: Bytes)
    requires v < TWO_32
    ensures dst == Varint(v)
  {
    hide Varint;
    if v < 0x80 {
      Varint1(v);
      dst := [v];
    } else if v < 0x4000 {
      Varint2(v);
      dst := [v % 128 + 128, v / 0x80];
    } else if v < 0x20_0000 {
      Varint3(v);
      dst := [v % 128 + 128, v / 0x80 % 128 + 128, v / 0x4000];
    } else if v < 0x1000_0000 {
      Varint4(v);
      dst := [v % 128 + 128, v / 0x80 % 128 + 128, v / 0x4000 % 128 + 128, v / 0x20_0000];
    } else {
      Varint5(v);
      dst := [v % 128 + 128, v / 0x80 % 128 + 128, v / 0x4000 % 128 + 128, v / 0x20_0000 % 128 + 128, v / 0x1000_0000];
    }
  }

  lemma Varint1(v: nat)
    requires v < 0x80
    ensures Varint(v) == [v]
  {
  }

  lemma LongVarint(v: nat)
    requires v >= 128
    ensures Varint(v) == [v % 128 + 128] + Varint(v / 128)
  {
  }

  lemma Quotients(v: nat)
    ensures v / 128 / 0x80 == v / 0x4000 && v / 128 / 0x4000 == v / 0x20_0000 && v / 128 / 0x20_0000 == v / 0x1000_0000
  {
  }

  lemma Bounds(v: nat)
    ensures 0x80 <= v < 0x4000 ==> v / 128 < 0x80
    ensures 0x4000 <= v < 0x20_0000 ==> 0x80 <= v / 128 < 0x4000
    ensures 0x20_0000 <= v < 0x1000_0000 ==> 0x4000 <= v / 128 < 0x20_0000
    ensures 0x1000_0000 <= v < TWO_32 ==> 0x20_0000 <= v / 128 < 0x200_0000
  {
  }

  lemma Varint2(v: nat)
    requires 0x80 <= v < 0x4000
    ensures Varint(v) == [v % 128 + 128, v / 0x80]
  {
    hide Varint;
    LongVarint(v);
    Varint1(v / 128);
  }

  lemma Varint3(v: nat)
    requires 0x4000 <= v < 0x20_0000
    ensures Varint(v) == [v % 128 + 128, v / 0x80 % 128 + 128, v / 0x4000]
  {
    hide Varint;
    LongVarint(v);
    Quotients(v);
    Bounds(v);
    Varint2(v / 128);
  }

  lemma Varint4(v: nat)
    requires 0x20_0000 <= v < 0x1000_0000
    ensures Varint(v) == [v % 128 + 128, v / 0x80 % 128 + 128, v / 0x4000 % 128 + 128, v / 0x20_0000]
  {
    hide Varint;
    LongVarint(v);
    Quotients(v);
    Bounds(v);
    Varint3(v / 128);
  }

  lemma Varint5(v: nat)
    requires 0x1000_0000 <= v < TWO_32
    ensures Varint(v) == [v % 128 + 128, v / 0x80 % 128 + 128, v / 0x4000 % 128 + 128, v / 0x20_0000 % 128 + 128,
                          v / 0x1000_0000]
  {
    hide Varint;
    LongVarint(v);
    Quotients(v);
    Bounds(v);
    Varint4(v / 128);
  }

  /** VarintLength. */
  method VarintLength(v: nat) returns (len: nat)
    ensures len == |Varint(v)|
  {
    len := 1;
    var left := v;
    while left >= 128
      invariant len + |Varint(left)| == |Varint(v)| + 1
    {
      left := left / 128;
      len := len + 1;
    }
  }

  /** Reads the k-th byte on; at most last + 1 bytes, the sum kept below modulus as the machine word does. Each byte
      fills bits no other byte fills, so the sum is the bitwise or. */
  function VarintFrom(input: Bytes, k: nat, result: nat, last: nat, modulus: nat): Parsed<nat>
    requires modulus > 0
    decreases |input|
  {
    if k > last || input == [] then Failed
    else if input[0] >= 128 then
      VarintFrom(input[1..], k + 1, result + input[0] % 128 * Pow128(k) % modulus, last, modulus)
    else
      Parsed(result + input[0] * Pow128(k) % modulus, input[1..])
  }

  function Varint32Of(input: Bytes): Parsed<nat> { VarintFrom(input, 0, 0, 4, TWO_32) }

  function Varint64Of(input: Bytes): Parsed<nat> { VarintFrom(input, 0, 0, 9, TWO_64) }

  method GetVarint(input: Bytes, last: nat, modulus: nat) returns (r: Parsed<nat>)
    requires modulus > 0
    ensures r == VarintFrom(input, 0, 0, last, modulus)
  {
    var result: nat, k: nat := 0, 0;
    while k <= last && k < |input|
      invariant k <= |input| && VarintFrom(input[k..], k, result, last, modulus) == VarintFrom(input, 0, 0, last, modulus)
    {
      var b := input[k];
      assert input[k..][1..] == input[k + 1..];
      if b >= 128 {
        result := result + b % 128 * Pow128(k) % modulus;
        k := k + 1;
      } else {
        return Parsed(result + b * Pow128(k) % modulus, input[k + 1..]);
      }
    }
    r := Failed;
  }

  /** GetVarint32Ptr tries the one-byte case before the loop. */
  method GetVarint32(input: Bytes) returns (r: Parsed<nat>)
    ensures r == Varint32Of(input)
  {
    if input != [] && input[0] < 128 {
      r := Parsed(input[0], input[1..]);
    } else {
      r := GetVarint(input, 4, TWO_32);
    }
  }

  method GetVarint64(input: Bytes) returns (r: Parsed<nat>)
    ensures r == Varint64Of(input)
  {
    r := GetVarint(input, 9, TWO_64);
  }

  lemma Regroup(v: nat, p: nat)
    ensures v * p == v / 128 * (128 * p) + v % 128 * p
  {
    assert v == v / 128 * 128 + v % 128;
    assert v * p == (v / 128 * 128) * p + v % 128 * p;
  }

  lemma SmallParts(v: nat, p: nat, modulus: nat)
    requires v * p < modulus
    ensures v % 128 * p % modulus == v % 128 * p && v / 128 * (128 * p) < modulus
  {
    Regroup(v, p);
    assert v / 128 * (128 * p) >= 0 && v % 128 * p >= 0;
  }

  lemma Powers()
    ensures Pow128(4) == 0x1000_0000 && Pow128(9) == 0x8000_0000_0000_0000
  {
    assert Pow128(1) == 128 && Pow128(2) == 0x4000 && Pow128(3) == 0x20_0000;
    assert Pow128(5) == 128 * Pow128(4) && Pow128(6) == 128 * Pow128(5);
    assert Pow128(7) == 128 * Pow128(6) && Pow128(8) == 128 * Pow128(7);
  }

  lemma Times(v: nat, w: nat, p: nat)
    requires v >= w
    ensures v * p >= w * p
  {
  }

  lemma {:induction false} VarintFromEncoded(v: nat, rest: Bytes, k: nat, result: nat, last: nat, modulus: nat)
    requires v * Pow128(k) < modulus && k <= last && modulus <= 128 * Pow128(last)
    ensures VarintFrom(Varint(v) + rest, k, result, last, modulus) == Parsed(result + v * Pow128(k), rest)
    decreases v
  {
    hide Varint, VarintFrom, Pow128;
    var input := Varint(v) + rest;
    if v < 128 {
      Varint1(v);
      assert input[0] == v && input[1..] == rest;
      LastByte(input, k, result, last, modulus);
      Reduced(v * Pow128(k), modulus);
    } else {
      SmallParts(v, Pow128(k), modulus);
      Regroup(v, Pow128(k));
      MoreFit(v, k, last, modulus);
      NextPower(k);
      LongVarint(v);
      assert input[0] == v % 128 + 128 && input[1..] == Varint(v / 128) + rest;
      OneByte(input, k, result, last, modulus);
      LowBits(v);
      VarintFromEncoded(v / 128, rest, k + 1, result + v % 128 * Pow128(k), last, modulus);
    }
  }

  lemma LowBits(v: nat)
    ensures (v % 128 + 128) % 128 == v % 128
  {
  }

  lemma NextPower(k: nat)
    ensures Pow128(k + 1) == 128 * Pow128(k)
  {
  }

  lemma Reduced(n: nat, modulus: nat)
    requires n < modulus
    ensures n % modulus == n
  {
  }

  lemma MoreFit(v: nat, k: nat, last: nat, modulus: nat)
    requires v >= 128 && v * Pow128(k) < modulus && modulus <= 128 * Pow128(last) && k <= last
    ensures k < last
  {
    Times(v, 128, Pow128(k));
  }

  lemma LastByte(input: Bytes, k: nat, result: nat, last: nat, modulus: nat)
    requires modulus > 0 && k <= last && input != [] && input[0] < 128
    ensures VarintFrom(input, k, result, last, modulus) == Parsed(result + input[0] * Pow128(k) % modulus, input[1..])
  {
  }

  lemma OneByte(input: Bytes, k: nat, result: nat, last: nat, modulus: nat)
    requires modulus > 0 && k <= last && input != [] && input[0] >= 128
    ensures VarintFrom(input, k, result, last, modulus)
            == VarintFrom(input[1..], k + 1, result + input[0] % 128 * Pow128(k) % modulus, last, modulus)
  {
  }

  lemma Varint32RoundTrip(v: nat, rest: Bytes)
    requires v < TWO_32
    ensures Varint32Of(Varint(v) + rest) == Parsed(v, rest)
  {
    Powers();
    VarintFromEncoded(v, rest, 0, 0, 4, TWO_32);
  }

  lemma Varint64RoundTrip(v: nat, rest: Bytes)
    requires v < TWO_64
    ensures Varint64Of(Varint(v) + rest) == Parsed(v, rest)
  {
    Powers();
    VarintFromEncoded(v, rest, 0, 0, 9, TWO_64);
  }

  lemma {:induction false} VarintShort(v: nat, k: nat)
    requires k >= 1 && v < Pow128(k)
    ensures |Varint(v)| <= k
  {
    if v >= 128 {
      VarintShort(v / 128, k - 1);
    }
  }

  lemma Varint64Short(v: nat)
    requires v < TWO_64
    ensures |Varint(v)| <= 10
  {
    hide Varint;
    Powers();
    assert Pow128(10) == 128 * Pow128(9);
    VarintShort(v, 10);
  }

  // ---- Length-prefixed strings -------------------------------------------------------------------------------

  function Prefixed(s: Bytes): Bytes { Varint(|s|) + s }

  function PrefixedOf(input: Bytes): Parsed<Bytes> {
    match Varint32Of(input)
    case Failed => Failed
    case Parsed(n, rest) => if n <= |rest| then Parsed(rest[..n], rest[n..]) else Failed
  }

  lemma PrefixedRoundTrip(s: Bytes, rest: Bytes)
    requires |s| < TWO_32
    ensures PrefixedOf(Prefixed(s) + rest) == Parsed(s, rest)
  {
    assert Prefixed(s) + rest == Varint(|s|) + (s + rest);
    Varint32RoundTrip(|s|, s + rest);
    assert (s + rest)[..|s|] == s && (s + rest)[|s|..] == rest;
  }

  /** A varint read leaves a proper suffix of the input. */
  lemma {:induction false} VarintShrinks(input: Bytes, k: nat, result: nat, last: nat, modulus: nat)
    requires modulus > 0
    ensures var r := VarintFrom(input, k, result, last, modulus); r.Parsed? ==> |r.rest| < |input|
    decreases |input|
  {
    if k <= last && input != [] && input[0] >= 128 {
      VarintShrinks(input[1..], k + 1, result + input[0] % 128 * Pow128(k) % modulus, last, modulus);
    }
  }

  /** Bytes behind what is read do not change what is read. */
  lemma {:induction false} VarintStable(input: Bytes, more: Bytes, k: nat, result: nat, last: nat, modulus: nat)
    requires modulus > 0 && VarintFrom(input, k, result, last, modulus).Parsed?
    ensures var r := VarintFrom(input, k, result, last, modulus);
            VarintFrom(input + more, k, result, last, modulus) == Parsed(r.value, r.rest + more)
    decreases |input|
  {
    hide Pow128;
    assert (input + more)[0] == input[0] && (input + more)[1..] == input[1..] + more;
    if input[0] >= 128 {
      VarintStable(input[1..], more, k + 1, result + input[0] % 128 * Pow128(k) % modulus, last, modulus);
    }
  }

  lemma Varint32Stable(input: Bytes, more: Bytes)
    requires Varint32Of(input).Parsed?
    ensures Varint32Of(input + more) == Parsed(Varint32Of(input).value, Varint32Of(input).rest + more)
  {
    VarintStable(input, more, 0, 0, 4, TWO_32);
  }

  lemma Varint64Stable(input: Bytes, more: Bytes)
    requires Varint64Of(input).Parsed?
    ensures Varint64Of(input + more) == Parsed(Varint64Of(input).value, Varint64Of(input).rest + more)
  {
    VarintStable(input, more, 0, 0, 9, TWO_64);
  }

  lemma PrefixedStable(input: Bytes, more: Bytes)
    requires PrefixedOf(input).Parsed?
    ensures PrefixedOf(input + more) == Parsed(PrefixedOf(input).value, PrefixedOf(input).rest + more)
  {
    hide Varint32Of;
    Varint32Stable(input, more);
    var n, rest := Varint32Of(input).value, Varint32Of(input).rest;
    assert (rest + more)[..n] == rest[..n] && (rest + more)[n..] == rest[n..] + more;
  }

  /** A varint of more bytes than its width takes is refused. */
  lemma {:induction false} TooLong(input: Bytes, k: nat, result: nat, last: nat, modulus: nat)
    requires modulus > 0 && k <= last + 1 && forall i :: 0 <= i <= last - k && i < |input| ==> input[i] >= 128
    ensures VarintFrom(input, k, result, last, modulus) == Failed
    decreases |input|
  {
    hide Pow128;
    if k <= last && input != [] {
      TooLong(input[1..], k + 1, result + input[0] % 128 * Pow128(k) % modulus, last, modulus);
    }
  }

  /** A 32-bit number has at most five bytes and a 64-bit one ten; without an end among them nothing is read. */
  lemma EndlessRefused(input: Bytes)
    ensures (forall i :: 0 <= i < 5 && i < |input| ==> input[i] >= 128) ==> Varint32Of(input) == Failed
    ensures (forall i :: 0 <= i < 10 && i < |input| ==> input[i] >= 128) ==> Varint64Of(input) == Failed
  {
    hide VarintFrom;
    if forall i :: 0 <= i < 5 && i < |input| ==> input[i] >= 128 {
      TooLong(input, 0, 0, 4, TWO_32);
    }
    if forall i :: 0 <= i < 10 && i < |input| ==> input[i] >= 128 {
      TooLong(input, 0, 0, 9, TWO_64);
    }
  }

  // ---- Fixed-width integers ----------------------------------------------------------------------------------

  /** The n low bytes of v, low byte first. */
  function Fixed(v: nat, n: nat): (b: Bytes)
    ensures |b| == n
  {
    if n == 0 then [] else [v % 256] + Fixed(v / 256, n - 1)
  }

  function FixedOf(b: Bytes): nat {
    if b == [] then 0 else b[0] + 256 * FixedOf(b[1..])
  }

  function Pow256(n: nat): nat { if n == 0 then 1 else 256 * Pow256(n - 1) }

  lemma {:induction false} FixedRoundTrip(v: nat, n: nat)
    requires v < Pow256(n)
    ensures FixedOf(Fixed(v, n)) == v
  {
    if n > 0 {
      FixedRoundTrip(v / 256, n - 1);
      assert Fixed(v, n)[1..] == Fixed(v / 256, n - 1);
    }
  }

  lemma FixedFour(v: nat)
    ensures Fixed(v, 4) == [v % 256, v / 256 % 256, v / 256 / 256 % 256, v / 256 / 256 / 256 % 256]
  {
    var w := v / 256;
    var x := w / 256;
    assert Fixed(v, 4) == [v % 256] + Fixed(w, 3) && Fixed(w, 3) == [w % 256] + Fixed(x, 2);
    assert Fixed(x, 2) == [x % 256] + Fixed(x / 256, 1) && Fixed(x / 256, 1) == [x / 256 % 256] + Fixed(x / 256 / 256, 0);
  }

  lemma {:induction false} FixedOfBack(b: Bytes)
    ensures Fixed(FixedOf(b), |b|) == b
  {
    if b != [] {
      FixedOfBack(b[1..]);
      assert b == [b[0]] + b[1..];
    }
  }

  // ---- Arrays of 32-bit words ----------------------------------------------------------------------------------

  function Words(vs: seq<nat>): Bytes {
    if vs == [] then [] else Words(vs[..|vs| - 1]) + Fixed(vs[|vs| - 1], 4)
  }

  lemma {:induction false} WordsLength(vs: seq<nat>)
    ensures |Words(vs)| == 4 * |vs|
  {
    if vs != [] {
      WordsLength(vs[..|vs| - 1]);
    }
  }

  lemma {:induction false} WordAt(vs: seq<nat>, j: nat)
    requires j < |vs|
    ensures |Words(vs)| == 4 * |vs|
    ensures Words(vs)[4 * j..4 * j + 4] == Fixed(vs[j], 4)
  {
    hide Fixed;
    WordsLength(vs);
    var n := |vs| - 1;
    WordsLength(vs[..n]);
    if j < n {
      WordAt(vs[..n], j);
      assert Words(vs)[4 * j..4 * j + 4] == Words(vs[..n])[4 * j..4 * j + 4];
    }
  }

  /** DecodeFixed32 at position p. */
  function FixedAt(data: Bytes, p: nat): nat
    requires p + 4 <= |data|
  {
    FixedOf(data[p..p + 4])
  }

  lemma FixedThere(before: Bytes, v: nat, after: Bytes)
    requires v < TWO_32
    ensures FixedAt(before + Fixed(v, 4) + after, |before|) == v
  {
    hide Fixed, FixedOf;
    assert (before + Fixed(v, 4) + after)[|before|..|before| + 4] == Fixed(v, 4);
    assert Pow256(2) == 0x1_0000 && Pow256(4) == TWO_32;
    FixedRoundTrip(v, 4);
  }

  lemma WordPlaced(front: Bytes, vs: seq<nat>, end: Bytes, j: nat)
    requires j < |vs| && vs[j] < TWO_32
    ensures var data := front + Words(vs) + end;
            |data| >= |front| + 4 * j + 4 && FixedAt(data, |front| + 4 * j) == vs[j]
  {
    hide Fixed, FixedOf, FixedAt, Words;
    WordAt(vs, j);
    var r := Words(vs);
    var before, after := front + r[..4 * j], r[4 * j + 4..] + end;
    assert r == r[..4 * j] + r[4 * j..4 * j + 4] + r[4 * j + 4..];
    assert front + r + end == before + Fixed(vs[j], 4) + after;
    FixedThere(before, vs[j], after);
  }
}
