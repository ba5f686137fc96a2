/** The varint readers on numbers that are wider than what they return (util/coding.cc). */
module WideVarints {
  import opened Coding

  lemma PowAscends(j: nat, k: nat)
    requires j <= k
    ensures 0 < Pow128(j) <= Pow128(k)
  {
    if j < k {
      PowAscends(j, k - 1);
      NextPower(k - 1);
    }
  }

  /** Of the last byte, only the bits below the width count. */
  lemma LastPart(v: nat, p: nat, c: nat, result: nat)
    requires p > 0 && c > 0 && result < p
    ensures c * p > 0 && result + v * p % (c * p) == (result + v * p) % (c * p)
  {
    var q, m := v / c, v % c;
    var whole := c * p;
    Positive(c, p);
    assert v * p == q * whole + m * p by {
      assert v == q * c + m;
      Spread(q, c, m, p);
    }
    Below(m, c, p);
    Wraps(q, m * p, whole);
    Wraps(q, result + m * p, whole);
  }

  lemma Positive(a: nat, b: nat)
    requires a > 0 && b > 0
    ensures a * b > 0
  {
  }

  lemma Spread(q: nat, c: nat, m: nat, p: nat)
    ensures (q * c + m) * p == q * (c * p) + m * p
  {
  }

  lemma Below(m: nat, c: nat, p: nat)
    requires m < c
    ensures m * p + p <= c * p && m * p >= 0
  {
    Times(c, m + 1, p);
  }

  lemma Wraps(q: nat, r: nat, n: nat)
    requires r < n
    ensures (q * n + r) % n == r
  {
    var x := q * n + r;
    OneRemainder(q, r, x / n, x % n, n);
  }

  lemma OneRemainder(q: nat, r: nat, q': nat, r': nat, n: nat)
    requires r < n && r' < n && q * n + r == q' * n + r'
    ensures r == r'
  {
    if q < q' {
      Below(q, q', n);
    } else if q' < q {
      Below(q', q, n);
    }
  }

  /** A number of no more bytes than are read comes back without its bits past the width. */
  lemma {:induction false} Reduces(v: nat, rest: Bytes, k: nat, result: nat, last: nat, c: nat)
    requires k <= last && result < Pow128(k) && v < Pow128(last + 1 - k) && 0 < c <= 128
    ensures c * Pow128(last) > 0
    ensures VarintFrom(Varint(v) + rest, k, result, last, c * Pow128(last))
            == Parsed((result + v * Pow128(k)) % (c * Pow128(last)), rest)
    decreases v
  {
    hide Varint, VarintFrom, Pow128;
    var input, p, modulus := Varint(v) + rest, Pow128(k), c * Pow128(last);
    PowAscends(0, last);
    Positive(c, Pow128(last));
    if v < 128 {
      Varint1(v);
      assert input[0] == v && input[1..] == rest;
      LastByte(input, k, result, last, modulus);
      if k == last {
        LastPart(v, p, c, result);
      } else {
        Room(v, k, result, last, c);
      }
    } else {
      LongEnough(v, last + 1 - k);
      Room(v % 128, k, result, last, c);
      Regroup(v, p);
      NextPower(k);
      LongVarint(v);
      assert input[0] == v % 128 + 128 && input[1..] == Varint(v / 128) + rest;
      OneByte(input, k, result, last, modulus);
      LowBits(v);
      Reduces(v / 128, rest, k + 1, result + v % 128 * p, last, c);
    }
  }

  /** Before the last byte nothing is lost. */
  lemma Room(d: nat, k: nat, result: nat, last: nat, c: nat)
    requires d < 128 && k < last && result < Pow128(k) && c > 0
    ensures c * Pow128(last) > 0 && d * Pow128(k) % (c * Pow128(last)) == d * Pow128(k)
    ensures (result + d * Pow128(k)) % (c * Pow128(last)) == result + d * Pow128(k) < Pow128(k + 1)
  {
    hide Pow128;
    PowAscends(k + 1, last);
    NextPower(k);
    Below(d, 128, Pow128(k));
    Times(c, 1, Pow128(last));
    Reduced(d * Pow128(k), c * Pow128(last));
    Reduced(result + d * Pow128(k), c * Pow128(last));
  }

  lemma LongEnough(v: nat, n: nat)
    requires 128 <= v < Pow128(n)
    ensures n >= 2 && v / 128 < Pow128(n - 1)
  {
    assert n >= 1;
    NextPower(n - 1);
    assert Pow128(0) == 1 && Pow128(1) == 128;
  }

  /** A number of more than n bytes has no end among its first n. */
  lemma {:induction false} NoEnd(v: nat, n: nat)
    requires v >= Pow128(n)
    ensures |Varint(v)| >= n && forall i :: 0 <= i < n ==> Varint(v)[i] >= 128
  {
    hide Varint;
    if n > 0 {
      PowAscends(0, n - 1);
      assert v >= 128 * Pow128(n - 1) >= 128;
      LongVarint(v);
      NoEnd(v / 128, n - 1);
    }
  }

  lemma Widths()
    ensures Pow128(0) == 1 && Pow128(5) == 0x8_0000_0000 && Pow128(10) == 0x40_0000_0000_0000_0000
    ensures TWO_32 == 16 * Pow128(4) && TWO_64 == 2 * Pow128(9)
  {
    Powers();
    assert Pow128(10) == 128 * Pow128(9) && Pow128(5) == 128 * Pow128(4);
  }

  /** Any number through the two readers: it loses its bits past the width while its bytes are no more than five and ten,
      and is refused when there are more. */
  lemma AnyNumber(v: nat, rest: Bytes)
    ensures Varint32Of(Varint(v) + rest) == if v < 0x8_0000_0000 then Parsed(v % TWO_32, rest) else Failed
    ensures Varint64Of(Varint(v) + rest) == if v < 0x40_0000_0000_0000_0000 then Parsed(v % TWO_64, rest) else Failed
  {
    hide Varint, VarintFrom, Pow128;
    Widths();
    if v < 0x8_0000_0000 {
      Reduces(v, rest, 0, 0, 4, 16);
    } else {
      NoEnd(v, 5);
      EndlessRefused(Varint(v) + rest);
    }
    if v < 0x40_0000_0000_0000_0000 {
      Reduces(v, rest, 0, 0, 9, 2);
    } else {
      NoEnd(v, 10);
      EndlessRefused(Varint(v) + rest);
    }
  }
}
