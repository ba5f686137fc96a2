/** The write-ahead log's format: records cut into fragments that never cross a 32 KiB block. */
module LogFormat {
  import opened ByteValues
  import Crc32c

  const BLOCK_SIZE: nat := 32768
  const HEADER_SIZE: nat := 7

  const FULL_TYPE: nat := 1
  const FIRST_TYPE: nat := 2
  const MIDDLE_TYPE: nat := 3
  const LAST_TYPE: nat := 4

  function Kind(begin: bool, end: bool): nat {
    if begin && end then FULL_TYPE else if begin then FIRST_TYPE else if end then LAST_TYPE else MIDDLE_TYPE
  }

  /** EncodeFixed32 and DecodeFixed32. */
  function Fixed32(x: bv32): Bytes {
    [Crc32c.ByteOf(0, x), Crc32c.ByteOf(1, x), Crc32c.ByteOf(2, x), Crc32c.ByteOf(3, x)]
  }

  lemma Fixed32RoundTrip(x: bv32, rest: Bytes)
    ensures Crc32c.Word(Fixed32(x) + rest, 0) == x
  {
    hide Crc32c.Xor, Crc32c.At, Crc32c.ByteOf;
    Crc32c.SplitWord(x);
  }

  function LengthBytes(n: nat): Bytes {
    [ByteFrom(n % 256), ByteFrom(n / 256 % 256)]
  }

  function LengthOf(a: bv8, b: bv8): nat {
    a as nat + 256 * (b as nat)
  }

  lemma Recompose(n: nat)
    requires n <= 0xFFFF
    ensures n % 256 + 256 * (n / 256 % 256) == n
  {
  }

  lemma LengthRoundTrip(n: nat)
    requires n <= 0xFFFF
    ensures LengthOf(LengthBytes(n)[0], LengthBytes(n)[1]) == n
  {
    hide ByteFrom;
    Recompose(n);
  }

  /** EmitPhysicalRecord: the masked checksum of type and payload, the length, the type, the payload. */
  function Emit(kind: nat, payload: Bytes): Bytes
    requires kind <= 4
  {
    var t := ByteFrom(kind);
    Fixed32(Crc32c.Mask(Crc32c.Checksum(Crc32c.Checksum(0, [t]), payload))) + LengthBytes(|payload|) + [t] + payload
  }

  /** Bytes of padding before a header at file position pos: what is left of a block too short for a header. */
  function Trailer(pos: nat): nat {
    var leftover := BLOCK_SIZE - pos % BLOCK_SIZE;
    if leftover < HEADER_SIZE then leftover else 0
  }

  function Zeros(n: nat): Bytes { seq(n, _ => 0) }

  /** Length of the fragment of n remaining bytes whose padding begins at pos. */
  function FragmentLength(pos: nat, n: nat): nat {
    var avail := BLOCK_SIZE - (pos + Trailer(pos)) % BLOCK_SIZE - HEADER_SIZE;
    if n < avail then n else avail
  }

  lemma TrailerFits(pos: nat)
    ensures (pos + Trailer(pos)) % BLOCK_SIZE + HEADER_SIZE <= BLOCK_SIZE
    ensures Trailer(pos) > 0 ==> (pos + Trailer(pos)) % BLOCK_SIZE == 0
  {
  }

  /** What is left of a record, from file position pos on; begin if nothing of it has been written yet. */
  function RecordBytes(pos: nat, data: Bytes, begin: bool): Bytes
    decreases |data|, if FragmentLength(pos, 1) == 0 then 1 else 0
  {
    TrailerFits(pos);
    var n := FragmentLength(pos, |data|);
    var head := Zeros(Trailer(pos)) + Emit(Kind(begin, n == |data|), data[..n]);
    if n == |data| then head
    else
      NextFragment(pos, |data|);
      head + RecordBytes(pos + |head|, data[n..], false)
  }

  /** After a fragment that does not end its record the writer is at the end of a block. */
  lemma NextFragment(pos: nat, n: nat)
    requires FragmentLength(pos, n) < n
    ensures (pos + Trailer(pos) + HEADER_SIZE + FragmentLength(pos, n)) % BLOCK_SIZE == 0
    ensures FragmentLength(pos + Trailer(pos) + HEADER_SIZE + FragmentLength(pos, n), 1) == 1
    ensures FragmentLength(pos, n) == 0 ==> FragmentLength(pos, 1) == 0
  {
    TrailerFits(pos);
    var p := pos + Trailer(pos);
    BlockEnd(p);
    assert p + HEADER_SIZE + FragmentLength(pos, n) == p - p % BLOCK_SIZE + BLOCK_SIZE;
  }

  lemma BlockEnd(p: nat)
    ensures (p - p % BLOCK_SIZE + BLOCK_SIZE) % BLOCK_SIZE == 0
  {
  }

  /** A log of records, written to an empty file. */
  function LogBytes(records: seq<Bytes>): Bytes {
    if records == [] then []
    else
      var before := LogBytes(records[..|records| - 1]);
      before + RecordBytes(|before|, records[|records| - 1], true)
  }

  lemma LogSnoc(records: seq<Bytes>, data: Bytes)
    ensures LogBytes(records + [data]) == LogBytes(records) + RecordBytes(|LogBytes(records)|, data, true)
  {
    assert (records + [data])[..|records|] == records;
  }

  /** Writing more records only appends. */
  lemma {:induction false} LogGrows(records: seq<Bytes>, n: nat)
    requires n <= |records|
    ensures LogBytes(records[..n]) <= LogBytes(records)
  {
    hide RecordBytes;
    if n < |records| {
      var m := |records| - 1;
      LogGrows(records[..m], n);
      assert records[..m][..n] == records[..n];
      LogSnoc(records[..m], records[m]);
      assert records[..m] + [records[m]] == records;
    } else {
      assert records[..n] == records;
    }
  }
}
