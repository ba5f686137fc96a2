/** Writing the log (log::Writer). */
module LogWriter {
  import opened ByteValues
  import opened LogFormat

  class Writer {
    /** The file written so far. */
    var dest: Bytes
    var blockOffset: nat

    ghost predicate Valid()
      reads this
    {
      blockOffset <= BLOCK_SIZE && blockOffset % BLOCK_SIZE == |dest| % BLOCK_SIZE
    }

    constructor (dest: Bytes)
      ensures Valid() && this.dest == dest
    {
      this.dest, blockOffset := dest, |dest| % BLOCK_SIZE;
    }

    method EmitPhysicalRecord(kind: nat, payload: Bytes)
      requires kind <= 4 && blockOffset + HEADER_SIZE + |payload| <= BLOCK_SIZE && Valid()
      modifies this
      ensures Valid() && dest == old(dest) + Emit(kind, payload)
    {
      dest := dest + Emit(kind, payload);
      blockOffset := blockOffset + HEADER_SIZE + |payload|;
      EmitLength(kind, payload);
      SameOffset(old(blockOffset), old(|dest|), HEADER_SIZE + |payload|);
    }

    /** Pads the block when no header fits into it any more. */
    method SwitchBlock()
      requires Valid()
      modifies this
      ensures Valid() && dest == old(dest) + Zeros(Trailer(|old(dest)|)) && blockOffset == |dest| % BLOCK_SIZE
    {
      hide Zeros;
      LeftoverIsTrailer(blockOffset, |dest|);
      ZerosLength(Trailer(|dest|));
      var leftover := BLOCK_SIZE - blockOffset;
      if leftover < HEADER_SIZE {
        if leftover > 0 {
          dest := dest + Zeros(leftover);
        }
        blockOffset := 0;
      }
    }

    /** AddRecord appends the record cut to fit the blocks, starting wherever the file ends now. */
    method AddRecord(data: Bytes)
      requires Valid()
      modifies this
      ensures Valid() && dest == old(dest) + RecordBytes(old(|dest|), data, true)
    {
      hide RecordBytes, Emit, Zeros, Trailer, FragmentLength;
      var left, begin, more := data, true, true;
      ghost var goal := dest + RecordBytes(|dest|, data, true);
      while more
        invariant Valid()
        invariant dest + (if more then RecordBytes(|dest|, left, begin) else []) == goal
        decreases more, |left|, if FragmentLength(|dest|, 1) == 0 then 1 else 0
      {
        ghost var before := dest;
        RecordBytesCut(|dest|, left, begin);
        ZerosLength(Trailer(|dest|));
        SwitchBlock();
        var avail := BLOCK_SIZE - blockOffset - HEADER_SIZE;
        FragmentIs(|before|, |dest|, |left|);
        var n := if |left| < avail then |left| else avail;
        var end := |left| == n;
        EmitLength(Kind(begin, end), left[..n]);
        EmitPhysicalRecord(Kind(begin, end), left[..n]);
        if !end {
          NextFragment(|before|, |left|);
        }
        ghost var rest := if end then [] else RecordBytes(|dest|, left[n..], false);
        Regroup(before, Zeros(Trailer(|before|)), Emit(Kind(begin, end), left[..n]), rest);
        left, begin, more := left[n..], false, !end;
      }
    }
  }

  lemma Regroup(a: Bytes, b: Bytes, c: Bytes, d: Bytes)
    ensures a + (b + c + d) == a + b + c + d
  {
  }

  lemma ZerosLength(n: nat)
    ensures |Zeros(n)| == n
  {
  }

  lemma FragmentIs(pos: nat, p: nat, left: nat)
    requires p == pos + Trailer(pos)
    ensures p % BLOCK_SIZE + HEADER_SIZE <= BLOCK_SIZE
    ensures FragmentLength(pos, left)
            == if left < BLOCK_SIZE - p % BLOCK_SIZE - HEADER_SIZE then left else BLOCK_SIZE - p % BLOCK_SIZE - HEADER_SIZE
  {
    TrailerFits(pos);
  }

  lemma EmitLength(kind: nat, payload: Bytes)
    requires kind <= 4
    ensures |Emit(kind, payload)| == HEADER_SIZE + |payload|
  {
  }

  lemma SameOffset(a: nat, b: nat, n: nat)
    requires a % BLOCK_SIZE == b % BLOCK_SIZE
    ensures (a + n) % BLOCK_SIZE == (b + n) % BLOCK_SIZE
  {
    assert (a + n) % BLOCK_SIZE == (a % BLOCK_SIZE + n) % BLOCK_SIZE;
    assert (b + n) % BLOCK_SIZE == (b % BLOCK_SIZE + n) % BLOCK_SIZE;
  }

  lemma LeftoverIsTrailer(offset: nat, pos: nat)
    requires offset <= BLOCK_SIZE && offset % BLOCK_SIZE == pos % BLOCK_SIZE
    ensures BLOCK_SIZE - offset < HEADER_SIZE
            ==> (pos + Trailer(pos)) % BLOCK_SIZE == 0 && Trailer(pos) == BLOCK_SIZE - offset
    ensures BLOCK_SIZE - offset >= HEADER_SIZE ==> Trailer(pos) == 0 && offset == pos % BLOCK_SIZE
  {
    TrailerFits(pos);
  }

  /** The first fragment of what is left of a record, and what follows it. */
  lemma RecordBytesCut(pos: nat, data: Bytes, begin: bool)
    ensures var n := FragmentLength(pos, |data|);
            var next := pos + Trailer(pos) + HEADER_SIZE + n;
            n <= |data| && RecordBytes(pos, data, begin)
            == Zeros(Trailer(pos)) + Emit(Kind(begin, n == |data|), data[..n])
               + (if n == |data| then [] else RecordBytes(next, data[n..], false))
  {
    hide Emit, Zeros, Trailer, FragmentLength;
    TrailerFits(pos);
    FragmentIs(pos, pos + Trailer(pos), |data|);
    ZerosLength(Trailer(pos));
    var n := FragmentLength(pos, |data|);
    EmitLength(Kind(begin, n == |data|), data[..n]);
  }

  lemma EmptyLog()
    ensures LogBytes([]) == []
  {
  }

  /** A writer's file after a list of records. */
  method WriteLog(records: seq<Bytes>) returns (file: Bytes)
    ensures file == LogBytes(records)
  {
    hide RecordBytes, LogBytes;
    EmptyLog();
    var w := new Writer([]);
    assert records[..0] == [];
    for i := 0 to |records|
      invariant fresh(w) && w.Valid() && w.dest == LogBytes(records[..i])
    {
      w.AddRecord(records[i]);
      LogSnoc(records[..i], records[i]);
      assert records[..i + 1] == records[..i] + [records[i]];
    }
    assert records[..|records|] == records;
    file := w.dest;
  }
}
