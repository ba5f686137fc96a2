/** Reading the log back (log::Reader, from the start of the file), possibly after a crash cut it short. */
module LogReader {
  import opened ByteValues
  import opened LogFormat
  import opened LogWriter
  import Crc32c

  /** Two results of reading a physical record besides its type. */
  const EOF: nat := 5
  const BAD_RECORD: nat := 6

  /** The reasons for which bytes are dropped. */
  datatype Drop = BadRecordLength | ChecksumMismatch | NoEndBeforeFull | NoEndBeforeFirst | NoStartBeforeMiddle
    | NoStartBeforeLast | ErrorInMiddle | UnknownType

  lemma HeaderParses(kind: nat, payload: Bytes, b: Bytes)
    requires kind <= 4 && |payload| <= 0xFFFF && |b| >= HEADER_SIZE
    requires forall i :: 0 <= i < HEADER_SIZE ==> b[i] == Emit(kind, payload)[i]
    ensures LengthOf(b[4], b[5]) == |payload| && b[6] == ByteFrom(kind) && b[6] as nat == kind
  {
    hide Crc32c.ByteOf, Crc32c.Mask, Crc32c.Checksum, ByteFrom, LengthOf;
    LengthRoundTrip(|payload|);
  }

  lemma CoveredPart(kind: nat, payload: Bytes, b: Bytes)
    requires kind <= 4 && |b| >= HEADER_SIZE + |payload|
    requires forall i :: 0 <= i < HEADER_SIZE + |payload| ==> b[i] == Emit(kind, payload)[i]
    ensures b[HEADER_SIZE - 1..HEADER_SIZE + |payload|] == [ByteFrom(kind)] + payload
    ensures b[HEADER_SIZE..HEADER_SIZE + |payload|] == payload
  {
    hide Crc32c.ByteOf, Crc32c.Mask, Crc32c.Checksum, ByteFrom;
    var covered := [ByteFrom(kind)] + payload;
    forall i | 0 <= i < |covered| ensures b[HEADER_SIZE - 1 + i] == covered[i] {
      assert Emit(kind, payload)[HEADER_SIZE - 1 + i] == covered[i];
    }
  }

  /** A physical record that is there in full passes its checksum and yields its payload. */
  lemma RecordParses(kind: nat, payload: Bytes, b: Bytes)
    requires kind <= 4 && |b| >= HEADER_SIZE + |payload|
    requires forall i :: 0 <= i < HEADER_SIZE + |payload| ==> b[i] == Emit(kind, payload)[i]
    ensures Intact(b, |payload|) && b[HEADER_SIZE..HEADER_SIZE + |payload|] == payload
  {
    hide Crc32c.ByteOf, Crc32c.Mask, Crc32c.Unmask, Crc32c.Checksum, Crc32c.Word, ByteFrom, LengthBytes;
    var t := ByteFrom(kind);
    var crc := Crc32c.Checksum(Crc32c.Checksum(0, [t]), payload);
    Crc32c.ChecksumConcat(0, [t], payload);
    CoveredPart(kind, payload, b);
    Crc32c.MaskRoundTrip(crc);
    Fixed32RoundTrip(Crc32c.Mask(crc), b[4..]);
    assert b == Fixed32(Crc32c.Mask(crc)) + b[4..];
  }

  /** The checksum in the header is that of the type and the n bytes of payload behind it. */
  predicate Intact(b: Bytes, n: nat)
    requires |b| >= HEADER_SIZE + n
  {
    Crc32c.Unmask(Crc32c.Word(b, 0)) == Crc32c.Checksum(0, b[HEADER_SIZE - 1..HEADER_SIZE + n])
  }

  /** From position p on, log holds the physical record of kind with payload, within one block. */
  ghost predicate FragmentAt(log: Bytes, p: nat, kind: nat, payload: Bytes) {
    && 1 <= kind <= 4 && p + HEADER_SIZE + |payload| <= |log|
    && log[p..p + HEADER_SIZE + |payload|] == Emit(kind, payload)
    && p % BLOCK_SIZE + HEADER_SIZE + |payload| <= BLOCK_SIZE
  }

  ghost predicate Awaited(file: Bytes, log: Bytes, p: nat, kind: nat, payload: Bytes) {
    file <= log && FragmentAt(log, p, kind, payload)
  }

  /** The bytes of such a record that a shorter file still holds. */
  lemma FragmentBytes(file: Bytes, log: Bytes, p: nat, kind: nat, payload: Bytes, buffer: Bytes)
    requires file <= log && FragmentAt(log, p, kind, payload) && p + |buffer| <= |file|
    requires buffer == file[p..p + |buffer|]
    ensures forall i :: 0 <= i < |buffer| && i < HEADER_SIZE + |payload| ==> i < |Emit(kind, payload)| && buffer[i] == Emit(kind, payload)[i]
  {
    hide Emit;
    forall i | 0 <= i < |buffer| && i < HEADER_SIZE + |payload|
      ensures i < |Emit(kind, payload)| && buffer[i] == Emit(kind, payload)[i]
    {
      assert buffer[i] == file[p + i] && file[p + i] == log[p + i];
      assert log[p..p + HEADER_SIZE + |payload|][i] == log[p + i];
    }
  }

  /** buffer is what is left unread of the part of the file read last, within one block; that part was a whole block
      unless it was the last. */
  ghost predicate Placed(file: Bytes, filePos: nat, buffer: Bytes, eof: bool) {
    && |buffer| <= filePos <= |file| && buffer == file[filePos - |buffer|..filePos]
    && |buffer| <= (if filePos % BLOCK_SIZE == 0 then BLOCK_SIZE else filePos % BLOCK_SIZE)
    && if eof then filePos == |file| else filePos % BLOCK_SIZE == 0
  }

  lemma PlacedAtStart(file: Bytes)
    ensures Placed(file, 0, [], false)
  {
    assert [] == file[0..0];
  }

  lemma PlacedAfter(file: Bytes, filePos: nat, buffer: Bytes, eof: bool, n: nat)
    requires Placed(file, filePos, buffer, eof) && n <= |buffer|
    ensures Placed(file, filePos, buffer[n..], eof)
  {
  }

  lemma PlacedFacts(file: Bytes, filePos: nat, buffer: Bytes, eof: bool)
    requires Placed(file, filePos, buffer, eof)
    ensures |buffer| <= filePos <= |file| && buffer == file[filePos - |buffer|..filePos] && (eof ==> filePos == |file|)
  {
  }

  /** A buffer too short for a header is at the end of the file or is the trailer of its block. */
  lemma ShortBuffer(file: Bytes, filePos: nat, buffer: Bytes, eof: bool)
    requires Placed(file, filePos, buffer, eof) && |buffer| < HEADER_SIZE
    ensures eof ==> filePos - |buffer| + Trailer(filePos - |buffer|) + HEADER_SIZE > |file|
    ensures !eof ==> filePos - |buffer| + Trailer(filePos - |buffer|) == filePos && Trailer(filePos) == 0
  {
  }

  lemma LongBuffer(file: Bytes, filePos: nat, buffer: Bytes, eof: bool)
    requires Placed(file, filePos, buffer, eof) && |buffer| >= HEADER_SIZE
    ensures Trailer(filePos - |buffer|) == 0
  {
  }

  lemma NextBlockPlaced(file: Bytes, filePos: nat, n: nat)
    requires filePos <= |file| && filePos % BLOCK_SIZE == 0
    requires n == if |file| - filePos < BLOCK_SIZE then |file| - filePos else BLOCK_SIZE
    ensures Placed(file, filePos + n, file[filePos..filePos + n], n < BLOCK_SIZE)
  {
  }

  lemma AtBlock(file: Bytes, filePos: nat, buffer: Bytes)
    requires Placed(file, filePos, buffer, false)
    ensures filePos % BLOCK_SIZE == 0
  {
  }

  /** A physical record that begins in a whole block ends in it. */
  lemma FragmentInBlock(file: Bytes, filePos: nat, buffer: Bytes, n: nat)
    requires Placed(file, filePos, buffer, false) && buffer != []
    requires (filePos - |buffer|) % BLOCK_SIZE + n <= BLOCK_SIZE
    ensures n <= |buffer|
  {
  }

  /** What the reader finds in its buffer where the writer put a record. */
  lemma FragmentParses(file: Bytes, log: Bytes, filePos: nat, b: Bytes, eof: bool, k: nat, payload: Bytes)
    requires Placed(file, filePos, b, eof) && filePos >= |b| >= HEADER_SIZE
    requires Awaited(file, log, filePos - |b|, k, payload)
    ensures 1 <= k <= 4 && LengthOf(b[4], b[5]) == |payload| && b[6] as nat == k
    ensures HEADER_SIZE + |payload| > |b| ==> eof && filePos == |file|
    ensures HEADER_SIZE + |payload| <= |b| ==>
              b[HEADER_SIZE..HEADER_SIZE + |payload|] == payload && Intact(b, |payload|)
  {
    hide Placed, Emit, LengthOf, Intact;
    PlacedFacts(file, filePos, b, eof);
    if !eof {
      FragmentInBlock(file, filePos, b, HEADER_SIZE + |payload|);
    }
    FragmentBytes(file, log, filePos - |b|, k, payload, b);
    HeaderParses(k, payload, b);
    if HEADER_SIZE + |payload| <= |b| {
      RecordParses(k, payload, b);
    }
  }

  // ---- On any bytes at all -------------------------------------------------------------------------------------

  lemma WordBytes(a: bv8, b: bv8, c: bv8, d: bv8)
    ensures var w := Crc32c.Xor(Crc32c.Xor(Crc32c.Xor(Crc32c.At(0, a), Crc32c.At(1, b)), Crc32c.At(2, c)), Crc32c.At(3, d));
            Crc32c.ByteOf(0, w) == a && Crc32c.ByteOf(1, w) == b && Crc32c.ByteOf(2, w) == c && Crc32c.ByteOf(3, w) == d
  {
  }

  lemma Fixed32Back(b: Bytes)
    requires |b| >= 4
    ensures Fixed32(Crc32c.Word(b, 0)) == b[..4]
  {
    hide Crc32c.Xor, Crc32c.At, Crc32c.ByteOf;
    WordBytes(b[0], b[1], b[2], b[3]);
  }

  lemma Digits(x: nat, y: nat)
    requires x < 256 && y < 256
    ensures (x + 256 * y) % 256 == x && (x + 256 * y) / 256 % 256 == y && x + 256 * y <= 0xFFFF
  {
  }

  lemma LengthDigits(x: nat, y: nat)
    requires x < 256 && y < 256
    ensures LengthBytes(x + 256 * y) == [ByteFrom(x), ByteFrom(y)] && x + 256 * y <= 0xFFFF
  {
    hide ByteFrom;
    Digits(x, y);
  }

  lemma SmallByte(a: bv8)
    ensures a as nat < 256
  {
  }

  lemma LengthBack(a: bv8, b: bv8)
    ensures LengthBytes(LengthOf(a, b)) == [a, b] && LengthOf(a, b) <= 0xFFFF
  {
    hide ByteFrom, LengthBytes;
    SmallByte(a);
    SmallByte(b);
    LengthDigits(a as nat, b as nat);
    ByteFromBack(a);
    ByteFromBack(b);
  }

  lemma ByteFromBack(b: bv8)
    ensures ByteFrom(b as nat) == b
  {
  }

  /** Bytes that pass the reader's tests are what the writer emits for the fragment read from them. */
  lemma ParsesBack(b: Bytes, n: nat)
    requires |b| >= HEADER_SIZE + n && n == LengthOf(b[4], b[5]) && b[6] as nat <= 4 && Intact(b, n)
    ensures b[..HEADER_SIZE + n] == Emit(b[6] as nat, b[HEADER_SIZE..HEADER_SIZE + n])
  {
    hide Crc32c.Mask, Crc32c.Unmask, Crc32c.Checksum, Crc32c.Word, LengthBytes, LengthOf, Fixed32, ByteFrom;
    var t, payload := b[6], b[HEADER_SIZE..HEADER_SIZE + n];
    assert b[HEADER_SIZE - 1..HEADER_SIZE + n] == [t] + payload;
    Crc32c.ChecksumConcat(0, [t], payload);
    Crc32c.MaskRoundTrip(Crc32c.Word(b, 0));
    Fixed32Back(b);
    LengthBack(b[4], b[5]);
    ByteFromBack(t);
    assert b[..HEADER_SIZE + n] == b[..4] + [b[4], b[5]] + [t] + payload;
  }

  lemma FoundFragment(file: Bytes, filePos: nat, b: Bytes, eof: bool, n: nat)
    requires Placed(file, filePos, b, eof) && |b| >= HEADER_SIZE + n && n == LengthOf(b[4], b[5]) && 1 <= b[6] as nat <= 4
    requires Intact(b, n)
    ensures |b| <= filePos && FragmentAt(file, filePos - |b|, b[6] as nat, b[HEADER_SIZE..HEADER_SIZE + n])
  {
    hide Intact, LengthOf, Emit;
    ParsesBack(b, n);
    var p := filePos - |b|;
    assert file[p..p + HEADER_SIZE + n] == b[..HEADER_SIZE + n];
    InsideBlock(p, filePos);
  }

  lemma InsideBlock(p: nat, q: nat)
    requires p <= q && q - p <= (if q % BLOCK_SIZE == 0 then BLOCK_SIZE else q % BLOCK_SIZE)
    ensures q > p ==> p % BLOCK_SIZE + (q - p) <= BLOCK_SIZE
  {
  }

  /** From p to q the file holds a fragment of the kind, behind padding where no header fits. */
  ghost predicate Fragment(file: Bytes, p: nat, q: nat, kind: nat, payload: Bytes) {
    FragmentAt(file, p + Trailer(p), kind, payload) && q == p + Trailer(p) + HEADER_SIZE + |payload|
  }

  /** From p to q the file holds a first fragment and middle ones that make up the text. */
  ghost predicate Begun(file: Bytes, p: nat, q: nat, text: Bytes)
    decreases q
  {
    || Fragment(file, p, q, FIRST_TYPE, text)
    || exists r: nat, n: nat :: r < q && n <= |text| && Begun(file, p, r, text[..n])
                                && Fragment(file, r, q, MIDDLE_TYPE, text[n..])
  }

  /** From p to q the file holds a record: all of it in one fragment, or from a first one to a last one. */
  ghost predicate RecordAt(file: Bytes, p: nat, q: nat, record: Bytes) {
    || Fragment(file, p, q, FULL_TYPE, record)
    || exists r: nat, n: nat :: r < q && n <= |record| && Begun(file, p, r, record[..n])
                                && Fragment(file, r, q, LAST_TYPE, record[n..])
  }

  lemma BegunFirst(file: Bytes, p: nat, q: nat, text: Bytes)
    requires Fragment(file, p, q, FIRST_TYPE, text)
    ensures Begun(file, p, q, text) && p < q
  {
  }

  lemma BegunMore(file: Bytes, p: nat, r: nat, q: nat, text: Bytes, more: Bytes)
    requires Begun(file, p, r, text) && Fragment(file, r, q, MIDDLE_TYPE, more)
    ensures Begun(file, p, q, text + more) && r < q
  {
    hide FragmentAt;
    assert (text + more)[..|text|] == text && (text + more)[|text|..] == more;
  }

  /** What is left of the record, behind what was read of it. */
  ghost predicate OnTrack(file: Bytes, log: Bytes, p: nat, left: Bytes, begin: bool, scratch: Bytes, data: Bytes, end: nat) {
    && Expects(file, log, p, left, begin) && scratch + left == data && (begin ==> scratch == [])
    && p + |RecordBytes(p, left, begin)| == end
  }

  lemma StayOnTrack(file: Bytes, log: Bytes, p: nat, left: Bytes, begin: bool, scratch: Bytes, data: Bytes, end: nat)
    requires OnTrack(file, log, p, left, begin, scratch, data, end)
    ensures var n := FragmentLength(p, |left|);
            var q := p + Trailer(p) + HEADER_SIZE + n;
            var more := if begin then left[..n] else scratch + left[..n];
            && n <= |left| && q <= end
            && if n == |left| then q == end && more == data else OnTrack(file, log, q, left[n..], false, more, data, end)
  {
    hide Awaits, RecordBytes, Trailer, FragmentLength, FragmentAt;
    AwaitsFragment(log, p, left, begin);
    CutJoins(scratch, left, FragmentLength(p, |left|));
  }

  lemma StartOnTrack(file: Bytes, log: Bytes, p: nat, data: Bytes)
    ensures Expects(file, log, p, data, true)
            ==> OnTrack(file, log, p, data, true, [], data, p + |RecordBytes(p, data, true)|)
  {
    hide Expects, RecordBytes;
  }

  /** What TakeFragment makes of the next fragment of a written log. */
  lemma Tracked(file: Bytes, log: Bytes, p: nat, q: nat, size: nat, left: Bytes, scratch: Bytes, within: bool, data: Bytes,
                end: nat, kind: nat, fragment: Bytes, ok: bool, record: Bytes, scratch': Bytes, within': bool)
    requires OnTrack(file, log, p, left, !within, scratch, data, end)
    requires var n := FragmentLength(p, |left|);
             && n <= |left|
             && if p + Trailer(p) + HEADER_SIZE + n <= size then
                  kind == Kind(!within, n == |left|) && fragment == left[..n] && q == p + Trailer(p) + HEADER_SIZE + n
                else kind == EOF
    requires ok <==> kind == FULL_TYPE || (kind == LAST_TYPE && within)
    requires ok ==> record == if kind == FULL_TYPE then fragment else scratch + fragment
    requires kind in {FIRST_TYPE, MIDDLE_TYPE} && within'
             ==> scratch' == if kind == FIRST_TYPE then fragment else scratch + fragment
    requires within' <==> kind == FIRST_TYPE || (within && kind in {FULL_TYPE, MIDDLE_TYPE, LAST_TYPE, EOF})
    ensures ok ==> end <= size && record == data && q == end
    ensures kind == EOF ==> end > size && p + Trailer(p) + HEADER_SIZE + FragmentLength(p, |left|) > size
    ensures !ok && kind != EOF
            ==> OnTrack(file, log, q, left[FragmentLength(p, |left|)..], !within', scratch', data, end)
    ensures kind == EOF || kind in {FULL_TYPE, FIRST_TYPE} || (kind in {MIDDLE_TYPE, LAST_TYPE} && within)
    ensures kind in {FULL_TYPE, FIRST_TYPE} ==> scratch == []
  {
    hide OnTrack, Trailer, FragmentLength;
    StayOnTrack(file, log, p, left, !within, scratch, data, end);
    TrackStart(file, log, p, left, scratch, within, data, end);
  }

  lemma TrackStart(file: Bytes, log: Bytes, p: nat, left: Bytes, scratch: Bytes, within: bool, data: Bytes, end: nat)
    requires OnTrack(file, log, p, left, !within, scratch, data, end)
    ensures !within ==> scratch == []
  {
  }

  /** A physical record found with its checksum goes on with what was found before it. */
  lemma Soundly(file: Bytes, from: nat, here: nat, q: nat, kind: nat, fragment: Bytes, before: Bytes, within: bool, ok: bool,
                record: Bytes, scratch: Bytes)
    requires 1 <= kind <= 4 ==> Fragment(file, here, q, kind, fragment)
    requires within ==> Begun(file, from, here, before)
    requires ok ==> kind == FULL_TYPE || (kind == LAST_TYPE && within)
    requires ok ==> record == if kind == FULL_TYPE then fragment else before + fragment
    requires !ok ==> kind == FIRST_TYPE || (within && kind == MIDDLE_TYPE) || kind == EOF || kind == BAD_RECORD
    requires !ok && 1 <= kind <= 4 ==> scratch == if kind == FIRST_TYPE then fragment else before + fragment
    ensures ok ==> RecordAt(file, if kind == FULL_TYPE then here else from, q, record)
    ensures !ok && 1 <= kind <= 4 ==> Begun(file, if kind == FIRST_TYPE then here else from, q, scratch)
  {
    hide Fragment, Begun, RecordAt;
    if kind == FULL_TYPE {
      RecordInOne(file, here, q, fragment);
    } else if kind == FIRST_TYPE {
      BegunFirst(file, here, q, fragment);
    } else if kind == MIDDLE_TYPE {
      BegunMore(file, from, here, q, before, fragment);
    } else if kind == LAST_TYPE {
      RecordEnds(file, from, here, q, before, fragment);
    }
  }

  lemma TrackAwaits(file: Bytes, log: Bytes, p: nat, left: Bytes, begin: bool, scratch: Bytes, data: Bytes, end: nat)
    requires OnTrack(file, log, p, left, begin, scratch, data, end)
    ensures Expects(file, log, p, left, begin)
  {
    hide Expects, RecordBytes;
  }

  lemma RecordInOne(file: Bytes, p: nat, q: nat, record: Bytes)
    requires Fragment(file, p, q, FULL_TYPE, record)
    ensures RecordAt(file, p, q, record)
  {
  }

  lemma RecordEnds(file: Bytes, p: nat, r: nat, q: nat, text: Bytes, more: Bytes)
    requires Begun(file, p, r, text) && Fragment(file, r, q, LAST_TYPE, more)
    ensures RecordAt(file, p, q, text + more)
  {
    hide FragmentAt, Begun;
    assert (text + more)[..|text|] == text && (text + more)[|text|..] == more;
  }

  class Reader {
    const file: Bytes
    const checksum: bool
    /** How much of the file has been read. */
    var filePos: nat
    var buffer: Bytes
    var eof: bool
    /** The drops reported so far. */
    var reports: seq<Drop>

    constructor (file: Bytes, checksum: bool)
      ensures Valid() && this.file == file && this.checksum == checksum && Next() == 0 && reports == []
    {
      this.file, this.checksum := file, checksum;
      filePos, buffer, eof, reports := 0, [], false, [];
      PlacedAtStart(file);
    }

    ghost predicate Valid()
      reads this
    {
      |buffer| <= filePos && Placed(file, filePos, buffer, eof)
    }

    /** File position of the next unread byte. */
    ghost function Next(): nat
      reads this
      requires |buffer| <= filePos
    {
      filePos - |buffer|
    }

    ghost predicate Ended()
      reads this
    {
      eof && buffer == []
    }

    /** The refilling part of ReadPhysicalRecord: skips the trailer of a block and reads the next one, until a header
        is there or the file ends. */
    method FillHeader() returns (ok: bool)
      requires Valid()
      modifies this
      ensures Valid() && reports == old(reports)
      ensures ok ==> |buffer| >= HEADER_SIZE && Next() == old(Next()) + Trailer(old(Next()))
      ensures !ok ==> Ended() && old(Next()) + Trailer(old(Next())) + HEADER_SIZE > |file|
    {
      hide Placed, Trailer;
      ghost var start := Next();
      PlacedFacts(file, filePos, buffer, eof);
      while |buffer| < HEADER_SIZE
        invariant Valid() && reports == old(reports) && filePos <= |file|
        invariant Next() + Trailer(Next()) == start + Trailer(start)
        decreases |file| - filePos + if eof then 0 else 1
      {
        ShortBuffer(file, filePos, buffer, eof);
        if eof {
          PlacedAfter(file, filePos, buffer, eof, |buffer|);
          buffer := [];
          return false;
        }
        var n := if |file| - filePos < BLOCK_SIZE then |file| - filePos else BLOCK_SIZE;
        AtBlock(file, filePos, buffer);
        NextBlockPlaced(file, filePos, n);
        buffer, filePos, eof := file[filePos..filePos + n], filePos + n, n < BLOCK_SIZE;
      }
      LongBuffer(file, filePos, buffer, eof);
      ok := true;
    }

    /** The parsing part of ReadPhysicalRecord. On any bytes, what is returned as a fragment is there with its checksum. A
        record the writer wrote is returned if all of it is there; otherwise this is the end of the file and nothing is
        reported. */
    method ParsePhysical(ghost log: Bytes, ghost k: nat, ghost payload: Bytes) returns (kind: nat, fragment: Bytes)
      requires Valid() && |buffer| >= HEADER_SIZE
      modifies this
      ensures Valid() && (kind != EOF ==> Next() > old(Next()))
      ensures checksum && 1 <= kind <= 4
              ==> FragmentAt(file, old(Next()), kind, fragment) && Next() == old(Next()) + HEADER_SIZE + |fragment|
      ensures Awaited(file, log, old(Next()), k, payload) ==>
                && reports == old(reports)
                && if old(Next()) + HEADER_SIZE + |payload| <= |file|
                   then kind == k && fragment == payload && Next() == old(Next()) + HEADER_SIZE + |payload|
                   else kind == EOF && Ended()
    {
      hide Placed, LengthOf, FragmentAt, Intact, Awaited;
      PlacedFacts(file, filePos, buffer, eof);
      PlacedAfter(file, filePos, buffer, eof, |buffer|);
      if Awaited(file, log, Next(), k, payload) {
        FragmentParses(file, log, filePos, buffer, eof, k, payload);
      }
      fragment := [];
      var kindByte, length := buffer[6] as nat, LengthOf(buffer[4], buffer[5]);
      if HEADER_SIZE + length > |buffer| {
        buffer := [];
        if !eof {
          reports := reports + [BadRecordLength];
          kind := BAD_RECORD;
        } else {
          kind := EOF;
        }
        return;
      }
      if kindByte == 0 && length == 0 {
        buffer := [];
        kind := BAD_RECORD;
        return;
      }
      if checksum {
        if !Intact(buffer, length) {
          buffer := [];
          reports := reports + [ChecksumMismatch];
          kind := BAD_RECORD;
          return;
        }
        if 1 <= kindByte <= 4 {
          FoundFragment(file, filePos, buffer, eof, length);
        }
      }
      PlacedAfter(file, filePos, buffer, eof, HEADER_SIZE + length);
      fragment := buffer[HEADER_SIZE..HEADER_SIZE + length];
      buffer := buffer[HEADER_SIZE + length..];
      kind := kindByte;
    }

    /** ReadPhysicalRecord: on any bytes, only fragments that are there with their checksums; in a written log the next
        one if all of it is there, otherwise the end of the file. */
    method ReadPhysicalRecord(ghost log: Bytes, ghost data: Bytes, ghost begin: bool)
      returns (kind: nat, fragment: Bytes)
      requires Valid()
      modifies this
      ensures Valid() && (kind != EOF ==> Next() > old(Next()))
      ensures old(Next()) == |file| ==> kind == EOF && Ended() && reports == old(reports)
      ensures checksum && 1 <= kind <= 4 ==> Fragment(file, old(Next()), Next(), kind, fragment)
      ensures Expects(file, log, old(Next()), data, begin) ==>
                var n := FragmentLength(old(Next()), |data|);
                var end := old(Next()) + Trailer(old(Next())) + HEADER_SIZE + n;
                && reports == old(reports) && n <= |data|
                && if end <= |file| then kind == Kind(begin, n == |data|) && fragment == data[..n] && Next() == end
                   else kind == EOF && Ended()
    {
      hide Placed, Trailer, FragmentLength, Awaits, FragmentAt, RecordBytes;
      PlacedFacts(file, filePos, buffer, eof);
      ghost var start := Next();
      ghost var n := FragmentLength(start, |data|);
      ghost var good := Expects(file, log, start, data, begin);
      if good {
        AwaitsFragment(log, start, data, begin);
      }
      var ok := FillHeader();
      PlacedFacts(file, filePos, buffer, eof);
      if !ok {
        kind, fragment := EOF, [];
        return;
      }
      kind, fragment := ParsePhysical(log, Kind(begin, n == |data|), if good then data[..n] else []);
    }

    /** What ReadRecord does with a physical record: a record ends, goes on, or begins anew. */
    method TakeFragment(kind: nat, fragment: Bytes, scratch: Bytes, inFragmented: bool)
      returns (done: bool, ok: bool, record: Bytes, scratch': Bytes, inFragmented': bool)
      requires !inFragmented ==> scratch == []
      modifies this`reports
      ensures ok ==> done
      ensures ok <==> kind == FULL_TYPE || (kind == LAST_TYPE && inFragmented)
      ensures ok ==> record == if kind == FULL_TYPE then fragment else scratch + fragment
      ensures done && !ok <==> kind == EOF
      ensures inFragmented' <==> kind == FIRST_TYPE || (inFragmented && kind in {FULL_TYPE, MIDDLE_TYPE, LAST_TYPE, EOF})
      ensures !done && inFragmented' ==> scratch' == if kind == FIRST_TYPE then fragment else scratch + fragment
      ensures !inFragmented' ==> scratch' == []
      ensures kind in {FULL_TYPE, FIRST_TYPE} && scratch == [] ==> reports == old(reports)
      ensures (kind in {MIDDLE_TYPE, LAST_TYPE} && inFragmented) || kind == EOF ==> reports == old(reports)
    {
      done, ok, record, scratch', inFragmented' := false, false, [], scratch, inFragmented;
      if kind == FULL_TYPE {
        if inFragmented && scratch != [] {
          reports := reports + [NoEndBeforeFull];
        }
        done, ok, record := true, true, fragment;
      } else if kind == FIRST_TYPE {
        if inFragmented && scratch != [] {
          reports := reports + [NoEndBeforeFirst];
        }
        scratch', inFragmented' := fragment, true;
      } else if kind == MIDDLE_TYPE {
        if !inFragmented {
          reports := reports + [NoStartBeforeMiddle];
        } else {
          scratch' := scratch + fragment;
        }
      } else if kind == LAST_TYPE {
        if !inFragmented {
          reports := reports + [NoStartBeforeLast];
        } else {
          done, ok, record := true, true, scratch + fragment;
        }
      } else if kind == EOF {
        done := true;
      } else if kind == BAD_RECORD {
        if inFragmented {
          reports := reports + [ErrorInMiddle];
          scratch', inFragmented' := [], false;
        }
      } else {
        reports := reports + [UnknownType];
        scratch', inFragmented' := [], false;
      }
    }

    /** ReadRecord. On a prefix of a written log that still holds all of the next record it returns that record;
        otherwise it reports the end. Either way nothing is reported as corrupt. On any bytes, what is returned is made of
        fragments that follow each other from a first to a last one, each with its checksum. */
    method ReadRecord(ghost log: Bytes, ghost data: Bytes) returns (ok: bool, record: Bytes, ghost from: nat)
      requires Valid()
      modifies this
      ensures Valid() && (ok ==> old(Next()) < Next())
      ensures ok && checksum ==> old(Next()) <= from && RecordAt(file, from, Next(), record)
      ensures old(Next()) == |file| ==> !ok && Ended() && reports == old(reports)
      ensures Expects(file, log, old(Next()), data, true) ==>
                var end := old(Next()) + |RecordBytes(old(Next()), data, true)|;
                && reports == old(reports)
                && if end <= |file| then ok && record == data && Next() == end else !ok && Ended()
    {
      hide Placed, Trailer, FragmentLength, Expects, RecordBytes, FragmentAt, Fragment, Begun, RecordAt, OnTrack, Kind;
      ghost var start := Next();
      ghost var end := start + |RecordBytes(start, data, true)|;
      ghost var good := Expects(file, log, start, data, true);
      ghost var left := data;
      var scratch: Bytes, inFragmented := [], false;
      from := start;
      StartOnTrack(file, log, start, data);
      while true
        invariant Valid() && Next() >= start
        invariant start == |file| ==> Next() == start && reports == old(reports)
        invariant good ==> reports == old(reports) && OnTrack(file, log, Next(), left, !inFragmented, scratch, data, end)
        invariant !inFragmented ==> scratch == []
        invariant inFragmented && checksum ==> start <= from && Begun(file, from, Next(), scratch)
        decreases |file| - Next()
      {
        PlacedFacts(file, filePos, buffer, eof);
        ghost var n := FragmentLength(Next(), |left|);
        if good {
          TrackAwaits(file, log, Next(), left, !inFragmented, scratch, data, end);
        }
        ghost var here, before, within := Next(), scratch, inFragmented;
        var kind, fragment := ReadPhysicalRecord(log, left, !inFragmented);
        PlacedFacts(file, filePos, buffer, eof);
        var done;
        done, ok, record, scratch, inFragmented := TakeFragment(kind, fragment, scratch, inFragmented);
        if checksum && (ok || inFragmented) {
          Soundly(file, from, here, Next(), kind, fragment, before, within, ok, record, scratch);
        }
        if good {
          Tracked(file, log, here, Next(), |file|, left, before, within, data, end, kind, fragment, ok, record, scratch,
                  inFragmented);
        }
        from := if kind == FULL_TYPE || kind == FIRST_TYPE then here else from;
        if done {
          return;
        }
        left := if n <= |left| then left[n..] else left;
      }
    }
  }

  /** The file is a prefix of a log that holds, from position pos on, what is left of a record. */
  ghost predicate Expects(file: Bytes, log: Bytes, pos: nat, data: Bytes, begin: bool) {
    file <= log && Awaits(log, pos, data, begin)
  }

  /** From file position pos on, log holds what is left of a record. */
  ghost predicate Awaits(log: Bytes, pos: nat, data: Bytes, begin: bool) {
    var bytes := RecordBytes(pos, data, begin);
    pos + |bytes| <= |log| && log[pos..pos + |bytes|] == bytes
  }

  lemma CutJoins(scratch: Bytes, left: Bytes, n: nat)
    requires n <= |left|
    ensures scratch + left[..n] + left[n..] == scratch + left
    ensures n == |left| ==> scratch + left[..n] == scratch + left
    ensures scratch == [] ==> scratch + left[..n] == left[..n]
  {
  }

  lemma AwaitsFragment(log: Bytes, pos: nat, data: Bytes, begin: bool)
    requires Awaits(log, pos, data, begin)
    ensures var n := FragmentLength(pos, |data|);
            var p := pos + Trailer(pos);
            && n <= |data| && FragmentAt(log, p, Kind(begin, n == |data|), data[..n])
            && (if n == |data| then pos + |RecordBytes(pos, data, begin)| == p + HEADER_SIZE + n
                else && Awaits(log, p + HEADER_SIZE + n, data[n..], false)
                     && pos + |RecordBytes(pos, data, begin)|
                        == p + HEADER_SIZE + n + |RecordBytes(p + HEADER_SIZE + n, data[n..], false)|)
  {
    hide RecordBytes, Emit, Zeros, Trailer, FragmentLength;
    RecordBytesCut(pos, data, begin);
    var n := FragmentLength(pos, |data|);
    var p, kind := pos + Trailer(pos), Kind(begin, n == |data|);
    var e := p + HEADER_SIZE + n;
    FragmentIs(pos, p, |data|);
    ZerosLength(Trailer(pos));
    EmitLength(kind, data[..n]);
    var rest := if n == |data| then [] else RecordBytes(e, data[n..], false);
    SplitAt(log, pos, Zeros(Trailer(pos)), Emit(kind, data[..n]), rest);
  }

  lemma SplitAt(log: Bytes, pos: nat, a: Bytes, b: Bytes, c: Bytes)
    requires pos + |a + b + c| <= |log| && log[pos..pos + |a + b + c|] == a + b + c
    ensures log[pos + |a|..pos + |a| + |b|] == b
    ensures log[pos + |a| + |b|..pos + |a| + |b| + |c|] == c
  {
    var all := a + b + c;
    assert all[|a|..|a| + |b|] == b && all[|a| + |b|..] == c;
    SliceOfSlice(log, pos, pos + |all|, |a|, |a| + |b|);
    SliceOfSlice(log, pos, pos + |all|, |a| + |b|, |all|);
  }

  lemma NextAwaits(records: seq<Bytes>, n: nat)
    requires n < |records|
    ensures Awaits(LogBytes(records), |LogBytes(records[..n])|, records[n], true)
    ensures |LogBytes(records[..n])| + |RecordBytes(|LogBytes(records[..n])|, records[n], true)|
            == |LogBytes(records[..n + 1])|
  {
    hide RecordBytes, LogBytes;
    LogGrows(records, n + 1);
    assert records[..n] + [records[n]] == records[..n + 1];
    LogSnoc(records[..n], records[n]);
  }

  /** The records stand in the file where the spans say, one behind the other up to q. */
  ghost predicate Found(file: Bytes, read: seq<Bytes>, spans: seq<(nat, nat)>, q: nat) {
    && |spans| == |read| && (forall i :: 0 <= i < |read| ==> RecordAt(file, spans[i].0, spans[i].1, read[i]))
    && (forall i :: 0 < i < |read| ==> spans[i - 1].1 <= spans[i].0) && (read != [] ==> spans[|read| - 1].1 <= q)
  }

  lemma NothingFound(file: Bytes)
    ensures Found(file, [], [], 0)
  {
  }

  lemma OneMoreFound(file: Bytes, read: seq<Bytes>, spans: seq<(nat, nat)>, record: Bytes, p: nat, q: nat)
    requires Found(file, read, spans, p) && RecordAt(file, p, q, record)
    ensures Found(file, read + [record], spans + [(p, q)], q)
  {
    hide RecordAt;
  }

  lemma FoundBefore(file: Bytes, read: seq<Bytes>, spans: seq<(nat, nat)>, p: nat, q: nat)
    requires Found(file, read, spans, p) && p <= q
    ensures Found(file, read, spans, q)
  {
    hide RecordAt;
  }

  /** Reading a log back. After a crash: from any prefix of the bytes written, exactly the records whose last fragment
      lies inside the prefix, in order, and no corruption reported. From any bytes at all: only records that are there one
      behind the other, with their checksums. */
  method ReadLog(file: Bytes, checksum: bool, ghost records: seq<Bytes>)
    returns (read: seq<Bytes>, reports: seq<Drop>, ghost spans: seq<(nat, nat)>)
    ensures file <= LogBytes(records) ==> read <= records && reports == [] && |LogBytes(read)| <= |file|
    ensures file <= LogBytes(records) && |read| < |records| ==> |LogBytes(records[..|read| + 1])| > |file|
    ensures checksum ==> Found(file, read, spans, |file|)
  {
    hide RecordBytes, LogBytes, Expects, RecordAt, Found, ReadSoFar;
    var reader := new Reader(file, checksum);
    ghost var log, good := LogBytes(records), file <= LogBytes(records);
    read, spans := [], [];
    NothingFound(file);
    NothingRead(file, records);
    while true
      invariant fresh(reader) && reader.Valid() && reader.file == file && reader.checksum == checksum
      invariant good ==> reader.reports == [] && ReadSoFar(file, records, read, reader.Next())
      invariant |spans| == |read| && (checksum ==> Found(file, read, spans, reader.Next()))
      decreases |file| - reader.Next()
    {
      PlacedFacts(file, reader.filePos, reader.buffer, reader.eof);
      ghost var here, next := reader.Next(), [];
      if good {
        next := NextExpected(file, records, read, here);
      }
      var ok, record;
      ghost var from;
      ok, record, from := reader.ReadRecord(log, next);
      PlacedFacts(file, reader.filePos, reader.buffer, reader.eof);
      if good {
        ReadMore(file, records, read, here, next, ok, record);
      }
      if !ok {
        if checksum {
          FoundBefore(file, read, spans, here, |file|);
        }
        break;
      }
      if checksum {
        FoundBefore(file, read, spans, here, from);
        OneMoreFound(file, read, spans, record, from, reader.Next());
      }
      read, spans := read + [record], spans + [(from, reader.Next())];
    }
    reports := reader.reports;
  }

  /** The first records of a log were read, up to file position p. */
  ghost predicate ReadSoFar(file: Bytes, records: seq<Bytes>, read: seq<Bytes>, p: nat) {
    file <= LogBytes(records) && read <= records && p == |LogBytes(read)| <= |file|
  }

  lemma NothingRead(file: Bytes, records: seq<Bytes>)
    ensures file <= LogBytes(records) ==> ReadSoFar(file, records, [], 0)
  {
    hide LogBytes;
    EmptyLog();
  }

  /** The record the log goes on with, if it does; otherwise the file is read to its end. */
  lemma NextExpected(file: Bytes, records: seq<Bytes>, read: seq<Bytes>, p: nat) returns (next: Bytes)
    requires ReadSoFar(file, records, read, p)
    ensures read == records ==> p == |file|
    ensures |read| < |records| ==> next == records[|read|] && Expects(file, LogBytes(records), p, next, true)
                                   && p + |RecordBytes(p, next, true)| == |LogBytes(records[..|read| + 1])|
    ensures |read| <= |records| && records[..|read|] == read
  {
    hide LogBytes, RecordBytes, Awaits;
    assert records[..|read|] == read;
    next := [];
    if |read| < |records| {
      next := records[|read|];
      NextAwaits(records, |read|);
    }
  }

  lemma ReadMore(file: Bytes, records: seq<Bytes>, read: seq<Bytes>, p: nat, next: Bytes, ok: bool, record: Bytes)
    requires ReadSoFar(file, records, read, p)
    requires read == records ==> !ok
    requires |read| < |records|
             ==> next == records[|read|] && p + |RecordBytes(p, next, true)| == |LogBytes(records[..|read| + 1])|
                 && if p + |RecordBytes(p, next, true)| <= |file| then ok && record == next else !ok
    ensures ok ==> |read| < |records| && ReadSoFar(file, records, read + [record], p + |RecordBytes(p, next, true)|)
    ensures !ok ==> read <= records && |LogBytes(read)| <= |file|
                    && (|read| < |records| ==> |LogBytes(records[..|read| + 1])| > |file|)
  {
    hide LogBytes, RecordBytes;
    assert read == records[..|read|];
    if |read| < |records| {
      assert records[..|read| + 1] == read + [records[|read|]];
    } else {
      assert records[..|read|] == records;
    }
  }
}
