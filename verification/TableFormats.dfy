/** Blocks inside a table file: handles, trailers and the footer (table/format.cc). The checksum is a parameter. */
module TableFormats {
  import opened InternalKeys
  import opened Coding

  const MAGIC_LOW: nat := 0x8b80fb57
  const MAGIC_HIGH: nat := 0xdb477524
  const TRAILER: nat := 5
  const HANDLES: nat := 40
  const FOOTER: nat := 48
  const NO_COMPRESSION: byte := 0

  type Word = n: nat | n < TWO_32

  /** The masked checksum of some bytes. */
  type Checksum = Bytes -> Word

  datatype Handle = Handle(offset: nat, size: nat)

  predicate HandleFits(h: Handle) { h.offset < TWO_64 && h.size < TWO_64 }

  function HandleBytes(h: Handle): Bytes { Varint(h.offset) + Varint(h.size) }

  function HandleOf(input: Bytes): Parsed<Handle> {
    match Varint64Of(input)
    case Failed => Failed
    case Parsed(offset, r1) =>
    match Varint64Of(r1)
    case Failed => Failed
    case Parsed(size, r2) => Parsed(Handle(offset, size), r2)
  }

  /** A handle is read back from its encoding, whatever follows. */
  lemma HandleRoundTrip(h: Handle, rest: Bytes)
    requires HandleFits(h)
    ensures HandleOf(HandleBytes(h) + rest) == Parsed(h, rest)
  {
    hide Varint, Varint64Of;
    assert HandleBytes(h) + rest == Varint(h.offset) + (Varint(h.size) + rest);
    Varint64RoundTrip(h.offset, Varint(h.size) + rest);
    Varint64RoundTrip(h.size, rest);
  }

  /** kMaxEncodedLength. */
  lemma HandleShort(h: Handle)
    requires HandleFits(h)
    ensures |HandleBytes(h)| <= 20
  {
    Varint64Short(h.offset);
    Varint64Short(h.size);
  }

  // ---- Blocks ------------------------------------------------------------------------------------------------

  function Trailer(crc: Checksum, contents: Bytes): (t: Bytes)
    ensures |t| == TRAILER
  {
    [NO_COMPRESSION] + Fixed(crc(contents + [NO_COMPRESSION]), 4)
  }

  predicate BlockAt(file: Bytes, crc: Checksum, h: Handle, contents: Bytes) {
    && h.size == |contents| && h.offset + h.size + TRAILER <= |file|
    && file[h.offset..h.offset + h.size + TRAILER] == contents + Trailer(crc, contents)
  }

  /** Reading fails for a truncated block, a wrong checksum, or a type that is not stored here. */
  function ReadBlock(file: Bytes, crc: Checksum, verify: bool, h: Handle): Option<Bytes> {
    if h.offset + h.size + TRAILER > |file| then None
    else
      var data, n := file[h.offset..h.offset + h.size + TRAILER], h.size;
      if verify && FixedAt(data, n + 1) != crc(data[..n + 1]) then None
      else if data[n] == NO_COMPRESSION then Some(data[..n])
      else None
  }

  /** A block is read back as it was written, with or without checking. */
  lemma ReadsBlock(file: Bytes, crc: Checksum, verify: bool, h: Handle, contents: Bytes)
    requires BlockAt(file, crc, h, contents)
    ensures ReadBlock(file, crc, verify, h) == Some(contents)
  {
    hide Fixed, FixedOf, FixedAt;
    var n := h.size;
    var data := file[h.offset..h.offset + n + TRAILER];
    assert data == contents + Trailer(crc, contents);
    assert data[..n] == contents;
    assert data[n] == Trailer(crc, contents)[0] == NO_COMPRESSION;
    assert data[..n + 1] == contents + [NO_COMPRESSION];
    assert data == data[..n + 1] + Fixed(crc(contents + [NO_COMPRESSION]), 4) + [];
    FixedThere(data[..n + 1], crc(contents + [NO_COMPRESSION]), []);
  }

  /** With checking, nothing is read but what was written with its checksum; without, whatever is there uncompressed. */
  lemma ReadBlockIff(file: Bytes, crc: Checksum, h: Handle, contents: Bytes)
    ensures ReadBlock(file, crc, true, h) == Some(contents) <==> BlockAt(file, crc, h, contents)
    ensures ReadBlock(file, crc, false, h) == Some(contents)
            <==> h.offset + h.size + TRAILER <= |file| && contents == file[h.offset..h.offset + h.size]
                 && file[h.offset + h.size] == NO_COMPRESSION
  {
    hide Fixed, FixedOf, FixedAt;
    if BlockAt(file, crc, h, contents) {
      ReadsBlock(file, crc, true, h, contents);
    }
    if ReadBlock(file, crc, true, h) == Some(contents) {
      ReadIsStored(file, crc, h, contents);
    }
    if h.offset + h.size + TRAILER <= |file| {
      assert file[h.offset..h.offset + h.size + TRAILER][..h.size] == file[h.offset..h.offset + h.size];
    }
  }

  lemma ReadIsStored(file: Bytes, crc: Checksum, h: Handle, contents: Bytes)
    requires ReadBlock(file, crc, true, h) == Some(contents)
    ensures BlockAt(file, crc, h, contents)
  {
    hide Fixed, FixedOf, FixedAt;
    var data, n := file[h.offset..h.offset + h.size + TRAILER], h.size;
    WordBack(data, n + 1);
    assert data == data[..n] + [data[n]] + data[n + 1..n + 5];
    assert data[..n + 1] == contents + [NO_COMPRESSION];
  }

  lemma WordBack(data: Bytes, p: nat)
    requires p + 4 <= |data|
    ensures Fixed(FixedAt(data, p), 4) == data[p..p + 4]
  {
    FixedOfBack(data[p..p + 4]);
  }

  /** Blocks stay where they are as the file grows. */
  lemma BlockStays(file: Bytes, crc: Checksum, h: Handle, contents: Bytes, file': Bytes)
    requires BlockAt(file, crc, h, contents) && file <= file'
    ensures BlockAt(file', crc, h, contents)
  {
    assert file == file'[..|file|];
    assert file'[h.offset..h.offset + h.size + TRAILER] == file[h.offset..h.offset + h.size + TRAILER];
  }

  lemma BlockAppended(file: Bytes, crc: Checksum, contents: Bytes)
    ensures BlockAt(file + contents + Trailer(crc, contents), crc, Handle(|file|, |contents|), contents)
  {
    var whole := file + contents + Trailer(crc, contents);
    assert whole[|file|..|file| + |contents| + TRAILER] == contents + Trailer(crc, contents);
  }

  // ---- The footer --------------------------------------------------------------------------------------------

  datatype Footer = Footer(metaindex: Handle, index: Handle)

  function Padding(n: int): Bytes { if n <= 0 then [] else seq(n, _ => 0) }

  function FooterBytes(f: Footer): Bytes {
    var handles := HandleBytes(f.metaindex) + HandleBytes(f.index);
    handles + Padding(HANDLES - |handles|) + Fixed(MAGIC_LOW, 4) + Fixed(MAGIC_HIGH, 4)
  }

  /** Decoding checks the magic number and skips the padding. */
  function FooterOf(input: Bytes): Option<Footer>
    requires |input| == FOOTER
  {
    if FixedAt(input, 40) != MAGIC_LOW || FixedAt(input, 44) != MAGIC_HIGH then None
    else
      match HandleOf(input)
      case Failed => None
      case Parsed(metaindex, rest) =>
      match HandleOf(rest)
      case Failed => None
      case Parsed(index, _) => Some(Footer(metaindex, index))
  }

  /** No footer is read without the magic number at its end. */
  lemma FooterHasMagic(input: Bytes)
    requires |input| == FOOTER && FooterOf(input).Some?
    ensures input[40..] == [0x57, 0xfb, 0x80, 0x8b, 0x24, 0x75, 0x47, 0xdb]
  {
    hide FixedAt, HandleOf;
    WordBack(input, 40);
    WordBack(input, 44);
    assert input[40..] == input[40..44] + input[44..48];
    MagicBytes();
  }

  lemma MagicBytes()
    ensures Fixed(MAGIC_LOW, 4) == [0x57, 0xfb, 0x80, 0x8b] && Fixed(MAGIC_HIGH, 4) == [0x24, 0x75, 0x47, 0xdb]
  {
    hide Fixed;
    FixedFour(MAGIC_LOW);
    FixedFour(MAGIC_HIGH);
  }

  lemma FooterRoundTrip(f: Footer)
    requires HandleFits(f.metaindex) && HandleFits(f.index)
    ensures |FooterBytes(f)| == FOOTER && FooterOf(FooterBytes(f)) == Some(f)
  {
    hide HandleBytes, HandleOf, Fixed, FixedAt;
    HandleShort(f.metaindex);
    HandleShort(f.index);
    var handles := HandleBytes(f.metaindex) + HandleBytes(f.index);
    var pad := Padding(HANDLES - |handles|);
    var all := FooterBytes(f);
    assert all == handles + pad + Fixed(MAGIC_LOW, 4) + Fixed(MAGIC_HIGH, 4);
    FixedThere(handles + pad, MAGIC_LOW, Fixed(MAGIC_HIGH, 4));
    FixedThere(handles + pad + Fixed(MAGIC_LOW, 4), MAGIC_HIGH, []);
    assert all == handles + pad + Fixed(MAGIC_LOW, 4) + Fixed(MAGIC_HIGH, 4) + [];
    var rest := pad + Fixed(MAGIC_LOW, 4) + Fixed(MAGIC_HIGH, 4);
    assert all == HandleBytes(f.metaindex) + (HandleBytes(f.index) + rest);
    HandleRoundTrip(f.metaindex, HandleBytes(f.index) + rest);
    HandleRoundTrip(f.index, rest);
  }
}
