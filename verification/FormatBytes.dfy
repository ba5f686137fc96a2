/** The formats in bytes: what other builds of the libraries read and write. */
module FormatBytes {
  import opened Coding
  import Blocks
  import ByteValues
  import Comparators
  import Crc32c
  import FilterBlocks
  import LogFormat
  import LogReader
  import MemTableEntries
  import PbEncoding
  import TableBuilders
  import TableFormats
  import VersionEdits
  import WriteBatches

  lemma Prefixed1(b: byte)
    ensures Prefixed([b]) == [1, b]
  {
    Varint1(1);
  }

  lemma FixedMore(v: nat, n: nat)
    ensures Fixed(v, n + 1) == [v % 256] + Fixed(v / 256, n)
  {
  }

  lemma SmallEight(v: nat)
    requires v < 0x1_0000
    ensures Fixed(v, 8) == [v % 256, v / 256, 0, 0, 0, 0, 0, 0]
  {
    hide Fixed;
    FixedMore(v, 7);
    FixedMore(v / 256, 6);
    assert v / 256 / 256 == 0;
    FixedMore(0, 5);
    FixedMore(0, 4);
    FixedFour(0);
  }

  lemma SmallFixed(v: nat)
    requires v < 0x1_0000
    ensures Fixed(v, 4) == [v % 256, v / 256, 0, 0] && Fixed(v, 8) == [v % 256, v / 256, 0, 0, 0, 0, 0, 0]
  {
    hide Fixed;
    FixedFour(v);
    SmallEight(v);
    assert v / 256 / 256 == 0;
  }

  /** A batch that sets a to b and deletes c, with sequence number 1. */
  lemma BatchInBytes()
    ensures WriteBatches.Framed(1, 2, WriteBatches.OpsBytes([WriteBatches.Put([97], [98]), WriteBatches.Delete([99])]))
            == [1, 0, 0, 0, 0, 0, 0, 0, 2, 0, 0, 0, 1, 1, 97, 1, 98, 0, 1, 99]
  {
    hide Prefixed, Fixed;
    var put, delete := WriteBatches.Put([97], [98]), WriteBatches.Delete([99]);
    Prefixed1(97);
    Prefixed1(98);
    Prefixed1(99);
    WriteBatches.OpsSnoc([put], delete);
    WriteBatches.OpsSnoc([], put);
    assert [put] + [delete] == [put, delete] && [] + [put] == [put];
    SmallFixed(1);
    SmallFixed(2);
  }

  /** The memtable's entry for a value, and the internal key of a deletion. */
  lemma EntryInBytes()
    ensures var put := Comparators.InternalKey([107], MemTableEntries.Packed(1, MemTableEntries.VALUE_TYPE));
            MemTableEntries.EntryFor(Blocks.Pair(put, [118])) == [9, 107, 1, 1, 0, 0, 0, 0, 0, 0, 1, 118]
    ensures Comparators.InternalKey([107], MemTableEntries.Packed(1, MemTableEntries.DELETION_TYPE))
            == [107, 0, 1, 0, 0, 0, 0, 0, 0]
  {
    hide Fixed, Prefixed;
    SmallFixed(257);
    SmallFixed(256);
    Prefixed1(118);
    var put := Comparators.InternalKey([107], 257);
    Nine(put);
  }

  lemma Nine(b: Bytes)
    requires |b| == 9
    ensures Prefixed(b) == [9] + b
  {
    Varint1(9);
  }

  /** One manifest entry of each kind. */
  lemma EditInBytes()
    ensures VersionEdits.EncodeField(VersionEdits.Comparator([99])) == [1, 1, 99]
    ensures VersionEdits.EncodeField(VersionEdits.LogNumber(12)) == [2, 12]
    ensures VersionEdits.EncodeField(VersionEdits.NextFileNumber(13)) == [3, 13]
    ensures VersionEdits.EncodeField(VersionEdits.LastSequence(14)) == [4, 14]
    ensures VersionEdits.EncodeField(VersionEdits.Deleted(2, 15)) == [6, 2, 15]
    ensures VersionEdits.EncodeField(VersionEdits.PrevLogNumber(16)) == [9, 16]
  {
    hide Varint, Prefixed;
    Tags();
    Varint1(12);
    Varint1(13);
    Varint1(14);
    Varint1(15);
    Varint1(16);
    Prefixed1(99);
  }

  lemma Tags()
    ensures Varint(1) == [1] && Varint(2) == [2] && Varint(3) == [3] && Varint(4) == [4] && Varint(5) == [5]
    ensures Varint(6) == [6] && Varint(7) == [7] && Varint(9) == [9] && Varint(0) == [0]
  {
  }

  lemma FilesInBytes()
    ensures VersionEdits.EncodeField(VersionEdits.CompactPointer(1, [107])) == [5, 1, 1, 107]
    ensures VersionEdits.EncodeField(VersionEdits.Added(VersionEdits.NewFile(0, 6, 7, [115], [108])))
            == [7, 0, 6, 7, 1, 115, 1, 108]
  {
    hide Varint, Prefixed;
    Tags();
    Prefixed1(107);
    Prefixed1(115);
    Prefixed1(108);
  }

  lemma SmallVarints()
    ensures forall v: nat :: v < 128 ==> Varint(v) == [v]
  {
  }

  /** What follows the checksum in a log record that fits its block: its length, its type, the data; and where no header
      fits, zeros. */
  lemma LogInBytes(b: bv8)
    ensures LogFormat.Emit(1, [b])[4..] == [1, 0, 1, b]
    ensures LogFormat.RecordBytes(32762, [b], true) == [0, 0, 0, 0, 0, 0] + LogFormat.Emit(1, [b])
  {
    hide LogFormat.Emit;
    EmitInBytes(b);
    assert LogFormat.Trailer(32762) == 6 && LogFormat.FragmentLength(32762, 1) == 1;
    assert [b][..1] == [b] && LogFormat.Zeros(6) == [0, 0, 0, 0, 0, 0];
  }

  lemma EmitInBytes(b: bv8)
    ensures LogFormat.Emit(1, [b])[4..] == [1, 0, 1, b]
  {
    hide Crc32c.Mask, Crc32c.Checksum, Crc32c.ByteOf, ByteValues.ByteFrom;
    LogReader.ByteFromBack(0);
    LogReader.ByteFromBack(1);
  }

  /** Checksums are masked before they are stored. */
  lemma MaskInBits()
    ensures Crc32c.Mask(0) == 0xA282_EAD8 && Crc32c.Mask(1) == 0xA284_EAD8
  {
  }

  /** The footer of a table: two handles, padding up to 40 bytes, the magic number. */
  lemma FooterInBytes()
    ensures TableFormats.FooterBytes(TableFormats.Footer(TableFormats.Handle(1, 2), TableFormats.Handle(3, 4)))
            == [1, 2, 3, 4] + seq(36, _ => 0) + [0x57, 0xfb, 0x80, 0x8b, 0x24, 0x75, 0x47, 0xdb]
  {
    hide Varint, Fixed;
    SmallVarints();
    TableFormats.MagicBytes();
  }

  /** A block of one pair: what is shared, the other lengths, key and value, one restart point at 0; it is stored without
      compression. */
  lemma BlockInBytes(crc: TableFormats.Checksum, contents: Bytes)
    ensures Blocks.EntryBytes(Blocks.Pair([97], [98]), 0) == [0, 1, 1, 97, 98]
    ensures Words([0]) + Fixed(1, 4) == [0, 0, 0, 0, 1, 0, 0, 0]
    ensures TableFormats.Trailer(crc, contents)[0] == 0
    ensures TableBuilders.FILTER_PREFIX == [102, 105, 108, 116, 101, 114, 46]
  {
    hide Varint, Fixed;
    SmallVarints();
    SmallFixed(0);
    SmallFixed(1);
    assert [97][0..] == [97] && Words([0]) == Words([0][..0]) + Fixed(0, 4) && Words([]) == [];
  }

  /** A filter block without filters: the offset of the empty array, and the base. */
  lemma FilterInBytes()
    ensures FilterBlocks.FilterBlock([]) == [0, 0, 0, 0, 11]
  {
    hide Fixed;
    SmallFixed(0);
    assert FilterBlocks.Starts([]) == [] && Words([]) == [];
  }

  /** Tags of field 1 with each wire type, and small numbers in zigzag. */
  lemma TagsInBytes()
    ensures PbEncoding.TagBytes(PbEncoding.WtVarint, 1) == [8] && PbEncoding.TagBytes(PbEncoding.Wt64Bit, 1) == [9]
    ensures PbEncoding.TagBytes(PbEncoding.WtString, 1) == [10] && PbEncoding.TagBytes(PbEncoding.Wt32Bit, 1) == [13]
  {
    hide Varint;
    SmallVarints();
  }
}
