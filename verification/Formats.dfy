/** The file formats of LevelDB spelled out in numbers: what the constants of the other modules come to in bytes. */
module Formats {
  import opened Entries
  import opened Encodings
  import opened Coding
  import opened Checksums
  import Blocks
  import Crc
  import Crc32c
  import FilterBlocks
  import Files
  import Installs
  import KeyOrder
  import Log
  import MemTables
  import Skiplist
  import TableFormat
  import TableLayout
  import TwoLevel
  import VersionEdits
  import WriteBatches
  import WriteQueue

  lemma ShortVarint(n: nat)
    requires n < 128
    ensures Varint(n) == [n as Byte]
  {
  }

  lemma {:induction false} LittleZeros(n: nat, k: nat, m: nat)
    requires n < Pow256(k)
    ensures Little(n, k + m) == Little(n, k) + seq(m, _ => 0 as Byte)
    decreases k + m
  {
    if k > 0 {
      LittleZeros(n / 256, k - 1, m);
    } else if m > 0 {
      LittleZeros(0, 0, m - 1);
      assert seq(m, _ => 0 as Byte) == [0 as Byte] + seq(m - 1, _ => 0 as Byte);
    }
  }

  // ----- Keys, batches and the memtable -----

  /** An internal key: the user key, 1 for a value and 0 for a deletion, and the sequence number in seven bytes. */
  lemma InternalKeyBytes(k: KeyOrder.StoredKey)
    requires k.sequence <= MAX_SEQUENCE
    ensures KeyOrder.Encoded(k) == k.user + ([if k.kind == Value then 1 else 0 as Byte] + Little(k.sequence, 7))
  {
    hide KeyOrder.Rank;
    var kind := if k.kind == Value then 1 else 0;
    var tag := k.sequence * 256 + kind;
    assert Tag(KeyOrder.KeyOf(k)) == tag;
    assert tag % 256 == kind && tag / 256 == k.sequence;
    LittleFirst(tag, 8);
  }

  lemma LittleFirst(n: nat, k: nat)
    requires k > 0
    ensures Little(n, k) == [(n % 256) as Byte] + Little(n / 256, k - 1)
  {
  }

  /** A batch of one put: the sequence number in eight bytes, the count 1 in four, the type 1 and both strings behind their
      lengths; one of a deletion has the type 0 and one string. */
  lemma BatchOfOne(sequence: nat, key: Bytes, value: Bytes)
    requires |key| < 128 && |value| < 128
    ensures WriteBatches.BatchBytes(sequence, [WriteBatches.Put(key, value)]) ==
      Little(sequence, 8) + [1, 0, 0, 0] + ([1, |key| as Byte] + key + [|value| as Byte] + value)
    ensures WriteBatches.BatchBytes(sequence, [WriteBatches.Delete(key)]) ==
      Little(sequence, 8) + [1, 0, 0, 0] + ([0, |key| as Byte] + key)
  {
    hide WriteBatches.UpdateBytes, Little;
    OneInFour();
    PutIs(key, value);
    DeleteIs(key);
    OneUpdate(WriteBatches.Put(key, value));
    OneUpdate(WriteBatches.Delete(key));
  }

  lemma OneUpdate(u: WriteBatches.Update)
    ensures WriteBatches.UpdatesBytes([u]) == WriteBatches.UpdateBytes(u)
  {
    hide WriteBatches.UpdateBytes;
    assert [u][1..] == [];
  }

  lemma PutIs(key: Bytes, value: Bytes)
    requires |key| < 128 && |value| < 128
    ensures WriteBatches.UpdateBytes(WriteBatches.Put(key, value)) == [1, |key| as Byte] + key + [|value| as Byte] + value
  {
    ShortVarint(|key|);
    ShortVarint(|value|);
    hide Varint;
    var a, b := [|key| as Byte] + key, [|value| as Byte] + value;
    assert [1 as Byte] + (a + b) == [1, |key| as Byte] + key + [|value| as Byte] + value;
  }

  lemma DeleteIs(key: Bytes)
    requires |key| < 128
    ensures WriteBatches.UpdateBytes(WriteBatches.Delete(key)) == [0, |key| as Byte] + key
  {
    ShortVarint(|key|);
    hide Varint;
    assert [0 as Byte] + ([|key| as Byte] + key) == [0, |key| as Byte] + key;
  }

  lemma OneInFour()
    ensures Little(1, 4) == [1, 0, 0, 0]
  {
    LittleFirst(1, 4);
    LittleFirst(0, 3);
    LittleFirst(0, 2);
    LittleFirst(0, 1);
  }

  // ----- The log -----

  /** A log of one record that fits in the first block: a masked CRC-32C of the type and the data in four bytes, the length
      in two, the type 1 and the data. A block has 32768 bytes. */
  lemma LogOfOne(t: Crc.Tables, data: Bytes)
    requires Crc32c.RealTables(t) && |data| <= 32761
    ensures Log.LogBytes(t, 0, [data]) ==
      Fixed32(Crc.Mask(Crc32c.Checksum([1 as bv8] + Bits(data)))) + [(|data| % 256) as Byte, (|data| / 256) as Byte, 1] + data
  {
    hide Crc.Extended, Crc.Mask, Fixed32, Crc32c.Checksum, Crc32c.RealTables;
    var type1: seq<bv8> := [1];
    Crc.ExtendConcat(t, 0, type1, Bits(data));
    Crc32c.ExtendedIsChecksum(t, type1 + Bits(data));
    OneAsBits();
    assert [data][1..] == [] && data[..|data|] == data;
    assert Log.LogBytes(t, 0, [data]) == Log.RecordBytes(t, 0, data, true) + [];
    Log.RecordUnfold(t, 0, data, true);
    assert Log.Padding(0) == [];
  }

  lemma OneAsBits()
    ensures (1 as Byte) as bv8 == 1
  {
  }

  /** A longer one is cut: its first fragment fills the block and has the type 2. */
  lemma LongRecordIsCut(t: Crc.Tables, data: Bytes)
    requires |data| > 32761
    ensures var first := Log.Chunk(t, 2, data[..32761]);
      |first| == 32768 && first <= Log.LogBytes(t, 0, [data]) && first[4..7] == [0xf9, 0x7f, 2]
    ensures 32761 < |data| <= 65522 ==>
      Log.LogBytes(t, 0, [data]) == Log.Chunk(t, 2, data[..32761]) + Log.Chunk(t, 4, data[32761..])
  {
    hide Log.Chunk, Log.RecordBytes;
    var first, rest := data[..32761], data[32761..];
    assert [data][1..] == [];
    assert Log.LogBytes(t, 0, [data]) == Log.RecordBytes(t, 0, data, true);
    Log.RecordUnfold(t, 0, data, true);
    assert Log.Padding(0) == [];
    ChunkHeader(t, first);
    assert Log.Next(0, 32761) == 0;
    if |data| <= 65522 {
      Log.RecordUnfold(t, 0, rest, false);
      assert rest[..|rest|] == rest;
    }
  }

  lemma ChunkHeader(t: Crc.Tables, data: Bytes)
    requires |data| == 32761
    ensures Log.Chunk(t, 2, data)[4..7] == [0xf9, 0x7f, 2]
  {
    hide Crc.Extended, Crc.Mask, Fixed32;
  }

  // ----- Tables -----

  /** A stored block: the contents, the type 0 and a masked CRC-32C of both. */
  lemma TrailerIs(t: Crc.Tables, contents: Bytes)
    requires Crc32c.RealTables(t)
    ensures TableFormat.TrailerBytes(t, contents) ==
      [0 as Byte] + Fixed32(Crc.Mask(Crc32c.Checksum(Bits(contents) + [0 as bv8])))
  {
    hide Crc.Extended, Crc.Mask, Fixed32, Crc32c.Checksum, Crc32c.RealTables;
    Crc.ExtendConcat(t, 0, Bits(contents), [0 as bv8]);
    Crc32c.ExtendedIsChecksum(t, Bits(contents) + [0 as bv8]);
  }

  /** A footer has 48 bytes: two handles, zeros up to byte 40, and the magic number. */
  lemma FooterIs(meta: TableFormat.Handle, index: TableFormat.Handle)
    requires meta.offset < 128 && meta.size < 128 && index.offset < 128 && index.size < 128
    ensures TableFormat.FooterBytes(meta, index) ==
      [meta.offset as Byte, meta.size as Byte, index.offset as Byte, index.size as Byte] + seq(36, _ => 0 as Byte) +
      [0x57, 0xfb, 0x80, 0x8b, 0x24, 0x75, 0x47, 0xdb]
  {
    ShortVarint(meta.offset);
    ShortVarint(meta.size);
    ShortVarint(index.offset);
    ShortVarint(index.size);
    MagicIs();
    hide Varint, Little;
  }

  lemma MagicIs()
    ensures Little(TableFormat.MAGIC_LOW, 4) == [0x57, 0xfb, 0x80, 0x8b]
    ensures Little(TableFormat.MAGIC_HIGH, 4) == [0x24, 0x75, 0x47, 0xdb]
  {
    LittleFirst(0x8b80fb57, 4);
    LittleFirst(0x8b80fb, 3);
    LittleFirst(0x8b80, 2);
    LittleFirst(0x8b, 1);
    LittleFirst(0xdb477524, 4);
    LittleFirst(0xdb4775, 3);
    LittleFirst(0xdb47, 2);
    LittleFirst(0xdb, 1);
  }

  /** The entry of a block: how much of the key the key before it has, how much more there is, how long the value is, and
      both. */
  lemma BlockEntryIs(it: Blocks.Item)
    requires it.shared <= |it.key| < 128 && |it.value| < 128
    ensures Blocks.ItemBytes(it) ==
      [it.shared as Byte, (|it.key| - it.shared) as Byte, |it.value| as Byte] + it.key[it.shared..] + it.value
  {
    ShortVarint(it.shared);
    ShortVarint(|it.key| - it.shared);
    ShortVarint(|it.value|);
  }

  function Ascii(s: string): Bytes
    requires forall i | 0 <= i < |s| :: s[i] < 128 as char
  {
    seq(|s|, i requires 0 <= i < |s| => s[i] as int as Byte)
  }

  /** The key of the filter in the metaindex block; the filter block ends with the logarithm of 2048. */
  lemma FilterNames(name: Bytes, filters: seq<Bytes>)
    ensures TableLayout.FilterKey(name) == Ascii("filter.") + name
    ensures FilterBlocks.FilterBlockBytes(filters) != [] &&
      FilterBlocks.FilterBlockBytes(filters)[|FilterBlocks.FilterBlockBytes(filters)| - 1] == 11
  {
    hide FilterBlocks.Flat, Words, Little;
  }

  /** The handle of a file in the index of a level: its number and its size, eight bytes each. */
  lemma LevelHandleIs(f: Files.File)
    requires f.number < 256 && f.size < 256
    ensures TwoLevel.LevelIndex([f])[0].value ==
      [f.number as Byte, 0, 0, 0, 0, 0, 0, 0] + [f.size as Byte, 0, 0, 0, 0, 0, 0, 0]
  {
    ByteInEight(f.number);
    ByteInEight(f.size);
  }

  lemma ByteInEight(n: nat)
    requires n < 256
    ensures Little(n, 8) == [n as Byte, 0, 0, 0, 0, 0, 0, 0]
  {
    assert n < Pow256(1);
    LittleZeros(n, 1, 7);
    LittleFirst(n, 1);
  }

  // ----- The MANIFEST -----

  /** The tags of its records; 8 is not used. */
  lemma EditTags(r: VersionEdits.Record)
    ensures var tag :=
        match r
        case Comparator(_) => 1
        case LogNumber(_) => 2
        case NextFileNumber(_) => 3
        case LastSequence(_) => 4
        case CompactPointer(_, _) => 5
        case DeletedFile(_, _) => 6
        case NewFile(_, _) => 7
        case PrevLogNumber(_) => 9;
      VersionEdits.RecordBytes(r) == [tag as Byte] + VersionEdits.Payload(r)
  {
    ShortVarint(VersionEdits.TagOf(r));
  }

  // ----- Limits -----

  /** Seven levels, of which a flush may reach the third; twelve lists; 56 bits of sequence number; a group of writes of a
      mebibyte, or of 128 KiB more than a first write that is no larger than that. */
  lemma Limits(w: WriteQueue.Writer)
    ensures Files.NUM_LEVELS == 7 && Installs.MAX_MEM_COMPACT_LEVEL == 2 && Skiplist.MAX_HEIGHT == 12
    ensures MAX_SEQUENCE == 72057594037927935
    ensures WriteQueue.MaxSize(w) == if w.bytes <= 131072 then w.bytes + 131072 else 1048576
  {
  }
}
