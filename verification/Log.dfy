/** The write-ahead log format and its writer (db/log_writer.cc): records in fragments that never cross a 32 KB block, each
    behind a checksummed header. */
module Log {
  import opened Entries
  import opened Checksums
  import Crc

  const BLOCK: nat := 32768
  const HEADER: nat := 7
  const FULL: Byte := 1
  const FIRST: Byte := 2
  const MIDDLE: Byte := 3
  const LAST: Byte := 4

  // ----- The format -----

  /** EmitPhysicalRecord: the checksum continues the one of the type byte. */
  function Chunk(t: Crc.Tables, kind: Byte, data: Bytes): (r: Bytes)
    requires |data| < 0x1_0000
    ensures |r| == HEADER + |data|
  {
    var crc := Crc.Extended(t, Crc.Extended(t, 0, [kind as bv8]), Bits(data));
    Fixed32(Crc.Mask(crc)) + [(|data| % 256) as Byte, (|data| / 256) as Byte, kind] + data
  }

  /** The checksum test of ReadPhysicalRecord passes on what EmitPhysicalRecord wrote. */
  lemma ChunkChecks(t: Crc.Tables, kind: Byte, data: Bytes)
    requires |data| < 0x1_0000
    ensures var c := Chunk(t, kind, data);
      Crc.Unmask(Fixed32Of(c)) == Crc.Extended(t, 0, Bits(c[6..])) &&
      c[4] as nat + 256 * c[5] as nat == |data| && c[6] == kind && c[7..] == data
  {
    hide Crc.Extended, Crc.Mask, Crc.Unmask, Crc.Word, Fixed32, Fixed32Of;
    var c := Chunk(t, kind, data);
    var crc := Crc.Extended(t, Crc.Extended(t, 0, [kind as bv8]), Bits(data));
    Crc.ExtendConcat(t, 0, [kind as bv8], Bits(data));
    assert c[6..] == [kind] + data;
    assert Bits(c[6..]) == [kind as bv8] + Bits(data);
    Fixed32Front(Fixed32(Crc.Mask(crc)), c);
    Fixed32RoundTrip(Crc.Mask(crc));
    Crc.MaskRoundTrip(crc);
  }

  /** Offset in the block after the trailer, if any. */
  function Start(off: nat): nat
    requires off < BLOCK
  {
    if BLOCK - off < HEADER then 0 else off
  }

  function Padding(off: nat): (r: Bytes)
    requires off < BLOCK
    ensures |r| == if BLOCK - off < HEADER then BLOCK - off else 0
  {
    if BLOCK - off < HEADER then seq(BLOCK - off, _ => 0 as Byte) else []
  }

  /** Offset in the block after a fragment of n bytes. */
  function Next(off: nat, n: nat): (r: nat)
    requires off < BLOCK && Start(off) + HEADER + n <= BLOCK
    ensures r < BLOCK
  {
    Wrap(Start(off) + HEADER + n)
  }

  function Wrap(offset: nat): nat {
    if offset == BLOCK then 0 else offset
  }

  function Room(off: nat): nat
    requires off < BLOCK
  {
    BLOCK - Start(off) - HEADER
  }

  function Take(off: nat, data: Bytes): (n: nat)
    requires off < BLOCK
    ensures n <= |data| && Start(off) + HEADER + n <= BLOCK
  {
    if |data| < Room(off) then |data| else Room(off)
  }

  function Kind(begin: bool, end: bool): Byte {
    if begin && end then FULL else if begin then FIRST else if end then LAST else MIDDLE
  }

  /** One record, or what is left of it, written from an offset in the block on. */
  function RecordBytes(t: Crc.Tables, off: nat, data: Bytes, begin: bool): Bytes
    requires off < BLOCK
    decreases |data|, if Room(off) == 0 then 1 else 0
  {
    var n := Take(off, data);
    Padding(off) + Chunk(t, Kind(begin, n == |data|), data[..n]) +
    if n == |data| then [] else RecordBytes(t, Next(off, n), data[n..], false)
  }

  function EndOff(off: nat, data: Bytes): (r: nat)
    requires off < BLOCK
    ensures r < BLOCK
    decreases |data|, if Room(off) == 0 then 1 else 0
  {
    var n := Take(off, data);
    if n == |data| then Next(off, n) else EndOff(Next(off, n), data[n..])
  }

  /** All records, one after the other. */
  function LogBytes(t: Crc.Tables, off: nat, records: seq<Bytes>): Bytes
    requires off < BLOCK
    decreases |records|
  {
    if records == [] then []
    else RecordBytes(t, off, records[0], true) + LogBytes(t, EndOff(off, records[0]), records[1..])
  }

  function LogEnd(off: nat, records: seq<Bytes>): (r: nat)
    requires off < BLOCK
    ensures r < BLOCK
    decreases |records|
  {
    if records == [] then off else LogEnd(EndOff(off, records[0]), records[1..])
  }

  lemma {:induction false} LogAppend(t: Crc.Tables, off: nat, records: seq<Bytes>, data: Bytes)
    requires off < BLOCK
    ensures LogBytes(t, off, records + [data]) == LogBytes(t, off, records) + RecordBytes(t, LogEnd(off, records), data, true)
    ensures LogEnd(off, records + [data]) == EndOff(LogEnd(off, records), data)
    decreases |records|
  {
    hide RecordBytes, EndOff;
    if records == [] {
      assert [data][1..] == [];
    } else {
      LogAppend(t, EndOff(off, records[0]), records[1..], data);
      assert (records + [data])[1..] == records[1..] + [data];
    }
  }

  lemma RecordUnfold(t: Crc.Tables, off: nat, data: Bytes, begin: bool)
    requires off < BLOCK
    ensures var n := Take(off, data);
      (n == |data| ==>
         RecordBytes(t, off, data, begin) == Padding(off) + Chunk(t, Kind(begin, true), data[..n]) &&
         EndOff(off, data) == Next(off, n)) &&
      (n < |data| ==>
         RecordBytes(t, off, data, begin) ==
           Padding(off) + Chunk(t, Kind(begin, false), data[..n]) + RecordBytes(t, Next(off, n), data[n..], false) &&
         EndOff(off, data) == EndOff(Next(off, n), data[n..]))
  {
    hide Chunk, Padding;
  }

  // ----- The writer -----

  class Writer {
    const tables: Crc.Tables
    var dest: Bytes
    var blockOffset: nat
    ghost var records: seq<Bytes>

    /** MAIN: the file holds exactly the records added, in the format above. */
    ghost predicate Ok()
      reads this
    {
      dest == LogBytes(tables, 0, records) && blockOffset <= BLOCK &&
      LogEnd(0, records) == Wrap(blockOffset)
    }

    constructor (t: Crc.Tables)
      ensures Ok() && records == [] && tables == t
    {
      tables, dest, blockOffset, records := t, [], 0, [];
    }

    method EmitPhysicalRecord(kind: Byte, data: Bytes)
      requires blockOffset + HEADER + |data| <= BLOCK
      modifies `dest, `blockOffset
      ensures dest == old(dest) + Chunk(tables, kind, data) && blockOffset == old(blockOffset) + HEADER + |data|
    {
      var length := [(|data| % 256) as Byte, (|data| / 256) as Byte];
      var crc := Crc.Extended(tables, Crc.Extended(tables, 0, [kind as bv8]), Bits(data));
      var buf := Fixed32(Crc.Mask(crc)) + length + [kind];
      dest := dest + buf;
      dest := dest + data;
      blockOffset := blockOffset + HEADER + |data|;
    }

    /** The loop ends even when a fragment of no bytes has to be written at the end of a block. */
    method AddRecord(slice: Bytes)
      requires Ok()
      modifies this
      ensures Ok() && records == old(records) + [slice]
    {
      hide Crc.Extended, Chunk, RecordBytes, EndOff, LogBytes;
      ghost var off := LogEnd(0, records);
      ghost var all, end := LogBytes(tables, 0, records + [slice]), LogEnd(0, records + [slice]);
      LogAppend(tables, 0, records, slice);
      var left, begin := slice, true;
      while true
        invariant off < BLOCK && off == Wrap(blockOffset) && blockOffset <= BLOCK
        invariant dest + RecordBytes(tables, off, left, begin) == all && EndOff(off, left) == end && records == old(records)
        decreases |left|, if Room(off) == 0 then 1 else 0
      {
        ghost var before := dest;
        FillBlock(off);
        var avail := BLOCK - blockOffset - HEADER;
        var n := if |left| < avail then |left| else avail;
        var last := |left| == n;
        var kind := if begin && last then FULL else if begin then FIRST else if last then LAST else MIDDLE;
        RecordUnfold(tables, off, left, begin);
        EmitPhysicalRecord(kind, left[..n]);
        assert dest == before + (Padding(off) + Chunk(tables, kind, left[..n]));
        off, left, begin := Next(off, n), left[n..], false;
        if |left| == 0 {
          break;
        }
      }
      records := records + [slice];
    }

    /** A block without room for a header is filled up with zeros. */
    method FillBlock(ghost off: nat)
      requires blockOffset <= BLOCK && off == Wrap(blockOffset)
      modifies `dest, `blockOffset
      ensures dest == old(dest) + Padding(off) && blockOffset == Start(off)
    {
      var leftover := BLOCK - blockOffset;
      if leftover < HEADER {
        if leftover > 0 {
          dest := dest + seq(leftover, _ => 0 as Byte);
        }
        blockOffset := 0;
      }
    }
  }

  // ----- What survives a crash -----

  /** How many records lie in full within the first `length` bytes. */
  function Complete(t: Crc.Tables, off: nat, records: seq<Bytes>, length: nat): (n: nat)
    requires off < BLOCK
    ensures n <= |records|
    decreases |records|
  {
    if records == [] then 0
    else
      var size := |RecordBytes(t, off, records[0], true)|;
      if size > length then 0 else 1 + Complete(t, EndOff(off, records[0]), records[1..], length - size)
  }

  /** Complete counts the records whose encoding fits, and no more. */
  lemma {:induction false} CompleteIs(t: Crc.Tables, off: nat, records: seq<Bytes>, length: nat)
    requires off < BLOCK
    ensures var n := Complete(t, off, records, length);
      |LogBytes(t, off, records[..n])| <= length &&
      (n < |records| ==> |LogBytes(t, off, records[..n + 1])| > length)
    decreases |records|
  {
    hide RecordBytes, EndOff;
    if records != [] {
      var size := |RecordBytes(t, off, records[0], true)|;
      var n := Complete(t, off, records, length);
      if size <= length {
        CompleteIs(t, EndOff(off, records[0]), records[1..], length - size);
        assert records[..n][1..] == records[1..][..n - 1];
        if n < |records| {
          assert records[..n + 1][1..] == records[1..][..n];
        }
      } else {
        assert records[..1][1..] == [];
      }
    }
  }
}
