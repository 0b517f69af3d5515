/** The parts of a table file (table/format.cc): block handles, the footer, and checksummed blocks. */
module TableFormat {
  import opened Entries
  import opened Encodings
  import opened Coding
  import opened Checksums
  import Crc

  const FOOTER: nat := 48
  const MAGIC_LOW: nat := 0x8b80fb57
  const MAGIC_HIGH: nat := 0xdb477524
  const TRAILER: nat := 5

  // ----- Handles -----

  datatype Handle = Handle(offset: nat, size: nat)

  predicate Fits64(h: Handle) {
    h.offset < MAX64 && h.size < MAX64
  }

  function HandleBytes(h: Handle): Bytes {
    Varint(h.offset) + Varint(h.size)
  }

  method EncodeHandle(h: Handle, dst: Bytes) returns (r: Bytes)
    ensures r == dst + HandleBytes(h)
  {
    hide Varint;
    r := PutVarint(dst, h.offset);
    assert dst + Varint(h.offset) + Varint(h.size) == dst + (Varint(h.offset) + Varint(h.size));
    r := PutVarint(r, h.size);
  }

  /** The handle at p and the place behind it, or None ("bad block handle"). */
  function ReadHandle(data: Bytes, p: nat): (r: Option<(Handle, nat)>)
    requires p <= |data|
    ensures r.Some? ==> p < r.value.1 <= |data| && Fits64(r.value.0)
  {
    var offset := ReadVarint(data, p, |data|, MAX64);
    if offset.None? then None
    else
      var size := ReadVarint(data, offset.value.1, |data|, MAX64);
      if size.None? then None else Some((Handle(offset.value.0, size.value.0), size.value.1))
  }

  /** Reading back. */
  lemma HandleReads(data: Bytes, p: nat, h: Handle)
    requires p <= |data| && Fits64(h) && Starts(data, p, |data|, HandleBytes(h))
    ensures ReadHandle(data, p) == Some((h, p + |HandleBytes(h)|))
  {
    hide Varint, ReadVarint;
    StartsMoves(data, p, |data|, Varint(h.offset), Varint(h.size));
    StartsOnly(data, p, Varint(h.offset), Varint(h.size));
    VarintReads(data, p, |data|, MAX64, h.offset);
    VarintReads(data, p + |Varint(h.offset)|, |data|, MAX64, h.size);
  }

  method DecodeHandle(data: Bytes, p: nat, ghost h0: Handle) returns (ok: bool, h: Handle, q: nat)
    requires p <= |data|
    ensures ok ==> p < q <= |data|
    ensures (if ok then Some((h, q)) else None) == ReadHandle(data, p)
    ensures Fits64(h0) && Starts(data, p, |data|, HandleBytes(h0)) ==> ok && h == h0 && q == p + |HandleBytes(h0)|
  {
    hide Varint, ReadVarint, Starts, HandleBytes;
    var offset, size;
    if Fits64(h0) && Starts(data, p, |data|, HandleBytes(h0)) {
      HandleReads(data, p, h0);
    }
    ok, offset, q := GetVarint(data, p, |data|, MAX64);
    if !ok {
      return false, Handle(0, 0), p;
    }
    ok, size, q := GetVarint(data, q, |data|, MAX64);
    h := Handle(offset, size);
  }

  lemma StartsOnly(data: Bytes, p: nat, a: Bytes, b: Bytes)
    requires Starts(data, p, |data|, a + b)
    ensures Starts(data, p, |data|, a)
  {
    assert a <= a + b;
  }

  lemma HandleLength(h: Handle)
    requires Fits64(h)
    ensures |HandleBytes(h)| <= 20
  {
    hide Varint;
    Varint64Length(h.offset);
    Varint64Length(h.size);
  }

  // ----- The footer -----

  /** std::string::resize. */
  function Resized(b: Bytes, n: nat): (r: Bytes)
    ensures |r| == n
  {
    if |b| >= n then b[..n] else b + seq(n - |b|, _ => 0 as Byte)
  }

  function FooterBytes(meta: Handle, index: Handle): (r: Bytes)
    ensures |r| == FOOTER
  {
    Resized(HandleBytes(meta) + HandleBytes(index), FOOTER - 8) + Little(MAGIC_LOW, 4) + Little(MAGIC_HIGH, 4)
  }

  method EncodeFooter(meta: Handle, index: Handle) returns (r: Bytes)
    ensures r == FooterBytes(meta, index)
  {
    hide HandleBytes, Little;
    r := EncodeHandle(meta, []);
    r := EncodeHandle(index, r);
    r := Resized(r, FOOTER - 8) + Little(MAGIC_LOW, 4) + Little(MAGIC_HIGH, 4);
  }

  /** The handles of a footer, or None: the last eight bytes are not the magic number ("not an sstable"), or a handle is
      bad. Padding is skipped. */
  function ReadFooter(data: Bytes): (r: Option<(Handle, Handle)>)
    requires |data| == FOOTER
    ensures r.Some? ==> data[40..] == [0x57, 0xfb, 0x80, 0x8b, 0x24, 0x75, 0x47, 0xdb]
  {
    if data[40..] != [0x57, 0xfb, 0x80, 0x8b, 0x24, 0x75, 0x47, 0xdb] then None
    else
      var meta := ReadHandle(data, 0);
      if meta.None? then None
      else
        var index := ReadHandle(data, meta.value.1);
        if index.None? then None else Some((meta.value.0, index.value.0))
  }

  /** A word has the bytes of the magic number's half exactly if it is that half. */
  lemma MagicBytes(data: Bytes)
    requires |data| == FOOTER
    ensures LittleOf(data[FOOTER - 8..FOOTER - 4]) == MAGIC_LOW && LittleOf(data[FOOTER - 4..]) == MAGIC_HIGH <==>
      data[40..] == [0x57, 0xfb, 0x80, 0x8b, 0x24, 0x75, 0x47, 0xdb]
  {
    FourBytes(data[FOOTER - 8..FOOTER - 4]);
    FourBytes(data[FOOTER - 4..]);
    assert data[40..] == data[40..44] + data[44..];
  }

  lemma FourBytes(b: Bytes)
    requires |b| == 4
    ensures LittleOf(b) == b[0] as nat + 0x100 * b[1] as nat + 0x1_0000 * b[2] as nat + 0x100_0000 * b[3] as nat
  {
    assert b[1..][1..] == b[2..] && b[2..][1..] == b[3..] && b[3..][1..] == [];
    assert LittleOf(b[3..]) == b[3] as nat;
    assert LittleOf(b[2..]) == b[2] as nat + 256 * LittleOf(b[3..]);
  }

  /** The magic number first, then the two handles. */
  method DecodeFooter(data: Bytes, ghost meta0: Handle, ghost index0: Handle)
    returns (ok: bool, meta: Handle, index: Handle)
    requires |data| == FOOTER
    ensures (if ok then Some((meta, index)) else None) == ReadFooter(data)
    ensures Fits64(meta0) && Fits64(index0) && data == FooterBytes(meta0, index0) ==>
      ok && meta == meta0 && index == index0
  {
    hide HandleBytes, Little, LittleOf, Starts, ReadHandle;
    var q;
    ok, meta, index := false, Handle(0, 0), Handle(0, 0);
    MagicBytes(data);
    if Fits64(meta0) && Fits64(index0) && data == FooterBytes(meta0, index0) {
      FooterParts(data, meta0, index0);
    }
    if LittleOf(data[FOOTER - 8..FOOTER - 4]) != MAGIC_LOW || LittleOf(data[FOOTER - 4..]) != MAGIC_HIGH {
      return;
    }
    ok, meta, q := DecodeHandle(data, 0, meta0);
    if ok {
      ok, index, q := DecodeHandle(data, q, index0);
    }
  }

  lemma FooterParts(data: Bytes, meta: Handle, index: Handle)
    requires Fits64(meta) && Fits64(index) && data == FooterBytes(meta, index)
    ensures LittleOf(data[FOOTER - 8..FOOTER - 4]) == MAGIC_LOW && LittleOf(data[FOOTER - 4..]) == MAGIC_HIGH
    ensures Starts(data, 0, |data|, HandleBytes(meta))
    ensures Starts(data, |HandleBytes(meta)|, |data|, HandleBytes(index))
  {
    hide HandleBytes, Little, LittleOf;
    HandleLength(meta);
    HandleLength(index);
    Pow256Values();
    LittleRoundTrip(MAGIC_LOW, 4);
    LittleRoundTrip(MAGIC_HIGH, 4);
    assert data[FOOTER - 8..FOOTER - 4] == Little(MAGIC_LOW, 4) && data[FOOTER - 4..] == Little(MAGIC_HIGH, 4);
    var front := HandleBytes(meta) + HandleBytes(index);
    assert data[..|front|] == front;
    assert HandleBytes(meta) <= data[0..|data|];
    assert data[|HandleBytes(meta)|..|front|] == HandleBytes(index);
    assert HandleBytes(index) <= data[|HandleBytes(meta)|..|data|];
  }

  // ----- Blocks in the file -----

  /** The type byte (kNoCompression) and the checksum of the block with it. */
  function TrailerBytes(t: Crc.Tables, contents: Bytes): (r: Bytes)
    ensures |r| == TRAILER
  {
    var crc := Crc.Extended(t, Crc.Extended(t, 0, Bits(contents)), [0 as bv8]);
    [0 as Byte] + Fixed32(Crc.Mask(crc))
  }

  /** The handle points at these contents, with their trailer. */
  ghost predicate StoredAt(t: Crc.Tables, file: Bytes, h: Handle, contents: Bytes) {
    h.size == |contents| && h.offset + h.size + TRAILER <= |file| &&
    file[h.offset..h.offset + h.size + TRAILER] == contents + TrailerBytes(t, contents)
  }

  lemma StoredStays(t: Crc.Tables, file: Bytes, more: Bytes, h: Handle, contents: Bytes)
    requires StoredAt(t, file, h, contents)
    ensures StoredAt(t, file + more, h, contents)
  {
    hide TrailerBytes;
    assert (file + more)[h.offset..h.offset + h.size + TRAILER] == file[h.offset..h.offset + h.size + TRAILER];
  }

  lemma StoredNow(t: Crc.Tables, file: Bytes, contents: Bytes)
    ensures StoredAt(t, file + (contents + TrailerBytes(t, contents)), Handle(|file|, |contents|), contents)
  {
    hide TrailerBytes;
    var more := contents + TrailerBytes(t, contents);
    assert (file + more)[|file|..|file| + |more|] == more;
  }

  predicate InFile(file: Bytes, h: Handle) {
    h.offset + h.size + TRAILER <= |file|
  }

  /** The checksum behind a block is that of its contents and its type byte. */
  predicate Sealed(t: Crc.Tables, file: Bytes, h: Handle)
    requires InFile(file, h)
  {
    var end := h.offset + h.size;
    Crc.Unmask(Fixed32Of(file[end + 1..end + TRAILER])) == Crc.Extended(t, 0, Bits(file[h.offset..end + 1]))
  }

  predicate MayRead(t: Crc.Tables, file: Bytes, h: Handle, verify: bool) {
    InFile(file, h) && file[h.offset + h.size] == 0 && (verify ==> Sealed(t, file, h))
  }

  /** ReadBlock, on any bytes: a block is handed out exactly if it and its trailer are there in full, it is stored
      uncompressed and, if asked to verify, its checksum is right. */
  method ReadBlock(t: Crc.Tables, file: Bytes, h: Handle, verify: bool, ghost contents0: Bytes)
    returns (ok: bool, contents: Bytes)
    ensures ok <==> MayRead(t, file, h, verify)
    ensures ok ==> contents == file[h.offset..h.offset + h.size]
    ensures StoredAt(t, file, h, contents0) ==> ok && contents == contents0
  {
    hide TrailerBytes, Crc.Extended, Crc.Unmask, Fixed32Of;
    var n := h.size;
    if h.offset + n + TRAILER > |file| {
      return false, [];
    }
    var data := file[h.offset..h.offset + n + TRAILER];
    assert data[..n] == file[h.offset..h.offset + n] && data[..n + 1] == file[h.offset..h.offset + n + 1];
    assert data[n + 1..] == file[h.offset + n + 1..h.offset + n + TRAILER];
    if StoredAt(t, file, h, contents0) {
      TrailerChecks(t, data, contents0);
    }
    if verify {
      var crc := Crc.Unmask(Fixed32Of(data[n + 1..]));
      var actual := Crc.Extended(t, 0, Bits(data[..n + 1]));
      if actual != crc {
        return false, [];
      }
    }
    ok, contents := data[n] == 0, data[..n];
  }

  lemma TrailerChecks(t: Crc.Tables, data: Bytes, contents: Bytes)
    requires data == contents + TrailerBytes(t, contents)
    ensures var n := |contents|;
      data[..n] == contents && data[n] == 0 &&
      Crc.Unmask(Fixed32Of(data[n + 1..])) == Crc.Extended(t, 0, Bits(data[..n + 1]))
  {
    hide Crc.Extended, Crc.Mask, Crc.Unmask, Fixed32, Fixed32Of;
    var n := |contents|;
    var crc := Crc.Extended(t, Crc.Extended(t, 0, Bits(contents)), [0 as bv8]);
    Crc.ExtendConcat(t, 0, Bits(contents), [0 as bv8]);
    assert data[..n + 1] == contents + [0 as Byte];
    ZeroBits();
    assert Bits(data[..n + 1]) == Bits(contents) + [0 as bv8];
    assert data[n + 1..] == Fixed32(Crc.Mask(crc));
    Fixed32RoundTrip(Crc.Mask(crc));
    Crc.MaskRoundTrip(crc);
  }

  lemma ZeroBits()
    ensures (0 as Byte) as bv8 == 0
  {
  }
}
