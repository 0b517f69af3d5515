/** Reading a log (db/log_reader.cc): what comes out of any bytes, and of the bytes the writer of Log wrote. */
module LogReader {
  import opened Entries
  import opened Checksums
  import opened Log
  import Crc

  // ----- Physical records -----

  /** The offset of a file position in its block. */
  function InBlock(p: nat): (r: nat)
    ensures r < BLOCK
  {
    p % 32768
  }

  lemma InBlockAdvances(p: nat, n: nat)
    ensures InBlock(0) == 0
    ensures InBlock(p) + n < BLOCK ==> InBlock(p + n) == InBlock(p) + n
    ensures InBlock(p) == 0 ==> InBlock(p + BLOCK) == 0
    ensures InBlock(p) + n == BLOCK ==> InBlock(p + n) == 0
  {
  }

  /** What is buffered up to a block boundary is the rest of one block. */
  lemma FillsBlock(p: nat, n: nat)
    requires n > 0 && InBlock(p + n) == 0 && InBlock(p) + n <= BLOCK
    ensures InBlock(p) + n == BLOCK
  {
  }

  /** A fragment, the end of the file, or something else: `silent` if it is skipped without a report. */
  datatype Physical = Fragment(kind: Byte, data: Bytes) | Eof | BadRecord(silent: bool)

  /** A zeroed header, as in file space allocated ahead. */
  predicate Preallocated(buffer: Bytes)
    requires |buffer| >= HEADER
  {
    buffer[4] == 0 && buffer[5] == 0 && buffer[6] == 0
  }

  /** What ReadPhysicalRecord makes of a buffer with a header in front. */
  function Parsed(t: Crc.Tables, buffer: Bytes, eof: bool): (r: Physical)
    requires |buffer| >= HEADER
    ensures r.Fragment? ==> HEADER + |r.data| <= |buffer|
  {
    var length := buffer[4] as nat + 256 * buffer[5] as nat;
    if HEADER + length > |buffer| then if eof then Eof else BadRecord(false)
    else if Preallocated(buffer) then BadRecord(true)
    else if Crc.Unmask(Fixed32Of(buffer)) != Crc.Extended(t, 0, Bits(buffer[6..HEADER + length])) then BadRecord(false)
    else Fragment(buffer[6], buffer[HEADER..HEADER + length])
  }

  /** The bytes begin with a fragment whose checksum is that of its type and data. */
  ghost predicate Sound(t: Crc.Tables, bytes: Bytes, kind: Byte, data: Bytes) {
    HEADER + |data| <= |bytes| && |data| == bytes[4] as nat + 256 * bytes[5] as nat && kind == bytes[6] &&
    data == bytes[HEADER..HEADER + |data|] && !(kind == 0 && data == []) &&
    Crc.Unmask(Fixed32Of(bytes)) == Crc.Extended(t, 0, Bits([kind] + data))
  }

  /** A buffer yields a fragment exactly if it begins with a sound one. */
  lemma ParsedIsSound(t: Crc.Tables, buffer: Bytes, eof: bool, kind: Byte, data: Bytes)
    requires |buffer| >= HEADER
    ensures Parsed(t, buffer, eof) == Fragment(kind, data) <==> Sound(t, buffer, kind, data)
    ensures Parsed(t, buffer, eof) == Eof <==> eof && HEADER + buffer[4] as nat + 256 * buffer[5] as nat > |buffer|
  {
    hide Crc.Extended, Crc.Unmask, Fixed32Of, Bits;
    var length := buffer[4] as nat + 256 * buffer[5] as nat;
    if HEADER + length <= |buffer| {
      assert buffer[6..HEADER + length] == [buffer[6]] + buffer[HEADER..HEADER + length];
    }
  }

  /** Where the next header may start: past the trailer of a block. */
  function Header(p: nat): (at: nat)
    ensures p <= at < p + HEADER && InBlock(at) == Start(InBlock(p))
  {
    InBlockAdvances(p, |Padding(InBlock(p))|);
    p + |Padding(InBlock(p))|
  }

  lemma HeaderIs(p: nat)
    ensures Header(p) == if BLOCK - InBlock(p) < HEADER then p + (BLOCK - InBlock(p)) else p
    ensures InBlock(Header(p)) + HEADER <= BLOCK
    ensures Header(p) != p ==> InBlock(Header(p)) == 0
  {
    hide InBlock;
  }

  /** What the buffer holds is the rest of its block, or of the file. */
  lemma Buffered(p: nat, n: nat, eof: bool, size: nat)
    requires n > 0 && InBlock(p) + n <= BLOCK && p + n <= size
    requires if eof then p + n == size && InBlock(p + n) != 0 else InBlock(p + n) == 0
    ensures p + n == BlockEnd(size, p) && (eof <==> size < p - InBlock(p) + BLOCK)
  {
    hide InBlock;
    InBlockAdvances(p, n);
    if !eof {
      FillsBlock(p, n);
    }
  }

  /** The end of the block, or of the file. */
  function BlockEnd(size: nat, p: nat): (end: nat)
    requires p <= size
    ensures p <= end <= size && end <= p - InBlock(p) + BLOCK
  {
    if p - InBlock(p) + BLOCK <= size then p - InBlock(p) + BLOCK else size
  }

  /** The record at a place in any file; in the last block, if it is not full, one that is cut off ends the file. */
  function PhysicalAt(t: Crc.Tables, file: Bytes, p: nat): (r: Physical)
    requires p <= |file|
    ensures r.Fragment? ==> Header(p) + HEADER + |r.data| <= |file|
    ensures r != Eof ==> Header(p) + HEADER <= |file| && Header(p) + HEADER <= BlockEnd(|file|, Header(p))
  {
    var at := Header(p);
    if at + HEADER > |file| then Eof
    else Parsed(t, file[at..BlockEnd(|file|, at)], |file| < at - InBlock(at) + BLOCK)
  }

  /** Where reading goes on: behind a fragment, and in the next block after anything else. */
  function Behind(t: Crc.Tables, file: Bytes, p: nat): (q: nat)
    requires p <= |file| && PhysicalAt(t, file, p) != Eof
    ensures p < q <= |file|
  {
    var r := PhysicalAt(t, file, p);
    if r.Fragment? then Header(p) + HEADER + |r.data| else BlockEnd(|file|, Header(p))
  }

  /** What is read where a header may start, on any file. */
  ghost predicate Tells(t: Crc.Tables, file: Bytes, at: nat, r: Physical, q: nat) {
    match r
    case Fragment(kind, data) => at <= |file| && Sound(t, file[at..], kind, data) && q == at + HEADER + |data|
    case BadRecord(silent) =>
      at + HEADER <= q <= |file| && (q == |file| || InBlock(q) == 0) && silent == Preallocated(file[at..]) &&
      forall k, d | at + HEADER + |d| <= q :: !Sound(t, file[at..], k, d)
    case Eof =>
      at + HEADER > |file| || at + HEADER + file[at + 4] as nat + 256 * file[at + 5] as nat > |file|
  }

  /** Being sound does not depend on what comes behind. */
  lemma SoundFront(t: Crc.Tables, bytes: Bytes, buf: Bytes, kind: Byte, data: Bytes)
    requires buf <= bytes && HEADER <= |buf| && HEADER + |data| <= |buf|
    ensures Sound(t, bytes, kind, data) <==> Sound(t, buf, kind, data)
  {
    hide Crc.Extended, Crc.Unmask, Bits;
    assert buf[HEADER..HEADER + |data|] == bytes[HEADER..HEADER + |data|];
    assert buf[4] == bytes[4] && buf[5] == bytes[5] && buf[6] == bytes[6];
    assert buf[..4] == bytes[..4];
    Fixed32Front(bytes[..4], bytes);
    Fixed32Front(bytes[..4], buf);
  }

  /** MAIN: on any file, a fragment is read exactly if it is there in full, within its block and with the right checksum;
      otherwise reading goes on in the next block, or the file ends inside the record. */
  lemma PhysicalTells(t: Crc.Tables, file: Bytes, p: nat)
    requires p <= |file|
    ensures var r := PhysicalAt(t, file, p); Tells(t, file, Header(p), r, if r == Eof then 0 else Behind(t, file, p))
  {
    hide Parsed, Sound, Header;
    var at, r := Header(p), PhysicalAt(t, file, p);
    if at + HEADER <= |file| {
      var end := BlockEnd(|file|, at);
      var buf, eof := file[at..end], |file| < at - InBlock(at) + BLOCK;
      assert buf <= file[at..];
      EndsBlock(|file|, at);
      ParsedIsSound(t, buf, eof, 0, []);
      ParsedSilent(t, buf, eof);
      if r.Fragment? {
        ParsedIsSound(t, buf, eof, r.kind, r.data);
        SoundFront(t, file[at..], buf, r.kind, r.data);
      }
      forall k, d | r.BadRecord? && HEADER + |d| <= |buf|
        ensures !Sound(t, file[at..], k, d)
      {
        ParsedIsSound(t, buf, eof, k, d);
        SoundFront(t, file[at..], buf, k, d);
      }
    }
  }

  lemma EndsBlock(size: nat, p: nat)
    requires p <= size
    ensures BlockEnd(size, p) == size || InBlock(BlockEnd(size, p)) == 0
  {
    var q := p / 32768;
    assert p - InBlock(p) == 32768 * q;
    assert InBlock(32768 * (q + 1)) == 0;
  }

  lemma ParsedSilent(t: Crc.Tables, buffer: Bytes, eof: bool)
    requires |buffer| >= HEADER
    ensures var r := Parsed(t, buffer, eof); r.BadRecord? ==> r.silent == Preallocated(buffer)
  {
    hide Crc.Extended, Crc.Unmask, Fixed32Of, Bits;
  }

  // ----- Logical records -----

  /** What the switch of ReadRecord makes of it: kEof and kBadRecord are 5 and 6, so a fragment with such a type byte is
      taken for one of them. */
  function Taken(r: Physical): Physical {
    if r.Fragment? && r.kind == 5 then Eof else if r.Fragment? && r.kind == 6 then BadRecord(true) else r
  }

  /** The physical records from a place on, up to the end. */
  function Physicals(t: Crc.Tables, file: Bytes, p: nat): seq<Physical>
    requires p <= |file|
    decreases |file| - p
  {
    var r := PhysicalAt(t, file, p);
    if Taken(r) == Eof then [] else [Taken(r)] + Physicals(t, file, Behind(t, file, p))
  }

  /** The logical record being put together. */
  datatype Assembly = Assembling(inFragment: bool, scratch: Bytes) | Done(record: Bytes)

  /** The switch of ReadRecord. */
  function Assembled(s: Assembly, physical: Physical): Assembly
    requires s.Assembling?
  {
    match physical
    case Eof => s
    case BadRecord(_) => Assembling(false, [])
    case Fragment(kind, data) =>
      if kind == FULL then Done(data)
      else if kind == FIRST then Assembling(true, data)
      else if kind == MIDDLE then if s.inFragment then s.(scratch := s.scratch + data) else s
      else if kind == LAST then if s.inFragment then Done(s.scratch + data) else s
      else Assembling(false, [])
  }

  /** The corruptions the switch reports. */
  function Complaints(s: Assembly, physical: Physical): nat
    requires s.Assembling?
  {
    match physical
    case Eof => 0
    case BadRecord(_) => if s.inFragment then 1 else 0
    case Fragment(kind, data) =>
      if kind == FULL || kind == FIRST then if s.inFragment && s.scratch != [] then 1 else 0
      else if kind == MIDDLE || kind == LAST then if s.inFragment then 0 else 1
      else 1
  }

  /** One more where ReadPhysicalRecord reports. */
  function Own(physical: Physical): nat {
    if physical.BadRecord? && !physical.silent then 1 else 0
  }

  /** What is read: the logical records, and how many corruptions are reported. */
  datatype Reading = Reading(records: seq<Bytes>, drops: nat)

  const NOTHING: Assembly := Assembling(false, [])

  function Logical(s: Assembly, ps: seq<Physical>): Reading
    requires s.Assembling?
    decreases |ps|
  {
    if ps == [] then Reading([], 0)
    else
      var s', drops := Assembled(s, ps[0]), Own(ps[0]) + Complaints(s, ps[0]);
      var rest := Logical(if s'.Done? then NOTHING else s', ps[1..]);
      Reading((if s'.Done? then [s'.record] else []) + rest.records, drops + rest.drops)
  }

  lemma Unfolds(t: Crc.Tables, file: Bytes, p: nat, s: Assembly)
    requires p <= |file| && s.Assembling?
    ensures var r := Taken(PhysicalAt(t, file, p));
      var now := Logical(s, Physicals(t, file, p));
      if r == Eof then now == Reading([], 0)
      else
        var s' := Assembled(s, r);
        var rest := Logical(if s'.Done? then NOTHING else s', Physicals(t, file, Behind(t, file, p)));
        now == Reading((if s'.Done? then [s'.record] else []) + rest.records, Own(r) + Complaints(s, r) + rest.drops)
  {
    hide PhysicalAt, Behind, Assembled, Complaints, Own;
  }

  /** Being taken for something else changes nothing about the reports. */
  lemma OwnOfTaken(r: Physical)
    ensures Own(Taken(r)) == Own(r)
  {
  }

  /** What ReadPhysicalRecord returns: the type byte, kEof or kBadRecord. */
  function RecordType(r: Physical): nat {
    match r
    case Fragment(kind, _) => kind as nat
    case Eof => 5
    case BadRecord(_) => 6
  }

  // ----- The reader -----

  class Reader {
    const tables: Crc.Tables
    const file: Bytes
    var readTo: nat
    var buffer: Bytes
    var eof: bool
    var drops: nat

    /** The position of the next byte to parse; what is buffered ends at a block boundary or the end of the file. */
    ghost function Position(): nat
      requires |buffer| <= readTo
      reads this
    {
      readTo - |buffer|
    }

    ghost predicate Ok()
      reads this
    {
      |buffer| <= readTo <= |file| && buffer == file[Position()..readTo] &&
      (eof ==> readTo == |file|) && (!eof ==> InBlock(readTo) == 0) &&
      (buffer != [] ==> InBlock(Position()) + |buffer| <= BLOCK && (eof ==> InBlock(readTo) != 0))
    }

    constructor (t: Crc.Tables, bytes: Bytes)
      ensures Ok() && tables == t && file == bytes && Position() == 0 && drops == 0
    {
      hide InBlock;
      tables, file, readTo, buffer, eof, drops := t, bytes, 0, [], false, 0;
      InBlockAdvances(0, 0);
    }

    /** The first half of ReadPhysicalRecord: a header's worth of bytes, past the trailer of a block. */
    method FillBuffer() returns (more: bool)
      requires Ok()
      modifies this
      ensures Ok() && drops == old(drops) && more == (|buffer| >= HEADER)
      ensures var at := Header(old(Position()));
        if more then Position() == at && readTo == BlockEnd(|file|, at) && (eof <==> |file| < at - InBlock(at) + BLOCK)
        else at + HEADER > |file|
    {
      hide InBlock, Header;
      ghost var p := Position();
      while |buffer| < HEADER
        invariant Ok() && drops == old(drops)
        invariant Position() == p || (Position() == Header(p) && InBlock(Position()) == 0)
        decreases !eof, |file| - readTo
      {
        HeaderIs(p);
        if eof {
          buffer := [];
          return false;
        }
        if buffer != [] {
          FillsBlock(Position(), |buffer|);
        }
        var n := if |file| - readTo < BLOCK then |file| - readTo else BLOCK;
        InBlockAdvances(readTo, n);
        buffer := file[readTo..readTo + n];
        readTo := readTo + n;
        eof := n < BLOCK;
      }
      HeaderIs(p);
      Buffered(Position(), |buffer|, eof, |file|);
      more := true;
    }

    /** The second half: the fragment at the front of the buffer, if it is whole and sound; otherwise the rest of the buffer
        is dropped. */
    method ParseFragment() returns (r: Physical)
      requires Ok() && |buffer| >= HEADER
      modifies `buffer, `drops
      ensures Ok() && r == Parsed(tables, old(buffer), eof)
      ensures Position() == if r.Fragment? then old(Position()) + HEADER + |r.data| else readTo
      ensures drops == old(drops) + Own(r)
    {
      hide InBlock, Crc.Extended, Crc.Unmask, Fixed32Of, Bits;
      var length := buffer[4] as nat + 256 * buffer[5] as nat;
      if HEADER + length > |buffer| {
        buffer := [];
        if !eof {
          drops := drops + 1;
          return BadRecord(false);
        }
        return Eof;
      }
      if buffer[6] == 0 && length == 0 {
        buffer := [];
        return BadRecord(true);
      }
      var expected := Crc.Unmask(Fixed32Of(buffer));
      var actual := Crc.Extended(tables, 0, Bits(buffer[6..HEADER + length]));
      if actual != expected {
        buffer := [];
        drops := drops + 1;
        return BadRecord(false);
      }
      InBlockAdvances(Position(), HEADER + length);
      r := Fragment(buffer[6], buffer[HEADER..HEADER + length]);
      buffer := buffer[HEADER + length..];
    }

    method ReadPhysicalRecord() returns (r: Physical)
      requires Ok()
      modifies this
      ensures Ok() && r == PhysicalAt(tables, file, old(Position())) && drops == old(drops) + Own(r)
      ensures r != Eof ==> Position() == Behind(tables, file, old(Position()))
    {
      hide Parsed, InBlock, Header;
      var more := FillBuffer();
      if !more {
        return Eof;
      }
      r := ParseFragment();
    }

    /** Any file: the next logical record and the reports before it, or none and all that are left. */
    method ReadRecord() returns (r: Option<Bytes>)
      requires Ok()
      modifies this
      ensures Ok() && drops >= old(drops) && (r.Some? ==> Position() > old(Position()))
      ensures var all := Logical(NOTHING, Physicals(tables, file, old(Position())));
        match r
        case None => all == Reading([], drops - old(drops))
        case Some(record) =>
          var rest := Logical(NOTHING, Physicals(tables, file, Position()));
          all.records == [record] + rest.records && all.drops == drops - old(drops) + rest.drops
    {
      hide InBlock, PhysicalAt, Behind, Physicals, Logical;
      var inFragment, scratch: Bytes := false, [];
      while true
        invariant Ok() && drops >= old(drops) && Position() >= old(Position()) && (!inFragment ==> scratch == [])
        invariant var all, now := Logical(NOTHING, Physicals(tables, file, old(Position()))),
            Logical(Assembling(inFragment, scratch), Physicals(tables, file, Position()));
          all.records == now.records && all.drops == drops - old(drops) + now.drops
        decreases |file| - Position()
      {
        ghost var p, s := Position(), Assembling(inFragment, scratch);
        var fragment := ReadPhysicalRecord();
        Unfolds(tables, file, p, s);
        var data := if fragment.Fragment? then fragment.data else [];
        match RecordType(fragment)
        case 1 =>
          if inFragment && scratch != [] {
            drops := drops + 1;
          }
          return Some(data);
        case 2 =>
          if inFragment && scratch != [] {
            drops := drops + 1;
          }
          inFragment, scratch := true, data;
        case 3 =>
          if inFragment {
            scratch := scratch + data;
          } else {
            drops := drops + 1;
          }
        case 4 =>
          if inFragment {
            return Some(scratch + data);
          }
          drops := drops + 1;
        case 5 =>
          return None;
        case 6 =>
          if inFragment {
            drops := drops + 1;
            inFragment, scratch := false, [];
          }
        case _ =>
          drops := drops + 1;
          inFragment, scratch := false, [];
      }
    }
  }

  /** What recovery does with a log: read records until there are none; from any bytes. */
  method ReadLog(t: Crc.Tables, file: Bytes) returns (records: seq<Bytes>, drops: nat)
    ensures Reading(records, drops) == Logical(NOTHING, Physicals(t, file, 0))
  {
    hide Physicals, Logical;
    records := [];
    var reader := new Reader(t, file);
    while true
      invariant reader.Ok() && reader.file == file && reader.tables == t && fresh(reader)
      invariant var all, now := Logical(NOTHING, Physicals(t, file, 0)), Logical(NOTHING, Physicals(t, file, reader.Position()));
        all.records == records + now.records && all.drops == reader.drops + now.drops
      decreases |file| - reader.Position()
    {
      var record := reader.ReadRecord();
      if record.None? {
        break;
      }
      records := records + [record.value];
    }
    drops := reader.drops;
  }

  // ----- Fragments laid out by the writer -----

  /** A fragment, as the writer emits it. */
  datatype Piece = Piece(kind: Byte, data: Bytes)

  function Pieces(off: nat, data: Bytes, begin: bool): (r: seq<Piece>)
    requires off < BLOCK
    ensures r != []
    decreases |data|, if Room(off) == 0 then 1 else 0
  {
    var n := Take(off, data);
    [Piece(Kind(begin, n == |data|), data[..n])] + if n == |data| then [] else Pieces(Next(off, n), data[n..], false)
  }

  function AllPieces(off: nat, records: seq<Bytes>): seq<Piece>
    requires off < BLOCK
    decreases |records|
  {
    if records == [] then [] else Pieces(off, records[0], true) + AllPieces(EndOff(off, records[0]), records[1..])
  }

  /** The pieces fit in their blocks. */
  predicate Fit(off: nat, ps: seq<Piece>)
    requires off < BLOCK
    decreases |ps|
  {
    ps == [] ||
    (1 <= ps[0].kind <= 4 && Start(off) + HEADER + |ps[0].data| <= BLOCK && Fit(Next(off, |ps[0].data|), ps[1..]))
  }

  function Lay(t: Crc.Tables, off: nat, ps: seq<Piece>): Bytes
    requires off < BLOCK && Fit(off, ps)
    decreases |ps|
  {
    if ps == [] then []
    else Padding(off) + Chunk(t, ps[0].kind, ps[0].data) + Lay(t, Next(off, |ps[0].data|), ps[1..])
  }

  function OffAfter(off: nat, ps: seq<Piece>): (r: nat)
    requires off < BLOCK && Fit(off, ps)
    ensures r < BLOCK
    decreases |ps|
  {
    if ps == [] then off else OffAfter(Next(off, |ps[0].data|), ps[1..])
  }

  lemma {:induction false} LayConcat(t: Crc.Tables, off: nat, a: seq<Piece>, b: seq<Piece>)
    requires off < BLOCK && Fit(off, a) && Fit(OffAfter(off, a), b)
    ensures Fit(off, a + b) && Lay(t, off, a + b) == Lay(t, off, a) + Lay(t, OffAfter(off, a), b)
    ensures OffAfter(off, a + b) == OffAfter(OffAfter(off, a), b)
    decreases |a|
  {
    hide Chunk, Padding, Next;
    if a == [] {
      assert a + b == b;
    } else {
      LayConcat(t, Next(off, |a[0].data|), a[1..], b);
      assert (a + b)[1..] == a[1..] + b && (a + b)[0] == a[0];
    }
  }

  lemma {:induction false} RecordIsLaid(t: Crc.Tables, off: nat, data: Bytes, begin: bool)
    requires off < BLOCK
    ensures Fit(off, Pieces(off, data, begin)) && OffAfter(off, Pieces(off, data, begin)) == EndOff(off, data)
    ensures Lay(t, off, Pieces(off, data, begin)) == RecordBytes(t, off, data, begin)
    decreases |data|, if Room(off) == 0 then 1 else 0
  {
    hide Chunk, Padding;
    var n := Take(off, data);
    var ps := Pieces(off, data, begin);
    if n < |data| {
      RecordIsLaid(t, Next(off, n), data[n..], false);
      assert ps[1..] == Pieces(Next(off, n), data[n..], false);
    } else {
      assert ps[1..] == [];
    }
  }

  lemma {:induction false} LogIsLaid(t: Crc.Tables, off: nat, records: seq<Bytes>)
    requires off < BLOCK
    ensures Fit(off, AllPieces(off, records)) && Lay(t, off, AllPieces(off, records)) == LogBytes(t, off, records)
    ensures OffAfter(off, AllPieces(off, records)) == LogEnd(off, records)
    decreases |records|
  {
    hide Pieces, RecordBytes, EndOff, Lay, OffAfter;
    if records == [] {
      NothingLaid(t, off);
    } else {
      var ps, next := Pieces(off, records[0], true), EndOff(off, records[0]);
      RecordIsLaid(t, off, records[0], true);
      LogIsLaid(t, next, records[1..]);
      LayConcat(t, off, ps, AllPieces(next, records[1..]));
    }
  }

  lemma NothingLaid(t: Crc.Tables, off: nat)
    requires off < BLOCK
    ensures Fit(off, []) && Lay(t, off, []) == [] && OffAfter(off, []) == off
  {
  }

  // ----- Reading them -----

  /** The bytes from a place on begin with a piece, perhaps cut off at the end of the file. */
  ghost predicate PieceAt(t: Crc.Tables, file: Bytes, p: nat, piece: Piece) {
    p <= |file| && 1 <= piece.kind <= 4 && InBlock(Header(p)) + HEADER + |piece.data| <= BLOCK &&
    var whole := Padding(InBlock(p)) + Chunk(t, piece.kind, piece.data);
    if |whole| <= |file| - p then file[p..p + |whole|] == whole else file[p..] <= whole
  }

  lemma ChunkAt(t: Crc.Tables, file: Bytes, p: nat, piece: Piece)
    requires PieceAt(t, file, p, piece) && Header(p) + HEADER <= |file|
    ensures var at, c := Header(p), Chunk(t, piece.kind, piece.data);
      if at + |c| <= |file| then file[at..at + |c|] == c else file[at..] <= c
  {
    hide Chunk, InBlock;
    var at, pad, c := Header(p), Padding(InBlock(p)), Chunk(t, piece.kind, piece.data);
    if at + |c| <= |file| {
      assert file[at..at + |c|] == file[p..p + |pad + c|][|pad|..];
    } else {
      assert file[at..] == file[p..][|pad|..];
      assert (pad + c)[|pad|..|file| - p] == c[..|file| - at];
    }
  }

  /** A whole piece is read; one that is cut off ends the file. */
  lemma PieceReads(t: Crc.Tables, file: Bytes, p: nat, piece: Piece)
    requires PieceAt(t, file, p, piece)
    ensures var end := Header(p) + HEADER + |piece.data|;
      if end <= |file| then PhysicalAt(t, file, p) == Fragment(piece.kind, piece.data) && Behind(t, file, p) == end
      else PhysicalAt(t, file, p) == Eof
  {
    hide Chunk, InBlock, Header, Crc.Extended, Crc.Unmask, Fixed32Of, Bits;
    var at, c := Header(p), Chunk(t, piece.kind, piece.data);
    if at + HEADER <= |file| {
      ChunkAt(t, file, p, piece);
      ChunkChecks(t, piece.kind, piece.data);
      var end := BlockEnd(|file|, at);
      var buf := file[at..end];
      assert forall i | 0 <= i < HEADER :: buf[i] == file[at..][i] == c[i];
      if at + |c| <= |file| {
        assert |c| <= |buf| && buf[..|c|] == c;
        assert buf[6..HEADER + |piece.data|] == c[6..] && buf[HEADER..HEADER + |piece.data|] == c[HEADER..];
        Fixed32Same(c, buf);
      }
    }
  }

  lemma Fixed32Same(a: Bytes, b: Bytes)
    requires |a| >= 4 && |b| >= 4 && a[..4] == b[..4]
    ensures Fixed32Of(a) == Fixed32Of(b)
  {
    Fixed32Front(a[..4], a);
    Fixed32Front(a[..4], b);
  }

  function AsRead(ps: seq<Piece>): (r: seq<Physical>)
    ensures |r| == |ps|
  {
    seq(|ps|, i requires 0 <= i < |ps| => Fragment(ps[i].kind, ps[i].data))
  }

  lemma PieceNext(t: Crc.Tables, p: nat, piece: Piece)
    requires InBlock(Header(p)) + HEADER + |piece.data| <= BLOCK
    ensures var end := Header(p) + HEADER + |piece.data|;
      InBlock(end) == Next(InBlock(p), |piece.data|) && end == p + |Padding(InBlock(p)) + Chunk(t, piece.kind, piece.data)|
  {
    hide Chunk, InBlock;
    InBlockAdvances(Header(p), HEADER + |piece.data|);
  }

  /** The first piece, its bytes, and the others behind it. */
  lemma FirstPiece(t: Crc.Tables, p: nat, ps: seq<Piece>)
    requires Fit(InBlock(p), ps) && ps != []
    ensures InBlock(Header(p)) + HEADER + |ps[0].data| <= BLOCK && 1 <= ps[0].kind <= 4
    ensures var front := Padding(InBlock(p)) + Chunk(t, ps[0].kind, ps[0].data);
      var q := p + |front|;
      q == Header(p) + HEADER + |ps[0].data| && Fit(InBlock(q), ps[1..]) &&
      Lay(t, InBlock(p), ps) == front + Lay(t, InBlock(q), ps[1..]) &&
      OffAfter(InBlock(p), ps) == OffAfter(InBlock(q), ps[1..])
  {
    hide Chunk, InBlock, Padding;
    HeaderFits(InBlock(p), p, ps);
    PieceNext(t, p, ps[0]);
  }

  /** A piece that is there in full, and what is read behind it. */
  lemma PieceRead(t: Crc.Tables, file: Bytes, p: nat, piece: Piece)
    requires PieceAt(t, file, p, piece) && Header(p) + HEADER + |piece.data| <= |file|
    ensures Physicals(t, file, p) ==
      [Fragment(piece.kind, piece.data)] + Physicals(t, file, Header(p) + HEADER + |piece.data|)
  {
    hide Header, PieceAt, PhysicalAt, Behind;
    KindOf(t, file, p, piece);
    PieceReads(t, file, p, piece);
  }

  lemma KindOf(t: Crc.Tables, file: Bytes, p: nat, piece: Piece)
    requires PieceAt(t, file, p, piece)
    ensures p <= |file| && 1 <= piece.kind <= 4
  {
  }

  lemma AsReadFirst(ps: seq<Piece>, k: nat)
    requires 0 < k <= |ps|
    ensures AsRead(ps[..k]) == [Fragment(ps[0].kind, ps[0].data)] + AsRead(ps[1..][..k - 1])
  {
  }

  /** Pieces that are there in full are read, whatever comes behind. */
  lemma {:induction false} WholeReads(t: Crc.Tables, file: Bytes, p: nat, ps: seq<Piece>)
    requires p <= |file| && Fit(InBlock(p), ps)
    requires var all := Lay(t, InBlock(p), ps); p + |all| <= |file| && file[p..p + |all|] == all
    ensures var q := p + |Lay(t, InBlock(p), ps)|;
      Physicals(t, file, p) == AsRead(ps) + Physicals(t, file, q) && InBlock(q) == OffAfter(InBlock(p), ps)
    decreases |ps|
  {
    hide Chunk, InBlock, Header, Physicals, Padding, Lay, Fit, OffAfter, AsRead;
    if ps == [] {
      NothingLaid(t, InBlock(p));
      NothingRead(Physicals(t, file, p));
    } else {
      FirstPiece(t, p, ps);
      var all := Lay(t, InBlock(p), ps);
      var front := Padding(InBlock(p)) + Chunk(t, ps[0].kind, ps[0].data);
      var q := p + |front|;
      assert file[p..q] == file[p..p + |all|][..|front|] == front;
      PieceRead(t, file, p, ps[0]);
      assert file[q..p + |all|] == file[p..p + |all|][|front|..];
      WholeReads(t, file, q, ps[1..]);
      AsReadFirst(ps, |ps|);
      assert ps[..|ps|] == ps && ps[1..][..|ps| - 1] == ps[1..];
    }
  }

  lemma NothingRead(rest: seq<Physical>)
    ensures AsRead([]) + rest == rest
  {
  }

  lemma HeaderFits(off: nat, p: nat, ps: seq<Piece>)
    requires off == InBlock(p) && Fit(off, ps) && ps != []
    ensures InBlock(Header(p)) + HEADER + |ps[0].data| <= BLOCK
  {
    hide InBlock;
  }

  /** Of pieces that are cut off, those that are there in full are read. */
  lemma {:induction false} CutReads(t: Crc.Tables, file: Bytes, p: nat, ps: seq<Piece>) returns (k: nat)
    requires p <= |file| && Fit(InBlock(p), ps)
    requires var all := Lay(t, InBlock(p), ps); |file| - p < |all| && file[p..] <= all
    ensures k < |ps| && Physicals(t, file, p) == AsRead(ps[..k])
    decreases |ps|
  {
    hide Chunk, InBlock, Header, Physicals, Padding, Lay, Fit, AsRead;
    NothingLaid(t, InBlock(p));
    FirstPiece(t, p, ps);
    var all := Lay(t, InBlock(p), ps);
    var front := Padding(InBlock(p)) + Chunk(t, ps[0].kind, ps[0].data);
    var q := p + |front|;
    if |front| <= |file| - p {
      assert file[p..q] == file[p..][..|front|] == front;
      PieceRead(t, file, p, ps[0]);
      assert file[q..] == file[p..][|front|..];
      k := CutReads(t, file, q, ps[1..]);
      AsReadFirst(ps, k + 1);
      k := k + 1;
    } else {
      assert file[p..] <= front;
      PieceReads(t, file, p, ps[0]);
      k := 0;
      EndRead(t, file, p, ps);
    }
  }

  lemma EndRead(t: Crc.Tables, file: Bytes, p: nat, ps: seq<Piece>)
    requires p <= |file| && PhysicalAt(t, file, p) == Eof
    ensures Physicals(t, file, p) == AsRead(ps[..0])
  {
    hide PhysicalAt;
  }

  // ----- Putting records together again -----

  lemma PiecesUnfold(off: nat, data: Bytes, begin: bool)
    requires off < BLOCK
    ensures var n := Take(off, data);
      AsRead(Pieces(off, data, begin)) ==
        [Fragment(Kind(begin, n == |data|), data[..n])] +
        if n == |data| then [] else AsRead(Pieces(Next(off, n), data[n..], false))
  {
    hide Take, Next, Kind, AsRead;
    var n := Take(off, data);
    NothingAsRead();
    AsReadCons(Piece(Kind(begin, n == |data|), data[..n]), if n == |data| then [] else Pieces(Next(off, n), data[n..], false));
  }

  lemma AsReadCons(p: Piece, ps: seq<Piece>)
    ensures AsRead([p] + ps) == [Fragment(p.kind, p.data)] + AsRead(ps)
  {
  }

  lemma NothingAsRead()
    ensures AsRead([]) == []
  {
  }

  lemma LogicalStep(s: Assembly, r: Physical, rest: seq<Physical>)
    requires s.Assembling?
    ensures var s' := Assembled(s, r);
      var more := Logical(if s'.Done? then NOTHING else s', rest);
      Logical(s, [r] + rest) == Reading((if s'.Done? then [s'.record] else []) + more.records,
                                        Own(r) + Complaints(s, r) + more.drops)
  {
    hide Assembled, Complaints, Own;
    assert ([r] + rest)[1..] == rest;
  }

  /** The fragments of a record give the record, whatever state reading is in when it begins. */
  lemma {:induction false} RecordLogical(s: Assembly, off: nat, data: Bytes, begin: bool, rest: seq<Physical>)
    requires off < BLOCK && s.Assembling? && (!begin ==> s.inFragment)
    ensures var r, more := Logical(s, AsRead(Pieces(off, data, begin)) + rest), Logical(NOTHING, rest);
      r.records == [if begin then data else s.scratch + data] + more.records &&
      r.drops == more.drops + if begin && s.inFragment && s.scratch != [] then 1 else 0
    decreases |data|, if Room(off) == 0 then 1 else 0
  {
    hide Logical, AsRead, Pieces;
    var n := Take(off, data);
    var front := Fragment(Kind(begin, n == |data|), data[..n]);
    PiecesUnfold(off, data, begin);
    if n == |data| {
      assert data[..n] == data;
      assert [front] + [] + rest == [front] + rest;
      LogicalStep(s, front, rest);
    } else {
      var more := AsRead(Pieces(Next(off, n), data[n..], false));
      assert [front] + more + rest == [front] + (more + rest);
      LogicalStep(s, front, more + rest);
      RecordLogical(Assembled(s, front), Next(off, n), data[n..], false, rest);
      assert data[..n] + data[n..] == data;
      assert !begin ==> s.scratch + data[..n] + data[n..] == s.scratch + data;
    }
  }

  /** Without the last one, they give nothing and no report. */
  lemma {:induction false} CutLogical(s: Assembly, off: nat, data: Bytes, begin: bool, k: nat)
    requires off < BLOCK && s.Assembling? && k < |Pieces(off, data, begin)|
    requires if begin then s == NOTHING else s.inFragment
    ensures Logical(s, AsRead(Pieces(off, data, begin)[..k])) == Reading([], 0)
    decreases |data|, if Room(off) == 0 then 1 else 0
  {
    hide Logical, AsRead, Pieces;
    if k == 0 {
      NoPieces(s, off, data, begin);
    } else {
      var n := Take(off, data);
      var front := Fragment(Kind(begin, false), data[..n]);
      CutPieces(off, data, begin, k);
      LogicalStep(s, front, AsRead(Pieces(Next(off, n), data[n..], false)[..k - 1]));
      CutLogical(Assembled(s, front), Next(off, n), data[n..], false, k - 1);
    }
  }

  lemma NoPieces(s: Assembly, off: nat, data: Bytes, begin: bool)
    requires off < BLOCK && s.Assembling?
    ensures Logical(s, AsRead(Pieces(off, data, begin)[..0])) == Reading([], 0)
  {
  }

  lemma CutPieces(off: nat, data: Bytes, begin: bool, k: nat)
    requires off < BLOCK && 0 < k < |Pieces(off, data, begin)|
    ensures var n := Take(off, data);
      n < |data| && k - 1 < |Pieces(Next(off, n), data[n..], false)| &&
      AsRead(Pieces(off, data, begin)[..k]) ==
        [Fragment(Kind(begin, false), data[..n])] + AsRead(Pieces(Next(off, n), data[n..], false)[..k - 1])
  {
    hide Take, Next, Kind, AsRead;
    var ps := Pieces(off, data, begin);
    AsReadFirst(ps, k);
    assert Take(off, data) < |data| ==> ps[1..] == Pieces(Next(off, Take(off, data)), data[Take(off, data)..], false);
  }

  /** MAIN: from a place on, a file holds a log, perhaps cut off: what is read are exactly the records that are there in
      full, and nothing is reported. */
  lemma {:induction false} LogReads(t: Crc.Tables, file: Bytes, p: nat, records: seq<Bytes>)
    requires p <= |file| && file[p..] <= LogBytes(t, InBlock(p), records)
    ensures Logical(NOTHING, Physicals(t, file, p)) ==
      Reading(records[..Complete(t, InBlock(p), records, |file| - p)], 0)
    decreases |records|
  {
    hide RecordBytes, EndOff, Pieces, Lay, Fit, OffAfter, Logical, InBlock, Physicals, AsRead;
    if records == [] {
      AtEnd(t, file, p);
    } else {
      var off, size := InBlock(p), |RecordBytes(t, InBlock(p), records[0], true)|;
      var ps := Pieces(off, records[0], true);
      RecordIsLaid(t, off, records[0], true);
      var all := Lay(t, off, ps);
      var tail := LogBytes(t, EndOff(off, records[0]), records[1..]);
      assert LogBytes(t, off, records) == all + tail;
      if size <= |file| - p {
        assert file[p..p + size] == file[p..][..size] == all;
        WholeReads(t, file, p, ps);
        RecordLogical(NOTHING, off, records[0], true, Physicals(t, file, p + size));
        assert file[p + size..] == file[p..][size..];
        LogReads(t, file, p + size, records[1..]);
        FirstOf(records, Complete(t, off, records, |file| - p));
      } else {
        assert file[p..] <= all;
        var k := CutReads(t, file, p, ps);
        CutLogical(NOTHING, off, records[0], true, k);
      }
    }
  }

  lemma FirstOf(records: seq<Bytes>, n: nat)
    requires 0 < n <= |records|
    ensures records[..n] == [records[0]] + records[1..][..n - 1]
  {
  }

  lemma AtEnd(t: Crc.Tables, file: Bytes, p: nat)
    requires p <= |file| && file[p..] == []
    ensures Logical(NOTHING, Physicals(t, file, p)) == Reading([], 0)
  {
    assert |file[p..]| == |file| - p;
  }

  /** MAIN: write any records, cut the file anywhere; reading gives back the records that were written in full
      before the cut, in order, and reports nothing. */
  method WriteCrashRead(t: Crc.Tables, written: seq<Bytes>, cut: nat) returns (records: seq<Bytes>, drops: nat)
    ensures drops == 0 && records == written[..Complete(t, 0, written, cut)]
  {
    hide LogBytes, Complete, Physicals, Logical;
    var writer := new Writer(t);
    for i := 0 to |written|
      invariant writer.Ok() && writer.tables == t && fresh(writer) && writer.records == written[..i]
    {
      writer.AddRecord(written[i]);
      assert written[..i] + [written[i]] == written[..i + 1];
    }
    assert written[..|written|] == written;
    var file := if cut < |writer.dest| then writer.dest[..cut] else writer.dest;
    records, drops := ReadLog(t, file);
    assert file[0..] == file;
    InBlockAdvances(0, 0);
    LogReads(t, file, 0, written);
    WholeFile(t, 0, written, cut);
  }

  /** Cutting behind the end cuts nothing. */
  lemma {:induction false} WholeFile(t: Crc.Tables, off: nat, records: seq<Bytes>, cut: nat)
    requires off < BLOCK
    ensures cut >= |LogBytes(t, off, records)| ==>
      Complete(t, off, records, cut) == |records| == Complete(t, off, records, |LogBytes(t, off, records)|)
    decreases |records|
  {
    hide RecordBytes, EndOff;
    if records != [] && cut >= |LogBytes(t, off, records)| {
      var size := |RecordBytes(t, off, records[0], true)|;
      WholeFile(t, EndOff(off, records[0]), records[1..], cut - size);
    }
  }
}
