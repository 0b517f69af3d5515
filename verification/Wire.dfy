/** Streams and scalar encodings of nanopb (pb_encode.c, pb_decode.c), after the Protocol Buffers Encoding
    specification, sections "Base 128 Varints" and "Signed Integers". */
module Wire {
  import opened Entries
  import opened Encodings

  // ----- Output streams -----

  /** pb_ostream_t. With `sizing` (a null callback) bytes are counted and not stored. A substream writes on where
      its parent stands, so `written` is all that has been stored through the chain. */
  class OStream {
    const sizing: bool
    const maxSize: nat
    var written: Bytes
    var bytesWritten: nat

    ghost predicate Ok()
      reads this
    {
      sizing || bytesWritten <= maxSize
    }

    constructor (sizing: bool, maxSize: nat, state: Bytes)
      ensures Ok() && this.sizing == sizing && this.maxSize == maxSize && written == state && bytesWritten == 0
    {
      this.sizing, this.maxSize, written, bytesWritten := sizing, maxSize, state, 0;
    }

    /** Whether n more bytes can be written. */
    predicate Fits(n: nat)
      reads this
    {
      sizing || bytesWritten + n <= maxSize
    }

    /** pb_write. */
    method Write(buf: Bytes) returns (ok: bool)
      requires Ok()
      modifies this
      ensures Ok() && ok == old(Fits(|buf|))
      ensures ok ==> Advanced(old(written), old(bytesWritten), buf)
    {
      if |buf| > 0 && !sizing {
        if bytesWritten + |buf| > maxSize {
          return false;
        }
        written := written + buf;
      }
      bytesWritten := bytesWritten + |buf|;
      ok := true;
    }

    /** pb_write of n bytes without a buffer, for a stream that only counts. */
    method Skip(n: nat)
      requires Ok() && sizing
      modifies this
      ensures Ok() && written == old(written) && bytesWritten == old(bytesWritten) + n
    {
      bytesWritten := bytesWritten + n;
    }

    /** The stream went on by b since it had stored w and counted n. */
    ghost predicate Advanced(w: Bytes, n: nat, b: Bytes)
      reads this
    {
      bytesWritten == n + |b| && written == if sizing then w else w + b
    }
  }

  /** pb_encode_varint. */
  method EncodeVarint(s: OStream, value: nat) returns (ok: bool)
    requires s.Ok() && value < MAX64
    modifies s
    ensures s.Ok() && ok == old(s.Fits(|Varint(value)|))
    ensures ok ==> s.Advanced(old(s.written), old(s.bytesWritten), Varint(value))
  {
    hide Varint;
    VarintUnfolds(value);
    if value <= 0x7f {
      ok := s.Write([value as Byte]);
      return;
    }
    Varint64Length(value);
    var buffer: Bytes, v: nat := [], value;
    while v != 0
      invariant |buffer| <= 10
      invariant v > 0 ==> |buffer| + |Varint(v)| <= 10 && Varint(value) == buffer + Varint(v)
      invariant v == 0 ==> Whole(buffer, Varint(value))
      decreases v
      modifies {}
    {
      EncodeStep(buffer, v, Varint(value));
      buffer, v := buffer + [(v % 128 + 128) as Byte], v / 128;
    }
    buffer := buffer[..|buffer| - 1] + [buffer[|buffer| - 1] - 128];
    ok := s.Write(buffer);
  }

  /** All but the top bit of the last byte, which is still set, is in place. */
  ghost predicate Whole(buffer: Bytes, all: Bytes) {
    |buffer| > 0 && buffer[|buffer| - 1] >= 128 && all == buffer[..|buffer| - 1] + [buffer[|buffer| - 1] - 128]
  }

  lemma EncodeStep(buffer: Bytes, v: nat, all: Bytes)
    requires v > 0 && all == buffer + Varint(v)
    ensures var next := buffer + [(v % 128 + 128) as Byte];
      if v / 128 > 0 then all == next + Varint(v / 128) && |Varint(v)| == 1 + |Varint(v / 128)| else Whole(next, all)
  {
    var b := (v % 128 + 128) as Byte;
    assert (buffer + [b])[..|buffer|] == buffer;
    if v >= 128 {
      assert buffer + ([b] + Varint(v / 128)) == buffer + [b] + Varint(v / 128);
    }
  }

  // ----- Input streams -----

  /** pb_istream_t over a buffer. */
  class IStream {
    const data: Bytes
    var pos: nat
    var left: nat

    ghost predicate Ok()
      reads this
    {
      pos + left <= |data|
    }

    ghost function Remaining(): Bytes
      requires Ok()
      reads this
    {
      data[pos..pos + left]
    }

    /** The first byte the stream will not read. */
    ghost function End(): nat
      reads this
    {
      pos + left
    }

    constructor (data: Bytes, pos: nat, left: nat)
      requires pos + left <= |data|
      ensures Ok() && this.data == data && this.pos == pos && this.left == left
    {
      this.data, this.pos, this.left := data, pos, left;
    }

    /** pb_read. */
    method Read(n: nat) returns (ok: bool, buf: Bytes)
      requires Ok()
      modifies this
      ensures Ok() && ok == (n <= old(left)) && left <= old(left) && End() == old(End())
      ensures ok ==> buf == old(Remaining())[..n] && Remaining() == old(Remaining())[n..] && left == old(left) - n
    {
      if n == 0 {
        return true, [];
      }
      if left < n {
        return false, [];
      }
      buf := data[pos..pos + n];
      pos, left, ok := pos + n, left - n, true;
    }

    /** pb_readbyte. */
    method ReadByte() returns (ok: bool, b: Byte)
      requires Ok()
      modifies this
      ensures Ok() && ok == (old(left) > 0) && End() == old(End())
      ensures ok ==> left == old(left) - 1 && b == old(Remaining())[0] && Remaining() == old(Remaining())[1..]
      ensures !ok ==> left == old(left) && pos == old(pos)
    {
      if left == 0 {
        return false, 0;
      }
      b := data[pos];
      pos, left, ok := pos + 1, left - 1, true;
    }
  }

  // ----- Varints, in any bytes -----

  /** Decoding 64 bits, k bytes on the way: bits shifted out at the top are lost, ten bytes at most. */
  function VarintFrom(b: Bytes, k: nat, scale: nat, result: nat): (r: Option<(nat, Bytes)>)
    ensures r.Some? ==> r.value.0 < MAX64 && |r.value.1| < |b| <= |r.value.1| + 10
    ensures r.Some? && k <= 10 ==> |b| + k <= |r.value.1| + 10
    decreases |b|
  {
    if k >= 10 || b == [] then None
    else
      var mixed := Mix(result, b[0], scale, MAX64);
      if b[0] < 128 then Some((mixed, b[1..])) else VarintFrom(b[1..], k + 1, scale * 128, mixed)
  }

  /** The varint at the front and the bytes behind it, or None. */
  function VarintIn(b: Bytes): (r: Option<(nat, Bytes)>)
    ensures r.Some? ==> r.value.0 < MAX64 && |r.value.1| < |b| <= |r.value.1| + 10
  {
    VarintFrom(b, 0, 1, 0)
  }

  /** Byte k of a varint of 32 bits, k > 0: from the sixth on it may only repeat the sign or be padding, and if the fifth is
      the last it has four bits. */
  predicate Varint32Byte(b: Byte, k: nat, result: nat) {
    if k >= 5 then b % 128 == 0 || (result >= 0x8000_0000 && b == if k < 9 then 0xff else 0x01)
    else k == 4 && b < 128 ==> b < 16
  }

  function Varint32From(b: Bytes, k: nat, scale: nat, result: nat): (r: Option<(nat, Bytes)>)
    requires result < MAX32
    ensures r.Some? ==> r.value.0 < MAX32 && |r.value.1| < |b|
    decreases |b|
  {
    if b == [] || !Varint32Byte(b[0], k, result) then None
    else
      var mixed := if k >= 5 then result else Mix(result, b[0], scale, MAX32);
      if b[0] < 128 then Some((mixed, b[1..])) else Varint32From(b[1..], k + 1, scale * 128, mixed)
  }

  /** The 32-bit varint at the front and the bytes behind it, or None. */
  function Varint32In(b: Bytes): (r: Option<(nat, Bytes)>)
    ensures r.Some? ==> r.value.0 < MAX32 && |r.value.1| < |b|
  {
    if b == [] then None
    else if b[0] < 128 then Some((b[0] as nat, b[1..]))
    else Varint32From(b[1..], 1, 128, b[0] as nat % 128)
  }

  // ----- Reading back -----

  lemma {:induction false} VarintFromIs(n: nat, rest: Bytes, k: nat, scale: nat, result: nat, v: nat)
    requires Underway(n, MAX64, k, scale, result, v)
    ensures VarintFrom(Varint(v) + rest, k, scale, result) == Some((n, rest))
    decreases v
  {
    hide Varint, Underway, Mix;
    VarintFront(v, rest);
    if v > 0 {
      UnderwayEnds(n, MAX64, k, scale, result, v);
    } else {
      AtStart(n, MAX64, k, scale, result, v);
    }
    UnderwayStep(n, MAX64, k, scale, result, v, (Varint(v) + rest)[0]);
    if v >= 128 {
      VarintFromIs(n, rest, k + 1, scale * 128, Mix(result, (Varint(v) + rest)[0], scale, MAX64), v / 128);
    }
  }

  lemma AtStart(n: nat, limit: nat, k: nat, scale: nat, result: nat, v: nat)
    requires Underway(n, limit, k, scale, result, v) && v == 0
    ensures k == 0
  {
  }

  lemma VarintReads(n: nat, rest: Bytes)
    requires n < MAX64
    ensures VarintIn(Varint(n) + rest) == Some((n, rest))
  {
    hide Varint, Underway, VarintFrom;
    UnderwayStarts(n, MAX64);
    VarintFromIs(n, rest, 0, 1, 0, n);
  }

  lemma {:induction false} Varint32FromIs(n: nat, rest: Bytes, k: nat, scale: nat, result: nat, v: nat)
    requires k > 0 && result < MAX32 && Underway(n, MAX32, k, scale, result, v)
    ensures Varint32From(Varint(v) + rest, k, scale, result) == Some((n, rest))
    decreases v
  {
    hide Varint, Underway, Mix;
    VarintFront(v, rest);
    if v == 0 {
      AtStart(n, MAX32, k, scale, result, v);
    }
    UnderwayEnds(n, MAX32, k, scale, result, v);
    UnderwayStep(n, MAX32, k, scale, result, v, (Varint(v) + rest)[0]);
    if v >= 128 {
      Varint32FromIs(n, rest, k + 1, scale * 128, Mix(result, (Varint(v) + rest)[0], scale, MAX32), v / 128);
    }
  }

  lemma Varint32Reads(n: nat, rest: Bytes)
    requires n < MAX32
    ensures Varint32In(Varint(n) + rest) == Some((n, rest))
  {
    hide Varint, Underway, Varint32From, Mix;
    VarintFront(n, rest);
    if n >= 128 {
      UnderwayStarts(n, MAX32);
      UnderwayStep(n, MAX32, 0, 1, 0, n, (Varint(n) + rest)[0]);
      MixFirst((Varint(n) + rest)[0]);
      Varint32FromIs(n, rest, 1, 128, (Varint(n) + rest)[0] as nat % 128, n / 128);
    }
  }

  // ----- The decoders -----

  /** pb_decode_varint. */
  method DecodeVarint(s: IStream) returns (ok: bool, value: nat)
    requires s.Ok()
    modifies s
    ensures s.Ok() && s.End() == old(s.End()) && value < MAX64 && s.left <= old(s.left)
    ensures (if ok then Some((value, s.Remaining())) else None) == VarintIn(old(s.Remaining()))
  {
    hide Mix;
    var bitpos: nat, scale: nat, result: nat := 0, 1, 0;
    ghost var k: nat := 0;
    while true
      invariant s.Ok() && s.End() == old(s.End()) && s.left <= old(s.left) && bitpos == 7 * k && k <= 10 && result < MAX64
      invariant VarintFrom(s.Remaining(), k, scale, result) == VarintIn(old(s.Remaining()))
      decreases 10 - k
    {
      if bitpos >= 64 {
        return false, result;
      }
      var more, b := s.ReadByte();
      if !more {
        return false, result;
      }
      result := Mix(result, b, scale, MAX64);
      bitpos, scale, k := bitpos + 7, scale * 128, k + 1;
      if b < 128 {
        break;
      }
    }
    return true, result;
  }

  /** pb_decode_varint32_eof; `eof` reports an empty stream. */
  method DecodeVarint32(s: IStream) returns (ok: bool, value: nat, eof: bool)
    requires s.Ok()
    modifies s
    ensures s.Ok() && s.End() == old(s.End()) && value < MAX32 && s.left <= old(s.left)
    ensures (if ok then Some((value, s.Remaining())) else None) == Varint32In(old(s.Remaining()))
    ensures eof <==> old(s.left) == 0
  {
    hide Mix;
    var more, b := s.ReadByte();
    if !more {
      return false, 0, s.left == 0;
    }
    if b < 128 {
      return true, b as nat, false;
    }
    var bitpos: nat, scale: nat, result: nat := 7, 128, b as nat % 128;
    ghost var k: nat := 1;
    while true
      invariant s.Ok() && s.End() == old(s.End()) && s.left < old(s.left) && bitpos == 7 * k && k >= 1 && result < MAX32
      invariant Varint32From(s.Remaining(), k, scale, result) == Varint32In(old(s.Remaining()))
      decreases s.left
    {
      more, b := s.ReadByte();
      if !more {
        return false, 0, false;
      }
      if bitpos >= 32 {
        var signExtension: Byte := if bitpos < 63 then 0xff else 0x01;
        if b % 128 != 0 && (result < 0x8000_0000 || b != signExtension) {
          return false, 0, false;
        }
      } else {
        result := Mix(result, b, scale, MAX32);
      }
      bitpos, scale, k := bitpos + 7, scale * 128, k + 1;
      if b < 128 {
        break;
      }
    }
    if bitpos == 35 && b / 16 % 8 != 0 {
      return false, 0, false;
    }
    return true, result, false;
  }

  // ----- Signed integers -----

  /** Two's complement in 64 bits. */
  function Unsigned64(v: int): (r: nat)
    requires -0x8000_0000_0000_0000 <= v < 0x8000_0000_0000_0000
    ensures r < MAX64
  {
    if v < 0 then v + MAX64 else v
  }

  /** The cast of a 64-bit pattern to int64_t. */
  function Signed64(n: nat): (r: int)
    requires n < MAX64
    ensures -0x8000_0000_0000_0000 <= r < 0x8000_0000_0000_0000
  {
    if n < 0x8000_0000_0000_0000 then n else n - MAX64
  }

  /** Section "Signed Integers": small magnitudes get small numbers. */
  function ZigZag(v: int): (r: nat)
    ensures -0x8000_0000_0000_0000 <= v < 0x8000_0000_0000_0000 ==> r < MAX64
  {
    if v < 0 then -2 * v - 1 else 2 * v
  }

  function UnZigZag(n: nat): int {
    if n % 2 == 1 then -(n / 2) - 1 else n / 2
  }

  lemma ZigZagRoundTrip(v: int)
    ensures UnZigZag(ZigZag(v)) == v
  {
  }

  /** pb_encode_svarint, with the shifts and complements of 64-bit words. */
  method EncodeSVarint(s: OStream, value: int) returns (ok: bool)
    requires s.Ok() && -0x8000_0000_0000_0000 <= value < 0x8000_0000_0000_0000
    modifies s
    ensures s.Ok() && ok == old(s.Fits(|Varint(ZigZag(value))|))
    ensures ok ==> s.Advanced(old(s.written), old(s.bytesWritten), Varint(ZigZag(value)))
  {
    var shifted := Unsigned64(value) * 2 % MAX64;
    var zigzagged := if value < 0 then MAX64 - 1 - shifted else shifted;
    assert zigzagged == ZigZag(value);
    ok := EncodeVarint(s, zigzagged);
  }

  /** The zigzag number at the front and the bytes behind it, or None. */
  function SVarintIn(b: Bytes): (r: Option<(int, Bytes)>)
    ensures r.Some? ==> |r.value.1| < |b| && -0x8000_0000_0000_0000 <= r.value.0 < 0x8000_0000_0000_0000
  {
    var n := VarintIn(b);
    if n.Some? then Some((UnZigZag(n.value.0), n.value.1)) else None
  }

  lemma SVarintReads(v: int, rest: Bytes)
    requires -0x8000_0000_0000_0000 <= v < 0x8000_0000_0000_0000
    ensures SVarintIn(Varint(ZigZag(v)) + rest) == Some((v, rest))
  {
    hide Varint, VarintIn;
    ZigZagRoundTrip(v);
    VarintReads(ZigZag(v), rest);
  }

  /** pb_decode_svarint. */
  method DecodeSVarint(s: IStream) returns (ok: bool, value: int)
    requires s.Ok()
    modifies s
    ensures s.Ok() && s.End() == old(s.End()) && s.left <= old(s.left)
    ensures -0x8000_0000_0000_0000 <= value < 0x8000_0000_0000_0000
    ensures (if ok then Some((value, s.Remaining())) else None) == SVarintIn(old(s.Remaining()))
  {
    hide VarintIn;
    var bits;
    ok, bits := DecodeVarint(s);
    value := if bits % 2 == 1 then Signed64(MAX64 - 1 - bits / 2) else Signed64(bits / 2);
  }

  // ----- Fixed-width words -----

  /** pb_encode_fixed32 and pb_encode_fixed64. */
  method EncodeFixed(s: OStream, value: nat, width: nat) returns (ok: bool)
    requires s.Ok()
    modifies s
    ensures s.Ok() && ok == old(s.Fits(width))
    ensures ok ==> s.Advanced(old(s.written), old(s.bytesWritten), Little(value, width))
  {
    var bytes: Bytes, v: nat := [], value;
    for i := 0 to width
      modifies {}
      invariant |bytes| == i && bytes + Little(v, width - i) == Little(value, width)
    {
      assert bytes + ([(v % 256) as Byte] + Little(v / 256, width - i - 1)) ==
        bytes + [(v % 256) as Byte] + Little(v / 256, width - i - 1);
      bytes, v := bytes + [(v % 256) as Byte], v / 256;
    }
    ok := s.Write(bytes);
  }

  /** The word of this width at the front and the bytes behind it, or None. */
  function FixedIn(b: Bytes, width: nat): (r: Option<(nat, Bytes)>)
    ensures r.Some? ==> r.value.0 < Pow256(width) && |r.value.1| + width == |b|
  {
    if |b| < width then None
    else
      LittleBounded(b[..width]);
      Some((LittleOf(b[..width]), b[width..]))
  }

  lemma FixedReads(n: nat, width: nat, rest: Bytes)
    requires n < Pow256(width)
    ensures FixedIn(Little(n, width) + rest, width) == Some((n, rest))
  {
    var b := Little(n, width);
    LittleRoundTrip(n, width);
    assert (b + rest)[..width] == b && (b + rest)[width..] == rest;
  }

  /** pb_decode_fixed32 and pb_decode_fixed64. */
  method DecodeFixed(s: IStream, width: nat) returns (ok: bool, value: nat)
    requires s.Ok()
    modifies s
    ensures s.Ok() && s.End() == old(s.End()) && s.left <= old(s.left)
    ensures (if ok then Some((value, s.Remaining())) else None) == FixedIn(old(s.Remaining()), width)
  {
    var bytes;
    ok, bytes := s.Read(width);
    if !ok {
      return false, 0;
    }
    value := LittleOf(bytes);
  }
}
