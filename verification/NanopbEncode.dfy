/** The nanopb encoder (pb_encode.c): a sizing pass and a writing pass over the same message. */
module NanopbEncode {
  import opened Entries
  import opened Encodings
  import opened Wire
  import opened Nanopb

  /** What every encoding step promises: it succeeds exactly when the value has an encoding and that fits; then
      the stream has gone on by it. */
  twostate predicate Encoded(s: OStream, ok: bool, b: Option<Bytes>)
    reads s
  {
    s.Ok() && ok == (b.Some? && old(s.Fits(|b.value|))) &&
    (ok ==> s.Advanced(old(s.written), old(s.bytesWritten), b.value))
  }

  method EncodeTag(s: OStream, wireType: nat, tag: nat) returns (ok: bool)
    requires s.Ok() && tag < 0x2000_0000 && wireType < 8
    modifies s
    ensures Encoded(s, ok, Some(TagBytes(tag, wireType)))
  {
    ok := EncodeVarint(s, tag * 8 + wireType);
  }

  /** pb_encode_string. */
  method EncodeString(s: OStream, b: Bytes) returns (ok: bool)
    requires s.Ok()
    modifies s
    ensures Encoded(s, ok, Delimited(Some(b)))
  {
    hide Varint;
    if |b| >= MAX64 {
      return false;
    }
    ok := EncodeVarint(s, |b|);
    if ok {
      ok := s.Write(b);
    }
  }

  /** The encoders of the packable types, and of bytes and strings. */
  method EncodeLeaf(s: OStream, f: Field, v: Value) returns (ok: bool)
    requires s.Ok() && Shaped(f, v) && !f.kind.Submessage?
    modifies s
    ensures Encoded(s, ok, ValueBytes(f, v))
  {
    hide Varint, Little, Delimited;
    match f.kind {
      case Bool => ok := EncodeVarint(s, if v.n != 0 then 1 else 0);
      case Int =>
        if !HasWidth(f) {
          return false;
        }
        ok := EncodeVarint(s, Unsigned64(v.n));
      case UInt =>
        if !HasWidth(f) {
          return false;
        }
        ok := EncodeVarint(s, v.n);
      case SInt =>
        if !HasWidth(f) {
          return false;
        }
        ok := EncodeSVarint(s, v.n);
      case Fixed32 => ok := EncodeFixed(s, v.n, 4);
      case Fixed64 => ok := EncodeFixed(s, v.n, 8);
      case Blobs =>
        if |v.bytes| + BYTES_OFFSET > f.dataSize {
          return false;
        }
        ok := EncodeString(s, v.bytes);
      case Text => ok := EncodeString(s, v.bytes);
      case FixedBlob => ok := EncodeString(s, v.bytes);
    }
  }

  /** Two steps in a row. */
  twostate lemma Then(s: OStream, done: Bytes, ok: bool, b: Option<Bytes>, w: Bytes, n: nat)
    requires old(s.Advanced(w, n, done)) && Encoded(s, ok, b)
    ensures ok ==> s.Advanced(w, n, done + b.value)
  {
  }

  /** pb_enc_submessage and pb_encode_submessage: first the size, then the bytes into a substream of that size. */
  method EncodeSubmessage(s: OStream, d: Descriptor, m: Value) returns (ok: bool)
    requires s.Ok() && WellFormed(d) && ShapedMessage(d, m)
    modifies s
    ensures Encoded(s, ok, Delimited(MessageBytes(d, m, 0)))
    decreases d, 1
  {
    hide Varint, MessageBytes, WellFormed, ShapedMessage;
    var sub := new OStream(true, 0, []);
    ok := Encode(sub, d, m);
    if !ok {
      return;
    }
    var size := sub.bytesWritten;
    if size >= MAX64 {
      return false;
    }
    ok := EncodeVarint(s, size);
    if !ok {
      return;
    }
    if s.sizing {
      s.Skip(size);
      return;
    }
    if s.bytesWritten + size > s.maxSize {
      return false;
    }
    sub := new OStream(false, size, s.written);
    ok := Encode(sub, d, m);
    s.bytesWritten := s.bytesWritten + sub.bytesWritten;
    s.written := sub.written;
    ok := ok && sub.bytesWritten == size;
  }

  method EncodeValue(s: OStream, f: Field, v: Value) returns (ok: bool)
    requires s.Ok() && Shaped(f, v) && (f.kind.Submessage? ==> WellFormed(f.kind.fields))
    modifies s
    ensures Encoded(s, ok, ValueBytes(f, v))
    decreases f, 0
  {
    if f.kind.Submessage? {
      ok := EncodeSubmessage(s, f.kind.fields, v);
    } else {
      ok := EncodeLeaf(s, f, v);
    }
  }

  method EncodeTagged(s: OStream, f: Field, v: Value) returns (ok: bool)
    requires s.Ok() && Shaped(f, v) && WellFormedField(f)
    modifies s
    ensures Encoded(s, ok, Tagged(f, v))
    decreases f, 1
  {
    hide Varint, ValueBytes, Shaped;
    ok := EncodeTag(s, WireType(f.kind), f.tag);
    if ok {
      ok := EncodeValue(s, f, v);
    }
  }

  /** Writing a list piece by piece from a stream that stored w and counted n: `done` is written, `rest` is to
      come, and the next piece is `b`. */
  lemma Piece(s: OStream, w: Bytes, n: nat, done: Bytes, ok: bool, b: Option<Bytes>, rest: Option<Bytes>)
    requires ok == (b.Some? && (s.sizing || n + |done| + |b.value| <= s.maxSize))
    ensures ok ==> w + done + b.value == w + (done + b.value) && Cat(Some(done), Cat(b, rest)) == Cat(Some(done + b.value), rest)
    ensures !ok && Cat(Some(done), Cat(b, rest)).Some? ==> !s.sizing && n + |Cat(Some(done), Cat(b, rest)).value| > s.maxSize
  {
    if b.Some? && rest.Some? {
      assert done + (b.value + rest.value) == done + b.value + rest.value;
    }
  }

  lemma CatNothing(b: Option<Bytes>)
    ensures Cat(Some([]), b) == b
  {
    assert b.Some? ==> [] + b.value == b.value;
  }

  /** The values of a packed array, one after the other. */
  method EncodeItems(s: OStream, f: Field, vs: seq<Value>) returns (ok: bool)
    requires s.Ok() && Packable(f.kind) && forall v | v in vs :: Shaped(f, v)
    modifies s
    ensures Encoded(s, ok, PackedBytes(f, vs))
  {
    hide ValueBytes, Shaped;
    ghost var w, n, done: Bytes := s.written, s.bytesWritten, [];
    CatNothing(PackedBytes(f, vs));
    assert vs[0..] == vs;
    for i := 0 to |vs|
      invariant s.Ok() && s.Advanced(w, n, done) && PackedBytes(f, vs) == Cat(Some(done), PackedBytes(f, vs[i..]))
    {
      assert vs[i..][0] == vs[i] && vs[i..][1..] == vs[i + 1..];
      ok := EncodeLeaf(s, f, vs[i]);
      Piece(s, w, n, done, ok, ValueBytes(f, vs[i]), PackedBytes(f, vs[i + 1..]));
      if !ok {
        return;
      }
      done := done + ValueBytes(f, vs[i]).value;
    }
    ok := true;
  }

  lemma {:induction false} FixedSize(f: Field, vs: seq<Value>)
    requires (f.kind.Fixed32? || f.kind.Fixed64?) && forall v | v in vs :: Shaped(f, v)
    ensures PackedBytes(f, vs).Some?
    ensures |PackedBytes(f, vs).value| == (if f.kind.Fixed32? then 4 else 8) * |vs|
  {
    if vs != [] {
      FixedSize(f, vs[1..]);
    }
  }

  /** encode_array, for packable types. */
  method EncodePacked(s: OStream, f: Field, vs: seq<Value>) returns (ok: bool)
    requires s.Ok() && IsPacked(f) && vs != [] && (forall v | v in vs :: Shaped(f, v)) && f.tag < 0x2000_0000
    modifies s
    ensures Encoded(s, ok, RecordsBytes(f, vs))
  {
    hide ValueBytes, Shaped, PackedBytes, Varint;
    ok := EncodeTag(s, WT_STRING, f.tag);
    if !ok {
      return;
    }
    var size;
    if f.kind.Fixed32? {
      FixedSize(f, vs);
      size := 4 * |vs|;
    } else if f.kind.Fixed64? {
      FixedSize(f, vs);
      size := 8 * |vs|;
    } else {
      var sizes := new OStream(true, 0, []);
      ok := EncodeItems(sizes, f, vs);
      if !ok {
        return;
      }
      size := sizes.bytesWritten;
    }
    if size >= MAX64 {
      return false;
    }
    ok := EncodeVarint(s, size);
    if !ok {
      return;
    }
    if s.sizing {
      s.Skip(size);
      return;
    }
    ok := EncodeItems(s, f, vs);
  }

  /** encode_array. */
  method EncodeArray(s: OStream, f: Field, vs: seq<Value>) returns (ok: bool)
    requires s.Ok() && f.rule.Repeated? && (forall v | v in vs :: Shaped(f, v)) && WellFormedField(f)
    modifies s
    ensures Encoded(s, ok, if TooMany(f, vs) then None else RecordsBytes(f, vs))
    decreases f, 2
  {
    hide ValueBytes, Shaped, Tagged, WellFormed;
    if |vs| == 0 {
      return true;
    }
    if |vs| > f.arraySize {
      return false;
    }
    if Packable(f.kind) {
      ok := EncodePacked(s, f, vs);
      return;
    }
    ghost var w, n, done: Bytes := s.written, s.bytesWritten, [];
    CatNothing(RecordsBytes(f, vs));
    assert vs[0..] == vs;
    for i := 0 to |vs|
      invariant s.Ok() && s.Advanced(w, n, done) && RecordsBytes(f, vs) == Cat(Some(done), RecordsBytes(f, vs[i..]))
    {
      assert vs[i..][0] == vs[i] && vs[i..][1..] == vs[i + 1..];
      ok := EncodeTagged(s, f, vs[i]);
      Piece(s, w, n, done, ok, Tagged(f, vs[i]), RecordsBytes(f, vs[i + 1..]));
      if !ok {
        return;
      }
      done := done + Tagged(f, vs[i]).value;
    }
    ok := true;
  }

  /** encode_basic_field. */
  method EncodeField(s: OStream, f: Field, slot: Slot, unions: map<nat, Choice>) returns (ok: bool)
    requires s.Ok() && ShapedSlot(f, slot, unions) && WellFormedField(f)
    modifies s
    ensures var vs := Present(f, slot, unions); Encoded(s, ok, if TooMany(f, vs) then None else RecordsBytes(f, vs))
    decreases f, 3
  {
    hide ValueBytes, Shaped, WellFormed;
    match f.rule {
      case Required => ok := EncodeTagged(s, f, slot.value);
      case Optional(hasFlag) =>
        var present := if hasFlag then slot.has else !IsZero(f, slot.value);
        if present {
          ok := EncodeTagged(s, f, slot.value);
        } else {
          ok := true;
        }
      case Repeated(_) => ok := EncodeArray(s, f, slot.values);
      case Oneof(g) =>
        if g in unions && unions[g].which == f.tag {
          ok := EncodeTagged(s, f, unions[g].value);
        } else {
          ok := true;
        }
    }
  }

  /** The bytes of field i. */
  function FieldBytes(d: Descriptor, m: Value, i: nat): Option<Bytes>
    requires ShapedMessage(d, m) && i < |d.fields|
  {
    var vs := Present(d.fields[i], m.slots[i], m.unions);
    if TooMany(d.fields[i], vs) then None else RecordsBytes(d.fields[i], vs)
  }

  lemma MessageUnfolds(d: Descriptor, m: Value, i: nat)
    requires ShapedMessage(d, m) && i < |d.fields|
    ensures MessageBytes(d, m, i) == Cat(FieldBytes(d, m, i), MessageBytes(d, m, i + 1))
  {
  }

  lemma MessageEnds(d: Descriptor, m: Value)
    requires ShapedMessage(d, m)
    ensures MessageBytes(d, m, |d.fields|) == Some([])
  {
  }

  /** MAIN: encoding succeeds exactly when every value passes the encoder's checks and the bytes fit; a sizing
      stream counts exactly the bytes a writing stream stores. */
  method Encode(s: OStream, d: Descriptor, m: Value) returns (ok: bool)
    requires s.Ok() && WellFormed(d) && ShapedMessage(d, m)
    modifies s
    ensures Encoded(s, ok, MessageBytes(d, m, 0))
    decreases d, 0
  {
    hide RecordsBytes, Present, Shaped, MessageBytes, ShapedSlot;
    MessageEnds(d, m);
    if d.fields == [] {
      return true;
    }
    var iter := new FieldIter(d);
    ghost var w, n, done: Bytes := s.written, s.bytesWritten, [];
    ghost var all := MessageBytes(d, m, 0);
    CatNothing(all);
    while true
      invariant iter.Ok() && iter.d == d && fresh(iter) && iter.pos < |d.fields|
      invariant s.Ok() && s.Advanced(w, n, done) && all == Cat(Some(done), MessageBytes(d, m, iter.pos))
      decreases |d.fields| - iter.pos
    {
      var i := iter.pos;
      MessageUnfolds(d, m, i);
      ok := EncodeField(s, d.fields[i], m.slots[i], m.unions);
      Piece(s, w, n, done, ok, FieldBytes(d, m, i), MessageBytes(d, m, i + 1));
      if !ok {
        return;
      }
      done := done + FieldBytes(d, m, i).value;
      var more := iter.Next();
      if !more {
        break;
      }
    }
  }

  /** pb_get_encoded_size. */
  method EncodedSize(d: Descriptor, m: Value) returns (ok: bool, size: nat)
    requires WellFormed(d) && ShapedMessage(d, m)
    ensures ok == MessageBytes(d, m, 0).Some? && (ok ==> size == |MessageBytes(d, m, 0).value|)
  {
    var s := new OStream(true, 0, []);
    ok := Encode(s, d, m);
    size := s.bytesWritten;
  }

  /** MAIN: encoding into a buffer of n bytes succeeds if and only if pb_get_encoded_size does and the size is at
      most n, and then that many bytes are written. */
  method EncodeToBuffer(d: Descriptor, m: Value, n: nat) returns (ok: bool, written: Bytes, sized: bool, size: nat)
    requires WellFormed(d) && ShapedMessage(d, m)
    ensures sized == MessageBytes(d, m, 0).Some? && (sized ==> size == |MessageBytes(d, m, 0).value|)
    ensures ok == (sized && size <= n) && (ok ==> MessageBytes(d, m, 0) == Some(written))
  {
    sized, size := EncodedSize(d, m);
    var s := new OStream(false, n, []);
    ok := Encode(s, d, m);
    CatNothing(MessageBytes(d, m, 0));
    written := s.written;
  }
}
