/** The nanopb decoder (pb_decode.c): what its methods do to a stream, on any bytes. */
module NanopbDecode {
  import opened Entries
  import opened Encodings
  import opened Wire
  import opened Nanopb
  import opened WireFormat
  import opened NanopbParse

  // ----- Tags and unknown fields -----

  /** pb_decode_tag; a zero ends the message. */
  method DecodeTag(s: IStream) returns (ok: bool, wire: nat, number: nat, eof: bool)
    requires s.Ok() && s.left > 0
    modifies s
    ensures s.Ok() && s.End() == old(s.End()) && s.left <= old(s.left)
    ensures var t := TagIn(old(s.Remaining()));
      match t
      case Tag(_, _, _) => ok && t == Tag(wire, number, s.Remaining())
      case EndTag(rest) => !ok && eof && s.Remaining() == rest
      case NoTag => !ok && !eof
  {
    hide Varint32In;
    var temp;
    ok, temp, eof := DecodeVarint32(s);
    wire, number := temp % 8, temp / 8;
    if ok && temp == 0 {
      return false, 0, 0, true;
    }
  }

  /** Up to the first byte without a continuation bit. */
  method SkipVarint(s: IStream) returns (ok: bool)
    requires s.Ok()
    modifies s
    ensures s.Ok() && s.End() == old(s.End()) && s.left <= old(s.left)
    ensures ok == VarintEnd(old(s.Remaining())).Some?
    ensures ok ==> s.Remaining() == old(s.Remaining())[VarintEnd(old(s.Remaining())).value..]
  {
    ghost var all, n := s.Remaining(), 0;
    while true
      invariant s.Ok() && s.End() == old(s.End()) && s.left <= old(s.left) && n <= |all| && s.Remaining() == all[n..]
      invariant VarintEnd(all) == if VarintEnd(all[n..]).Some? then Some(n + VarintEnd(all[n..]).value) else None
      decreases s.left
    {
      ghost var here := s.Remaining();
      var more, b := s.Read(1);
      if !more {
        return false;
      }
      assert b[0] == here[0] && here[1..] == all[n + 1..];
      if b[0] < 128 {
        break;
      }
      n := n + 1;
    }
    ok := true;
  }

  /** pb_skip_string. */
  method SkipString(s: IStream) returns (ok: bool)
    requires s.Ok()
    modifies s
    ensures s.Ok() && s.End() == old(s.End()) && s.left <= old(s.left)
    ensures (if ok then Some(s.Remaining()) else None) == SkipIn(old(s.Remaining()), WT_STRING)
  {
    hide Varint32In;
    var length, eof, skipped;
    ok, length, eof := DecodeVarint32(s);
    if ok {
      ok, skipped := s.Read(length);
    }
  }

  /** pb_skip_field: past exactly one payload of the type. */
  method SkipField(s: IStream, wireType: nat) returns (ok: bool)
    requires s.Ok()
    modifies s
    ensures s.Ok() && s.End() == old(s.End()) && s.left <= old(s.left)
    ensures (if ok then Some(s.Remaining()) else None) == SkipIn(old(s.Remaining()), wireType)
  {
    hide SubIn;
    var skipped;
    if wireType == WT_VARINT {
      ok := SkipVarint(s);
    } else if wireType == WT_64BIT {
      ok, skipped := s.Read(8);
    } else if wireType == WT_STRING {
      ok := SkipString(s);
    } else if wireType == WT_32BIT {
      ok, skipped := s.Read(4);
    } else {
      ok := false;
    }
  }

  // ----- Scalars, bytes and strings -----

  /** pb_dec_varint, pb_dec_uvarint and pb_dec_svarint: the number must fit the field. */
  method DecodeInteger(s: IStream, f: Field) returns (ok: bool, r: int)
    requires s.Ok() && IsInteger(f.kind)
    modifies s
    ensures s.Ok() && s.End() == old(s.End()) && s.left <= old(s.left)
    ensures (if ok then Some((r, s.Remaining())) else None) == IntegerIn(f, old(s.Remaining()))
  {
    hide VarintIn, SVarintIn, Narrowed, Widened;
    var value: int, bits;
    if f.kind.SInt? {
      ok, value := DecodeSVarint(s);
    } else if f.kind.UInt? {
      ok, value := DecodeVarint(s);
    } else {
      ok, bits := DecodeVarint(s);
      value := Widened(f, bits);
    }
    var narrowed := Narrowed(f, value);
    if !ok || narrowed.None? {
      return false, 0;
    }
    r := narrowed.value;
  }

  /** pb_dec_bytes, pb_dec_string and pb_dec_fixed_length_bytes. */
  method DecodeBlob(s: IStream, f: Field) returns (ok: bool, r: Bytes)
    requires s.Ok() && IsBlob(f.kind)
    modifies s
    ensures s.Ok() && s.End() == old(s.End()) && s.left <= old(s.left)
    ensures (if ok then Some((r, s.Remaining())) else None) == BlobIn(f, old(s.Remaining()))
  {
    hide Varint32In, CString;
    var size, eof;
    ok, size, eof := DecodeVarint32(s);
    if !ok {
      return false, [];
    }
    if f.kind.Blobs? {
      if size + BYTES_OFFSET > f.dataSize {
        return false, [];
      }
      ok, r := s.Read(size);
    } else if f.kind.Text? {
      if size + 1 > f.dataSize {
        return false, [];
      }
      ok, r := s.Read(size);
      r := CString(r);
    } else {
      if size == 0 {
        return true, seq(f.dataSize, _ => 0 as Byte);
      }
      if size != f.dataSize {
        return false, [];
      }
      ok, r := s.Read(size);
    }
  }

  /** PB_DECODERS, but for submessages. */
  method DecodeLeaf(s: IStream, f: Field) returns (ok: bool, r: Value)
    requires s.Ok() && !f.kind.Submessage?
    modifies s
    ensures s.Ok() && s.End() == old(s.End()) && s.left <= old(s.left) && (ok ==> Shaped(f, r))
    ensures (if ok then Some((r, s.Remaining())) else None) == LeafIn(f, old(s.Remaining()))
  {
    hide Varint32In, FixedIn, IntegerIn, BlobIn;
    var n, i, b, eof;
    match f.kind {
      case Bool =>
        ok, n, eof := DecodeVarint32(s);
        r := Num(if n != 0 then 1 else 0);
      case Fixed32 =>
        ok, n := DecodeFixed(s, 4);
        r := Num(n);
      case Fixed64 =>
        ok, n := DecodeFixed(s, 8);
        r := Num(n);
      case Blobs =>
        ok, b := DecodeBlob(s, f);
        r := Blob(b);
      case Text =>
        ok, b := DecodeBlob(s, f);
        r := Blob(b);
      case FixedBlob =>
        ok, b := DecodeBlob(s, f);
        r := Blob(b);
      case Int =>
        ok, i := DecodeInteger(s, f);
        r := Num(i);
      case UInt =>
        ok, i := DecodeInteger(s, f);
        r := Num(i);
      case SInt =>
        ok, i := DecodeInteger(s, f);
        r := Num(i);
    }
  }

  // ----- Substreams -----

  /** pb_make_string_substream: the parent keeps its place until the substream is closed. */
  method MakeSubstream(s: IStream) returns (ok: bool, sub: IStream)
    requires s.Ok()
    modifies s
    ensures s.Ok() && sub.Ok() && fresh(sub) && sub.data == s.data && s.left + sub.left <= old(s.left)
    ensures sub.End() + s.left <= old(s.End()) && s.End() <= old(s.End())
    ensures ok == SubIn(old(s.Remaining())).Some?
    ensures ok ==>
      sub.End() + s.left == old(s.End()) &&
      SubIn(old(s.Remaining())).value == (sub.Remaining(), s.data[sub.End()..sub.End() + s.left])
  {
    hide Varint32In;
    var size, eof;
    ok, size, eof := DecodeVarint32(s);
    if !ok || s.left < size {
      sub := new IStream(s.data, s.pos, 0);
      return false, sub;
    }
    sub := new IStream(s.data, s.pos, size);
    assert sub.Remaining() == s.Remaining()[..size];
    assert s.data[s.pos + size..s.pos + s.left] == s.Remaining()[size..];
    s.left := s.left - size;
  }

  /** pb_close_string_substream: the parent goes on where the substream ends. */
  method CloseSubstream(s: IStream, sub: IStream)
    requires s.Ok() && sub.Ok() && s != sub && sub.data == s.data && sub.End() + s.left <= |s.data|
    modifies s, sub
    ensures s.Ok() && s.left == old(s.left) && s.pos == old(sub.End())
  {
    if sub.left > 0 {
      var ok, skipped := sub.Read(sub.left);
    }
    s.pos := sub.pos;
  }

  // ----- Fields -----

  /** The elements of a packed array, up to the end of its substream or of the array. */
  method DecodePackedItems(sub: IStream, f: Field, items: seq<Value>, start: nat)
    returns (ok: bool, r: seq<Value>, size: nat)
    requires sub.Ok() && Packable(f.kind) && AllShaped(f, items)
    modifies sub
    ensures sub.Ok() && sub.End() == old(sub.End())
    ensures (if ok && sub.left == 0 then Some((r, size)) else None) == PackedIn(f, old(sub.Remaining()), items, start)
  {
    hide LeafIn, Shaped, Put;
    ok, r, size := true, items, start;
    while sub.left > 0 && size < f.arraySize
      invariant ok && sub.Ok() && sub.End() == old(sub.End()) && AllShaped(f, r)
      invariant PackedIn(f, sub.Remaining(), r, size) == PackedIn(f, old(sub.Remaining()), items, start)
      decreases f.arraySize - size
    {
      assert |sub.Remaining()| > 0;
      var v;
      ok, v := DecodeLeaf(sub, f);
      if !ok {
        return;
      }
      PutShaped(f, r, size, v);
      r := Put(r, size, v);
      size := size + 1;
    }
    assert |sub.Remaining()| == sub.left;
  }

  lemma PutShaped(f: Field, items: seq<Value>, size: nat, v: Value)
    requires AllShaped(f, items) && Shaped(f, v)
    ensures AllShaped(f, Put(items, size, v))
  {
  }

  /** The packed branch of decode_static_field. */
  method DecodePacked(s: IStream, f: Field, items: seq<Value>, start: nat) returns (ok: bool, r: seq<Value>, size: nat)
    requires s.Ok() && Packable(f.kind) && AllShaped(f, items)
    modifies s
    ensures s.Ok() && s.left <= old(s.left) && s.End() <= old(s.End()) && (ok ==> s.End() == old(s.End()))
    ensures var sub := SubIn(old(s.Remaining()));
      if sub.Some? then
        (if ok then Some((r, size)) else None) == PackedIn(f, sub.value.0, items, start) &&
        (ok ==> s.Remaining() == sub.value.1)
      else !ok
  {
    hide PackedIn, SubIn, Shaped;
    r, size := items, start;
    var sub;
    ok, sub := MakeSubstream(s);
    if !ok {
      return;
    }
    ok, r, size := DecodePackedItems(sub, f, r, size);
    if sub.left != 0 {
      return false, r, size;
    }
    CloseSubstream(s, sub);
  }

  /** pb_dec_submessage: array entries start from the defaults, other submessages from what is there. */
  method DecodeSubmessage(s: IStream, f: Field, dest: Value) returns (ok: bool, r: Value)
    requires s.Ok() && f.kind.Submessage? && WellFormedField(f) && Shaped(f, dest)
    modifies s
    ensures s.Ok() && s.left <= old(s.left) && s.End() <= old(s.End()) && (ok ==> s.End() == old(s.End()))
    ensures (if ok then Some((r, s.Remaining())) else None) == ValueIn(f, dest, old(s.Remaining()))
    decreases f, 1
  {
    hide SubIn, MessageIn, DefaultMessage, ShapedMessage, WellFormed;
    var d := f.kind.fields;
    var sub;
    ok, sub := MakeSubstream(s);
    r := dest;
    if !ok {
      return;
    }
    if f.rule.Repeated? {
      ok, r := Decode(sub, d);
    } else {
      ok, r := DecodeNoInit(sub, d, dest);
    }
    CloseSubstream(s, sub);
  }

  method DecodeValue(s: IStream, f: Field, dest: Value) returns (ok: bool, r: Value)
    requires s.Ok() && WellFormedField(f) && (f.kind.Submessage? ==> Shaped(f, dest))
    modifies s
    ensures s.Ok() && s.left <= old(s.left) && s.End() <= old(s.End()) && (ok ==> s.End() == old(s.End()))
    ensures (if ok then Some((r, s.Remaining())) else None) == ValueIn(f, dest, old(s.Remaining()))
    decreases f, 2
  {
    hide LeafIn, Shaped, WellFormed;
    if f.kind.Submessage? {
      ok, r := DecodeSubmessage(s, f, dest);
    } else {
      ok, r := DecodeLeaf(s, f);
    }
  }

  /** decode_static_field. For an array with a fixed count the caller keeps the number of elements read. */
  method DecodeField(s: IStream, wireType: nat, f: Field, slot: Slot, unions: map<nat, Choice>, fixedSize: nat)
    returns (ok: bool, slot': Slot, unions': map<nat, Choice>, fixedSize': nat)
    requires s.Ok() && WellFormedField(f) && ShapedSlot(f, slot, unions)
    modifies s
    ensures s.Ok() && s.left <= old(s.left) && s.End() <= old(s.End()) && (ok ==> s.End() == old(s.End()))
    ensures (if ok then Some(Taken(slot', unions', fixedSize', s.Remaining())) else None) ==
      FieldIn(f, wireType, slot, unions, fixedSize, old(s.Remaining()))
    decreases f, 4
  {
    hide ValueIn, ElementsIn, DefaultValue, Shaped, WellFormed;
    slot', unions', fixedSize' := slot, unions, fixedSize;
    DefaultIsShaped(f);
    var v;
    match f.rule {
      case Required =>
        ok, v := DecodeValue(s, f, slot.value);
        slot' := Single(v);
      case Optional(hasFlag) =>
        ok, v := DecodeValue(s, f, slot.value);
        slot' := if hasFlag then Maybe(true, v) else Single(v);
      case Repeated(counted) =>
        ok, slot', fixedSize' := DecodeElements(s, wireType, f, slot.values, fixedSize);
      case Oneof(g) =>
        var other := !Chosen(f, unions);
        var dest := if other then DefaultValue(f) else unions[g].value;
        ok, v := DecodeValue(s, f, dest);
        unions' := unions[g := Choice(f.tag, v)];
    }
  }

  /** The repeated branches of decode_static_field. */
  method DecodeElements(s: IStream, wireType: nat, f: Field, items: seq<Value>, fixedSize: nat)
    returns (ok: bool, slot': Slot, fixedSize': nat)
    requires s.Ok() && WellFormedField(f) && f.rule.Repeated? && AllShaped(f, items)
    requires !f.rule.counted ==> |items| == f.arraySize
    modifies s
    ensures s.Ok() && s.left <= old(s.left) && s.End() <= old(s.End()) && (ok ==> s.End() == old(s.End()))
    ensures (if ok then Some(Taken(slot', map[], fixedSize', s.Remaining())) else None) ==
      ElementsIn(f, wireType, items, fixedSize, old(s.Remaining()))
    decreases f, 3
  {
    hide PackedIn, SubIn, ValueIn, DefaultValue, Shaped, WellFormed;
    var size := if f.rule.counted then |items| else fixedSize;
    if wireType == WT_STRING && Packable(f.kind) {
      var r;
      ok, r, fixedSize' := DecodePacked(s, f, items, size);
      slot' := Items(r);
    } else {
      if size >= f.arraySize {
        return false, Items(items), size + 1;
      }
      var v;
      DefaultIsShaped(f);
      ok, v := DecodeValue(s, f, DefaultValue(f));
      slot', fixedSize' := Items(Put(items, size, v)), size + 1;
    }
  }

  // ----- A whole message -----

  /** After the tag: an unknown field is skipped, a known one decoded. */
  method DecodeRecord(s: IStream, d: Descriptor, iter: FieldIter, wireType: nat, tag: nat, r: Value, seen: set<nat>,
                      fixedField: Option<nat>, fixedSize: nat)
    returns (ok: bool, r': Value, seen': set<nat>, fixedField': Option<nat>, fixedSize': nat)
    requires s.Ok() && WellFormed(d) && Sane(d, State(r, seen, fixedField, fixedSize)) && iter.Ok() && iter.d == d
    modifies s, iter
    ensures s.Ok() && s.left <= old(s.left) && s.End() <= old(s.End()) && iter.Ok() && (ok ==> s.End() == old(s.End()))
    ensures (if ok then Some((State(r', seen', fixedField', fixedSize'), s.Remaining())) else None) ==
      RecordIn(d, wireType, tag, State(r, seen, fixedField, fixedSize), old(s.Remaining()))
    decreases d, 0
  {
    hide FieldIn, SkipIn, Shaped, WellFormedField, OnlyOwnUnion, FieldAt;
    ok, r', seen', fixedField', fixedSize' := true, r, seen, fixedField, fixedSize;
    var found := iter.Find(tag);
    if !found {
      ok := SkipField(s, wireType);
      return;
    }
    var pos := iter.pos;
    var f := d.fields[pos];
    if FixedCount(f) && fixedField' != Some(pos) {
      if fixedField'.Some? && fixedSize' != d.fields[fixedField'.value].arraySize {
        return false, r', seen', fixedField', fixedSize';
      }
      fixedField', fixedSize' := Some(pos), 0;
    }
    if f.rule.Required? && iter.requiredIndex < MAX_REQUIRED {
      seen' := seen' + {iter.requiredIndex};
    }
    var slot, unions, size;
    assert ShapedSlot(f, r.slots[pos], r.unions);
    ok, slot, unions, size := DecodeField(s, wireType, f, r.slots[pos], r.unions, fixedSize');
    if !ok {
      return;
    }
    r' := Message(r.slots[pos := slot], unions);
    if FixedCount(f) {
      fixedSize' := size;
    }
  }

  /** The end of pb_decode_noinit: the iterator runs on to the last field to count the required ones. */
  method CountRequired(iter: FieldIter) returns (count: nat)
    requires iter.Ok()
    modifies iter
    ensures count == RequiredBefore(iter.d, |iter.d.fields|)
  {
    if iter.d.fields == [] {
      return 0;
    }
    var last;
    while true
      invariant iter.Ok() && iter.pos < |iter.d.fields|
      decreases |iter.d.fields| - iter.pos
    {
      count, last := iter.requiredIndex, iter.d.fields[iter.pos];
      ghost var pos := iter.pos;
      var more := iter.Next();
      if !more {
        assert pos == |iter.d.fields| - 1;
        break;
      }
    }
    if last.rule.Required? {
      count := count + 1;
    }
  }

  /** pb_decode_noinit. */
  method DecodeNoInit(s: IStream, d: Descriptor, dest: Value) returns (ok: bool, r: Value)
    requires s.Ok() && WellFormed(d) && ShapedMessage(d, dest)
    modifies s
    ensures s.Ok() && s.left <= old(s.left) && s.End() <= old(s.End()) && (ok ==> s.End() == old(s.End()))
    ensures (if ok then Some((r, s.Remaining())) else None) == MessageIn(d, dest, old(s.Remaining()))
    decreases d, 1
  {
    hide RecordIn, TagIn, ShapedMessage, WellFormed;
    var seen: set<nat>, fixedField: Option<nat>, fixedSize: nat := {}, None, 0;
    var iter := new FieldIter(d);
    r := dest;
    while s.left > 0
      invariant s.Ok() && s.End() == old(s.End()) && s.left <= old(s.left)
      invariant fresh(iter) && iter.Ok() && iter.d == d && Sane(d, State(r, seen, fixedField, fixedSize))
      invariant RecordsIn(d, State(r, seen, fixedField, fixedSize), s.Remaining()) ==
        RecordsIn(d, State(dest, {}, None, 0), old(s.Remaining()))
      decreases s.left
    {
      assert |s.Remaining()| > 0;
      var wireType, number, eof;
      ok, wireType, number, eof := DecodeTag(s);
      if !ok {
        if eof {
          break;
        }
        return;
      }
      ok, r, seen, fixedField, fixedSize := DecodeRecord(s, d, iter, wireType, number, r, seen, fixedField, fixedSize);
      if !ok {
        return;
      }
    }
    if fixedField.Some? && fixedSize != d.fields[fixedField.value].arraySize {
      return false, r;
    }
    var required := CountRequired(iter);
    ok := forall n | 0 <= n < required && n < MAX_REQUIRED :: n in seen;
  }

  /** pb_decode: into a struct set to the defaults. */
  method Decode(s: IStream, d: Descriptor) returns (ok: bool, r: Value)
    requires s.Ok() && WellFormed(d)
    modifies s
    ensures ShapedMessage(d, DefaultMessage(d))
    ensures s.Ok() && s.left <= old(s.left) && s.End() <= old(s.End()) && (ok ==> s.End() == old(s.End()))
    ensures (if ok then Some((r, s.Remaining())) else None) == MessageIn(d, DefaultMessage(d), old(s.Remaining()))
    decreases d, 2
  {
    DefaultMessageIsShaped(d);
    ok, r := DecodeNoInit(s, d, DefaultMessage(d));
  }
}
