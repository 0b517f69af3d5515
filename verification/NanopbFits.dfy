/** Static allocation: whatever bytes the decoder of nanopb is given, what it stores fits the memory of its field. */
module NanopbFits {
  import opened Entries
  import opened Encodings
  import opened Wire
  import opened Nanopb
  import opened NanopbParse
  import NanopbDecode

  // ----- What fits -----

  /** A bytes array holds its size in front of its bytes, a char array a terminator behind its characters; an array has room
      for arraySize elements. */
  predicate Fits(f: Field, v: Value)
    requires Shaped(f, v)
    decreases f, 0
  {
    match f.kind
    case Blobs => 4 + |v.bytes| <= f.dataSize
    case Text => |v.bytes| + 1 <= f.dataSize
    case FixedBlob => |v.bytes| == f.dataSize
    case Submessage(d) => FitsMessage(d, v)
    case _ => true
  }

  predicate FitsMessage(d: Descriptor, m: Value)
    requires ShapedMessage(d, m)
    decreases d, 0
  {
    forall i | 0 <= i < |d.fields| ::
      ShapedSlot(d.fields[i], m.slots[i], m.unions) && FitsSlot(d.fields[i], m.slots[i], m.unions)
  }

  predicate FitsSlot(f: Field, slot: Slot, unions: map<nat, Choice>)
    requires ShapedSlot(f, slot, unions)
    decreases f, 1
  {
    match f.rule
    case Required => Fits(f, slot.value)
    case Optional(_) => Fits(f, slot.value)
    case Repeated(_) => |slot.values| <= f.arraySize && forall v | v in slot.values :: Fits(f, v)
    case Oneof(g) => Chosen(f, unions) ==> Fits(f, unions[g].value)
  }

  /** The defaults fit, in every submessage. */
  predicate DefaultsFit(d: Descriptor)
    decreases d
  {
    forall i | 0 <= i < |d.fields| :: DefaultFits(d.fields[i])
  }

  predicate DefaultFits(f: Field)
    decreases f
  {
    match f.kind
    case Submessage(d) => DefaultsFit(d)
    case _ => Shaped(f, f.init) && Fits(f, f.init)
  }

  lemma {:induction false} DefaultIsFit(f: Field)
    requires WellFormedField(f) && DefaultFits(f)
    ensures Shaped(f, DefaultValue(f)) && Fits(f, DefaultValue(f))
    ensures ShapedSlot(f, DefaultSlot(f), map[]) && FitsSlot(f, DefaultSlot(f), map[])
    decreases f, 0
  {
    DefaultIsShaped(f);
    if f.kind.Submessage? {
      DefaultMessageIsFit(f.kind.fields);
    }
  }

  lemma {:induction false} DefaultMessageIsFit(d: Descriptor)
    requires WellFormed(d) && DefaultsFit(d)
    ensures ShapedMessage(d, DefaultMessage(d)) && FitsMessage(d, DefaultMessage(d))
    decreases d, 0
  {
    hide FitsSlot, ShapedSlot, WellFormedField, DefaultFits;
    DefaultMessageIsShaped(d);
    forall i | 0 <= i < |d.fields|
      ensures ShapedSlot(d.fields[i], DefaultSlot(d.fields[i]), map[])
      ensures FitsSlot(d.fields[i], DefaultSlot(d.fields[i]), map[])
    {
      assert WellFormedField(d.fields[i]) && DefaultFits(d.fields[i]);
      DefaultIsFit(d.fields[i]);
    }
  }

  // ----- One record -----

  lemma LeafFits(f: Field, b: Bytes)
    requires !f.kind.Submessage? && LeafIn(f, b).Some?
    ensures Fits(f, LeafIn(f, b).value.0)
  {
    hide Varint32In, FixedIn, IntegerIn, CString;
  }

  predicate AllFit(f: Field, vs: seq<Value>) {
    forall v | v in vs :: Shaped(f, v) && Fits(f, v)
  }

  lemma PutFits(f: Field, items: seq<Value>, size: nat, v: Value)
    requires AllFit(f, items) && |items| <= f.arraySize && size < f.arraySize && Shaped(f, v) && Fits(f, v)
    requires size <= |items|
    ensures AllFit(f, Put(items, size, v)) && size < |Put(items, size, v)| <= f.arraySize
  {
    hide Shaped, Fits;
  }

  lemma {:induction false} PackedFits(f: Field, b: Bytes, items: seq<Value>, size: nat)
    requires Packable(f.kind) && AllShaped(f, items) && PackedIn(f, b, items, size).Some?
    requires AllFit(f, items) && |items| <= f.arraySize && size <= |items|
    ensures var r := PackedIn(f, b, items, size).value;
      AllFit(f, r.0) && |r.0| <= f.arraySize && r.1 <= |r.0|
    decreases f.arraySize - size
  {
    hide LeafIn, Fits, Shaped, Put;
    if b != [] {
      var v := LeafIn(f, b).value;
      LeafFits(f, b);
      PutFits(f, items, size, v.0);
      PackedFits(f, v.1, Put(items, size, v.0), size + 1);
    }
  }

  lemma ValueFits(f: Field, dest: Value, b: Bytes)
    requires WellFormedField(f) && DefaultFits(f) && (f.kind.Submessage? ==> Shaped(f, dest) && Fits(f, dest))
    requires ValueIn(f, dest, b).Some?
    ensures Fits(f, ValueIn(f, dest, b).value.0)
    decreases f, 1
  {
    hide SubIn, MessageIn, LeafIn, FitsMessage, ShapedMessage, DefaultMessage, WellFormed, DefaultsFit;
    if f.kind.Submessage? {
      var d := f.kind.fields;
      DefaultMessageIsFit(d);
      MessageFits(d, if f.rule.Repeated? then DefaultMessage(d) else dest, SubIn(b).value.0);
    } else {
      LeafFits(f, b);
    }
  }

  lemma ElementsFit(f: Field, wire: nat, items: seq<Value>, fixedSize: nat, b: Bytes)
    requires WellFormedField(f) && DefaultFits(f) && f.rule.Repeated? && AllShaped(f, items)
    requires !f.rule.counted ==> |items| == f.arraySize && fixedSize <= f.arraySize
    requires AllFit(f, items) && |items| <= f.arraySize && ElementsIn(f, wire, items, fixedSize, b).Some?
    ensures var t := ElementsIn(f, wire, items, fixedSize, b).value;
      FitsSlot(f, t.slot, map[]) && t.fixedSize <= f.arraySize
    decreases f, 2
  {
    hide SubIn, PackedIn, ValueIn, Fits, Shaped, DefaultValue, WellFormedField, DefaultFits, Put;
    var size := if f.rule.counted then |items| else fixedSize;
    if wire == WT_STRING && Packable(f.kind) {
      PackedFits(f, SubIn(b).value.0, items, size);
    } else {
      DefaultIsFit(f);
      ValueFits(f, DefaultValue(f), b);
      PutFits(f, items, size, ValueIn(f, DefaultValue(f), b).value.0);
    }
  }

  lemma FieldFits(f: Field, wire: nat, slot: Slot, unions: map<nat, Choice>, fixedSize: nat, b: Bytes)
    requires WellFormedField(f) && DefaultFits(f) && ShapedSlot(f, slot, unions) && FitsSlot(f, slot, unions)
    requires FixedCount(f) ==> fixedSize <= f.arraySize
    requires FieldIn(f, wire, slot, unions, fixedSize, b).Some?
    ensures var t := FieldIn(f, wire, slot, unions, fixedSize, b).value;
      FitsSlot(f, t.slot, t.unions) && (FixedCount(f) ==> t.fixedSize <= f.arraySize)
    decreases f, 3
  {
    hide ElementsIn, ValueIn, Fits, Shaped, DefaultValue, WellFormedField, DefaultFits;
    match f.rule
    case Repeated(_) => ElementsFit(f, wire, slot.values, fixedSize, b);
    case Oneof(g) =>
      DefaultIsFit(f);
      ValueFits(f, if Chosen(f, unions) then unions[g].value else DefaultValue(f), b);
    case _ => ValueFits(f, slot.value, b);
  }

  // ----- Messages -----

  /** The struct so far fits, and the count of an array with a fixed count stays within it. */
  ghost predicate FitsState(d: Descriptor, s: State)
    requires Sane(d, s)
  {
    FitsMessage(d, s.r) && (s.fixedField.Some? ==> s.fixedSize <= d.fields[s.fixedField.value].arraySize)
  }

  /** Another field's union choice is not this one's. */
  lemma OthersFit(d: Descriptor, r: Value, pos: nat, slot: Slot, unions: map<nat, Choice>)
    requires WellFormed(d) && ShapedMessage(d, r) && FitsMessage(d, r) && pos < |d.fields|
    requires ShapedSlot(d.fields[pos], slot, unions) && FitsSlot(d.fields[pos], slot, unions)
    requires OnlyOwnUnion(d.fields[pos], r.unions, unions)
    ensures ShapedMessage(d, Message(r.slots[pos := slot], unions)) && FitsMessage(d, Message(r.slots[pos := slot], unions))
  {
    hide Shaped, Fits, WellFormedField;
    ReplaceShaped(d, r, pos, slot, unions);
    forall k | 0 <= k < |d.fields| && k != pos
      ensures ShapedSlot(d.fields[k], r.slots[k], unions) && FitsSlot(d.fields[k], r.slots[k], unions)
    {
      assert ShapedSlot(d.fields[k], r.slots[k], r.unions) && FitsSlot(d.fields[k], r.slots[k], r.unions);
      assert Chosen(d.fields[k], unions) ==> Chosen(d.fields[k], r.unions);
    }
  }

  lemma KnownFits(d: Descriptor, pos: nat, wire: nat, s: State, b: Bytes)
    requires WellFormed(d) && DefaultsFit(d) && Sane(d, s) && FitsState(d, s) && pos < |d.fields|
    requires KnownIn(d, pos, wire, s, b).Some?
    ensures FitsState(d, KnownIn(d, pos, wire, s, b).value.0)
    decreases d, 0
  {
    hide FieldIn, Shaped, Fits, WellFormedField, DefaultFits, OnlyOwnUnion, FitsSlot, ShapedSlot;
    var f := d.fields[pos];
    var size := if FixedCount(f) && s.fixedField != Some(pos) then 0 else s.fixedSize;
    assert WellFormedField(f) && DefaultFits(f);
    assert ShapedSlot(f, s.r.slots[pos], s.r.unions) && FitsSlot(f, s.r.slots[pos], s.r.unions);
    FieldFits(f, wire, s.r.slots[pos], s.r.unions, size, b);
    var t := FieldIn(f, wire, s.r.slots[pos], s.r.unions, size, b).value;
    OthersFit(d, s.r, pos, t.slot, t.unions);
  }

  lemma RecordsFit(d: Descriptor, s: State, b: Bytes)
    requires WellFormed(d) && DefaultsFit(d) && Sane(d, s) && FitsState(d, s) && RecordsIn(d, s, b).Some?
    ensures FitsState(d, RecordsIn(d, s, b).value.0)
    decreases d, 1, |b|
  {
    hide KnownIn, SkipIn, TagIn, FitsState, Sane, WellFormed, DefaultsFit, FieldAt;
    if b != [] {
      var t := TagIn(b);
      if t.Tag? {
        var pos := FieldAt(d, t.number, |d.fields|);
        if pos.Some? {
          KnownFits(d, pos.value, t.wire, s, t.rest);
        }
        var r := RecordIn(d, t.wire, t.number, s, t.rest).value;
        RecordsFit(d, r.0, r.1);
      }
    }
  }

  /** MAIN: whatever the bytes, and whatever fits in the struct before, what is decoded fits. */
  lemma MessageFits(d: Descriptor, dest: Value, b: Bytes)
    requires WellFormed(d) && DefaultsFit(d) && ShapedMessage(d, dest) && FitsMessage(d, dest)
    requires MessageIn(d, dest, b).Some?
    ensures FitsMessage(d, MessageIn(d, dest, b).value.0)
    decreases d, 2
  {
    hide RecordsIn, ShapedMessage, WellFormed, DefaultsFit, FitsMessage;
    RecordsFit(d, State(dest, {}, None, 0), b);
  }

  /** MAIN: pb_decode, on any bytes. */
  method DecodeFits(d: Descriptor, bytes: Bytes) returns (ok: bool, r: Value)
    requires WellFormed(d) && DefaultsFit(d)
    ensures ok ==> ShapedMessage(d, r) && FitsMessage(d, r)
    ensures ShapedMessage(d, DefaultMessage(d))
    ensures ok <==> MessageIn(d, DefaultMessage(d), bytes).Some?
  {
    hide MessageIn, ShapedMessage, WellFormed, DefaultsFit, FitsMessage;
    DefaultMessageIsFit(d);
    var s := new IStream(bytes, 0, |bytes|);
    assert s.Remaining() == bytes;
    ok, r := NanopbDecode.Decode(s, d);
    if ok {
      MessageFits(d, DefaultMessage(d), bytes);
    }
  }
}
