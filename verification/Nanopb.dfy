/** Messages, field descriptors and the wire format of nanopb (pb.h, pb_common.c, pb_encode.c): statically
    allocated fields without callbacks or extensions, with 32-bit field sizes (PB_FIELD_32BIT). */
module Nanopb {
  import opened Entries
  import opened Encodings
  import opened Wire

  // ----- Descriptors and messages -----

  /** PB_HTYPE. An optional field without has_ is a proto3 singular field; a repeated field without _count has a
      fixed count; the members of a oneof share a union and a which_ tag. */
  datatype Rule = Required | Optional(hasFlag: bool) | Repeated(counted: bool) | Oneof(group: nat)

  /** PB_LTYPE, with the descriptor of a submessage in its place. */
  datatype Kind =
    | Bool | Int | UInt | SInt | Fixed32 | Fixed64 | Blobs | Text | Submessage(fields: Descriptor) | FixedBlob

  /** pb_field_t. `init` is the default the initializer copies, for fields that are no submessages. */
  datatype Field = Field(tag: nat, rule: Rule, kind: Kind, dataSize: nat, arraySize: nat, init: Value)

  datatype Descriptor = Descriptor(fields: seq<Field>)

  /** A char array is represented by the characters before its terminator. */
  datatype Value = Num(n: int) | Blob(bytes: Bytes) | Message(slots: seq<Slot>, unions: map<nat, Choice>)

  /** The members of a struct that belong to one field; Shared stands for a union member. */
  datatype Slot = Single(value: Value) | Maybe(has: bool, value: Value) | Items(values: seq<Value>) | Shared

  /** A union with its which_ tag; no choice is the same as which_ == 0. */
  datatype Choice = Choice(which: nat, value: Value)

  /** offsetof(pb_bytes_array_t, bytes). */
  const BYTES_OFFSET: nat := 4

  predicate Packable(k: Kind) {
    k.Bool? || k.Int? || k.UInt? || k.SInt? || k.Fixed32? || k.Fixed64?
  }

  predicate HasWidth(f: Field) {
    f.dataSize == 1 || f.dataSize == 2 || f.dataSize == 4 || f.dataSize == 8
  }

  /** Half the range of an integer field of this size. */
  function Half(size: nat): (r: nat)
    ensures 0 < r <= 0x8000_0000_0000_0000
  {
    if size == 1 then 0x80 else if size == 2 then 0x8000 else if size == 4 then 0x8000_0000
    else 0x8000_0000_0000_0000
  }

  /** What the C types guarantee. */
  predicate Shaped(f: Field, v: Value)
    decreases f, 0
  {
    match f.kind
    case Bool => v == Num(0) || v == Num(1)
    case Int => v.Num? && 0 - Half(f.dataSize) <= v.n < Half(f.dataSize)
    case SInt => v.Num? && 0 - Half(f.dataSize) <= v.n < Half(f.dataSize)
    case UInt => v.Num? && 0 <= v.n < 2 * Half(f.dataSize)
    case Fixed32 => v.Num? && 0 <= v.n < MAX32
    case Fixed64 => v.Num? && 0 <= v.n < MAX64
    case Blobs => v.Blob?
    case Text => v.Blob? && |v.bytes| <= f.dataSize && forall b | b in v.bytes :: b != 0
    case FixedBlob => v.Blob? && |v.bytes| == f.dataSize
    case Submessage(d) => ShapedMessage(d, v)
  }

  predicate ShapedMessage(d: Descriptor, m: Value)
    decreases d, 0
  {
    m.Message? && |m.slots| == |d.fields| &&
    forall i | 0 <= i < |d.fields| :: ShapedSlot(d.fields[i], m.slots[i], m.unions)
  }

  predicate ShapedSlot(f: Field, slot: Slot, unions: map<nat, Choice>)
    decreases f, 1
  {
    match f.rule
    case Required => slot.Single? && Shaped(f, slot.value)
    case Optional(hasFlag) => (if hasFlag then slot.Maybe? else slot.Single?) && Shaped(f, slot.value)
    case Repeated(counted) =>
      slot.Items? && (forall v | v in slot.values :: Shaped(f, v)) && (!counted ==> |slot.values| == f.arraySize)
    case Oneof(g) => slot.Shared? && (Chosen(f, unions) ==> Shaped(f, unions[g].value))
  }

  predicate Chosen(f: Field, unions: map<nat, Choice>) {
    f.rule.Oneof? && f.rule.group in unions && unions[f.rule.group].which == f.tag
  }

  /** Distinct field numbers in the range of the wire format, and defaults of the right type. */
  predicate WellFormed(d: Descriptor)
    decreases d
  {
    (forall i, j | 0 <= i < j < |d.fields| :: d.fields[i].tag != d.fields[j].tag) &&
    forall i | 0 <= i < |d.fields| :: WellFormedField(d.fields[i])
  }

  predicate WellFormedField(f: Field)
    decreases f
  {
    0 < f.tag < 0x2000_0000 &&
    match f.kind
    case Submessage(d) => WellFormed(d)
    case _ => Shaped(f, f.init)
  }

  // ----- Defaults -----

  /** pb_field_set_to_default; the contents of arrays and unions are not looked at before they are written. */
  function DefaultValue(f: Field): Value
    decreases f, 0
  {
    match f.kind
    case Submessage(d) => DefaultMessage(d)
    case _ => f.init
  }

  function DefaultMessage(d: Descriptor): (m: Value)
    ensures m.Message? && |m.slots| == |d.fields| && m.unions == map[]
    ensures forall i | 0 <= i < |d.fields| :: m.slots[i] == DefaultSlot(d.fields[i])
    decreases d, 0
  {
    Message(seq(|d.fields|, i requires 0 <= i < |d.fields| => DefaultSlot(d.fields[i])), map[])
  }

  function DefaultSlot(f: Field): Slot
    decreases f, 1
  {
    match f.rule
    case Required => Single(DefaultValue(f))
    case Optional(hasFlag) => if hasFlag then Maybe(false, DefaultValue(f)) else Single(DefaultValue(f))
    case Repeated(counted) => if counted then Items([]) else Items(seq(f.arraySize, _ => DefaultValue(f)))
    case Oneof(_) => Shared
  }

  /** pb_check_proto3_default_value, for the data of one field... */
  predicate IsZero(f: Field, v: Value)
    requires Shaped(f, v)
    decreases f, 0
  {
    match f.kind
    case Blobs => v.bytes == []
    case Text => v.bytes == []
    case FixedBlob => f.dataSize == 0
    case Submessage(d) => IsZeroMessage(d, v)
    case _ => v.n == 0
  }

  predicate IsZeroMessage(d: Descriptor, m: Value)
    requires ShapedMessage(d, m)
    decreases d, 0
  {
    forall i | 0 <= i < |d.fields| :: IsZeroSlot(d.fields[i], m.slots[i], m.unions)
  }

  /** ... and for a field within a submessage. */
  predicate IsZeroSlot(f: Field, slot: Slot, unions: map<nat, Choice>)
    requires ShapedSlot(f, slot, unions)
    decreases f, 1
  {
    match f.rule
    case Required => false
    case Optional(hasFlag) => if hasFlag then !slot.has else IsZero(f, slot.value)
    case Repeated(counted) => counted && slot.values == []
    case Oneof(g) => g !in unions || unions[g].which == 0
  }

  // ----- The wire format -----

  /** pb_wire_type_t. */
  const WT_VARINT: nat := 0
  const WT_64BIT: nat := 1
  const WT_STRING: nat := 2
  const WT_32BIT: nat := 5

  function WireType(k: Kind): nat {
    match k
    case Bool => WT_VARINT
    case Int => WT_VARINT
    case UInt => WT_VARINT
    case SInt => WT_VARINT
    case Fixed32 => WT_32BIT
    case Fixed64 => WT_64BIT
    case _ => WT_STRING
  }

  function TagBytes(tag: nat, wireType: nat): Bytes {
    Varint(tag * 8 + wireType)
  }

  function Cat(a: Option<Bytes>, b: Option<Bytes>): Option<Bytes> {
    if a.Some? && b.Some? then Some(a.value + b.value) else None
  }

  /** Length-delimited bytes; a length is a size_t. */
  function Delimited(b: Option<Bytes>): Option<Bytes> {
    if b.Some? && |b.value| < MAX64 then Some(Varint(|b.value|) + b.value) else None
  }

  /** The payload of one value; None where the encoder reports an error. */
  function ValueBytes(f: Field, v: Value): Option<Bytes>
    requires Shaped(f, v)
    decreases f, 0
  {
    match f.kind
    case Bool => Some(Varint(v.n))
    case Int => if HasWidth(f) then Some(Varint(Unsigned64(v.n))) else None
    case UInt => if HasWidth(f) then Some(Varint(v.n)) else None
    case SInt => if HasWidth(f) then Some(Varint(ZigZag(v.n))) else None
    case Fixed32 => Some(Little(v.n, 4))
    case Fixed64 => Some(Little(v.n, 8))
    case Blobs => if |v.bytes| + BYTES_OFFSET > f.dataSize then None else Delimited(Some(v.bytes))
    case Text => Delimited(Some(v.bytes))
    case FixedBlob => Delimited(Some(v.bytes))
    case Submessage(d) => Delimited(MessageBytes(d, v, 0))
  }

  function PackedBytes(f: Field, vs: seq<Value>): Option<Bytes>
    requires forall v | v in vs :: Shaped(f, v)
    decreases f, 1, |vs|
  {
    if vs == [] then Some([]) else Cat(ValueBytes(f, vs[0]), PackedBytes(f, vs[1..]))
  }

  function Tagged(f: Field, v: Value): Option<Bytes>
    requires Shaped(f, v)
    decreases f, 1, 0
  {
    Cat(Some(TagBytes(f.tag, WireType(f.kind))), ValueBytes(f, v))
  }

  /** The values a field writes, in order. */
  function Present(f: Field, slot: Slot, unions: map<nat, Choice>): (r: seq<Value>)
    requires ShapedSlot(f, slot, unions)
    ensures forall v | v in r :: Shaped(f, v)
  {
    match f.rule
    case Required => [slot.value]
    case Optional(hasFlag) => if (if hasFlag then slot.has else !IsZero(f, slot.value)) then [slot.value] else []
    case Repeated(_) => slot.values
    case Oneof(g) => if Chosen(f, unions) then [unions[g].value] else []
  }

  predicate IsPacked(f: Field) {
    f.rule.Repeated? && Packable(f.kind)
  }

  /** A field's records: all values behind one tag when packed, a tag before each otherwise. */
  function RecordsBytes(f: Field, vs: seq<Value>): Option<Bytes>
    requires forall v | v in vs :: Shaped(f, v)
    decreases f, 2, |vs|
  {
    if vs == [] then Some([])
    else if IsPacked(f) then Cat(Some(TagBytes(f.tag, WT_STRING)), Delimited(PackedBytes(f, vs)))
    else Cat(Tagged(f, vs[0]), RecordsBytes(f, vs[1..]))
  }

  predicate TooMany(f: Field, vs: seq<Value>) {
    f.rule.Repeated? && |vs| > f.arraySize
  }

  /** The fields from i on. */
  function MessageBytes(d: Descriptor, m: Value, i: nat): Option<Bytes>
    requires ShapedMessage(d, m) && i <= |d.fields|
    decreases d, |d.fields| - i
  {
    if i == |d.fields| then Some([])
    else
      var f := d.fields[i];
      var vs := Present(f, m.slots[i], m.unions);
      if TooMany(f, vs) then None else Cat(RecordsBytes(f, vs), MessageBytes(d, m, i + 1))
  }

  // ----- Walking the fields -----

  function RequiredBefore(d: Descriptor, n: nat): (r: nat)
    requires n <= |d.fields|
    ensures r <= n
  {
    if n == 0 then 0 else RequiredBefore(d, n - 1) + if d.fields[n - 1].rule.Required? then 1 else 0
  }

  /** pb_field_iter_t. */
  class FieldIter {
    const d: Descriptor
    var pos: nat
    var requiredIndex: nat

    ghost predicate Ok()
      reads this
    {
      pos <= |d.fields| && (d.fields != [] ==> pos < |d.fields|) && requiredIndex == RequiredBefore(d, pos)
    }

    /** pb_field_iter_begin; an empty message type has no field to stand on. */
    constructor (d: Descriptor)
      ensures Ok() && this.d == d && pos == 0
    {
      this.d, pos, requiredIndex := d, 0, 0;
    }

    /** pb_field_iter_next: at the end it goes back to the first field. */
    method Next() returns (more: bool)
      requires Ok()
      modifies this
      ensures Ok() && more == (old(pos) + 1 < |d.fields|) && pos == if more then old(pos) + 1 else 0
    {
      if d.fields == [] {
        return false;
      }
      var previous := d.fields[pos];
      pos := pos + 1;
      if pos == |d.fields| {
        pos, requiredIndex := 0, 0;
        return false;
      }
      if previous.rule.Required? {
        requiredIndex := requiredIndex + 1;
      }
      more := true;
    }

    /** pb_field_iter_find: once around, from where the iterator stands. */
    method Find(tag: nat) returns (found: bool)
      requires Ok()
      modifies this
      ensures Ok() && (found ==> pos < |d.fields| && d.fields[pos].tag == tag)
      ensures !found ==> forall i | 0 <= i < |d.fields| :: d.fields[i].tag != tag
    {
      if d.fields == [] {
        return false;
      }
      var start := pos;
      ghost var left := |d.fields|;
      while true
        invariant Ok() && start < |d.fields| && 0 < left <= |d.fields|
        invariant pos == if start + (|d.fields| - left) < |d.fields| then start + (|d.fields| - left) else start - left
        invariant forall i | 0 <= i < |d.fields| && (if pos >= start then start <= i < pos else i < pos || i >= start) ::
          d.fields[i].tag != tag
        decreases left
      {
        if d.fields[pos].tag == tag {
          return true;
        }
        left := left - 1;
        var more := Next();
        if pos == start {
          break;
        }
      }
      found := false;
    }
  }
}
