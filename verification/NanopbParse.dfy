/** What the nanopb decoder makes of any bytes (pb_decode.c), as functions of the bytes: the value decoded and the bytes
    behind it, or None where the decoder reports an error. */
module NanopbParse {
  import opened Entries
  import opened Encodings
  import opened Wire
  import opened Nanopb
  import opened WireFormat

  // ----- Tags and lengths -----

  datatype Tag = Tag(wire: nat, number: nat, rest: Bytes) | EndTag(rest: Bytes) | NoTag

  /** A tag; a zero ends the message. */
  function TagIn(b: Bytes): (r: Tag)
    ensures !r.NoTag? ==> |r.rest| < |b|
  {
    var v := Varint32In(b);
    if v.None? then NoTag
    else if v.value.0 == 0 then EndTag(v.value.1)
    else Tag(v.value.0 % 8, v.value.0 / 8, v.value.1)
  }

  /** Bytes behind their length, and the rest. */
  function SubIn(b: Bytes): (r: Option<(Bytes, Bytes)>)
    ensures r.Some? ==> |r.value.0| + |r.value.1| < |b|
  {
    var n := Varint32In(b);
    if n.None? || |n.value.1| < n.value.0 then None else Some((n.value.1[..n.value.0], n.value.1[n.value.0..]))
  }

  /** What is left behind a payload of this type that is skipped. */
  function SkipIn(b: Bytes, wire: nat): (r: Option<Bytes>)
    ensures r.Some? ==> |r.value| < |b|
  {
    if wire == WT_STRING then
      var s := SubIn(b);
      if s.Some? then Some(s.value.1) else None
    else
      var end := PayloadEnd(wire, b);
      if end.Some? then Some(b[end.value..]) else None
  }

  // ----- Scalars, bytes and strings -----

  predicate IsInteger(k: Kind) {
    k.Int? || k.SInt? || k.UInt?
  }

  /** v modulo the range of an integer of this many bytes. */
  function Modulo(v: int, size: nat): (r: nat)
    ensures r < 2 * Half(size) && (0 <= v < 2 * Half(size) ==> r == v)
  {
    if size == 1 then v % 0x100 else if size == 2 then v % 0x1_0000 else if size == 4 then v % 0x1_0000_0000
    else v % 0x1_0000_0000_0000_0000
  }

  /** The cast to a signed type of this many bytes. */
  function Cast(v: int, size: nat): (r: int)
    ensures 0 - Half(size) <= r < Half(size)
    ensures 0 - Half(size) <= v < Half(size) ==> r == v
  {
    Modulo(v + Half(size), size) - Half(size)
  }

  function CString(b: Bytes): (r: Bytes)
    ensures |r| <= |b| && forall x | x in r :: x != 0
    ensures (forall x | x in b :: x != 0) ==> r == b
  {
    assert b != [] ==> b[0] in b && b == [b[0]] + b[1..] && forall x | x in b[1..] :: x in b;
    if b == [] || b[0] == 0 then []
    else [b[0]] + CString(b[1..])
  }

  /** pb_dec_varint, pb_dec_uvarint and pb_dec_svarint after the varint: the number must fit the field. */
  function Narrowed(f: Field, value: int): (r: Option<int>)
    ensures r.Some? ==> r.value == value
    ensures r.Some? && IsInteger(f.kind) ==> Shaped(f, Num(r.value))
  {
    var clamped := if f.kind.UInt? then Modulo(value, f.dataSize) else Cast(value, f.dataSize);
    if HasWidth(f) && clamped == value then Some(clamped) else None
  }

  /** What pb_dec_varint makes of the 64 bits: short fields take the low 32 as a signed number. */
  function Widened(f: Field, bits: nat): int
    requires bits < MAX64
  {
    if f.dataSize == 8 then Signed64(bits) else Cast(bits, 4)
  }

  /** The number before it is narrowed. */
  function WideIn(f: Field, b: Bytes): (r: Option<(int, Bytes)>)
    requires IsInteger(f.kind)
    ensures r.Some? ==> |r.value.1| < |b|
  {
    if f.kind.SInt? then SVarintIn(b)
    else
      var n := VarintIn(b);
      if n.None? then None
      else Some((if f.kind.UInt? then n.value.0 else Widened(f, n.value.0), n.value.1))
  }

  function IntegerIn(f: Field, b: Bytes): (r: Option<(int, Bytes)>)
    requires IsInteger(f.kind)
    ensures r.Some? ==> Shaped(f, Num(r.value.0)) && |r.value.1| < |b|
  {
    var wide := WideIn(f, b);
    if wide.None? then None
    else
      var n := Narrowed(f, wide.value.0);
      if n.None? then None else Some((n.value, wide.value.1))
  }

  predicate IsBlob(k: Kind) {
    k.Blobs? || k.Text? || k.FixedBlob?
  }

  /** There is room for this many bytes in the field: behind the size of a bytes array, in front of the terminator of a
      string, or exactly. */
  predicate HasRoom(f: Field, size: nat) {
    if f.kind.Blobs? then size + BYTES_OFFSET <= f.dataSize
    else if f.kind.Text? then size + 1 <= f.dataSize
    else size == f.dataSize
  }

  /** No bytes at all stand for a fixed-length field of zeros; a string ends at its first zero. */
  function BlobIn(f: Field, b: Bytes): (r: Option<(Bytes, Bytes)>)
    requires IsBlob(f.kind)
    ensures r.Some? ==> Shaped(f, Blob(r.value.0)) && |r.value.1| < |b|
  {
    var n := Varint32In(b);
    if n.None? then None
    else
      var size, rest := n.value.0, n.value.1;
      if f.kind.FixedBlob? && size == 0 then Some((seq(f.dataSize, _ => 0 as Byte), rest))
      else if !HasRoom(f, size) || |rest| < size then None
      else Some((if f.kind.Text? then CString(rest[..size]) else rest[..size], rest[size..]))
  }

  /** Any field but a submessage. */
  function LeafIn(f: Field, b: Bytes): (r: Option<(Value, Bytes)>)
    requires !f.kind.Submessage?
    ensures r.Some? ==> Shaped(f, r.value.0) && |r.value.1| <= |b|
  {
    Pow256Values();
    if IsInteger(f.kind) then
      var n := IntegerIn(f, b);
      if n.Some? then Some((Num(n.value.0), n.value.1)) else None
    else if IsBlob(f.kind) then
      var s := BlobIn(f, b);
      if s.Some? then Some((Blob(s.value.0), s.value.1)) else None
    else if f.kind.Bool? then
      var n := Varint32In(b);
      if n.Some? then Some((Num(if n.value.0 != 0 then 1 else 0), n.value.1)) else None
    else
      var n := FixedIn(b, if f.kind.Fixed32? then 4 else 8);
      if n.Some? then Some((Num(n.value.0), n.value.1)) else None
  }

  // ----- Arrays -----

  ghost predicate AllShaped(f: Field, vs: seq<Value>) {
    forall v | v in vs :: Shaped(f, v)
  }

  /** Storing an array element: in place if the array has a fixed count, behind the last one otherwise. */
  function Put(items: seq<Value>, size: nat, v: Value): (r: seq<Value>)
    ensures |r| == if size < |items| then |items| else |items| + 1
  {
    if size < |items| then items[size := v] else items + [v]
  }

  /** The elements of a packed array: all of the bytes, or none. */
  function PackedIn(f: Field, b: Bytes, items: seq<Value>, size: nat): (r: Option<(seq<Value>, nat)>)
    requires Packable(f.kind) && AllShaped(f, items)
    ensures r.Some? ==> AllShaped(f, r.value.0) && (f.rule.Repeated? && !f.rule.counted && |items| == f.arraySize ==> |r.value.0| == f.arraySize)
    decreases f.arraySize - size
  {
    if b == [] then Some((items, size))
    else if size >= f.arraySize then None
    else
      var v := LeafIn(f, b);
      if v.None? then None else PackedIn(f, v.value.1, Put(items, size, v.value.0), size + 1)
  }

  predicate FixedCount(f: Field) {
    f.rule.Repeated? && !f.rule.counted
  }

  /** PB_MAX_REQUIRED_FIELDS. */
  const MAX_REQUIRED: nat := 64

  // ----- Fields -----

  lemma {:induction false} DefaultIsShaped(f: Field)
    requires WellFormedField(f)
    ensures Shaped(f, DefaultValue(f)) && ShapedSlot(f, DefaultSlot(f), map[])
    decreases f, 0
  {
    match f.kind {
      case Submessage(d) => DefaultMessageIsShaped(d);
      case _ =>
    }
  }

  lemma {:induction false} DefaultMessageIsShaped(d: Descriptor)
    requires WellFormed(d)
    ensures ShapedMessage(d, DefaultMessage(d))
    decreases d, 0
  {
    forall i | 0 <= i < |d.fields|
      ensures ShapedSlot(d.fields[i], DefaultSlot(d.fields[i]), map[])
    {
      DefaultIsShaped(d.fields[i]);
    }
  }

  /** A field may only choose itself in its own union. */
  predicate OnlyOwnUnion(f: Field, unions: map<nat, Choice>, unions': map<nat, Choice>) {
    unions' == unions ||
    (f.rule.Oneof? && f.rule.group in unions' && unions'[f.rule.group].which == f.tag &&
     unions' == unions[f.rule.group := unions'[f.rule.group]])
  }

  /** A field decoded: its slot, the unions, how many elements of an array with a fixed count there are, and the bytes
      behind. */
  datatype Taken = Taken(slot: Slot, unions: map<nat, Choice>, fixedSize: nat, rest: Bytes)

  /** One value; submessages go on from `dest`, but array entries from the defaults. */
  function ValueIn(f: Field, dest: Value, b: Bytes): (r: Option<(Value, Bytes)>)
    requires WellFormedField(f) && (f.kind.Submessage? ==> Shaped(f, dest))
    ensures r.Some? ==> Shaped(f, r.value.0) && |r.value.1| <= |b|
    decreases f, 1
  {
    if !f.kind.Submessage? then LeafIn(f, b)
    else
      var d, sub := f.kind.fields, SubIn(b);
      if sub.None? then None
      else
        DefaultMessageIsShaped(d);
        var m := MessageIn(d, if f.rule.Repeated? then DefaultMessage(d) else dest, sub.value.0);
        if m.None? then None else Some((m.value.0, sub.value.1))
  }

  /** A packed array behind its length, or one more element; never more than the array holds. */
  function ElementsIn(f: Field, wire: nat, items: seq<Value>, fixedSize: nat, b: Bytes): (r: Option<Taken>)
    requires WellFormedField(f) && f.rule.Repeated? && AllShaped(f, items) && (!f.rule.counted ==> |items| == f.arraySize)
    ensures r.Some? ==> ShapedSlot(f, r.value.slot, map[]) && |r.value.rest| <= |b|
    decreases f, 2
  {
    var size := if f.rule.counted then |items| else fixedSize;
    if wire == WT_STRING && Packable(f.kind) then
      var sub := SubIn(b);
      if sub.None? then None
      else
        var r := PackedIn(f, sub.value.0, items, size);
        if r.None? then None else Some(Taken(Items(r.value.0), map[], r.value.1, sub.value.1))
    else if size >= f.arraySize then None
    else
      DefaultIsShaped(f);
      var v := ValueIn(f, DefaultValue(f), b);
      if v.None? then None else Some(Taken(Items(Put(items, size, v.value.0)), map[], size + 1, v.value.1))
  }

  function FieldIn(f: Field, wire: nat, slot: Slot, unions: map<nat, Choice>, fixedSize: nat, b: Bytes): (r: Option<Taken>)
    requires WellFormedField(f) && ShapedSlot(f, slot, unions)
    ensures r.Some? ==>
      ShapedSlot(f, r.value.slot, r.value.unions) && OnlyOwnUnion(f, unions, r.value.unions) && |r.value.rest| <= |b|
    decreases f, 3
  {
    match f.rule
    case Required =>
      var v := ValueIn(f, slot.value, b);
      if v.None? then None else Some(Taken(Single(v.value.0), unions, fixedSize, v.value.1))
    case Optional(hasFlag) =>
      var v := ValueIn(f, slot.value, b);
      if v.None? then None
      else Some(Taken(if hasFlag then Maybe(true, v.value.0) else Single(v.value.0), unions, fixedSize, v.value.1))
    case Repeated(_) =>
      var r := ElementsIn(f, wire, slot.values, fixedSize, b);
      if r.None? then None else Some(r.value.(unions := unions))
    case Oneof(g) =>
      DefaultIsShaped(f);
      var v := ValueIn(f, if Chosen(f, unions) then unions[g].value else DefaultValue(f), b);
      if v.None? then None else Some(Taken(slot, unions[g := Choice(f.tag, v.value.0)], fixedSize, v.value.1))
  }

  // ----- Messages -----

  /** Between two records: the struct so far, the required fields seen, and the array with a fixed count last met, with its
      number of elements. */
  datatype State = State(r: Value, seen: set<nat>, fixedField: Option<nat>, fixedSize: nat)

  ghost predicate Sane(d: Descriptor, s: State) {
    ShapedMessage(d, s.r) && (s.fixedField.Some? ==> s.fixedField.value < |d.fields|)
  }

  /** The field of this number. */
  function FieldAt(d: Descriptor, number: nat, n: nat): (r: Option<nat>)
    requires n <= |d.fields|
    ensures r.Some? ==> r.value < n && d.fields[r.value].tag == number
    ensures r.None? ==> forall i | 0 <= i < n :: d.fields[i].tag != number
  {
    if n == 0 then None else if d.fields[n - 1].tag == number then Some(n - 1) else FieldAt(d, number, n - 1)
  }

  lemma ReplaceShaped(d: Descriptor, r: Value, i: nat, slot: Slot, unions: map<nat, Choice>)
    requires WellFormed(d) && ShapedMessage(d, r) && i < |d.fields|
    requires ShapedSlot(d.fields[i], slot, unions) && OnlyOwnUnion(d.fields[i], r.unions, unions)
    ensures ShapedMessage(d, Message(r.slots[i := slot], unions))
  {
    hide Shaped;
    forall k | 0 <= k < |d.fields| && k != i
      ensures ShapedSlot(d.fields[k], r.slots[k], unions)
    {
      assert ShapedSlot(d.fields[k], r.slots[k], r.unions);
      assert Chosen(d.fields[k], unions) ==> Chosen(d.fields[k], r.unions);
    }
  }

  /** The array with a fixed count last met has all of its elements. */
  predicate FixedFull(d: Descriptor, s: State)
    requires s.fixedField.Some? ==> s.fixedField.value < |d.fields|
  {
    s.fixedField.Some? ==> s.fixedSize == d.fields[s.fixedField.value].arraySize
  }

  /** A record of field `pos`. Before another array with a fixed count starts, the last one must be full. */
  function KnownIn(d: Descriptor, pos: nat, wire: nat, s: State, b: Bytes): (r: Option<(State, Bytes)>)
    requires WellFormed(d) && Sane(d, s) && pos < |d.fields|
    ensures r.Some? ==> Sane(d, r.value.0) && |r.value.1| <= |b|
    decreases d, 0
  {
    var f := d.fields[pos];
    var starts := FixedCount(f) && s.fixedField != Some(pos);
    if starts && !FixedFull(d, s) then None
    else
      assert ShapedSlot(f, s.r.slots[pos], s.r.unions);
      var t := FieldIn(f, wire, s.r.slots[pos], s.r.unions, if starts then 0 else s.fixedSize, b);
      if t.None? then None
      else
        ReplaceShaped(d, s.r, pos, t.value.slot, t.value.unions);
        Some((State(Message(s.r.slots[pos := t.value.slot], t.value.unions),
                    if f.rule.Required? && RequiredBefore(d, pos) < MAX_REQUIRED then s.seen + {RequiredBefore(d, pos)}
                    else s.seen,
                    if FixedCount(f) then Some(pos) else s.fixedField,
                    if FixedCount(f) then t.value.fixedSize else s.fixedSize), t.value.rest))
  }

  /** A record of an unknown field is skipped. */
  function RecordIn(d: Descriptor, wire: nat, number: nat, s: State, b: Bytes): (r: Option<(State, Bytes)>)
    requires WellFormed(d) && Sane(d, s)
    ensures r.Some? ==> Sane(d, r.value.0) && |r.value.1| <= |b|
    decreases d, 1
  {
    var pos := FieldAt(d, number, |d.fields|);
    if pos.Some? then KnownIn(d, pos.value, wire, s, b)
    else
      var rest := SkipIn(b, wire);
      if rest.None? then None else Some((s, rest.value))
  }

  function RecordsIn(d: Descriptor, s: State, b: Bytes): (r: Option<(State, Bytes)>)
    requires WellFormed(d) && Sane(d, s)
    ensures r.Some? ==> Sane(d, r.value.0) && |r.value.1| <= |b|
    decreases d, 2, |b|
  {
    if b == [] then Some((s, b))
    else
      var t := TagIn(b);
      if t.NoTag? then None
      else if t.EndTag? then Some((s, t.rest))
      else
        var r := RecordIn(d, t.wire, t.number, s, t.rest);
        if r.None? then None else RecordsIn(d, r.value.0, r.value.1)
  }

  /** All required fields of the first 64 were seen. */
  predicate AllSeen(d: Descriptor, seen: set<nat>) {
    forall n | 0 <= n < RequiredBefore(d, |d.fields|) && n < MAX_REQUIRED :: n in seen
  }

  /** The last array with a fixed count is full, and all required fields were seen. */
  function Checked(d: Descriptor, r: Option<(State, Bytes)>): Option<(Value, Bytes)>
    requires r.Some? ==> Sane(d, r.value.0)
  {
    if r.Some? && FixedFull(d, r.value.0) && AllSeen(d, r.value.0.seen) then Some((r.value.0.r, r.value.1)) else None
  }

  /** A whole message, into a struct that holds `dest`. */
  function MessageIn(d: Descriptor, dest: Value, b: Bytes): (r: Option<(Value, Bytes)>)
    requires WellFormed(d) && ShapedMessage(d, dest)
    ensures r.Some? ==> ShapedMessage(d, r.value.0) && |r.value.1| <= |b|
    decreases d, 3
  {
    Checked(d, RecordsIn(d, State(dest, {}, None, 0), b))
  }
}
