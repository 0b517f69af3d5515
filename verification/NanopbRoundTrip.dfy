/** The round trip of nanopb: what the decoder makes of the records that an encoder sends. */
module NanopbRoundTrip {
  import opened Entries
  import opened Encodings
  import opened Wire
  import opened Nanopb
  import opened WireFormat
  import opened NanopbParse
  import NanopbEncode
  import NanopbDecode

  // ----- What decoding an encoding gives -----

  /** Everything a message writes comes back; what it does not write comes back as the default. */
  function Restored(f: Field, v: Value): Value
    requires Shaped(f, v)
    decreases f, 0
  {
    match f.kind
    case Submessage(d) => RestoredMessage(d, v)
    case _ => v
  }

  function RestoredMessage(d: Descriptor, m: Value): Value
    requires ShapedMessage(d, m)
    decreases d, 2
  {
    Partly(d, m, |d.fields|)
  }

  function RestoredAll(f: Field, vs: seq<Value>): (r: seq<Value>)
    requires forall v | v in vs :: Shaped(f, v)
    ensures |r| == |vs| && forall i | 0 <= i < |vs| :: r[i] == Restored(f, vs[i])
    decreases f, 1
  {
    seq(|vs|, i requires 0 <= i < |vs| => Restored(f, vs[i]))
  }

  function RestoredSlot(f: Field, slot: Slot, unions: map<nat, Choice>): Slot
    requires ShapedSlot(f, slot, unions)
    decreases f, 2
  {
    match f.rule
    case Required => Single(Restored(f, slot.value))
    case Optional(hasFlag) =>
      if Present(f, slot, unions) == [] then DefaultSlot(f)
      else if hasFlag then Maybe(true, Restored(f, slot.value))
      else Single(Restored(f, slot.value))
    case Repeated(_) => Items(RestoredAll(f, slot.values))
    case Oneof(_) => Shared
  }

  /** The unions once the first n fields are decoded: a choice survives if it names one of them. */
  function RestoredUnions(d: Descriptor, m: Value, n: nat): map<nat, Choice>
    requires ShapedMessage(d, m) && n <= |d.fields|
    decreases d, 0, n
  {
    if n == 0 then map[]
    else
      var before, f := RestoredUnions(d, m, n - 1), d.fields[n - 1];
      assert ShapedSlot(f, m.slots[n - 1], m.unions);
      if Chosen(f, m.unions) then before[f.rule.group := Choice(f.tag, Restored(f, m.unions[f.rule.group].value))]
      else before
  }

  /** The struct once the first n fields are decoded. */
  function Partly(d: Descriptor, m: Value, n: nat): (r: Value)
    requires ShapedMessage(d, m) && n <= |d.fields|
    ensures r.Message? && |r.slots| == |d.fields|
    decreases d, 1
  {
    Message(seq(|d.fields|, i requires 0 <= i < |d.fields| =>
                  if i < n then RestoredSlot(d.fields[i], m.slots[i], m.unions) else DefaultSlot(d.fields[i])),
            RestoredUnions(d, m, n))
  }

  /** A char array without a terminator is no C string; the decoder has no room for it. */
  predicate Restorable(f: Field, v: Value)
    requires Shaped(f, v)
    decreases f, 0
  {
    match f.kind
    case Text => |v.bytes| < f.dataSize
    case Submessage(d) => RestorableMessage(d, v)
    case _ => true
  }

  predicate RestorableMessage(d: Descriptor, m: Value)
    requires ShapedMessage(d, m)
    decreases d, 0
  {
    forall i | 0 <= i < |d.fields| ::
      forall v | v in Present(d.fields[i], m.slots[i], m.unions) :: Restorable(d.fields[i], v)
  }

  // ----- One value -----

  /** The stream holds the encoding of v, and then the rest. */
  ghost predicate Holds(bytes: Bytes, f: Field, v: Value, rest: Bytes) {
    Shaped(f, v) && ValueBytes(f, v).Some? && |ValueBytes(f, v).value| < MAX32 &&
    bytes == ValueBytes(f, v).value + rest
  }

  lemma IntRoundTrip(f: Field, v: Value)
    requires f.kind.Int? && Shaped(f, v) && HasWidth(f)
    ensures Narrowed(f, Widened(f, Unsigned64(v.n))) == Some(v.n)
  {
    WidenedSame(f, v.n);
    CastSame(v.n, f.dataSize);
    hide Widened, Cast;
  }

  lemma CastSame(v: int, size: nat)
    requires 0 - Half(size) <= v < Half(size)
    ensures Cast(v, size) == v
  {
  }

  lemma WidenedSame(f: Field, v: int)
    requires HasWidth(f) && 0 - Half(f.dataSize) <= v < Half(f.dataSize)
    ensures Widened(f, Unsigned64(v)) == v
  {
    hide Cast;
    if f.dataSize != 8 {
      CastWraps(v);
      CastSame(v, 4);
    }
  }

  /** Truncating the 64-bit pattern of a small number to 32 bits keeps the number. */
  lemma CastWraps(v: int)
    requires -0x8000_0000 <= v < 0x8000_0000
    ensures Cast(v + MAX64, 4) == v
  {
  }

  lemma NarrowedSame(f: Field, v: Value)
    requires (f.kind.SInt? || f.kind.UInt?) && Shaped(f, v) && HasWidth(f)
    ensures Narrowed(f, v.n) == Some(v.n)
  {
  }

  lemma DelimitedFront(b: Bytes, rest: Bytes)
    requires |b| < MAX64
    ensures Delimited(Some(b)).value + rest == Varint(|b|) + (b + rest)
  {
    hide Varint;
    CatAssociates(Varint(|b|), b, rest);
  }

  lemma CatAssociates(a: Bytes, b: Bytes, c: Bytes)
    ensures a + b + c == a + (b + c)
  {
  }

  lemma TakeFront(b: Bytes, rest: Bytes)
    ensures (b + rest)[..|b|] == b && (b + rest)[|b|..] == rest
  {
  }

  lemma IntegerReads(f: Field, v: Value, rest: Bytes)
    requires IsInteger(f.kind) && Shaped(f, v) && HasWidth(f)
    ensures IntegerIn(f, ValueBytes(f, v).value + rest) == Some((v.n, rest))
  {
    hide Varint, VarintIn, SVarintIn, Narrowed, Widened;
    if f.kind.SInt? {
      SVarintReads(v.n, rest);
      NarrowedSame(f, v);
    } else if f.kind.UInt? {
      VarintReads(v.n, rest);
      NarrowedSame(f, v);
    } else {
      VarintReads(Unsigned64(v.n), rest);
      IntRoundTrip(f, v);
    }
  }

  lemma BlobReads(bytes: Bytes, f: Field, v: Value, rest: Bytes)
    requires IsBlob(f.kind) && Holds(bytes, f, v, rest)
    ensures BlobIn(f, bytes) == if Restorable(f, v) then Some((v.bytes, rest)) else None
  {
    hide Varint, Varint32In, CString;
    var b := v.bytes;
    DelimitedFront(b, rest);
    TakeFront(b, rest);
    Varint32Reads(|b|, b + rest);
    if f.kind.FixedBlob? && b == [] {
      assert seq(f.dataSize, _ => 0 as Byte) == b && [] + rest == rest;
    }
  }

  lemma LeafReads(bytes: Bytes, f: Field, v: Value, rest: Bytes)
    requires !f.kind.Submessage? && Holds(bytes, f, v, rest)
    ensures LeafIn(f, bytes) == if Restorable(f, v) then Some((v, rest)) else None
    ensures Restored(f, v) == v
  {
    hide Varint, Little, Varint32In, FixedIn, IntegerIn, BlobIn;
    Pow256Values();
    if IsInteger(f.kind) {
      IntegerReads(f, v, rest);
    } else if IsBlob(f.kind) {
      BlobReads(bytes, f, v, rest);
    } else if f.kind.Bool? {
      Varint32Reads(v.n, rest);
    } else if f.kind.Fixed32? {
      FixedReads(v.n, 4, rest);
    } else {
      FixedReads(v.n, 8, rest);
    }
  }

  lemma SubReads(b: Bytes, rest: Bytes)
    requires |b| < MAX32
    ensures SubIn(Delimited(Some(b)).value + rest) == Some((b, rest))
  {
    hide Varint, Varint32In;
    DelimitedFront(b, rest);
    TakeFront(b, rest);
    Varint32Reads(|b|, b + rest);
  }

  // ----- Arrays -----

  /** The array once j of its values are decoded. */
  function Filled(f: Field, vs: seq<Value>, j: nat): seq<Value>
    requires f.rule.Repeated? && j <= |vs| && (forall v | v in vs :: Shaped(f, v)) && (!f.rule.counted ==> j <= f.arraySize)
  {
    RestoredAll(f, vs[..j]) + if f.rule.counted then [] else seq(f.arraySize - j, _ => DefaultValue(f))
  }

  lemma FilledStep(f: Field, vs: seq<Value>, j: nat)
    requires f.rule.Repeated? && j < |vs| && j < f.arraySize && forall v | v in vs :: Shaped(f, v)
    ensures Put(Filled(f, vs, j), j, Restored(f, vs[j])) == Filled(f, vs, j + 1)
  {
    hide Restored, DefaultValue;
  }

  lemma FilledSize(f: Field, vs: seq<Value>, j: nat)
    requires f.rule.Repeated? && j <= |vs| && j <= f.arraySize && forall v | v in vs :: Shaped(f, v)
    ensures |Filled(f, vs, j)| == if f.rule.counted then j else f.arraySize
  {
    hide Restored, DefaultValue;
  }

  lemma FilledStarts(f: Field, vs: seq<Value>)
    requires f.rule.Repeated? && forall v | v in vs :: Shaped(f, v)
    ensures Items(Filled(f, vs, 0)) == DefaultSlot(f)
  {
    hide Restored, DefaultValue;
  }

  lemma FilledEnds(f: Field, vs: seq<Value>)
    requires f.rule.Repeated? && (forall v | v in vs :: Shaped(f, v)) && (!f.rule.counted ==> |vs| == f.arraySize)
    ensures Filled(f, vs, |vs|) == RestoredAll(f, vs)
  {
    hide Restored, DefaultValue;
    assert vs[..|vs|] == vs;
  }

  /** What RestoredAll keeps shaped. */
  lemma FilledShaped(f: Field, vs: seq<Value>, j: nat)
    requires WellFormedField(f) && Packable(f.kind)
    requires f.rule.Repeated? && j <= |vs| && j <= f.arraySize && forall v | v in vs :: Shaped(f, v)
    ensures AllShaped(f, Filled(f, vs, j))
  {
  }

  lemma LeafNonempty(f: Field, v: Value)
    requires Packable(f.kind) && Shaped(f, v) && ValueBytes(f, v).Some?
    ensures |ValueBytes(f, v).value| > 0
  {
    hide Varint, Little;
  }

  /** A packed array part way: k values are decoded, and the bytes of the others follow. An array that holds too little is
      refused. */
  lemma {:induction false} PackedReads(bytes: Bytes, f: Field, vs: seq<Value>, k: nat)
    requires WellFormedField(f) && f.rule.Repeated? && Packable(f.kind) && AllShaped(f, vs) && k <= |vs| && k <= f.arraySize
    requires PackedBytes(f, vs[k..]) == Some(bytes) && |bytes| < MAX32
    ensures AllShaped(f, Filled(f, vs, k))
    ensures PackedIn(f, bytes, Filled(f, vs, k), k) ==
      if |vs| <= f.arraySize then Some((Filled(f, vs, |vs|), |vs|)) else None
    decreases |vs| - k
  {
    hide LeafIn, ValueBytes, Filled, Restored, Shaped;
    FilledShaped(f, vs, k);
    if k < |vs| {
      var rest := PackedBytes(f, vs[k + 1..]);
      assert vs[k..][0] == vs[k] && vs[k..][1..] == vs[k + 1..];
      LeafNonempty(f, vs[k]);
      assert Holds(bytes, f, vs[k], rest.value);
      LeafReads(bytes, f, vs[k], rest.value);
      PackableIsRestorable(f, vs[k]);
      if k < f.arraySize {
        FilledStep(f, vs, k);
        PackedReads(rest.value, f, vs, k + 1);
      }
    }
  }

  lemma PackableIsRestorable(f: Field, v: Value)
    requires Packable(f.kind) && Shaped(f, v)
    ensures Restorable(f, v)
  {
  }

  // ----- Records of unknown fields -----

  predicate HasTag(d: Descriptor, tag: nat) {
    exists i :: 0 <= i < |d.fields| && d.fields[i].tag == tag
  }

  /** The records of fields the descriptor has. */
  function Known(d: Descriptor, rs: seq<Raw>): seq<Raw> {
    if rs == [] then [] else (if HasTag(d, rs[0].number) then [rs[0]] else []) + Known(d, rs[1..])
  }

  /** A record the decoder can step over. */
  ghost predicate Skippable(r: Raw) {
    0 < r.number < 0x2000_0000 && Complete(r) &&
    (r.wire == 2 ==> exists b: Bytes :: |b| < MAX32 && r.payload == Delimited(Some(b)).value)
  }

  ghost predicate StrewnWith(bytes: Bytes, d: Descriptor, known: seq<Raw>, rs: seq<Raw>) {
    bytes == Flat(rs) && Known(d, rs) == known && forall r | r in rs && !HasTag(d, r.number) :: Skippable(r)
  }

  /** The known records in order, with any records of other fields before, between and behind them. */
  ghost predicate Strewn(bytes: Bytes, d: Descriptor, known: seq<Raw>) {
    exists rs :: StrewnWith(bytes, d, known, rs)
  }

  lemma FlatNonempty(rs: seq<Raw>)
    requires rs != []
    ensures Flat(rs) != []
  {
  }

  lemma StrewnNothing(d: Descriptor, known: seq<Raw>)
    requires Strewn([], d, known)
    ensures known == []
  {
    var rs :| StrewnWith([], d, known, rs);
    if rs != [] {
      FlatNonempty(rs);
    }
  }

  /** The record at the front. */
  lemma StrewnFirst(bytes: Bytes, d: Descriptor, known: seq<Raw>) returns (r: Raw, rest: Bytes)
    requires Strewn(bytes, d, known) && bytes != []
    ensures bytes == RawBytes(r) + rest
    ensures HasTag(d, r.number) ==> known != [] && r == known[0] && Strewn(rest, d, known[1..])
    ensures !HasTag(d, r.number) ==> Skippable(r) && Strewn(rest, d, known)
  {
    hide RawBytes, Skippable, HasTag;
    var rs :| StrewnWith(bytes, d, known, rs);
    r, rest := rs[0], Flat(rs[1..]);
    assert r in rs && forall x | x in rs[1..] :: x in rs;
    assert StrewnWith(rest, d, if HasTag(d, r.number) then known[1..] else known, rs[1..]);
  }

  lemma {:induction false} AllKnown(d: Descriptor, rs: seq<Raw>)
    requires forall r | r in rs :: HasTag(d, r.number)
    ensures Known(d, rs) == rs
  {
    if rs != [] {
      AllKnown(d, rs[1..]);
    }
  }

  // ----- One record -----

  function RecordType(f: Field): nat {
    if IsPacked(f) then WT_STRING else WireType(f.kind)
  }

  /** What follows a tag of the field: the whole packed array, or value j. */
  ghost predicate FieldHolds(bytes: Bytes, f: Field, wire: nat, vs: seq<Value>, j: nat, rest: Bytes) {
    wire == RecordType(f) && AllShaped(f, vs) && j < |vs| &&
    if IsPacked(f) then
      j == 0 && PackedBytes(f, vs).Some? && |PackedBytes(f, vs).value| < MAX32 &&
      bytes == Delimited(PackedBytes(f, vs)).value + rest
    else Holds(bytes, f, vs[j], rest)
  }

  /** The slot before value j of the field is decoded. */
  ghost predicate SlotBefore(f: Field, vs: seq<Value>, j: nat, slot: Slot, unions: map<nat, Choice>, fixedSize: nat) {
    AllShaped(f, vs) &&
    match f.rule
    case Repeated(counted) => j <= |vs| && j <= f.arraySize && slot == Items(Filled(f, vs, j)) && (counted || fixedSize == j)
    case Oneof(_) => slot == Shared && !Chosen(f, unions)
    case _ => slot == DefaultSlot(f)
  }

  /** The slot and the unions once j values are decoded, at least one. */
  function SlotAfter(f: Field, vs: seq<Value>, j: nat): Slot
    requires (forall v | v in vs :: Shaped(f, v)) && 0 < j <= |vs| && (f.rule.Repeated? ==> j <= f.arraySize)
  {
    match f.rule
    case Required => Single(Restored(f, vs[0]))
    case Optional(hasFlag) => if hasFlag then Maybe(true, Restored(f, vs[0])) else Single(Restored(f, vs[0]))
    case Repeated(_) => Items(Filled(f, vs, j))
    case Oneof(_) => Shared
  }

  function UnionsAfter(f: Field, vs: seq<Value>, unions: map<nat, Choice>): map<nat, Choice>
    requires (forall v | v in vs :: Shaped(f, v)) && vs != []
  {
    if f.rule.Oneof? then unions[f.rule.group := Choice(f.tag, Restored(f, vs[0]))] else unions
  }

  /** How many values are decoded after the record that starts with value j. */
  function Step(f: Field, vs: seq<Value>, j: nat): nat {
    if IsPacked(f) then |vs| else j + 1
  }

  /** The decoder takes that record: it can restore the value, and the array has room. */
  predicate Takes(f: Field, vs: seq<Value>, j: nat)
    requires (forall v | v in vs :: Shaped(f, v)) && j < |vs|
  {
    Restorable(f, vs[j]) && (f.rule.Repeated? ==> Step(f, vs, j) <= f.arraySize)
  }

  lemma ElementsRead(bytes: Bytes, f: Field, vs: seq<Value>, j: nat, items: seq<Value>, fixedSize: nat, rest: Bytes)
    requires WellFormedField(f) && f.rule.Repeated? && FieldHolds(bytes, f, RecordType(f), vs, j, rest)
    requires SlotBefore(f, vs, j, Items(items), map[], fixedSize)
    requires AllShaped(f, items) && (!f.rule.counted ==> |items| == f.arraySize)
    ensures ElementsIn(f, RecordType(f), items, fixedSize, bytes) ==
      if Takes(f, vs, j) then Some(Taken(Items(Filled(f, vs, Step(f, vs, j))), map[], Step(f, vs, j), rest)) else None
    decreases f, 2
  {
    hide Holds, PackedBytes, ValueBytes, Delimited, Filled, Restored, Shaped, WellFormed, SubIn, PackedIn, ValueIn, DefaultValue;
    TypeIs(f.kind);
    FilledSize(f, vs, j);
    if IsPacked(f) {
      var b := PackedBytes(f, vs).value;
      SubReads(b, rest);
      assert vs[0..] == vs;
      PackableIsRestorable(f, vs[j]);
      PackedReads(b, f, vs, 0);
    } else {
      NotPackable(f);
      DefaultIsShaped(f);
      if j < f.arraySize {
        ValueReads(bytes, f, DefaultValue(f), vs[j], rest);
        FilledStep(f, vs, j);
      }
    }
  }

  lemma NotPackable(f: Field)
    requires f.rule.Repeated? && !IsPacked(f)
    ensures !Packable(f.kind)
  {
  }

  lemma ValueReads(bytes: Bytes, f: Field, dest: Value, v: Value, rest: Bytes)
    requires WellFormedField(f) && (f.kind.Submessage? ==> Shaped(f, dest)) && Holds(bytes, f, v, rest)
    requires f.kind.Submessage? ==> f.rule.Repeated? || dest == DefaultValue(f)
    ensures ValueIn(f, dest, bytes) == if Restorable(f, v) then Some((Restored(f, v), rest)) else None
    decreases f, 1
  {
    hide Holds, Delimited, SubIn, MessageIn, LeafIn, MessageBytes, ShapedMessage, RestoredMessage, RestorableMessage, WellFormed;
    if f.kind.Submessage? {
      var d := f.kind.fields;
      SubmessageBytes(bytes, f, v, rest);
      var b := MessageBytes(d, v, 0).value;
      SubReads(b, rest);
      DefaultMessageIsShaped(d);
      MessageReads(d, v);
    } else {
      LeafReads(bytes, f, v, rest);
    }
  }

  lemma SubmessageBytes(bytes: Bytes, f: Field, v: Value, rest: Bytes)
    requires f.kind.Submessage? && Holds(bytes, f, v, rest)
    ensures ShapedMessage(f.kind.fields, v)
    ensures var b := MessageBytes(f.kind.fields, v, 0);
      b.Some? && |b.value| < MAX32 && bytes == Delimited(Some(b.value)).value + rest
  {
    hide Varint, MessageBytes, ShapedMessage;
  }

  lemma FieldReads(bytes: Bytes, f: Field, wire: nat, vs: seq<Value>, j: nat, slot: Slot, unions: map<nat, Choice>,
                   fixedSize: nat, rest: Bytes)
    requires WellFormedField(f) && ShapedSlot(f, slot, unions) && FieldHolds(bytes, f, wire, vs, j, rest)
    requires SlotBefore(f, vs, j, slot, unions, fixedSize) && (!f.rule.Repeated? ==> j == 0)
    ensures FieldIn(f, wire, slot, unions, fixedSize, bytes) ==
      if Takes(f, vs, j) then
        Some(Taken(SlotAfter(f, vs, Step(f, vs, j)), UnionsAfter(f, vs, unions),
                   if f.rule.Repeated? then Step(f, vs, j) else fixedSize, rest))
      else None
    decreases f, 3
  {
    hide Holds, PackedBytes, Filled, Restored, Shaped, WellFormed, ElementsIn, ValueIn, DefaultValue, Restorable, Delimited;
    DefaultIsShaped(f);
    match f.rule
    case Repeated(_) => ElementsRead(bytes, f, vs, j, slot.values, fixedSize, rest);
    case Oneof(_) => ValueReads(bytes, f, DefaultValue(f), vs[0], rest);
    case _ => ValueReads(bytes, f, slot.value, vs[0], rest);
  }

  // ----- What an encoder sends -----

  /** Values for each field, as some encoder sends them in the order of the fields: any number for an array, at most one
      otherwise. A struct sends what is present in it; an encoder with fewer fields, or fields it need not set, sends less. */
  ghost predicate Sendable(d: Descriptor, vss: seq<seq<Value>>) {
    |vss| == |d.fields| && forall i | 0 <= i < |d.fields| :: SendableField(d.fields[i], vss[i])
  }

  ghost predicate SendableField(f: Field, vs: seq<Value>) {
    AllShaped(f, vs) && RecordsBytes(f, vs).Some? && (!f.rule.Repeated? ==> |vs| <= 1)
  }

  /** The records from field i on. */
  ghost function SentRecords(d: Descriptor, vss: seq<seq<Value>>, i: nat): seq<Raw>
    requires Sendable(d, vss) && i <= |d.fields|
    decreases |d.fields| - i
  {
    if i == |d.fields| then []
    else
      assert SendableField(d.fields[i], vss[i]);
      FieldRecords(d.fields[i], vss[i]) + SentRecords(d, vss, i + 1)
  }

  /** The bytes are those records in order, and perhaps records of fields the descriptor does not have. */
  ghost predicate HoldsSent(bytes: Bytes, d: Descriptor, vss: seq<seq<Value>>) {
    Sendable(d, vss) && Strewn(bytes, d, SentRecords(d, vss, 0)) && |bytes| < MAX32
  }

  /** Field i does not stop the decoder: its values can be restored, an array has room for them, one with a fixed count is
      filled or not begun, and a required field is there if it is one of the first 64. */
  ghost predicate Accepted(d: Descriptor, vss: seq<seq<Value>>, i: nat)
    requires Sendable(d, vss) && i < |d.fields|
  {
    var f, vs := d.fields[i], vss[i];
    assert SendableField(f, vs);
    (forall v | v in vs :: Restorable(f, v)) && (f.rule.Repeated? ==> |vs| <= f.arraySize) &&
    (FixedCount(f) ==> vs == [] || |vs| == f.arraySize) &&
    (f.rule.Required? && RequiredBefore(d, i) < MAX_REQUIRED ==> vs != [])
  }

  ghost predicate AllAccepted(d: Descriptor, vss: seq<seq<Value>>)
    requires Sendable(d, vss)
  {
    forall i | 0 <= i < |d.fields| :: Accepted(d, vss, i)
  }

  /** The unions once the first n fields are decoded: the last member sent is the choice. */
  ghost function SentUnions(d: Descriptor, vss: seq<seq<Value>>, n: nat): map<nat, Choice>
    requires Sendable(d, vss) && n <= |d.fields|
  {
    if n == 0 then map[]
    else
      assert SendableField(d.fields[n - 1], vss[n - 1]);
      var before := SentUnions(d, vss, n - 1);
      if vss[n - 1] == [] then before else UnionsAfter(d.fields[n - 1], vss[n - 1], before)
  }

  /** The slot of a field whose values are all decoded: the default if there are none. */
  ghost function SentSlot(f: Field, vs: seq<Value>): Slot
    requires SendableField(f, vs)
  {
    if vs == [] || (f.rule.Repeated? && |vs| > f.arraySize) then DefaultSlot(f) else SlotAfter(f, vs, |vs|)
  }

  /** The struct once the first n fields are decoded. */
  ghost function SentPartly(d: Descriptor, vss: seq<seq<Value>>, n: nat): (r: Value)
    requires Sendable(d, vss) && n <= |d.fields|
    ensures r.Message? && |r.slots| == |d.fields|
  {
    Message(seq(|d.fields|, i requires 0 <= i < |d.fields| =>
                  (assert SendableField(d.fields[i], vss[i]);
                   if i < n then SentSlot(d.fields[i], vss[i]) else DefaultSlot(d.fields[i]))),
            SentUnions(d, vss, n))
  }

  /** The struct when j values of field i are decoded, and everything before. */
  ghost function Midway(d: Descriptor, vss: seq<seq<Value>>, i: nat, j: nat): (r: Value)
    requires Sendable(d, vss) && i <= |d.fields| && (i < |d.fields| ==> j <= |vss[i]|)
    requires i < |d.fields| && d.fields[i].rule.Repeated? ==> j <= d.fields[i].arraySize
    ensures r.Message? && |r.slots| == |d.fields|
  {
    var p := SentPartly(d, vss, i);
    if i == |d.fields| || j == 0 then p
    else
      assert SendableField(d.fields[i], vss[i]);
      Message(p.slots[i := SlotAfter(d.fields[i], vss[i], j)], UnionsAfter(d.fields[i], vss[i], p.unions))
  }

  /** A field that is done with is one of the first i + 1. */
  lemma MidwayDone(d: Descriptor, vss: seq<seq<Value>>, i: nat)
    requires Sendable(d, vss) && i < |d.fields| && (d.fields[i].rule.Repeated? ==> |vss[i]| <= d.fields[i].arraySize)
    ensures Midway(d, vss, i, |vss[i]|) == Midway(d, vss, i + 1, 0)
  {
    hide Restored, DefaultValue, Shaped, RecordsBytes, SlotAfter, UnionsAfter;
    assert SendableField(d.fields[i], vss[i]);
    var a, b := Midway(d, vss, i, |vss[i]|), SentPartly(d, vss, i + 1);
    assert a.unions == b.unions;
    assert a.slots == b.slots;
  }

  /** Only the fields seen so far have claimed a union. */
  lemma {:induction false} UnionsNameFields(d: Descriptor, vss: seq<seq<Value>>, n: nat, g: nat)
    requires Sendable(d, vss) && n <= |d.fields| && g in SentUnions(d, vss, n)
    ensures exists i :: 0 <= i < n && d.fields[i].tag == SentUnions(d, vss, n)[g].which
  {
    hide Restored, Shaped, RecordsBytes;
    assert SendableField(d.fields[n - 1], vss[n - 1]);
    if g in SentUnions(d, vss, n - 1) && SentUnions(d, vss, n)[g] == SentUnions(d, vss, n - 1)[g] {
      UnionsNameFields(d, vss, n - 1, g);
    }
  }

  lemma MidwaySlot(d: Descriptor, vss: seq<seq<Value>>, i: nat, j: nat, fixedSize: nat)
    requires Sendable(d, vss) && WellFormed(d) && i < |d.fields| && j < |vss[i]|
    requires d.fields[i].rule.Repeated? ==> j <= d.fields[i].arraySize
    requires FixedCount(d.fields[i]) ==> fixedSize == j
    ensures SlotBefore(d.fields[i], vss[i], j, Midway(d, vss, i, j).slots[i], Midway(d, vss, i, j).unions, fixedSize)
    ensures !d.fields[i].rule.Repeated? ==> j == 0
  {
    hide Restored, DefaultValue, Shaped, Filled, RecordsBytes;
    var f, vs := d.fields[i], vss[i];
    assert SendableField(f, vs);
    if f.rule.Repeated? {
      FilledStarts(f, vs);
    }
    if f.rule.Oneof? && f.rule.group in SentUnions(d, vss, i) {
      UnionsNameFields(d, vss, i, f.rule.group);
    }
  }

  lemma MidwayNext(d: Descriptor, vss: seq<seq<Value>>, i: nat, j: nat)
    requires Sendable(d, vss) && i < |d.fields| && j < |vss[i]| && (IsPacked(d.fields[i]) ==> j == 0)
    requires d.fields[i].rule.Repeated? ==> Step(d.fields[i], vss[i], j) <= d.fields[i].arraySize
    ensures var f, vs, r := d.fields[i], vss[i], Midway(d, vss, i, j);
      AllShaped(f, vs) && Step(f, vs, j) <= |vs| &&
      Midway(d, vss, i, Step(f, vs, j)) ==
        Message(r.slots[i := SlotAfter(f, vs, Step(f, vs, j))], UnionsAfter(f, vs, r.unions))
  {
    hide Restored, DefaultValue, Shaped, Filled, RecordsBytes, SentPartly;
    var f, vs := d.fields[i], vss[i];
    assert SendableField(f, vs);
    var p, r := SentPartly(d, vss, i), Midway(d, vss, i, j);
    assert j > 0 ==> f.rule.Repeated? && r.unions == p.unions;
    assert r.slots[i := SlotAfter(f, vs, Step(f, vs, j))] == p.slots[i := SlotAfter(f, vs, Step(f, vs, j))];
  }

  // ----- The loop over the records -----

  /** The records from value j of field i on. */
  ghost function RecordsFrom(d: Descriptor, vss: seq<seq<Value>>, i: nat, j: nat): seq<Raw>
    requires Sendable(d, vss) && i <= |d.fields| && (i < |d.fields| ==> j <= |vss[i]|)
    requires i < |d.fields| && IsPacked(d.fields[i]) ==> j == 0 || j == |vss[i]|
  {
    if i == |d.fields| then []
    else
      assert SendableField(d.fields[i], vss[i]);
      RestSendable(d.fields[i], vss[i], j);
      FieldRecords(d.fields[i], vss[i][j..]) + SentRecords(d, vss, i + 1)
  }

  lemma {:induction false} RestSendable(f: Field, vs: seq<Value>, j: nat)
    requires AllShaped(f, vs) && RecordsBytes(f, vs).Some? && j <= |vs| && (IsPacked(f) ==> j == 0 || j == |vs|)
    ensures AllShaped(f, vs[j..]) && RecordsBytes(f, vs[j..]).Some?
  {
    hide ValueBytes, PackedBytes, Shaped;
    if j == |vs| {
      assert vs[j..] == [];
    } else if j > 0 {
      RestSendable(f, vs[1..], j - 1);
      assert vs[1..][j - 1..] == vs[j..];
    } else {
      assert vs[0..] == vs;
    }
  }

  /** The next known record is what FieldIn expects. */
  lemma NextRecord(d: Descriptor, vss: seq<seq<Value>>, i: nat, j: nat)
    requires Sendable(d, vss) && i < |d.fields| && j < |vss[i]| && (IsPacked(d.fields[i]) ==> j == 0)
    ensures RecordsFrom(d, vss, i, j) != []
    ensures var f, r := d.fields[i], RecordsFrom(d, vss, i, j)[0];
      r.number == f.tag && r.wire == RecordType(f) &&
      forall rest | |r.payload| < MAX32 :: FieldHolds(r.payload + rest, f, RecordType(f), vss[i], j, rest)
    ensures Step(d.fields[i], vss[i], j) <= |vss[i]|
    ensures RecordsFrom(d, vss, i, j)[1..] == RecordsFrom(d, vss, i, Step(d.fields[i], vss[i], j))
  {
    hide Varint, ValueBytes, PackedBytes, Shaped, Delimited, SentRecords;
    var f, vs := d.fields[i], vss[i];
    assert SendableField(f, vs);
    RestSendable(f, vs, j);
    assert vs[j..][0] == vs[j] && vs[j..][1..] == vs[j + 1..];
    TypeIs(f.kind);
    if IsPacked(f) {
      assert vs[j..] == vs && vs[|vs|..] == [];
      DelimitedIs(PackedBytes(f, vs));
    }
  }

  lemma DelimitedIs(b: Option<Bytes>)
    requires Delimited(b).Some?
    ensures b.Some? && |b.value| < |Delimited(b).value|
  {
    hide Varint;
  }

  /** Field k has been met before value j of field i. */
  predicate Met(vss: seq<seq<Value>>, i: nat, j: nat, k: nat)
    requires k < |vss|
  {
    vss[k] != [] && (k < i || (k == i && j > 0))
  }

  /** The required fields seen are those met, of the first 64. */
  ghost predicate SeenIs(d: Descriptor, vss: seq<seq<Value>>, i: nat, j: nat, seen: set<nat>)
    requires |vss| == |d.fields|
  {
    forall k | 0 <= k < |d.fields| && d.fields[k].rule.Required? && RequiredBefore(d, k) < MAX_REQUIRED ::
      RequiredBefore(d, k) in seen <==> Met(vss, i, j, k)
  }

  /** The array with a fixed count last met, and how much of it; the ones before it are full. */
  ghost predicate FixedIs(d: Descriptor, vss: seq<seq<Value>>, i: nat, j: nat, fixedField: Option<nat>, fixedSize: nat)
    requires |vss| == |d.fields|
  {
    (fixedField.Some? ==>
       fixedField.value < |d.fields| && FixedCount(d.fields[fixedField.value]) && Met(vss, i, j, fixedField.value) &&
       fixedSize == if fixedField.value == i then j else |vss[fixedField.value]|) &&
    forall k | 0 <= k < |d.fields| && FixedCount(d.fields[k]) && Met(vss, i, j, k) && fixedField != Some(k) ::
      fixedField.Some? && k < fixedField.value && |vss[k]| == d.fields[k].arraySize
  }

  /** The decoder has taken everything before value j of field i. */
  ghost predicate TakenBefore(d: Descriptor, vss: seq<seq<Value>>, i: nat, j: nat)
    requires Sendable(d, vss)
  {
    forall k | 0 <= k < |d.fields| && k <= i :: TakenOf(d.fields[k], vss[k], if k < i then |vss[k]| else j)
  }

  ghost predicate TakenOf(f: Field, vs: seq<Value>, n: nat) {
    AllShaped(f, vs) && n <= |vs| && (f.rule.Repeated? ==> n <= f.arraySize) && forall x | 0 <= x < n :: Restorable(f, vs[x])
  }

  /** A place in the values: before value j of field i. */
  ghost predicate Place(d: Descriptor, vss: seq<seq<Value>>, i: nat, j: nat) {
    Sendable(d, vss) && i <= |d.fields| &&
    if i < |d.fields| then j <= |vss[i]| && (IsPacked(d.fields[i]) ==> j == 0 || j == |vss[i]|) else j == 0
  }

  /** Decoding is on track: all before value j of field i is decoded into the state, and the bytes go on there. */
  ghost predicate Track(bytes: Bytes, d: Descriptor, vss: seq<seq<Value>>, i: nat, j: nat, s: State) {
    |bytes| < MAX32 && Place(d, vss, i, j) && TakenBefore(d, vss, i, j) &&
    (i < |d.fields| && d.fields[i].rule.Repeated? ==> j <= d.fields[i].arraySize) &&
    Strewn(bytes, d, RecordsFrom(d, vss, i, j)) && s.r == Midway(d, vss, i, j) && SeenIs(d, vss, i, j, s.seen) &&
    FixedIs(d, vss, i, j, s.fixedField, s.fixedSize)
  }

  lemma TrackParts(bytes: Bytes, d: Descriptor, vss: seq<seq<Value>>, i: nat, j: nat, s: State)
    requires Track(bytes, d, vss, i, j, s)
    ensures |bytes| < MAX32 && Place(d, vss, i, j) && TakenBefore(d, vss, i, j)
    ensures i < |d.fields| && d.fields[i].rule.Repeated? ==> j <= d.fields[i].arraySize
    ensures Strewn(bytes, d, RecordsFrom(d, vss, i, j)) && s.r == Midway(d, vss, i, j)
    ensures SeenIs(d, vss, i, j, s.seen) && FixedIs(d, vss, i, j, s.fixedField, s.fixedSize)
  {
    hide TakenBefore, Strewn, RecordsFrom, Midway, SeenIs, FixedIs;
  }

  lemma SeenSettles(d: Descriptor, vss: seq<seq<Value>>, i: nat, seen: set<nat>)
    requires |vss| == |d.fields| && i < |d.fields| && SeenIs(d, vss, i, |vss[i]|, seen)
    ensures SeenIs(d, vss, i + 1, 0, seen)
  {
    assert forall k | 0 <= k < |d.fields| :: Met(vss, i, |vss[i]|, k) <==> Met(vss, i + 1, 0, k);
  }

  lemma FixedSettles(d: Descriptor, vss: seq<seq<Value>>, i: nat, fixedField: Option<nat>, fixedSize: nat)
    requires |vss| == |d.fields| && i < |d.fields| && FixedIs(d, vss, i, |vss[i]|, fixedField, fixedSize)
    ensures FixedIs(d, vss, i + 1, 0, fixedField, fixedSize)
  {
    assert forall k | 0 <= k < |d.fields| :: Met(vss, i, |vss[i]|, k) <==> Met(vss, i + 1, 0, k);
  }

  lemma TakenSettles(d: Descriptor, vss: seq<seq<Value>>, i: nat)
    requires Sendable(d, vss) && i < |d.fields| && TakenBefore(d, vss, i, |vss[i]|)
    ensures TakenBefore(d, vss, i + 1, 0)
  {
    hide Shaped, Restorable, RecordsBytes;
    assert i + 1 < |d.fields| ==> SendableField(d.fields[i + 1], vss[i + 1]);
  }

  lemma SettleStep(bytes: Bytes, d: Descriptor, vss: seq<seq<Value>>, i: nat, s: State)
    requires |vss| == |d.fields| && i < |d.fields| && Track(bytes, d, vss, i, |vss[i]|, s)
    ensures Track(bytes, d, vss, i + 1, 0, s)
  {
    hide Midway, Strewn, RecordsFrom, TakenBefore, SeenIs, FixedIs, SendableField;
    TrackParts(bytes, d, vss, i, |vss[i]|, s);
    MidwayDone(d, vss, i);
    NothingLeft(d, vss, i);
    SeenSettles(d, vss, i, s.seen);
    FixedSettles(d, vss, i, s.fixedField, s.fixedSize);
    TakenSettles(d, vss, i);
  }

  lemma NothingLeft(d: Descriptor, vss: seq<seq<Value>>, i: nat)
    requires Sendable(d, vss) && i < |d.fields|
    ensures RecordsFrom(d, vss, i, |vss[i]|) == RecordsFrom(d, vss, i + 1, 0)
  {
    hide Shaped, RecordsBytes;
    SentStart(d, vss, i + 1);
    assert vss[i][|vss[i]|..] == [];
    assert [] + SentRecords(d, vss, i + 1) == SentRecords(d, vss, i + 1);
  }

  lemma SentStart(d: Descriptor, vss: seq<seq<Value>>, i: nat)
    requires Sendable(d, vss) && i <= |d.fields|
    ensures RecordsFrom(d, vss, i, 0) == SentRecords(d, vss, i)
  {
    hide Shaped, RecordsBytes;
    if i < |d.fields| {
      assert vss[i][0..] == vss[i];
    }
  }

  /** Past fields that send nothing more. */
  lemma {:induction false} Settle(bytes: Bytes, d: Descriptor, vss: seq<seq<Value>>, i: nat, j: nat, s: State)
    returns (i': nat, j': nat)
    requires Track(bytes, d, vss, i, j, s)
    ensures Track(bytes, d, vss, i', j', s) && (i' < |d.fields| ==> |vss| == |d.fields| && j' < |vss[i']|)
    decreases |d.fields| - i
  {
    hide TakenBefore, SeenIs, FixedIs, Midway, RecordsFrom, Sendable;
    i', j' := i, j;
    assert i < |d.fields| ==> |vss| == |d.fields| by {
      SendableSize(d, vss);
    }
    if i < |d.fields| && j == |vss[i]| {
      SettleStep(bytes, d, vss, i, s);
      i', j' := Settle(bytes, d, vss, i + 1, 0, s);
    }
  }

  lemma SendableSize(d: Descriptor, vss: seq<seq<Value>>)
    requires Sendable(d, vss)
    ensures |vss| == |d.fields|
  {
  }

  // ----- One step -----

  lemma TagReads(r: Raw, rest: Bytes)
    requires 0 < r.number < 0x2000_0000 && r.wire < 8
    ensures TagIn(RawBytes(r) + rest) == Tag(r.wire, r.number, r.payload + rest)
    ensures |r.payload + rest| < |RawBytes(r) + rest|
  {
    hide Varint, Varint32In;
    var key := r.number * 8 + r.wire;
    KeyParts(r.number, r.wire);
    CatAssociates(Varint(key), r.payload, rest);
    Varint32Reads(key, r.payload + rest);
  }

  lemma SkipReads(r: Raw, rest: Bytes)
    requires Skippable(r)
    ensures SkipIn(r.payload + rest, r.wire) == Some(rest)
  {
    hide Varint, SubIn, PayloadEnd;
    if r.wire == 2 {
      var b: Bytes :| |b| < MAX32 && r.payload == Delimited(Some(b)).value;
      SubReads(b, rest);
    } else {
      PayloadStays(r.wire, r.payload, rest);
      assert (r.payload + rest)[|r.payload|..] == rest;
    }
  }

  lemma SkippableParts(r: Raw)
    requires Skippable(r)
    ensures 0 < r.number < 0x2000_0000 && r.wire < 8
  {
  }

  lemma {:induction false} RequiredGrows(d: Descriptor, a: nat, b: nat)
    requires a < b <= |d.fields| && d.fields[a].rule.Required?
    ensures RequiredBefore(d, a) < RequiredBefore(d, b)
  {
    if a + 1 < b {
      RequiredGrows(d, a, b - 1);
    }
  }

  lemma {:induction false} RequiredIndices(d: Descriptor, n: nat, index: nat) returns (k: nat)
    requires n <= |d.fields| && index < RequiredBefore(d, n)
    ensures k < n && d.fields[k].rule.Required? && RequiredBefore(d, k) == index
  {
    if index < RequiredBefore(d, n - 1) {
      k := RequiredIndices(d, n - 1, index);
    } else {
      k := n - 1;
    }
  }

  lemma SeenNext(d: Descriptor, vss: seq<seq<Value>>, i: nat, j: nat, n: nat, seen: set<nat>)
    requires |vss| == |d.fields| && i < |d.fields| && j < n && vss[i] != [] && SeenIs(d, vss, i, j, seen)
    requires j > 0 ==> d.fields[i].rule.Repeated?
    ensures var f := d.fields[i];
      SeenIs(d, vss, i, n,
             if f.rule.Required? && RequiredBefore(d, i) < MAX_REQUIRED then seen + {RequiredBefore(d, i)} else seen)
  {
    forall k | 0 <= k < |d.fields| && d.fields[k].rule.Required? && k != i
      ensures d.fields[i].rule.Required? ==> RequiredBefore(d, k) != RequiredBefore(d, i)
      ensures Met(vss, i, n, k) <==> Met(vss, i, j, k)
    {
      if d.fields[i].rule.Required? {
        if k < i {
          RequiredGrows(d, k, i);
        } else {
          RequiredGrows(d, i, k);
        }
      }
    }
  }

  /** The last array with a fixed count is full, or is this one. */
  predicate FixedGoesOn(d: Descriptor, i: nat, s: State)
    requires i < |d.fields| && (s.fixedField.Some? ==> s.fixedField.value < |d.fields|)
  {
    FixedCount(d.fields[i]) && s.fixedField != Some(i) ==> FixedFull(d, s)
  }

  /** If another one is not full when this one starts, it never will be. */
  lemma FixedStops(d: Descriptor, vss: seq<seq<Value>>, i: nat, j: nat, s: State)
    requires Sendable(d, vss) && i < |d.fields| && FixedIs(d, vss, i, j, s.fixedField, s.fixedSize)
    requires !FixedGoesOn(d, i, s)
    ensures !AllAccepted(d, vss)
  {
    assert !Accepted(d, vss, s.fixedField.value);
  }

  lemma FixedSizeIs(d: Descriptor, vss: seq<seq<Value>>, i: nat, j: nat, s: State)
    requires |vss| == |d.fields| && i < |d.fields| && vss[i] != [] && FixedIs(d, vss, i, j, s.fixedField, s.fixedSize)
    requires FixedCount(d.fields[i])
    ensures if s.fixedField == Some(i) then s.fixedSize == j else j == 0
  {
    assert j > 0 ==> Met(vss, i, j, i);
  }

  lemma FixedNext(d: Descriptor, vss: seq<seq<Value>>, i: nat, j: nat, n: nat, s: State)
    requires |vss| == |d.fields| && i < |d.fields| && j < n && vss[i] != [] && FixedIs(d, vss, i, j, s.fixedField, s.fixedSize)
    requires FixedGoesOn(d, i, s)
    ensures FixedIs(d, vss, i, n, if FixedCount(d.fields[i]) then Some(i) else s.fixedField,
                    if FixedCount(d.fields[i]) then n else s.fixedSize)
  {
    assert forall k | 0 <= k < |d.fields| && k != i :: Met(vss, i, n, k) <==> Met(vss, i, j, k);
  }

  lemma TakenNext(d: Descriptor, vss: seq<seq<Value>>, i: nat, j: nat)
    requires Sendable(d, vss) && i < |d.fields| && j < |vss[i]| && TakenBefore(d, vss, i, j)
    requires IsPacked(d.fields[i]) ==> j == 0
    requires AllShaped(d.fields[i], vss[i]) && Takes(d.fields[i], vss[i], j)
    ensures TakenBefore(d, vss, i, Step(d.fields[i], vss[i], j))
  {
    hide Shaped, Restorable, RecordsBytes;
    var f, vs := d.fields[i], vss[i];
    assert TakenOf(f, vs, j);
    if IsPacked(f) {
      forall x | 0 <= x < |vs|
        ensures Restorable(f, vs[x])
      {
        PackableIsRestorable(f, vs[x]);
      }
    }
    assert TakenOf(f, vs, Step(f, vs, j));
    forall k | 0 <= k < |d.fields| && k < i
      ensures TakenOf(d.fields[k], vss[k], |vss[k]|)
    {
    }
  }

  lemma NotTaken(d: Descriptor, vss: seq<seq<Value>>, i: nat, j: nat)
    requires Sendable(d, vss) && i < |d.fields| && j < |vss[i]| && AllShaped(d.fields[i], vss[i])
    requires !Takes(d.fields[i], vss[i], j)
    ensures !AllAccepted(d, vss)
  {
    hide Shaped, Restorable, RecordsBytes;
    assert !Accepted(d, vss, i);
  }

  /** The record of value j of field i. */
  lemma KnownReads(bytes: Bytes, d: Descriptor, vss: seq<seq<Value>>, i: nat, j: nat, s: State, rest: Bytes)
    requires WellFormed(d) && Sane(d, s) && Track(bytes, d, vss, i, j, s)
    requires i < |d.fields| && i < |vss| && j < |vss[i]| && RecordsFrom(d, vss, i, j) != []
    requires var r := RecordsFrom(d, vss, i, j)[0]; |r.payload + rest| < MAX32
    requires Strewn(rest, d, RecordsFrom(d, vss, i, j)[1..])
    ensures var r := RecordsFrom(d, vss, i, j)[0];
      var t := KnownIn(d, i, r.wire, s, r.payload + rest);
      AllShaped(d.fields[i], vss[i]) &&
      if FixedGoesOn(d, i, s) && Takes(d.fields[i], vss[i], j) then
        t.Some? && t.value.1 == rest && Track(rest, d, vss, i, Step(d.fields[i], vss[i], j), t.value.0)
      else t.None?
    decreases d, 0
  {
    hide Strewn, RecordsFrom, Midway, TakenBefore, SeenIs, FixedIs, FieldIn, SlotAfter, UnionsAfter, FieldHolds, SlotBefore,
      Restorable, Shaped, RecordsBytes, ShapedSlot, WellFormedField, OnlyOwnUnion;
    var f, vs, r := d.fields[i], vss[i], RecordsFrom(d, vss, i, j)[0];
    TrackParts(bytes, d, vss, i, j, s);
    assert SendableField(f, vs);
    NextRecord(d, vss, i, j);
    var starts := FixedCount(f) && s.fixedField != Some(i);
    var size := if starts then 0 else s.fixedSize;
    if FixedCount(f) {
      FixedSizeIs(d, vss, i, j, s);
    }
    MidwaySlot(d, vss, i, j, size);
    assert ShapedSlot(f, s.r.slots[i], s.r.unions);
    assert FieldHolds(r.payload + rest, f, r.wire, vs, j, rest);
    FieldReads(r.payload + rest, f, r.wire, vs, j, s.r.slots[i], s.r.unions, size, rest);
    if FixedGoesOn(d, i, s) && Takes(f, vs, j) {
      TakenNext(d, vss, i, j);
      MidwayNext(d, vss, i, j);
      SeenNext(d, vss, i, j, Step(f, vs, j), s.seen);
      FixedNext(d, vss, i, j, Step(f, vs, j), s);
    }
  }

  // ----- The run -----

  /** When the bytes are used up, so are the values; what is left to check is what the last fields left open. */
  lemma TrackEnds(d: Descriptor, vss: seq<seq<Value>>, i: nat, j: nat, s: State)
    requires Track([], d, vss, i, j, s) && Sane(d, s) && (i < |d.fields| ==> i < |vss| && j < |vss[i]|)
    ensures i == |d.fields| && s.r == SentPartly(d, vss, |d.fields|)
    ensures FixedFull(d, s) && AllSeen(d, s.seen) <==> AllAccepted(d, vss)
  {
    hide Strewn, RecordsFrom, TakenBefore, SeenIs, FixedIs, Restorable, Shaped, SentPartly, SentRecords, ShapedMessage;
    TrackParts([], d, vss, i, j, s);
    StrewnNothing(d, RecordsFrom(d, vss, i, j));
    if i < |d.fields| {
      NextRecord(d, vss, i, j);
      assert false;
    }
    EndChecks(d, vss, s);
  }

  lemma EndChecks(d: Descriptor, vss: seq<seq<Value>>, s: State)
    requires Sendable(d, vss) && Sane(d, s) && TakenBefore(d, vss, |d.fields|, 0) && SeenIs(d, vss, |d.fields|, 0, s.seen)
    requires FixedIs(d, vss, |d.fields|, 0, s.fixedField, s.fixedSize)
    ensures FixedFull(d, s) && AllSeen(d, s.seen) <==> AllAccepted(d, vss)
  {
    hide Restorable, Shaped, ShapedMessage, RecordsBytes;
    if FixedFull(d, s) && AllSeen(d, s.seen) {
      forall i | 0 <= i < |d.fields|
        ensures Accepted(d, vss, i)
      {
        FieldEnds(d, vss, s, i);
      }
    }
    if AllAccepted(d, vss) {
      if s.fixedField.Some? {
        assert Accepted(d, vss, s.fixedField.value);
      }
      forall n | 0 <= n < RequiredBefore(d, |d.fields|) && n < MAX_REQUIRED
        ensures n in s.seen
      {
        var k := RequiredIndices(d, |d.fields|, n);
        assert Accepted(d, vss, k);
      }
    }
  }

  lemma FieldEnds(d: Descriptor, vss: seq<seq<Value>>, s: State, i: nat)
    requires Sendable(d, vss) && Sane(d, s) && TakenBefore(d, vss, |d.fields|, 0) && SeenIs(d, vss, |d.fields|, 0, s.seen)
    requires FixedIs(d, vss, |d.fields|, 0, s.fixedField, s.fixedSize) && i < |d.fields|
    requires FixedFull(d, s) && AllSeen(d, s.seen)
    ensures Accepted(d, vss, i)
  {
    hide Restorable, Shaped, ShapedMessage, RecordsBytes;
    var f, vs := d.fields[i], vss[i];
    assert TakenOf(f, vs, |vs|);
    if f.rule.Required? {
      RequiredGrows(d, i, |d.fields|);
    }
    if FixedCount(f) && vs != [] {
      assert Met(vss, |d.fields|, 0, i);
    }
  }

  /** MAIN: decoding from a place in the values on: it succeeds if and only if no field stops it, and then gives the values
      sent and reads every byte. */
  lemma TrackRuns(bytes: Bytes, d: Descriptor, vss: seq<seq<Value>>, i: nat, j: nat, s: State)
    requires WellFormed(d) && Sane(d, s) && Track(bytes, d, vss, i, j, s) && (i < |d.fields| ==> i < |vss| && j < |vss[i]|)
    ensures Sendable(d, vss)
    ensures Checked(d, RecordsIn(d, s, bytes)) ==
      if AllAccepted(d, vss) then Some((SentPartly(d, vss, |d.fields|), [])) else None
    decreases d, 1, |bytes|
  {
    hide Track, Strewn, RecordsFrom, AllAccepted, FixedFull, AllSeen, Sane, WellFormed, KnownIn, SkipIn, TagIn, SentPartly,
      RawBytes, HasTag, Skippable, Sendable, TakenBefore, SeenIs, FixedIs, Midway, FixedGoesOn, Takes, IsPacked;
    TrackParts(bytes, d, vss, i, j, s);
    PlaceIsSendable(d, vss, i, j);
    if bytes == [] {
      TrackEnds(d, vss, i, j, s);
      return;
    }
    var r, rest := StrewnFirst(bytes, d, RecordsFrom(d, vss, i, j));
    if HasTag(d, r.number) {
      KnownRuns(bytes, d, vss, i, j, s, r, rest);
    } else {
      SkippableParts(r);
      TagReads(r, rest);
      SkipReads(r, rest);
      NoField(d, r.number);
      TrackSame(bytes, d, vss, i, j, s, rest);
      TrackRuns(rest, d, vss, i, j, s);
    }
  }

  lemma PlaceIsSendable(d: Descriptor, vss: seq<seq<Value>>, i: nat, j: nat)
    requires Place(d, vss, i, j)
    ensures Sendable(d, vss) && |vss| == |d.fields|
  {
  }

  lemma NoField(d: Descriptor, number: nat)
    requires !HasTag(d, number)
    ensures FieldAt(d, number, |d.fields|) == None
  {
  }

  lemma OneField(d: Descriptor, i: nat)
    requires WellFormed(d) && i < |d.fields|
    ensures FieldAt(d, d.fields[i].tag, |d.fields|) == Some(i) && 0 < d.fields[i].tag < 0x2000_0000
  {
    hide FieldAt;
    assert WellFormedField(d.fields[i]);
  }

  lemma TrackSame(bytes: Bytes, d: Descriptor, vss: seq<seq<Value>>, i: nat, j: nat, s: State, rest: Bytes)
    requires Track(bytes, d, vss, i, j, s) && |rest| <= |bytes| && Strewn(rest, d, RecordsFrom(d, vss, i, j))
    ensures Track(rest, d, vss, i, j, s)
  {
    hide Strewn, RecordsFrom, TakenBefore, SeenIs, FixedIs, Midway;
  }

  lemma KnownRuns(bytes: Bytes, d: Descriptor, vss: seq<seq<Value>>, i: nat, j: nat, s: State, r: Raw, rest: Bytes)
    requires WellFormed(d) && Sane(d, s) && Track(bytes, d, vss, i, j, s) && (i < |d.fields| ==> i < |vss| && j < |vss[i]|)
    requires Place(d, vss, i, j) && HasTag(d, r.number) && bytes == RawBytes(r) + rest
    requires RecordsFrom(d, vss, i, j) != [] && r == RecordsFrom(d, vss, i, j)[0]
    requires Strewn(rest, d, RecordsFrom(d, vss, i, j)[1..])
    ensures Sendable(d, vss)
    ensures Checked(d, RecordsIn(d, s, bytes)) ==
      if AllAccepted(d, vss) then Some((SentPartly(d, vss, |d.fields|), [])) else None
    decreases d, 1, |bytes|, 0
  {
    hide Track, Strewn, AllAccepted, FixedFull, AllSeen, ShapedMessage, WellFormed, KnownIn, TagIn, SentPartly, SentRecords,
      RawBytes, HasTag, TakenBefore, SeenIs, FixedIs, Midway, FixedGoesOn, Takes, SendableField, FieldHolds;
    TrackParts(bytes, d, vss, i, j, s);
    var f, vs := d.fields[i], vss[i];
    NextRecord(d, vss, i, j);
    OneField(d, i);
    RecordTypeSmall(f);
    TagReads(r, rest);
    KnownReads(bytes, d, vss, i, j, s, rest);
    if FixedGoesOn(d, i, s) && Takes(f, vs, j) {
      var s' := KnownIn(d, i, r.wire, s, r.payload + rest).value.0;
      var i', j' := Settle(rest, d, vss, i, Step(f, vs, j), s');
      TrackRuns(rest, d, vss, i', j', s');
    } else if !FixedGoesOn(d, i, s) {
      FixedStops(d, vss, i, j, s);
    } else {
      NotTaken(d, vss, i, j);
    }
  }

  lemma RecordTypeSmall(f: Field)
    ensures RecordType(f) < 8
  {
  }

  // ----- From the start -----

  lemma TrackStarts(bytes: Bytes, d: Descriptor, vss: seq<seq<Value>>)
    requires HoldsSent(bytes, d, vss)
    ensures Track(bytes, d, vss, 0, 0, State(DefaultMessage(d), {}, None, 0))
  {
    hide Restored, Shaped, RecordsBytes, Strewn;
    SentStart(d, vss, 0);
    assert DefaultMessage(d).slots == SentPartly(d, vss, 0).slots;
    assert SentUnions(d, vss, 0) == map[];
    assert forall k | 0 <= k < |d.fields| :: SendableField(d.fields[k], vss[k]);
  }

  /** MAIN: decoding the records that any encoder sends in the order of the fields, with records of unknown fields before,
      between and behind them, succeeds if and only if no field stops it: every value can be restored, no array overflows or
      is left half filled, and no required field of the first 64 is missing. It then gives the values sent and the
      defaults of all other fields, and reads every byte. */
  lemma SentIsDecoded(bytes: Bytes, d: Descriptor, vss: seq<seq<Value>>)
    requires WellFormed(d) && HoldsSent(bytes, d, vss)
    ensures ShapedMessage(d, DefaultMessage(d))
    ensures MessageIn(d, DefaultMessage(d), bytes) ==
      if AllAccepted(d, vss) then Some((SentPartly(d, vss, |d.fields|), [])) else None
    decreases d, 2
  {
    hide Track, HoldsSent, AllAccepted, SentPartly, WellFormed, Checked, RecordsIn, ShapedMessage, Sendable;
    DefaultMessageIsShaped(d);
    var s := State(DefaultMessage(d), {}, None, 0);
    TrackStarts(bytes, d, vss);
    var i, j := Settle(bytes, d, vss, 0, 0, s);
    TrackRuns(bytes, d, vss, i, j, s);
  }

  // ----- Whole structs -----

  /** What a struct sends. */
  ghost function Sent(d: Descriptor, m: Value): (r: seq<seq<Value>>)
    requires ShapedMessage(d, m)
    ensures |r| == |d.fields|
  {
    seq(|d.fields|, i requires 0 <= i < |d.fields| =>
          (assert ShapedSlot(d.fields[i], m.slots[i], m.unions); Present(d.fields[i], m.slots[i], m.unions)))
  }

  lemma {:induction false} SentIsSendable(d: Descriptor, m: Value, i: nat)
    requires ShapedMessage(d, m) && i <= |d.fields| && MessageBytes(d, m, i).Some?
    ensures forall k | i <= k < |d.fields| :: SendableField(d.fields[k], Sent(d, m)[k]) && !TooMany(d.fields[k], Sent(d, m)[k])
    decreases |d.fields| - i
  {
    hide RecordsBytes, Shaped;
    if i < |d.fields| {
      assert ShapedSlot(d.fields[i], m.slots[i], m.unions);
      SentIsSendable(d, m, i + 1);
    }
  }

  lemma {:induction false} SentRecordsAre(d: Descriptor, m: Value, i: nat)
    requires ShapedMessage(d, m) && i <= |d.fields| && MessageBytes(d, m, i).Some? && Sendable(d, Sent(d, m))
    ensures SentRecords(d, Sent(d, m), i) == RecordsOf(d, m, i)
    ensures forall r | r in RecordsOf(d, m, i) :: HasTag(d, r.number)
    decreases |d.fields| - i
  {
    hide RecordsBytes, Shaped, Present, Complete, FieldRecords;
    if i < |d.fields| {
      assert ShapedSlot(d.fields[i], m.slots[i], m.unions);
      FieldIsFlat(d.fields[i], Sent(d, m)[i]);
      SentRecordsAre(d, m, i + 1);
    }
  }

  /** An encoding is what the struct sends, with nothing strewn in. */
  lemma EncodingHolds(d: Descriptor, m: Value)
    requires ShapedMessage(d, m) && MessageBytes(d, m, 0).Some? && |MessageBytes(d, m, 0).value| < MAX32
    ensures HoldsSent(MessageBytes(d, m, 0).value, d, Sent(d, m))
  {
    hide Complete, MessageBytes, Shaped, RecordsOf, ShapedMessage, HasTag, Skippable, SendableField, SentRecords;
    MessageIsFlat(d, m, 0);
    SentIsSendable(d, m, 0);
    assert Sendable(d, Sent(d, m));
    SentRecordsAre(d, m, 0);
    AllKnown(d, RecordsOf(d, m, 0));
    assert StrewnWith(MessageBytes(d, m, 0).value, d, RecordsOf(d, m, 0), RecordsOf(d, m, 0));
  }

  /** Every required field and every array with a fixed count of a struct is sent in full. */
  lemma SentIsAccepted(d: Descriptor, m: Value)
    requires ShapedMessage(d, m) && MessageBytes(d, m, 0).Some?
    ensures Sendable(d, Sent(d, m))
    ensures AllAccepted(d, Sent(d, m)) <==> RestorableMessage(d, m)
  {
    hide MessageBytes, Restorable, Shaped, RecordsBytes;
    SentIsSendable(d, m, 0);
    forall i | 0 <= i < |d.fields|
      ensures Accepted(d, Sent(d, m), i) <==>
        forall v | v in Present(d.fields[i], m.slots[i], m.unions) :: Restorable(d.fields[i], v)
    {
      assert ShapedSlot(d.fields[i], m.slots[i], m.unions);
    }
  }

  lemma {:induction false} SentUnionsAre(d: Descriptor, m: Value, n: nat)
    requires ShapedMessage(d, m) && Sendable(d, Sent(d, m)) && n <= |d.fields|
    ensures SentUnions(d, Sent(d, m), n) == RestoredUnions(d, m, n)
  {
    hide Restored, Shaped, RecordsBytes;
    if n > 0 {
      SentUnionsAre(d, m, n - 1);
      assert SendableField(d.fields[n - 1], Sent(d, m)[n - 1]);
      assert ShapedSlot(d.fields[n - 1], m.slots[n - 1], m.unions);
    }
  }

  lemma SentSlotIs(d: Descriptor, m: Value, i: nat)
    requires ShapedMessage(d, m) && Sendable(d, Sent(d, m)) && i < |d.fields| && !TooMany(d.fields[i], Sent(d, m)[i])
    ensures ShapedSlot(d.fields[i], m.slots[i], m.unions) && SendableField(d.fields[i], Sent(d, m)[i])
    ensures SentSlot(d.fields[i], Sent(d, m)[i]) == RestoredSlot(d.fields[i], m.slots[i], m.unions)
  {
    hide Restored, Shaped, RecordsBytes, DefaultValue;
    var f, vs := d.fields[i], Sent(d, m)[i];
    assert SendableField(f, vs) && ShapedSlot(f, m.slots[i], m.unions);
    if f.rule.Repeated? {
      FilledStarts(f, vs);
      FilledEnds(f, vs);
    }
  }

  lemma SentIsRestored(d: Descriptor, m: Value)
    requires ShapedMessage(d, m) && MessageBytes(d, m, 0).Some?
    ensures Sendable(d, Sent(d, m)) && SentPartly(d, Sent(d, m), |d.fields|) == RestoredMessage(d, m)
  {
    hide Restored, Shaped, SendableField, SentSlot, RestoredSlot, MessageBytes, SentUnions, RestoredUnions;
    SentIsSendable(d, m, 0);
    SentUnionsAre(d, m, |d.fields|);
    var a, b := SentPartly(d, Sent(d, m), |d.fields|), Partly(d, m, |d.fields|);
    forall i | 0 <= i < |d.fields|
      ensures a.slots[i] == b.slots[i]
    {
      SentSlotIs(d, m, i);
    }
    assert a.slots == b.slots;
  }

  lemma MessageReads(d: Descriptor, m: Value)
    requires WellFormed(d) && ShapedMessage(d, m) && MessageBytes(d, m, 0).Some? && |MessageBytes(d, m, 0).value| < MAX32
    ensures ShapedMessage(d, DefaultMessage(d))
    ensures MessageIn(d, DefaultMessage(d), MessageBytes(d, m, 0).value) ==
      if RestorableMessage(d, m) then Some((RestoredMessage(d, m), [])) else None
    decreases d, 3
  {
    hide MessageBytes, ShapedMessage, WellFormed, MessageIn, RestorableMessage, RestoredMessage, AllAccepted, SentPartly,
      HoldsSent;
    EncodingHolds(d, m);
    SentIsAccepted(d, m);
    SentIsRestored(d, m);
    SentIsDecoded(MessageBytes(d, m, 0).value, d, Sent(d, m));
  }

  /** MAIN: whatever the descriptor nests, decoding what was encoded succeeds if and only if every char array the
      message sends has room for its terminator; then it reads every byte and restores every field sent. */
  method EncodeThenDecode(d: Descriptor, m: Value, n: nat) returns (encoded: bool, decoded: bool, r: Value, unread: nat)
    requires WellFormed(d) && ShapedMessage(d, m) && n < MAX32
    ensures encoded == (MessageBytes(d, m, 0).Some? && |MessageBytes(d, m, 0).value| <= n)
    ensures encoded ==> decoded == RestorableMessage(d, m) && (decoded ==> unread == 0 && r == RestoredMessage(d, m))
  {
    hide MessageBytes, RestorableMessage, RestoredMessage, ShapedMessage, WellFormed, MessageIn;
    var bytes, sized, size;
    encoded, bytes, sized, size := NanopbEncode.EncodeToBuffer(d, m, n);
    var s := new IStream(bytes, 0, |bytes|);
    assert s.Remaining() == bytes;
    if encoded {
      MessageReads(d, m);
    }
    decoded, r := NanopbDecode.Decode(s, d);
    unread := s.left;
    assert |s.Remaining()| == unread;
  }
}
