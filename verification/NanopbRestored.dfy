/** What the round trip of nanopb keeps: exactly when the message that comes back sends the same bytes again. */
module NanopbRestored {
  import opened Entries
  import opened Encodings
  import opened Wire
  import opened Nanopb
  import opened NanopbParse
  import opened NanopbRoundTrip
  import NanopbDecode
  import NanopbEncode

  // ----- What a message must satisfy -----

  /** A proto3 singular field that is not sent comes back as its default; that is zero. */
  predicate ZeroByDefault(f: Field) {
    Shaped(f, DefaultValue(f)) && IsZero(f, DefaultValue(f))
  }

  /** Some field of the group is chosen. */
  predicate Member(d: Descriptor, g: nat, unions: map<nat, Choice>) {
    exists k: nat :: k < |d.fields| && d.fields[k].rule == Oneof(g) && Chosen(d.fields[k], unions)
  }

  /** A value that is not zero comes back as one that is not zero. */
  predicate StaysNonzero(f: Field, v: Value)
    requires Shaped(f, v)
    decreases f, 0
  {
    f.kind.Submessage? ==> NonzeroMessage(f.kind.fields, v)
  }

  predicate NonzeroMessage(d: Descriptor, m: Value)
    requires ShapedMessage(d, m)
    decreases d, 1
  {
    exists i: nat :: i < |d.fields| && NonzeroSlot(d, i, m)
  }

  /** Field i makes the message nonzero once it is back: a union whose which_ tag names no member does not. */
  predicate NonzeroSlot(d: Descriptor, i: nat, m: Value)
    requires ShapedMessage(d, m) && i < |d.fields|
    decreases d, 0
  {
    var f, slot := d.fields[i], m.slots[i];
    assert ShapedSlot(f, slot, m.unions);
    match f.rule
    case Required => true
    case Optional(hasFlag) =>
      if hasFlag then slot.has else if IsZero(f, slot.value) then !ZeroByDefault(f) else StaysNonzero(f, slot.value)
    case Repeated(counted) => counted ==> slot.values != []
    case Oneof(g) => Member(d, g, m.unions)
  }

  /** The condition: what is not sent has zero for its default, what is sent for not being zero stays that way, and the
      same holds within every submessage sent. */
  predicate Keeps(d: Descriptor, m: Value)
    requires ShapedMessage(d, m)
    decreases d, 1
  {
    forall i: nat | i < |d.fields| :: KeepsSlot(d, i, m)
  }

  predicate KeepsSlot(d: Descriptor, i: nat, m: Value)
    requires ShapedMessage(d, m) && i < |d.fields|
    decreases d, 0
  {
    var f, slot := d.fields[i], m.slots[i];
    assert ShapedSlot(f, slot, m.unions);
    (f.rule == Optional(false) ==> if IsZero(f, slot.value) then ZeroByDefault(f) else StaysNonzero(f, slot.value)) &&
    forall v | v in Present(f, slot, m.unions) :: KeepsValue(f, v)
  }

  predicate KeepsValue(f: Field, v: Value)
    requires Shaped(f, v)
    decreases f, 0
  {
    f.kind.Submessage? ==> Keeps(f.kind.fields, v)
  }

  // ----- Unions -----

  ghost predicate MemberBefore(d: Descriptor, g: nat, unions: map<nat, Choice>, n: nat)
    requires n <= |d.fields|
  {
    exists k: nat :: k < n && d.fields[k].rule == Oneof(g) && Chosen(d.fields[k], unions)
  }

  /** A group has at most one chosen field, and its union comes back with that field's value. */
  lemma {:induction false} UnionsAre(d: Descriptor, m: Value, n: nat, g: nat)
    requires WellFormed(d) && ShapedMessage(d, m) && n <= |d.fields|
    ensures g in RestoredUnions(d, m, n) <==> MemberBefore(d, g, m.unions, n)
    ensures forall k: nat | k < n && d.fields[k].rule == Oneof(g) && Chosen(d.fields[k], m.unions) ::
      ShapedSlot(d.fields[k], m.slots[k], m.unions) &&
      RestoredUnions(d, m, n)[g] == Choice(d.fields[k].tag, Restored(d.fields[k], m.unions[g].value))
    decreases n
  {
    hide Shaped, Restored;
    if n > 0 {
      UnionsAre(d, m, n - 1, g);
      var f := d.fields[n - 1];
      assert ShapedSlot(f, m.slots[n - 1], m.unions);
      if f.rule == Oneof(g) && Chosen(f, m.unions) {
        assert MemberBefore(d, g, m.unions, n);
        assert forall k: nat | k < n - 1 && d.fields[k].rule == Oneof(g) :: !Chosen(d.fields[k], m.unions);
      } else if MemberBefore(d, g, m.unions, n) {
        var k: nat :| k < n && d.fields[k].rule == Oneof(g) && Chosen(d.fields[k], m.unions);
        assert k < n - 1;
      }
    }
  }

  lemma ChosenKept(d: Descriptor, m: Value, k: nat)
    requires WellFormed(d) && ShapedMessage(d, m) && k < |d.fields|
    ensures var f := d.fields[k]; var unions := RestoredUnions(d, m, |d.fields|);
      (Chosen(f, unions) <==> Chosen(f, m.unions)) &&
      (Chosen(f, m.unions) ==>
         ShapedSlot(f, m.slots[k], m.unions) && unions[f.rule.group].value == Restored(f, m.unions[f.rule.group].value))
  {
    hide Shaped, Restored;
    var f := d.fields[k];
    if f.rule.Oneof? {
      var g := f.rule.group;
      UnionsAre(d, m, |d.fields|, g);
      if g in RestoredUnions(d, m, |d.fields|) {
        var j: nat :| j < |d.fields| && d.fields[j].rule == Oneof(g) && Chosen(d.fields[j], m.unions);
        assert j != k ==> d.fields[j].tag != d.fields[k].tag;
      }
    }
  }

  // ----- The restored message is one -----

  lemma SlotIs(d: Descriptor, m: Value, i: nat)
    requires ShapedMessage(d, m) && i < |d.fields|
    ensures RestoredMessage(d, m).Message? && |RestoredMessage(d, m).slots| == |d.fields|
    ensures ShapedSlot(d.fields[i], m.slots[i], m.unions)
    ensures RestoredMessage(d, m).slots[i] == RestoredSlot(d.fields[i], m.slots[i], m.unions)
    ensures RestoredMessage(d, m).unions == RestoredUnions(d, m, |d.fields|)
  {
    hide Shaped, Restored, RestoredSlot, RestoredUnions;
  }

  lemma ArrayIs(f: Field, slot: Slot, unions: map<nat, Choice>)
    requires ShapedSlot(f, slot, unions) && f.rule.Repeated?
    ensures RestoredSlot(f, slot, unions) == Items(RestoredAll(f, slot.values))
  {
  }

  lemma RequiredIs(f: Field, slot: Slot, unions: map<nat, Choice>)
    requires ShapedSlot(f, slot, unions) && f.rule.Required?
    ensures RestoredSlot(f, slot, unions) == Single(Restored(f, slot.value))
  {
  }

  lemma {:induction false} RestoredIsShaped(f: Field, v: Value)
    requires WellFormedField(f) && Shaped(f, v)
    ensures Shaped(f, Restored(f, v))
    decreases f, 0
  {
    if f.kind.Submessage? {
      RestoredMessageIsShaped(f.kind.fields, v);
    }
  }

  lemma {:induction false} RestoredMessageIsShaped(d: Descriptor, m: Value)
    requires WellFormed(d) && ShapedMessage(d, m)
    ensures ShapedMessage(d, RestoredMessage(d, m))
    decreases d, 1
  {
    var r := RestoredMessage(d, m);
    forall i | 0 <= i < |d.fields|
      ensures ShapedSlot(d.fields[i], r.slots[i], r.unions)
    {
      RestoredSlotIsShaped(d, m, i);
    }
  }

  lemma OptionalIsShaped(f: Field, slot: Slot, unions: map<nat, Choice>, unions': map<nat, Choice>)
    requires f.rule.Optional? && ShapedSlot(f, slot, unions) && WellFormedField(f)
    requires Shaped(f, Restored(f, slot.value))
    ensures ShapedSlot(f, RestoredSlot(f, slot, unions), unions')
  {
    hide Shaped, Restored, IsZero;
    DefaultIsShaped(f);
    var r := RestoredSlot(f, slot, unions);
    if Present(f, slot, unions) == [] {
      assert r == DefaultSlot(f);
    } else if f.rule.hasFlag {
      assert r == Maybe(true, Restored(f, slot.value));
    } else {
      assert r == Single(Restored(f, slot.value));
    }
  }

  lemma {:induction false} RestoredSlotIsShaped(d: Descriptor, m: Value, i: nat)
    requires WellFormed(d) && ShapedMessage(d, m) && i < |d.fields|
    ensures ShapedSlot(d.fields[i], RestoredMessage(d, m).slots[i], RestoredMessage(d, m).unions)
    decreases d, 0
  {
    hide Shaped, Restored, RestoredSlot, RestoredMessage, RestoredUnions;
    var f, slot := d.fields[i], m.slots[i];
    SlotIs(d, m, i);
    assert WellFormedField(f);
    ChosenKept(d, m, i);
    match f.rule
    case Required =>
      RequiredIs(f, slot, m.unions);
      RestoredIsShaped(f, slot.value);
    case Optional(hasFlag) =>
      RestoredIsShaped(f, slot.value);
      OptionalIsShaped(f, slot, m.unions, RestoredMessage(d, m).unions);
    case Repeated(_) =>
      ArrayIs(f, slot, m.unions);
      var rs := RestoredAll(f, slot.values);
      forall j | 0 <= j < |rs|
        ensures Shaped(f, rs[j])
      {
        RestoredIsShaped(f, slot.values[j]);
      }
    case Oneof(g) =>
      GroupIs(f, slot, m.unions);
      if Chosen(f, m.unions) {
        RestoredIsShaped(f, m.unions[g].value);
      }
  }

  lemma GroupIs(f: Field, slot: Slot, unions: map<nat, Choice>)
    requires ShapedSlot(f, slot, unions) && f.rule.Oneof?
    ensures RestoredSlot(f, slot, unions) == Shared
  {
  }

  // ----- When a message comes back as zero -----

  lemma {:induction false} ValueNonzero(f: Field, v: Value)
    requires WellFormedField(f) && Shaped(f, v) && !IsZero(f, v)
    ensures Shaped(f, Restored(f, v)) && (IsZero(f, Restored(f, v)) <==> !StaysNonzero(f, v))
    decreases f, 0
  {
    RestoredIsShaped(f, v);
    if f.kind.Submessage? {
      MessageNonzero(f.kind.fields, v);
    }
  }

  lemma {:induction false} MessageNonzero(d: Descriptor, m: Value)
    requires WellFormed(d) && ShapedMessage(d, m)
    ensures ShapedMessage(d, RestoredMessage(d, m))
    ensures IsZeroMessage(d, RestoredMessage(d, m)) <==> !NonzeroMessage(d, m)
    decreases d, 1
  {
    hide Shaped, Restored, IsZero, NonzeroSlot;
    RestoredMessageIsShaped(d, m);
    var r := RestoredMessage(d, m);
    forall i: nat | i < |d.fields|
      ensures IsZeroSlot(d.fields[i], r.slots[i], r.unions) <==> !NonzeroSlot(d, i, m)
    {
      SlotNonzero(d, m, i);
    }
  }

  lemma {:induction false} SlotNonzero(d: Descriptor, m: Value, i: nat)
    requires WellFormed(d) && ShapedMessage(d, m) && i < |d.fields|
    requires ShapedMessage(d, RestoredMessage(d, m))
    ensures var r := RestoredMessage(d, m);
      IsZeroSlot(d.fields[i], r.slots[i], r.unions) <==> !NonzeroSlot(d, i, m)
    decreases d, 0
  {
    hide Shaped, Restored, IsZero, RestoredMessage, RestoredUnions;
    var f, slot, r := d.fields[i], m.slots[i], RestoredMessage(d, m);
    SlotIs(d, m, i);
    assert ShapedSlot(f, r.slots[i], r.unions) && WellFormedField(f);
    match f.rule
    case Required => RequiredIs(f, slot, m.unions);
    case Optional(hasFlag) =>
      if !hasFlag && !IsZero(f, slot.value) {
        ValueNonzero(f, slot.value);
      }
    case Repeated(_) => ArrayIs(f, slot, m.unions);
    case Oneof(g) => GroupNonzero(d, m, i, g);
  }

  lemma GroupNonzero(d: Descriptor, m: Value, i: nat, g: nat)
    requires WellFormed(d) && ShapedMessage(d, m) && i < |d.fields| && d.fields[i].rule == Oneof(g)
    ensures var unions := RestoredUnions(d, m, |d.fields|);
      (g in unions && unions[g].which != 0) <==> Member(d, g, m.unions)
  {
    hide Shaped, Restored;
    UnionsAre(d, m, |d.fields|, g);
    if Member(d, g, m.unions) {
      var k: nat :| k < |d.fields| && d.fields[k].rule == Oneof(g) && Chosen(d.fields[k], m.unions);
      assert MemberBefore(d, g, m.unions, |d.fields|) && WellFormedField(d.fields[k]);
    } else {
      assert !MemberBefore(d, g, m.unions, |d.fields|);
    }
  }

  // ----- What is sent again -----

  /** Fields are sent again with their values restored; only a proto3 singular field may appear or disappear. */
  lemma PresentAgain(d: Descriptor, m: Value, i: nat)
    requires WellFormed(d) && ShapedMessage(d, m) && i < |d.fields| && ShapedMessage(d, RestoredMessage(d, m))
    ensures var f, slot, r := d.fields[i], m.slots[i], RestoredMessage(d, m);
      ShapedSlot(f, slot, m.unions) && ShapedSlot(f, r.slots[i], r.unions) &&
      var again := Present(f, r.slots[i], r.unions);
      if f.rule != Optional(false) then again == RestoredAll(f, Present(f, slot, m.unions))
      else if IsZero(f, slot.value) then again == if ZeroByDefault(f) then [] else [DefaultValue(f)]
      else again == if StaysNonzero(f, slot.value) then [Restored(f, slot.value)] else []
  {
    hide Shaped, Restored, IsZero, RestoredMessage, RestoredUnions, StaysNonzero;
    var f, slot, r := d.fields[i], m.slots[i], RestoredMessage(d, m);
    SlotIs(d, m, i);
    assert ShapedSlot(f, r.slots[i], r.unions) && WellFormedField(f);
    match f.rule
    case Required => RequiredIs(f, slot, m.unions);
    case Optional(hasFlag) =>
      if !hasFlag && !IsZero(f, slot.value) {
        ValueNonzero(f, slot.value);
      }
    case Repeated(_) => ArrayIs(f, slot, m.unions);
    case Oneof(g) => ChosenKept(d, m, i);
  }

  // ----- The wire format tells values apart -----

  /** No varint is the beginning of another. */
  lemma {:induction false} VarintPrefix(a: nat, x: Bytes, b: nat, y: Bytes)
    requires Varint(a) + x == Varint(b) + y
    ensures a == b && x == y
  {
    hide Varint;
    VarintFront(a, x);
    VarintFront(b, y);
    if a >= 128 && b >= 128 {
      VarintPrefix(a / 128, x, b / 128, y);
    }
  }

  lemma Cancel(t: Bytes, z: Option<Bytes>, w: Bytes)
    ensures Cat(Some(t), z) == Some(t + w) <==> z == Some(w)
  {
    if Cat(Some(t), z) == Some(t + w) {
      assert (t + z.value)[|t|..] == z.value && (t + w)[|t|..] == w;
    }
  }

  lemma NothingBefore(b: Option<Bytes>)
    ensures Cat(Some([]), b) == b
  {
    if b.Some? {
      assert [] + b.value == b.value;
    }
  }

  lemma CatAssociates(a: Option<Bytes>, b: Option<Bytes>, c: Option<Bytes>)
    ensures Cat(Cat(a, b), c) == Cat(a, Cat(b, c))
  {
    if a.Some? && b.Some? && c.Some? {
      assert a.value + b.value + c.value == a.value + (b.value + c.value);
    }
  }

  lemma SameFront(a: Bytes, x: Bytes, b: Bytes, y: Bytes)
    requires a + x == b + y && |a| == |b|
    ensures a == b && x == y
  {
    assert (a + x)[..|a|] == a && (b + y)[..|b|] == b;
    assert (a + x)[|a|..] == x && (b + y)[|b|..] == y;
  }

  lemma Regroup(a: Bytes, b: Bytes, c: Bytes)
    ensures a + b + c == a + (b + c)
  {
  }

  lemma DelimitedPrefix(a: Bytes, x: Bytes, b: Bytes, y: Bytes)
    requires Varint(|a|) + a + x == Varint(|b|) + b + y
    ensures a == b && x == y
  {
    hide Varint;
    Regroup(Varint(|a|), a, x);
    Regroup(Varint(|b|), b, y);
    VarintPrefix(|a|, a + x, |b|, b + y);
    SameFront(a, x, b, y);
  }

  lemma DelimitedExact(a: Option<Bytes>, b: Option<Bytes>, x: Bytes, y: Option<Bytes>)
    requires Delimited(a).Some?
    ensures Cat(Delimited(b), y) == Some(Delimited(a).value + x) <==> b == a && y == Some(x)
  {
    hide Varint;
    if b == a {
      Cancel(Delimited(a).value, y, x);
    }
    if Cat(Delimited(b), y) == Some(Delimited(a).value + x) {
      DelimitedPrefix(b.value, y.value, a.value, x);
    }
  }

  lemma TagPrefix(s: nat, v: nat, x: Bytes, t: nat, w: nat, y: Bytes)
    requires v < 8 && w < 8 && TagBytes(s, v) + x == TagBytes(t, w) + y
    ensures s == t
  {
    VarintPrefix(s * 8 + v, x, t * 8 + w, y);
  }

  // ----- The same bytes again -----

  /** A value, sent again in front of other bytes. */
  lemma {:induction false} ValueExact(f: Field, v: Value, x: Bytes, y: Option<Bytes>)
    requires WellFormedField(f) && Shaped(f, v) && ValueBytes(f, v).Some?
    ensures Shaped(f, Restored(f, v))
    ensures Cat(ValueBytes(f, Restored(f, v)), y) == Some(ValueBytes(f, v).value + x) <==> KeepsValue(f, v) && y == Some(x)
    decreases f, 0
  {
    RestoredIsShaped(f, v);
    if f.kind.Submessage? {
      var d := f.kind.fields;
      MessageExact(d, v);
      DelimitedExact(MessageBytes(d, v, 0), MessageBytes(d, RestoredMessage(d, v), 0), x, y);
    } else {
      Cancel(ValueBytes(f, v).value, y, x);
    }
  }

  lemma {:induction false} RecordsExact(f: Field, vs: seq<Value>, x: Bytes, y: Option<Bytes>)
    requires WellFormedField(f) && (forall v | v in vs :: Shaped(f, v)) && RecordsBytes(f, vs).Some?
    ensures forall v | v in RestoredAll(f, vs) :: Shaped(f, v)
    ensures Cat(RecordsBytes(f, RestoredAll(f, vs)), y) == Some(RecordsBytes(f, vs).value + x) <==>
      (forall v | v in vs :: KeepsValue(f, v)) && y == Some(x)
    decreases f, 1, |vs|
  {
    hide Shaped, ValueBytes, PackedBytes, KeepsValue, Delimited;
    var rs := RestoredAll(f, vs);
    forall j | 0 <= j < |rs|
      ensures Shaped(f, rs[j])
    {
      RestoredIsShaped(f, vs[j]);
    }
    if vs == [] {
      Cancel([], y, x);
    } else if IsPacked(f) {
      ScalarsStay(f, vs);
      Cancel(RecordsBytes(f, vs).value, y, x);
    } else {
      OneMoreRecord(f, vs, x, y);
    }
  }

  lemma ScalarsStay(f: Field, vs: seq<Value>)
    requires Packable(f.kind) && forall v | v in vs :: Shaped(f, v)
    ensures RestoredAll(f, vs) == vs && forall v | v in vs :: KeepsValue(f, v)
  {
  }

  lemma {:induction false} OneMoreRecord(f: Field, vs: seq<Value>, x: Bytes, y: Option<Bytes>)
    requires WellFormedField(f) && (forall v | v in vs :: Shaped(f, v)) && RecordsBytes(f, vs).Some?
    requires vs != [] && !IsPacked(f)
    ensures forall v | v in RestoredAll(f, vs) :: Shaped(f, v)
    ensures Cat(RecordsBytes(f, RestoredAll(f, vs)), y) == Some(RecordsBytes(f, vs).value + x) <==>
      (forall v | v in vs :: KeepsValue(f, v)) && y == Some(x)
    decreases f, 1, |vs|, 0
  {
    hide Shaped, ValueBytes, PackedBytes, KeepsValue, Delimited, Restored, TagBytes, Cat;
    var rest := vs[1..];
    var t := TagBytes(f.tag, WireType(f.kind));
    CatIs(Some(t), ValueBytes(f, vs[0]));
    CatIs(Tagged(f, vs[0]), RecordsBytes(f, rest));
    var b := RecordsBytes(f, rest).value;
    RecordsExact(f, rest, x, y);
    var y' := Cat(RecordsBytes(f, RestoredAll(f, rest)), y);
    ValueExact(f, vs[0], b + x, y');
    RecordsUnfold(f, vs, y);
    var a := ValueBytes(f, vs[0]).value;
    assert t + a + b + x == t + (a + (b + x));
    Cancel(t, Cat(ValueBytes(f, Restored(f, vs[0])), y'), a + (b + x));
    assert vs == [vs[0]] + rest;
  }

  lemma CatIs(a: Option<Bytes>, b: Option<Bytes>)
    ensures Cat(a, b).Some? <==> a.Some? && b.Some?
    ensures a.Some? && b.Some? ==> Cat(a, b) == Some(a.value + b.value)
  {
  }

  lemma RecordsUnfold(f: Field, vs: seq<Value>, y: Option<Bytes>)
    requires vs != [] && !IsPacked(f) && forall v | v in vs :: Shaped(f, v)
    requires forall v | v in RestoredAll(f, vs) :: Shaped(f, v)
    ensures Shaped(f, Restored(f, vs[0])) && forall v | v in RestoredAll(f, vs[1..]) :: Shaped(f, v)
    ensures Cat(RecordsBytes(f, RestoredAll(f, vs)), y) ==
      Cat(Some(TagBytes(f.tag, WireType(f.kind))),
          Cat(ValueBytes(f, Restored(f, vs[0])), Cat(RecordsBytes(f, RestoredAll(f, vs[1..])), y)))
  {
    hide Shaped, ValueBytes, PackedBytes, Restored, TagBytes, Cat;
    var rs := RestoredAll(f, vs);
    assert rs[1..] == RestoredAll(f, vs[1..]);
    var t, v, r := Some(TagBytes(f.tag, WireType(f.kind))), ValueBytes(f, rs[0]), RecordsBytes(f, rs[1..]);
    CatAssociates(t, v, r);
    CatAssociates(t, Cat(v, r), y);
    CatAssociates(v, r, y);
  }

  /** The bytes are empty or start with the tag of a field from i on. */
  ghost predicate Opens(d: Descriptor, i: nat, b: Bytes) {
    b == [] || exists k: nat, wire: nat, rest ::
      i <= k < |d.fields| && wire < 8 && b == TagBytes(d.fields[k].tag, wire) + rest
  }

  lemma RecordsOpen(f: Field, vs: seq<Value>) returns (wire: nat, rest: Bytes)
    requires vs != [] && (forall v | v in vs :: Shaped(f, v)) && RecordsBytes(f, vs).Some?
    ensures wire < 8 && RecordsBytes(f, vs).value == TagBytes(f.tag, wire) + rest
  {
    hide Shaped, ValueBytes, PackedBytes, TagBytes, Delimited;
    if IsPacked(f) {
      wire, rest := WT_STRING, Delimited(PackedBytes(f, vs)).value;
    } else {
      var t, v, r := TagBytes(f.tag, WireType(f.kind)), ValueBytes(f, vs[0]).value, RecordsBytes(f, vs[1..]).value;
      assert t + v + r == t + (v + r);
      wire, rest := WireType(f.kind), v + r;
    }
  }

  lemma {:induction false} FieldsOpen(d: Descriptor, m: Value, i: nat)
    requires ShapedMessage(d, m) && i <= |d.fields| && MessageBytes(d, m, i).Some?
    ensures Opens(d, i, MessageBytes(d, m, i).value)
    decreases |d.fields| - i
  {
    hide Shaped, RecordsBytes, TagBytes;
    if i < |d.fields| {
      var f, vs := d.fields[i], Present(d.fields[i], m.slots[i], m.unions);
      FieldsOpen(d, m, i + 1);
      var x := MessageBytes(d, m, i + 1).value;
      if vs == [] {
        NoRecords(f);
        assert [] + x == x;
      } else {
        var wire, rest := RecordsOpen(f, vs);
        assert TagBytes(f.tag, wire) + rest + x == TagBytes(f.tag, wire) + (rest + x);
      }
    }
  }

  lemma NoRecords(f: Field)
    ensures RecordsBytes(f, []) == Some([])
  {
  }

  /** The tag of field i does not open the bytes of the fields behind it. */
  lemma OtherTag(d: Descriptor, i: nat, b: Bytes, wire: nat, rest: Bytes)
    requires WellFormed(d) && i < |d.fields| && Opens(d, i + 1, b) && wire < 8
    ensures b != TagBytes(d.fields[i].tag, wire) + rest
  {
    hide Varint, WellFormedField;
    if b == TagBytes(d.fields[i].tag, wire) + rest {
      var k: nat, w: nat, r :| i + 1 <= k < |d.fields| && w < 8 && b == TagBytes(d.fields[k].tag, w) + r;
      TagPrefix(d.fields[k].tag, w, r, d.fields[i].tag, wire, rest);
    }
  }

  /** A field sent on one side only shows in the bytes. */
  lemma Shows(d: Descriptor, i: nat, vs: seq<Value>, a: Option<Bytes>, b: Option<Bytes>)
    requires WellFormed(d) && i < |d.fields| && vs != [] && forall v | v in vs :: Shaped(d.fields[i], v)
    requires b.Some? ==> Opens(d, i + 1, b.value)
    ensures Cat(RecordsBytes(d.fields[i], vs), a).Some? ==> Cat(RecordsBytes(d.fields[i], vs), a) != b
  {
    hide Shaped, RecordsBytes, TagBytes, Opens, WellFormed;
    var f := d.fields[i];
    if RecordsBytes(f, vs).Some? && a.Some? && b.Some? {
      var wire, rest := RecordsOpen(f, vs);
      assert TagBytes(f.tag, wire) + rest + a.value == TagBytes(f.tag, wire) + (rest + a.value);
      OtherTag(d, i, b.value, wire, rest + a.value);
    }
  }

  lemma MessageUnfolds(d: Descriptor, m: Value, i: nat)
    requires ShapedMessage(d, m) && i < |d.fields|
    ensures ShapedSlot(d.fields[i], m.slots[i], m.unions)
    ensures var vs := Present(d.fields[i], m.slots[i], m.unions);
      MessageBytes(d, m, i) ==
        if TooMany(d.fields[i], vs) then None else Cat(RecordsBytes(d.fields[i], vs), MessageBytes(d, m, i + 1))
  {
    hide Shaped, RecordsBytes;
  }

  lemma {:induction false} FieldsExact(d: Descriptor, m: Value, i: nat)
    requires WellFormed(d) && ShapedMessage(d, m) && i <= |d.fields| && MessageBytes(d, m, i).Some?
    requires ShapedMessage(d, RestoredMessage(d, m))
    ensures MessageBytes(d, RestoredMessage(d, m), i) == MessageBytes(d, m, i) <==>
      forall k: nat | i <= k < |d.fields| :: KeepsSlot(d, k, m)
    decreases d, |d.fields| - i
  {
    hide Shaped, Restored, RestoredMessage, RecordsBytes, Present, KeepsSlot, MessageBytes;
    if i == |d.fields| {
      NoFields(d, m);
      NoFields(d, RestoredMessage(d, m));
    } else {
      MessageUnfolds(d, m, i);
      CatIs(RecordsBytes(d.fields[i], Present(d.fields[i], m.slots[i], m.unions)), MessageBytes(d, m, i + 1));
      FieldsExact(d, m, i + 1);
      FieldExact(d, m, i);
    }
  }

  lemma NoFields(d: Descriptor, m: Value)
    requires ShapedMessage(d, m)
    ensures MessageBytes(d, m, |d.fields|) == Some([])
  {
  }

  /** Field i, with the fields behind it. */
  lemma {:induction false} FieldExact(d: Descriptor, m: Value, i: nat)
    requires WellFormed(d) && ShapedMessage(d, m) && i < |d.fields| && MessageBytes(d, m, i).Some?
    requires ShapedMessage(d, RestoredMessage(d, m))
    ensures MessageBytes(d, RestoredMessage(d, m), i) == MessageBytes(d, m, i) <==>
      KeepsSlot(d, i, m) && MessageBytes(d, RestoredMessage(d, m), i + 1) == MessageBytes(d, m, i + 1)
    decreases d, |d.fields| - i, 0
  {
    hide Shaped, Restored, RestoredMessage, RecordsBytes, MessageBytes, StaysNonzero, KeepsValue, ZeroByDefault, IsZero, Present,
      ShapedSlot;
    var f, r := d.fields[i], RestoredMessage(d, m);
    MessageUnfolds(d, m, i);
    MessageUnfolds(d, r, i);
    PresentAgain(d, m, i);
    var vs, again := Present(f, m.slots[i], m.unions), Present(f, r.slots[i], r.unions);
    var x, y := MessageBytes(d, m, i + 1), MessageBytes(d, r, i + 1);
    CatIs(RecordsBytes(f, vs), x);
    PresentIs(f, m.slots[i], m.unions);
    assert WellFormedField(f);
    if again == RestoredAll(f, vs) {
      RecordsExact(f, vs, x.value, y);
    } else if vs == [] {
      NoRecords(f);
      NothingBefore(x);
      FieldsOpen(d, m, i + 1);
      Shows(d, i, again, y, x);
    } else {
      NoRecords(f);
      NothingBefore(y);
      if y.Some? {
        FieldsOpen(d, r, i + 1);
      }
      Shows(d, i, vs, x, y);
      assert again == [] && !KeepsSlot(d, i, m);
    }
  }

  /** A proto3 singular field is present unless it is zero. */
  lemma PresentIs(f: Field, slot: Slot, unions: map<nat, Choice>)
    requires ShapedSlot(f, slot, unions)
    ensures f.rule == Optional(false) ==>
      (slot.Single? && Shaped(f, slot.value) &&
       Present(f, slot, unions) == if IsZero(f, slot.value) then [] else [slot.value])
  {
    hide Shaped, IsZero;
  }

  lemma AllSlotsKeep(d: Descriptor, m: Value)
    requires ShapedMessage(d, m) && forall k: nat | 0 <= k < |d.fields| :: KeepsSlot(d, k, m)
    ensures Keeps(d, m)
  {
  }

  lemma OneSlotKeeps(d: Descriptor, m: Value, k: nat)
    requires ShapedMessage(d, m) && Keeps(d, m) && k < |d.fields|
    ensures KeepsSlot(d, k, m)
  {
  }

  lemma {:induction false} MessageExact(d: Descriptor, m: Value)
    requires WellFormed(d) && ShapedMessage(d, m) && MessageBytes(d, m, 0).Some?
    ensures ShapedMessage(d, RestoredMessage(d, m))
    ensures MessageBytes(d, RestoredMessage(d, m), 0) == MessageBytes(d, m, 0) <==> Keeps(d, m)
    decreases d, |d.fields| + 1
  {
    hide Shaped, Restored, RestoredMessage, MessageBytes;
    RestoredMessageIsShaped(d, m);
    FieldsExact(d, m, 0);
    if Keeps(d, m) {
      forall k: nat | 0 <= k < |d.fields|
        ensures KeepsSlot(d, k, m)
      {
        OneSlotKeeps(d, m, k);
      }
    } else if MessageBytes(d, RestoredMessage(d, m), 0) == MessageBytes(d, m, 0) {
      AllSlotsKeep(d, m);
    }
  }

  /** MAIN: whatever was sent, the message that comes back is encoded to the same bytes if and only if the message
      satisfies the condition. */
  lemma RestoredSendsTheSame(d: Descriptor, m: Value)
    requires WellFormed(d) && ShapedMessage(d, m) && MessageBytes(d, m, 0).Some?
    ensures ShapedMessage(d, RestoredMessage(d, m))
    ensures MessageBytes(d, RestoredMessage(d, m), 0) == MessageBytes(d, m, 0) <==> Keeps(d, m)
  {
    MessageExact(d, m);
  }

  /** MAIN: encode, decode, encode again: the same bytes if and only if the message satisfies the condition. */
  method EncodeTwice(d: Descriptor, m: Value, n: nat) returns (ok: bool, first: Bytes, again: bool, second: Bytes)
    requires WellFormed(d) && ShapedMessage(d, m) && n < MAX32
    ensures ok == (MessageBytes(d, m, 0).Some? && |MessageBytes(d, m, 0).value| <= n && RestorableMessage(d, m))
    ensures ok ==> Some(first) == MessageBytes(d, m, 0) && (again && second == first <==> Keeps(d, m))
  {
    hide RestoredMessage, MessageBytes, RestorableMessage, WellFormed, ShapedMessage, Keeps, MessageIn;
    var sized, size, r;
    ok, first, sized, size := NanopbEncode.EncodeToBuffer(d, m, n);
    again, second := false, [];
    if ok {
      var input := new IStream(first, 0, |first|);
      assert input.Remaining() == first;
      MessageReads(d, m);
      ok, r := NanopbDecode.Decode(input, d);
      if ok {
        RestoredSendsTheSame(d, m);
        again, second, sized, size := NanopbEncode.EncodeToBuffer(d, r, n);
      }
    }
  }

  // ----- A message that is refused, and two that change -----

  const NAME: Descriptor := Descriptor([Field(1, Required, Text, 3, 0, Blob([]))])

  /** A text that fills its array of three characters is sent like any other, and is the only one refused. */
  lemma FullArrayIsRefused(text: Bytes)
    requires |text| <= 3 && forall b | b in text :: b != 0
    ensures var m := Message([Single(Blob(text))], map[]);
      WellFormed(NAME) && ShapedMessage(NAME, m) && MessageBytes(NAME, m, 0) == Some([10, |text| as Byte] + text) &&
      (RestorableMessage(NAME, m) <==> |text| < 3)
  {
    var f, m := NAME.fields[0], Message([Single(Blob(text))], map[]);
    assert Shaped(f, Blob([])) && Shaped(f, Blob(text)) && ShapedSlot(f, m.slots[0], m.unions);
    MessageUnfolds(NAME, m, 0);
    NoFields(NAME, m);
    NoRecords(f);
    assert Present(f, m.slots[0], m.unions) == [Blob(text)];
    assert ValueBytes(f, Blob(text)) == Some([|text| as Byte] + text) && TagBytes(1, WT_STRING) == [10];
    assert RecordsBytes(f, [Blob(text)]) == Cat(Tagged(f, Blob(text)), Some([]));
    assert [10] + ([|text| as Byte] + text) + [] + [] == [10, |text| as Byte] + text;
    assert Restorable(f, Blob(text)) <==> |text| < 3;
  }

  const FIVE: Descriptor := Descriptor([Field(1, Optional(false), Int, 4, 0, Num(5))])

  const ZERO: Value := Message([Single(Num(0))], map[])

  lemma ZeroIsNotSent()
    ensures WellFormed(FIVE) && ShapedMessage(FIVE, ZERO) && MessageBytes(FIVE, ZERO, 0) == Some([])
  {
    var f := FIVE.fields[0];
    assert Shaped(f, Num(0)) && Shaped(f, Num(5)) && ShapedSlot(f, ZERO.slots[0], ZERO.unions);
    MessageUnfolds(FIVE, ZERO, 0);
    NoFields(FIVE, ZERO);
    NoRecords(f);
    NothingBefore(Some([]));
  }

  /** A zero in a proto3 field with another default is not sent, and comes back as the default; any other value is
      kept. */
  lemma ZeroIsLost()
    ensures WellFormed(FIVE) && ShapedMessage(FIVE, ZERO) && MessageBytes(FIVE, ZERO, 0) == Some([])
    ensures !Keeps(FIVE, ZERO) && RestoredMessage(FIVE, ZERO).slots == [Single(Num(5))]
    ensures ShapedMessage(FIVE, RestoredMessage(FIVE, ZERO)) && MessageBytes(FIVE, RestoredMessage(FIVE, ZERO), 0) != Some([])
    ensures forall n | n != 0 && -0x8000_0000 <= n < 0x8000_0000 ::
      ShapedMessage(FIVE, Message([Single(Num(n))], map[])) && Keeps(FIVE, Message([Single(Num(n))], map[]))
  {
    hide MessageBytes;
    ZeroIsNotSent();
    SlotIs(FIVE, ZERO, 0);
    assert !KeepsSlot(FIVE, 0, ZERO);
    RestoredSendsTheSame(FIVE, ZERO);
    forall n | n != 0 && -0x8000_0000 <= n < 0x8000_0000
      ensures ShapedMessage(FIVE, Message([Single(Num(n))], map[])) && Keeps(FIVE, Message([Single(Num(n))], map[]))
    {
      OtherNumberKept(n);
    }
  }

  lemma OtherNumberKept(n: int)
    requires n != 0 && -0x8000_0000 <= n < 0x8000_0000
    ensures ShapedMessage(FIVE, Message([Single(Num(n))], map[])) && Keeps(FIVE, Message([Single(Num(n))], map[]))
  {
    var m := Message([Single(Num(n))], map[]);
    assert Shaped(FIVE.fields[0], Num(n)) && ShapedSlot(FIVE.fields[0], m.slots[0], m.unions);
    assert KeepsSlot(FIVE, 0, m);
  }

  const UNION: Descriptor := Descriptor([Field(1, Oneof(0), Int, 4, 0, Num(0))])

  const OUTER: Descriptor := Descriptor([Field(1, Optional(false), Submessage(UNION), 0, 0, Num(0))])

  const STRAY: Value := Message([Shared], map[0 := Choice(9, Num(0))])

  /** A union whose which_ tag names no member makes its message be sent, and comes back without a choice. */
  lemma StrayChoiceIsLost()
    ensures ShapedMessage(UNION, STRAY) && !IsZeroMessage(UNION, STRAY)
    ensures var r := RestoredMessage(UNION, STRAY); ShapedMessage(UNION, r) && IsZeroMessage(UNION, r)
    ensures var m := Message([Single(STRAY)], map[]); var r := Message([Single(RestoredMessage(UNION, STRAY))], map[]);
      ShapedMessage(OUTER, m) && ShapedMessage(OUTER, r) && !Keeps(OUTER, m) &&
      Present(OUTER.fields[0], m.slots[0], m.unions) != [] && Present(OUTER.fields[0], r.slots[0], r.unions) == []
  {
    var f, r := UNION.fields[0], RestoredMessage(UNION, STRAY);
    assert ShapedSlot(f, Shared, STRAY.unions) && !IsZeroSlot(f, Shared, STRAY.unions);
    SlotIs(UNION, STRAY, 0);
    assert RestoredUnions(UNION, STRAY, 0) == map[] && RestoredUnions(UNION, STRAY, 1) == map[];
    assert ShapedSlot(f, r.slots[0], r.unions) && IsZeroSlot(f, r.slots[0], r.unions);
    assert !Member(UNION, 0, STRAY.unions) && !NonzeroSlot(UNION, 0, STRAY);
    var o := OUTER.fields[0];
    assert Shaped(o, STRAY) && Shaped(o, r) && !IsZero(o, STRAY) && IsZero(o, r);
    assert !StaysNonzero(o, STRAY);
    assert !KeepsSlot(OUTER, 0, Message([Single(STRAY)], map[]));
  }
}
