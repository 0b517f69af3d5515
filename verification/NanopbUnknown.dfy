/** Messages between programs of different age: a decoder whose descriptor lacks some of the fields of the encoder's, and an
    encoder whose descriptor lacks some of the decoder's. */
module NanopbUnknown {
  import opened Entries
  import opened Encodings
  import opened Wire
  import opened Nanopb
  import opened WireFormat
  import opened NanopbParse
  import opened NanopbRoundTrip
  import NanopbDecode
  import NanopbEncode

  // ----- A descriptor with fewer fields -----

  /** The fields from i on whose numbers are not gone. */
  function FieldsLeft(d: Descriptor, gone: set<nat>, i: nat): seq<Field>
    requires i <= |d.fields|
    decreases |d.fields| - i
  {
    if i == |d.fields| then []
    else (if d.fields[i].tag in gone then [] else [d.fields[i]]) + FieldsLeft(d, gone, i + 1)
  }

  function SlotsLeft(d: Descriptor, slots: seq<Slot>, gone: set<nat>, i: nat): seq<Slot>
    requires i <= |d.fields| == |slots|
    decreases |d.fields| - i
  {
    if i == |d.fields| then []
    else (if d.fields[i].tag in gone then [] else [slots[i]]) + SlotsLeft(d, slots, gone, i + 1)
  }

  function Older(d: Descriptor, gone: set<nat>): Descriptor {
    Descriptor(FieldsLeft(d, gone, 0))
  }

  /** The part of the struct an older program knows. */
  function OlderPart(d: Descriptor, m: Value, gone: set<nat>): Value
    requires ShapedMessage(d, m)
  {
    Message(SlotsLeft(d, m.slots, gone, 0), m.unions)
  }

  /** Field and slot come from some place of the full struct. */
  ghost predicate ComesFrom(d: Descriptor, slots: seq<Slot>, f: Field, slot: Slot, j: nat) {
    j < |d.fields| == |slots| && f == d.fields[j] && slot == slots[j]
  }

  lemma {:induction false} SameSize(d: Descriptor, slots: seq<Slot>, gone: set<nat>, i: nat)
    requires i <= |d.fields| == |slots|
    ensures |FieldsLeft(d, gone, i)| == |SlotsLeft(d, slots, gone, i)|
    decreases |d.fields| - i
  {
    if i < |d.fields| {
      SameSize(d, slots, gone, i + 1);
    }
  }

  lemma {:induction false} LeftIs(d: Descriptor, slots: seq<Slot>, gone: set<nat>, i: nat, k: nat) returns (j: nat)
    requires i <= |d.fields| == |slots| && k < |FieldsLeft(d, gone, i)| == |SlotsLeft(d, slots, gone, i)|
    ensures ComesFrom(d, slots, FieldsLeft(d, gone, i)[k], SlotsLeft(d, slots, gone, i)[k], j)
    decreases |d.fields| - i
  {
    SameSize(d, slots, gone, i + 1);
    if d.fields[i].tag in gone {
      j := LeftIs(d, slots, gone, i + 1, k);
    } else if k == 0 {
      j := i;
    } else {
      j := LeftIs(d, slots, gone, i + 1, k - 1);
    }
  }

  lemma OlderIsShaped(d: Descriptor, m: Value, gone: set<nat>)
    requires ShapedMessage(d, m)
    ensures ShapedMessage(Older(d, gone), OlderPart(d, m, gone))
  {
    hide Shaped;
    SameSize(d, m.slots, gone, 0);
    var e, p := Older(d, gone), OlderPart(d, m, gone);
    forall k | 0 <= k < |e.fields|
      ensures ShapedSlot(e.fields[k], p.slots[k], p.unions)
    {
      var j := LeftIs(d, m.slots, gone, 0, k);
      assert ShapedSlot(d.fields[j], m.slots[j], m.unions);
    }
  }

  /** No number is left twice. */
  lemma {:induction false} LeftDistinct(d: Descriptor, gone: set<nat>, i: nat)
    requires WellFormed(d) && i <= |d.fields|
    ensures forall a, b | 0 <= a < b < |FieldsLeft(d, gone, i)| ::
      FieldsLeft(d, gone, i)[a].tag != FieldsLeft(d, gone, i)[b].tag
    ensures forall f | f in FieldsLeft(d, gone, i) :: exists j :: i <= j < |d.fields| && d.fields[j] == f && f.tag !in gone
    decreases |d.fields| - i
  {
    hide WellFormedField;
    if i < |d.fields| {
      LeftDistinct(d, gone, i + 1);
    }
  }

  lemma OlderIsWellFormed(d: Descriptor, gone: set<nat>)
    requires WellFormed(d)
    ensures WellFormed(Older(d, gone))
    ensures forall n :: HasTag(Older(d, gone), n) ==> HasTag(d, n) && n !in gone
  {
    hide WellFormedField;
    LeftDistinct(d, gone, 0);
    var e := Older(d, gone);
    forall k | 0 <= k < |e.fields|
      ensures WellFormedField(e.fields[k]) && HasTag(d, e.fields[k].tag) && e.fields[k].tag !in gone
    {
      assert e.fields[k] in FieldsLeft(d, gone, 0);
    }
  }

  // ----- Its records -----

  lemma {:induction false} KnownConcat(d: Descriptor, a: seq<Raw>, b: seq<Raw>)
    ensures Known(d, a + b) == Known(d, a) + Known(d, b)
  {
    hide HasTag;
    if a == [] {
      assert a + b == b;
    } else {
      KnownConcat(d, a[1..], b);
      assert (a + b)[1..] == a[1..] + b;
    }
  }

  lemma {:induction false} NoneKnown(d: Descriptor, rs: seq<Raw>)
    requires forall r | r in rs :: !HasTag(d, r.number)
    ensures Known(d, rs) == []
  {
    if rs != [] {
      NoneKnown(d, rs[1..]);
    }
  }

  /** The next field of the older descriptor is field i, and the others follow. */
  lemma FrontsLeft(d: Descriptor, m: Value, gone: set<nat>, i: nat, k: nat)
    requires ShapedMessage(d, m) && i < |d.fields| && d.fields[i].tag !in gone
    requires ShapedMessage(Older(d, gone), OlderPart(d, m, gone)) && k <= |Older(d, gone).fields|
    requires Older(d, gone).fields[k..] == FieldsLeft(d, gone, i)
    requires OlderPart(d, m, gone).slots[k..] == SlotsLeft(d, m.slots, gone, i)
    ensures k < |Older(d, gone).fields| && Older(d, gone).fields[k] == d.fields[i]
    ensures OlderPart(d, m, gone).slots[k] == m.slots[i] && OlderPart(d, m, gone).unions == m.unions
    ensures Older(d, gone).fields[k + 1..] == FieldsLeft(d, gone, i + 1)
    ensures OlderPart(d, m, gone).slots[k + 1..] == SlotsLeft(d, m.slots, gone, i + 1)
  {
    hide Shaped, ShapedSlot;
    var e, p := Older(d, gone), OlderPart(d, m, gone);
    assert e.fields[k] == e.fields[k..][0] && p.slots[k] == p.slots[k..][0];
    assert e.fields[k + 1..] == e.fields[k..][1..] && p.slots[k + 1..] == p.slots[k..][1..];
  }

  /** From field i of d, which is field k of the older descriptor, on: the older fields' records are the known ones. */
  lemma {:induction false} RecordsLeft(d: Descriptor, m: Value, gone: set<nat>, i: nat, k: nat)
    requires ShapedMessage(d, m) && i <= |d.fields| && MessageBytes(d, m, i).Some?
    requires ShapedMessage(Older(d, gone), OlderPart(d, m, gone)) && k <= |Older(d, gone).fields|
    requires Older(d, gone).fields[k..] == FieldsLeft(d, gone, i)
    requires OlderPart(d, m, gone).slots[k..] == SlotsLeft(d, m.slots, gone, i)
    requires forall n :: HasTag(Older(d, gone), n) ==> n !in gone
    ensures MessageBytes(Older(d, gone), OlderPart(d, m, gone), k).Some?
    ensures RecordsOf(Older(d, gone), OlderPart(d, m, gone), k) == Known(Older(d, gone), RecordsOf(d, m, i))
    decreases |d.fields| - i
  {
    hide Shaped, HasTag, FieldRecords, RecordsBytes, Present, Complete, Flat;
    var e, p := Older(d, gone), OlderPart(d, m, gone);
    if i < |d.fields| {
      var f := d.fields[i];
      assert ShapedSlot(f, m.slots[i], m.unions);
      var vs := Present(f, m.slots[i], m.unions);
      FieldIsFlat(f, vs);
      KnownConcat(e, FieldRecords(f, vs), RecordsOf(d, m, i + 1));
      if f.tag in gone {
        RecordsLeft(d, m, gone, i + 1, k);
        NoneKnown(e, FieldRecords(f, vs));
      } else {
        FrontsLeft(d, m, gone, i, k);
        RecordsLeft(d, m, gone, i + 1, k + 1);
        TagIsThere(e, k);
        AllKnown(e, FieldRecords(f, vs));
      }
    }
  }

  lemma TagIsThere(d: Descriptor, i: nat)
    requires i < |d.fields|
    ensures HasTag(d, d.fields[i].tag)
  {
  }

  /** Every record of an encoding can be stepped over. */
  lemma {:induction false} RecordsAreSkippable(d: Descriptor, m: Value, i: nat)
    requires WellFormed(d) && ShapedMessage(d, m) && i <= |d.fields| && MessageBytes(d, m, i).Some?
    requires |MessageBytes(d, m, i).value| < MAX32
    ensures forall r | r in RecordsOf(d, m, i) :: Skippable(r)
    decreases |d.fields| - i
  {
    hide Shaped, FieldRecords, RecordsBytes, Present, Complete, Skippable;
    if i < |d.fields| {
      var f := d.fields[i];
      assert ShapedSlot(f, m.slots[i], m.unions);
      FieldIsSkippable(f, Present(f, m.slots[i], m.unions));
      RecordsAreSkippable(d, m, i + 1);
    }
  }

  lemma {:induction false} FieldIsSkippable(f: Field, vs: seq<Value>)
    requires WellFormedField(f) && AllShaped(f, vs) && RecordsBytes(f, vs).Some? && |RecordsBytes(f, vs).value| < MAX32
    ensures forall r | r in FieldRecords(f, vs) :: Skippable(r)
    decreases |vs|
  {
    hide ValueBytes, PackedBytes, Delimited, Shaped, MessageBytes, TagBytes, Complete;
    if vs == [] {
    } else if IsPacked(f) {
      PackedRecord(f, vs);
      DelimitedIs(PackedBytes(f, vs));
      DelimitedSame(PackedBytes(f, vs));
    } else {
      assert RecordsBytes(f, vs) == Cat(Tagged(f, vs[0]), RecordsBytes(f, vs[1..]));
      ValueRecord(f, vs[0]);
      ValueIsDelimited(f, vs[0]);
      FieldIsSkippable(f, vs[1..]);
    }
  }

  lemma DelimitedSame(b: Option<Bytes>)
    requires b.Some?
    ensures Delimited(b) == Delimited(Some(b.value))
  {
  }

  lemma ValueIsDelimited(f: Field, v: Value)
    requires Shaped(f, v) && ValueBytes(f, v).Some? && |ValueBytes(f, v).value| < MAX32
    ensures TypeOf(f.kind) == 2 ==> exists b: Bytes :: |b| < MAX32 && ValueBytes(f, v).value == Delimited(Some(b)).value
  {
    hide Varint, MessageBytes;
    if TypeOf(f.kind) == 2 {
      var b := if f.kind.Submessage? then MessageBytes(f.kind.fields, v, 0).value else v.bytes;
      assert ValueBytes(f, v) == Delimited(Some(b));
      DelimitedIs(Some(b));
    }
  }

  /** What a newer program encodes holds, for an older one, the part it knows. */
  lemma NewerHolds(d: Descriptor, m: Value, gone: set<nat>)
    requires WellFormed(d) && ShapedMessage(d, m)
    requires MessageBytes(d, m, 0).Some? && |MessageBytes(d, m, 0).value| < MAX32
    ensures ShapedMessage(Older(d, gone), OlderPart(d, m, gone))
    ensures MessageBytes(Older(d, gone), OlderPart(d, m, gone), 0).Some?
    ensures HoldsSent(MessageBytes(d, m, 0).value, Older(d, gone), Sent(Older(d, gone), OlderPart(d, m, gone)))
  {
    hide Shaped, Complete, MessageBytes, RecordsOf, ShapedMessage, Skippable, WellFormed, HasTag, Known, SentRecords, Sent;
    var e, p := Older(d, gone), OlderPart(d, m, gone);
    OlderIsShaped(d, m, gone);
    OlderIsWellFormed(d, gone);
    RecordsLeft(d, m, gone, 0, 0);
    RecordsAreSkippable(d, m, 0);
    MessageIsFlat(d, m, 0);
    SentIsAccepted(e, p);
    SentRecordsAre(e, p, 0);
    assert StrewnWith(MessageBytes(d, m, 0).value, e, RecordsOf(e, p, 0), RecordsOf(d, m, 0));
  }

  /** MAIN: an older decoder, whose descriptor lacks any of the fields, steps over exactly their records: it succeeds if and
      only if it would on a message with the other fields alone, and then restores those and reads every byte. */
  method UnknownFieldsAreSkipped(d: Descriptor, m: Value, gone: set<nat>, n: nat)
    returns (encoded: bool, decoded: bool, r: Value, unread: nat)
    requires WellFormed(d) && ShapedMessage(d, m) && n < MAX32
    ensures encoded == (MessageBytes(d, m, 0).Some? && |MessageBytes(d, m, 0).value| <= n)
    ensures ShapedMessage(Older(d, gone), OlderPart(d, m, gone))
    ensures encoded ==>
      decoded == RestorableMessage(Older(d, gone), OlderPart(d, m, gone)) &&
      (decoded ==> unread == 0 && r == RestoredMessage(Older(d, gone), OlderPart(d, m, gone)))
  {
    hide MessageBytes, RestorableMessage, RestoredMessage, ShapedMessage, WellFormed, HoldsSent, HasTag, AllAccepted,
      SentPartly, MessageIn, Sent;
    var e := Older(d, gone);
    ghost var p := OlderPart(d, m, gone);
    OlderIsShaped(d, m, gone);
    OlderIsWellFormed(d, gone);
    var bytes, sized, size;
    encoded, bytes, sized, size := NanopbEncode.EncodeToBuffer(d, m, n);
    var s := new IStream(bytes, 0, |bytes|);
    assert s.Remaining() == bytes;
    if encoded {
      NewerHolds(d, m, gone);
      SentIsDecoded(bytes, e, Sent(e, p));
      SentIsAccepted(e, p);
      SentIsRestored(e, p);
    }
    decoded, r := NanopbDecode.Decode(s, e);
    unread := s.left;
    assert |s.Remaining()| == unread;
  }

  /** What it restores is what the full decoder restores of those fields. */
  lemma {:induction false} RestoredLeft(d: Descriptor, m: Value, gone: set<nat>, i: nat, k: nat)
    requires ShapedMessage(d, m) && i <= |d.fields|
    requires ShapedMessage(Older(d, gone), OlderPart(d, m, gone)) && k <= |Older(d, gone).fields|
    requires Older(d, gone).fields[k..] == FieldsLeft(d, gone, i)
    requires OlderPart(d, m, gone).slots[k..] == SlotsLeft(d, m.slots, gone, i)
    ensures RestoredMessage(Older(d, gone), OlderPart(d, m, gone)).slots[k..] ==
      SlotsLeft(d, RestoredMessage(d, m).slots, gone, i)
    decreases |d.fields| - i
  {
    hide Shaped, RestoredSlot, RestoredUnions, RestoredMessage, ShapedMessage;
    var e, p := Older(d, gone), OlderPart(d, m, gone);
    RestoredSize(d, m);
    RestoredSize(e, p);
    if i < |d.fields| {
      SlotRestored(d, m, i);
      if d.fields[i].tag in gone {
        RestoredLeft(d, m, gone, i + 1, k);
      } else {
        FrontsLeft(d, m, gone, i, k);
        RestoredLeft(d, m, gone, i + 1, k + 1);
        SlotRestored(e, p, k);
        var r := RestoredMessage(e, p).slots;
        FrontSlot(r, k);
      }
    }
  }

  lemma RestoredSize(d: Descriptor, m: Value)
    requires ShapedMessage(d, m)
    ensures RestoredMessage(d, m).Message? && |RestoredMessage(d, m).slots| == |d.fields| == |m.slots|
  {
  }

  lemma FrontSlot(r: seq<Slot>, k: nat)
    requires k < |r|
    ensures r[k..] == [r[k]] + r[k + 1..]
  {
  }

  lemma SlotRestored(d: Descriptor, m: Value, i: nat)
    requires ShapedMessage(d, m) && i < |d.fields|
    ensures ShapedSlot(d.fields[i], m.slots[i], m.unions)
    ensures |RestoredMessage(d, m).slots| == |d.fields|
    ensures RestoredMessage(d, m).slots[i] == RestoredSlot(d.fields[i], m.slots[i], m.unions)
  {
    hide Shaped, RestoredSlot, RestoredUnions;
    assert ShapedSlot(d.fields[i], m.slots[i], m.unions);
  }

  lemma RestoresTheOthers(d: Descriptor, m: Value, gone: set<nat>)
    requires ShapedMessage(d, m)
    ensures ShapedMessage(Older(d, gone), OlderPart(d, m, gone))
    ensures RestoredMessage(Older(d, gone), OlderPart(d, m, gone)).slots == SlotsLeft(d, RestoredMessage(d, m).slots, gone, 0)
  {
    hide Shaped, RestoredMessage, ShapedMessage;
    OlderIsShaped(d, m, gone);
    RestoredLeft(d, m, gone, 0, 0);
  }

  // ----- Messages from an older program -----

  /** What the older program sends, in the places of the full descriptor. */
  ghost function OlderSent(d: Descriptor, m: Value, gone: set<nat>): (r: seq<seq<Value>>)
    requires ShapedMessage(d, m)
    ensures |r| == |d.fields|
  {
    seq(|d.fields|, i requires 0 <= i < |d.fields| => if d.fields[i].tag in gone then [] else Sent(d, m)[i])
  }

  lemma {:induction false} OlderSends(d: Descriptor, m: Value, gone: set<nat>, i: nat, k: nat)
    requires ShapedMessage(d, m) && i <= |d.fields| && ShapedMessage(Older(d, gone), OlderPart(d, m, gone))
    requires k <= |Older(d, gone).fields| && MessageBytes(Older(d, gone), OlderPart(d, m, gone), k).Some?
    requires Older(d, gone).fields[k..] == FieldsLeft(d, gone, i)
    requires OlderPart(d, m, gone).slots[k..] == SlotsLeft(d, m.slots, gone, i)
    ensures forall x | i <= x < |d.fields| ::
      SendableField(d.fields[x], OlderSent(d, m, gone)[x]) && !TooMany(d.fields[x], OlderSent(d, m, gone)[x])
    decreases |d.fields| - i
  {
    hide Shaped, RecordsBytes, Older, OlderPart;
    var e, p, vss := Older(d, gone), OlderPart(d, m, gone), OlderSent(d, m, gone);
    if i < |d.fields| {
      assert ShapedSlot(d.fields[i], m.slots[i], m.unions);
      if d.fields[i].tag in gone {
        OlderSends(d, m, gone, i + 1, k);
        NoRecords(d.fields[i]);
      } else {
        FrontsLeft(d, m, gone, i, k);
        OlderSends(d, m, gone, i + 1, k + 1);
        assert vss[i] == Present(d.fields[i], m.slots[i], m.unions);
      }
    }
  }

  lemma {:induction false} OlderRecords(d: Descriptor, m: Value, gone: set<nat>, i: nat, k: nat)
    requires ShapedMessage(d, m) && i <= |d.fields| && ShapedMessage(Older(d, gone), OlderPart(d, m, gone))
    requires k <= |Older(d, gone).fields| && MessageBytes(Older(d, gone), OlderPart(d, m, gone), k).Some?
    requires Older(d, gone).fields[k..] == FieldsLeft(d, gone, i)
    requires OlderPart(d, m, gone).slots[k..] == SlotsLeft(d, m.slots, gone, i)
    requires Sendable(d, OlderSent(d, m, gone))
    ensures SentRecords(d, OlderSent(d, m, gone), i) == RecordsOf(Older(d, gone), OlderPart(d, m, gone), k)
    ensures forall r | r in SentRecords(d, OlderSent(d, m, gone), i) :: HasTag(d, r.number)
    decreases |d.fields| - i
  {
    hide Shaped, RecordsBytes, FieldRecords, Present, Complete, HasTag, Older, OlderPart;
    var e, p, vss := Older(d, gone), OlderPart(d, m, gone), OlderSent(d, m, gone);
    if i < |d.fields| {
      assert SendableField(d.fields[i], vss[i]);
      assert ShapedSlot(d.fields[i], m.slots[i], m.unions);
      FieldIsFlat(d.fields[i], vss[i]);
      TagIsThere(d, i);
      if d.fields[i].tag in gone {
        OlderRecords(d, m, gone, i + 1, k);
        NoRecords(d.fields[i]);
      } else {
        FrontsLeft(d, m, gone, i, k);
        OlderRecords(d, m, gone, i + 1, k + 1);
      }
    }
  }

  lemma NoRecords(f: Field)
    ensures RecordsBytes(f, []).Some? && FieldRecords(f, []) == []
  {
  }

  /** What an older program encodes holds, for a newer one, the values it has sent. */
  lemma OlderHolds(d: Descriptor, m: Value, gone: set<nat>)
    requires ShapedMessage(d, m) && ShapedMessage(Older(d, gone), OlderPart(d, m, gone))
    requires MessageBytes(Older(d, gone), OlderPart(d, m, gone), 0).Some?
    requires |MessageBytes(Older(d, gone), OlderPart(d, m, gone), 0).value| < MAX32
    ensures HoldsSent(MessageBytes(Older(d, gone), OlderPart(d, m, gone), 0).value, d, OlderSent(d, m, gone))
    ensures Sendable(d, OlderSent(d, m, gone))
    ensures forall i | 0 <= i < |d.fields| :: !TooMany(d.fields[i], OlderSent(d, m, gone)[i])
  {
    hide Complete, MessageBytes, Shaped, RecordsOf, ShapedMessage, HasTag, Skippable, SendableField, SentRecords, OlderSent;
    var e, p, vss := Older(d, gone), OlderPart(d, m, gone), OlderSent(d, m, gone);
    OlderSends(d, m, gone, 0, 0);
    assert Sendable(d, vss);
    OlderRecords(d, m, gone, 0, 0);
    MessageIsFlat(e, p, 0);
    AllKnown(d, RecordsOf(e, p, 0));
    assert StrewnWith(MessageBytes(e, p, 0).value, d, SentRecords(d, vss, 0), RecordsOf(e, p, 0));
  }

  /** No required field of the first 64 is gone. */
  ghost predicate NothingRequired(d: Descriptor, gone: set<nat>) {
    forall i | 0 <= i < |d.fields| && d.fields[i].rule.Required? && RequiredBefore(d, i) < MAX_REQUIRED ::
      d.fields[i].tag !in gone
  }

  lemma OlderIsAccepted(d: Descriptor, m: Value, gone: set<nat>)
    requires ShapedMessage(d, m) && Sendable(d, OlderSent(d, m, gone))
    requires forall i | 0 <= i < |d.fields| :: !TooMany(d.fields[i], OlderSent(d, m, gone)[i])
    ensures AllAccepted(d, OlderSent(d, m, gone)) <==> NothingRequired(d, gone) && RestorableLeft(d, m, gone)
  {
    hide Restorable, Shaped, RecordsBytes;
    forall i | 0 <= i < |d.fields|
      ensures ShapedSlot(d.fields[i], m.slots[i], m.unions)
      ensures Accepted(d, OlderSent(d, m, gone), i) <==>
        ((d.fields[i].rule.Required? && RequiredBefore(d, i) < MAX_REQUIRED ==> d.fields[i].tag !in gone) &&
         (d.fields[i].tag !in gone ==> SlotRestorable(d.fields[i], m.slots[i], m.unions)))
    {
      assert ShapedSlot(d.fields[i], m.slots[i], m.unions);
      assert SendableField(d.fields[i], OlderSent(d, m, gone)[i]);
    }
  }

  predicate SlotRestorable(f: Field, slot: Slot, unions: map<nat, Choice>)
    requires ShapedSlot(f, slot, unions)
  {
    forall v | v in Present(f, slot, unions) :: Restorable(f, v)
  }

  /** Every value sent by the fields that are left can be restored. */
  ghost predicate RestorableLeft(d: Descriptor, m: Value, gone: set<nat>)
    requires ShapedMessage(d, m)
  {
    forall i | 0 <= i < |d.fields| && d.fields[i].tag !in gone ::
      ShapedSlot(d.fields[i], m.slots[i], m.unions) && SlotRestorable(d.fields[i], m.slots[i], m.unions)
  }

  /** Field by field: what was sent, or the default. */
  lemma OlderIsRestored(d: Descriptor, m: Value, gone: set<nat>, i: nat)
    requires ShapedMessage(d, m) && Sendable(d, OlderSent(d, m, gone)) && i < |d.fields|
    requires !TooMany(d.fields[i], OlderSent(d, m, gone)[i])
    ensures ShapedSlot(d.fields[i], m.slots[i], m.unions)
    ensures SentPartly(d, OlderSent(d, m, gone), |d.fields|).slots[i] ==
      if d.fields[i].tag in gone then DefaultSlot(d.fields[i]) else RestoredSlot(d.fields[i], m.slots[i], m.unions)
  {
    hide Restored, Shaped, SentUnions, DefaultValue, RecordsBytes;
    var f, vs := d.fields[i], OlderSent(d, m, gone)[i];
    assert ShapedSlot(f, m.slots[i], m.unions) && SendableField(f, vs);
    if f.rule.Repeated? {
      FilledStarts(f, vs);
      if f.tag !in gone {
        FilledEnds(f, vs);
      }
    }
  }

  /** MAIN: a decoder that has more fields than the encoder succeeds if and only if none of those it misses is required, of
      the first 64, and the values sent can be restored; then the fields it misses have their defaults, the others what was
      sent, and every byte is read. */
  method MissingFieldsGetDefaults(d: Descriptor, m: Value, gone: set<nat>, n: nat)
    returns (encoded: bool, decoded: bool, r: Value, unread: nat)
    requires WellFormed(d) && ShapedMessage(d, m) && n < MAX32
    ensures ShapedMessage(Older(d, gone), OlderPart(d, m, gone))
    ensures encoded == (MessageBytes(Older(d, gone), OlderPart(d, m, gone), 0).Some? &&
                        |MessageBytes(Older(d, gone), OlderPart(d, m, gone), 0).value| <= n)
    ensures encoded ==> decoded == (NothingRequired(d, gone) && RestorableLeft(d, m, gone))
    ensures encoded && decoded ==> unread == 0 && HasSlots(d, m, gone, r) && HasChoices(d, m, gone, r.unions)
  {
    hide MessageBytes, ShapedMessage, WellFormed, HoldsSent, HasTag, AllAccepted, SentPartly, MessageIn, NothingRequired,
      RestorableLeft, OlderSent, HasSlots, ChoicesOf;
    var e, p := Older(d, gone), OlderPart(d, m, gone);
    OlderIsShaped(d, m, gone);
    OlderIsWellFormed(d, gone);
    var bytes, sized, size;
    encoded, bytes, sized, size := NanopbEncode.EncodeToBuffer(e, p, n);
    var s := new IStream(bytes, 0, |bytes|);
    assert s.Remaining() == bytes;
    if encoded {
      OlderHolds(d, m, gone);
      SentIsDecoded(bytes, d, OlderSent(d, m, gone));
      OlderIsAccepted(d, m, gone);
      OlderHasSlots(d, m, gone);
      OlderHasChoices(d, m, gone, |d.fields|);
      UnionsOf(d, OlderSent(d, m, gone));
    }
    decoded, r := NanopbDecode.Decode(s, d);
    unread := s.left;
    assert |s.Remaining()| == unread;
  }

  ghost predicate HasSlots(d: Descriptor, m: Value, gone: set<nat>, r: Value)
    requires ShapedMessage(d, m)
  {
    r.Message? && |r.slots| == |d.fields| &&
    forall i | 0 <= i < |d.fields| ::
      ShapedSlot(d.fields[i], m.slots[i], m.unions) &&
      r.slots[i] == if d.fields[i].tag in gone then DefaultSlot(d.fields[i]) else RestoredSlot(d.fields[i], m.slots[i], m.unions)
  }

  lemma OlderHasSlots(d: Descriptor, m: Value, gone: set<nat>)
    requires ShapedMessage(d, m) && Sendable(d, OlderSent(d, m, gone))
    requires forall i | 0 <= i < |d.fields| :: !TooMany(d.fields[i], OlderSent(d, m, gone)[i])
    ensures HasSlots(d, m, gone, SentPartly(d, OlderSent(d, m, gone), |d.fields|))
  {
    hide Shaped, Sendable, RestoredSlot, DefaultSlot, SentPartly, OlderSent;
    forall i | 0 <= i < |d.fields|
      ensures ShapedSlot(d.fields[i], m.slots[i], m.unions)
      ensures SentPartly(d, OlderSent(d, m, gone), |d.fields|).slots[i] ==
        if d.fields[i].tag in gone then DefaultSlot(d.fields[i]) else RestoredSlot(d.fields[i], m.slots[i], m.unions)
    {
      OlderIsRestored(d, m, gone, i);
    }
  }

  /** The unions hold exactly the choices of the fields that are left. */
  ghost predicate HasChoices(d: Descriptor, m: Value, gone: set<nat>, unions: map<nat, Choice>)
    requires ShapedMessage(d, m)
  {
    ChoicesOf(d, m, gone, unions, |d.fields|)
  }

  ghost predicate ChoicesOf(d: Descriptor, m: Value, gone: set<nat>, unions: map<nat, Choice>, n: nat)
    requires ShapedMessage(d, m) && n <= |d.fields|
  {
    (forall i | 0 <= i < n && ChosenLeft(d, m, gone, i) ::
       d.fields[i].rule.group in unions && ShapedSlot(d.fields[i], m.slots[i], m.unions) &&
       unions[d.fields[i].rule.group] ==
         Choice(d.fields[i].tag, Restored(d.fields[i], m.unions[d.fields[i].rule.group].value))) &&
    forall g | g in unions :: exists i :: 0 <= i < n && ChosenLeft(d, m, gone, i) && d.fields[i].rule.group == g
  }

  predicate ChosenLeft(d: Descriptor, m: Value, gone: set<nat>, i: nat)
    requires m.Message? && i < |d.fields|
  {
    Chosen(d.fields[i], m.unions) && d.fields[i].tag !in gone
  }

  lemma UnionsOf(d: Descriptor, vss: seq<seq<Value>>)
    requires Sendable(d, vss)
    ensures SentPartly(d, vss, |d.fields|).unions == SentUnions(d, vss, |d.fields|)
  {
    hide SentSlot, Sendable, SentUnions;
  }

  lemma ChoiceIsNew(d: Descriptor, m: Value, gone: set<nat>, n: nat, i: nat)
    requires WellFormed(d) && m.Message? && i < n < |d.fields| && ChosenLeft(d, m, gone, i) && ChosenLeft(d, m, gone, n)
    ensures d.fields[i].rule.group != d.fields[n].rule.group
  {
    assert d.fields[i].tag != d.fields[n].tag;
  }

  lemma NoChoice(d: Descriptor, m: Value, gone: set<nat>, n: nat, unions: map<nat, Choice>)
    requires ShapedMessage(d, m) && n < |d.fields| && ChoicesOf(d, m, gone, unions, n) && !ChosenLeft(d, m, gone, n)
    ensures ChoicesOf(d, m, gone, unions, n + 1)
  {
    hide Restored, Shaped;
    forall g | g in unions
      ensures exists i :: 0 <= i < n + 1 && ChosenLeft(d, m, gone, i) && d.fields[i].rule.group == g
    {
      var i :| 0 <= i < n && ChosenLeft(d, m, gone, i) && d.fields[i].rule.group == g;
      assert ChosenLeft(d, m, gone, i);
    }
  }

  lemma OneChoice(d: Descriptor, m: Value, gone: set<nat>, n: nat, unions: map<nat, Choice>)
    requires WellFormed(d) && ShapedMessage(d, m) && n < |d.fields| && ChoicesOf(d, m, gone, unions, n)
    requires ChosenLeft(d, m, gone, n) && ShapedSlot(d.fields[n], m.slots[n], m.unions)
    ensures var f := d.fields[n];
      ChoicesOf(d, m, gone, unions[f.rule.group := Choice(f.tag, Restored(f, m.unions[f.rule.group].value))], n + 1)
  {
    hide Restored, WellFormed, Shaped;
    var f := d.fields[n];
    var after := unions[f.rule.group := Choice(f.tag, Restored(f, m.unions[f.rule.group].value))];
    forall i | 0 <= i < n && ChosenLeft(d, m, gone, i)
      ensures d.fields[i].rule.group != f.rule.group
    {
      ChoiceIsNew(d, m, gone, n, i);
    }
    forall g | g in after
      ensures exists i :: 0 <= i < n + 1 && ChosenLeft(d, m, gone, i) && d.fields[i].rule.group == g
    {
      if g == f.rule.group {
        assert ChosenLeft(d, m, gone, n);
      } else {
        var i :| 0 <= i < n && ChosenLeft(d, m, gone, i) && d.fields[i].rule.group == g;
        assert ChosenLeft(d, m, gone, i);
      }
    }
  }

  lemma {:induction false} OlderHasChoices(d: Descriptor, m: Value, gone: set<nat>, n: nat)
    requires WellFormed(d) && ShapedMessage(d, m) && Sendable(d, OlderSent(d, m, gone)) && n <= |d.fields|
    ensures ChoicesOf(d, m, gone, SentUnions(d, OlderSent(d, m, gone), n), n)
  {
    hide Restored, Shaped, RecordsBytes, WellFormed, ChoicesOf;
    if n == 0 {
      NoChoices(d, m, gone);
    } else {
      OlderHasChoices(d, m, gone, n - 1);
      var f, vs := d.fields[n - 1], OlderSent(d, m, gone)[n - 1];
      var before := SentUnions(d, OlderSent(d, m, gone), n - 1);
      assert ShapedSlot(f, m.slots[n - 1], m.unions) && SendableField(f, vs);
      if ChosenLeft(d, m, gone, n - 1) {
        OneChoice(d, m, gone, n - 1, before);
      } else {
        NoChoice(d, m, gone, n - 1, before);
      }
    }
  }

  lemma NoChoices(d: Descriptor, m: Value, gone: set<nat>)
    requires ShapedMessage(d, m)
    ensures ChoicesOf(d, m, gone, map[], 0)
  {
  }
}
