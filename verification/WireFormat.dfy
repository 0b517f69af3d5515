/** The wire format from outside: a reader after the Protocol Buffers Encoding specification, sections "Message Structure"
    and "Length-Delimited Records", which knows nothing of nanopb, and what it finds in the messages of Nanopb. */
module WireFormat {
  import opened Entries
  import opened Encodings
  import opened Wire
  import opened Nanopb

  // ----- The specification -----

  /** Where the varint at the front ends: behind the first byte without a continuation bit. */
  function VarintEnd(b: Bytes): (r: Option<nat>)
    ensures r.Some? ==> 0 < r.value <= |b|
  {
    if b == [] then None
    else if b[0] < 128 then Some(1)
    else
      var rest := VarintEnd(b[1..]);
      if rest.Some? then Some(1 + rest.value) else None
  }

  /** Seven bits of each byte, the lowest first. */
  function VarintOf(b: Bytes): nat
    requires VarintEnd(b).Some?
  {
    if b[0] < 128 then b[0] as nat else b[0] as nat - 128 + 128 * VarintOf(b[1..])
  }

  /** Where the payload at the front ends: types 0, 1, 2 and 5 stand for a varint, eight bytes, a length and as many
      bytes, and four bytes. */
  function PayloadEnd(wire: nat, b: Bytes): (r: Option<nat>)
    ensures r.Some? ==> 0 < r.value <= |b|
  {
    if wire == 0 then VarintEnd(b)
    else if wire == 1 then if |b| >= 8 then Some(8) else None
    else if wire == 2 then
      var n := VarintEnd(b);
      if n.Some? && n.value + VarintOf(b) <= |b| then Some(n.value + VarintOf(b)) else None
    else if wire == 5 then if |b| >= 4 then Some(4) else None
    else None
  }

  /** A record: field number, type and payload. */
  datatype Raw = Raw(number: nat, wire: nat, payload: Bytes)

  /** The records of a message; the key of each is its number times eight plus its type. */
  function Split(b: Bytes): Option<seq<Raw>>
    decreases |b|
  {
    if b == [] then Some([])
    else
      var k := VarintEnd(b);
      if k.None? then None
      else
        var n := PayloadEnd(VarintOf(b) % 8, b[k.value..]);
        if n.None? then None
        else
          var rest := Split(b[k.value + n.value..]);
          if rest.None? then None
          else Some([Raw(VarintOf(b) / 8, VarintOf(b) % 8, b[k.value..k.value + n.value])] + rest.value)
  }

  /** The elements of a packed field, one payload after the other. */
  function Elements(wire: nat, b: Bytes): Option<seq<Bytes>>
    decreases |b|
  {
    if b == [] then Some([])
    else
      var n := PayloadEnd(wire, b);
      if n.None? then None
      else
        var rest := Elements(wire, b[n.value..]);
        if rest.None? then None else Some([b[..n.value]] + rest.value)
  }

  // ----- What the encoder's varints and records are to this reader -----

  lemma {:induction false} VarintFound(n: nat, rest: Bytes)
    ensures VarintEnd(Varint(n) + rest) == Some(|Varint(n)|) && VarintOf(Varint(n) + rest) == n
  {
    VarintFront(n, rest);
    if n >= 128 {
      VarintFound(n / 128, rest);
    }
  }

  lemma VarintAlone(n: nat)
    ensures VarintEnd(Varint(n)) == Some(|Varint(n)|) && VarintOf(Varint(n)) == n
  {
    VarintFound(n, []);
    assert Varint(n) + [] == Varint(n);
  }

  /** More bytes behind it do not change a payload. */
  lemma {:induction false} VarintStays(b: Bytes, rest: Bytes)
    requires VarintEnd(b).Some?
    ensures VarintEnd(b + rest) == VarintEnd(b) && VarintOf(b + rest) == VarintOf(b)
  {
    if b[0] >= 128 {
      VarintStays(b[1..], rest);
      assert (b + rest)[1..] == b[1..] + rest;
    }
  }

  lemma PayloadStays(wire: nat, b: Bytes, rest: Bytes)
    requires PayloadEnd(wire, b) == Some(|b|)
    ensures PayloadEnd(wire, b + rest) == Some(|b|)
  {
    if wire == 0 || wire == 2 {
      VarintStays(b, rest);
    }
  }

  // ----- What the decoder's varints are to this reader -----

  lemma {:induction false} VarintFromMeans(b: Bytes, k: nat, scale: nat, result: nat)
    requires k <= 10 && scale == Pow128(k)
    ensures VarintFrom(b, k, scale, result).Some? <==> VarintEnd(b).Some? && k + VarintEnd(b).value <= 10
    ensures VarintFrom(b, k, scale, result).Some? ==>
      VarintFrom(b, k, scale, result).value == ((result + scale * VarintOf(b)) % MAX64, b[VarintEnd(b).value..])
    decreases |b|
  {
    hide Pow128;
    if b != [] && k < 10 {
      var low := b[0] as nat % 128;
      var mixed := Mix(result, b[0], scale, MAX64);
      if b[0] < 128 {
        Commutes(scale, low);
      } else {
        Pow128Next(k);
        VarintFromMeans(b[1..], k + 1, scale * 128, mixed);
        if VarintEnd(b[1..]).Some? {
          MixedSum(result, scale, low, VarintOf(b[1..]));
          assert b[1..][VarintEnd(b[1..]).value..] == b[VarintEnd(b).value..];
        }
      }
    }
  }

  lemma MixedSum(result: nat, scale: nat, low: nat, high: nat)
    ensures ((result + low * scale) % MAX64 + (scale * 128) * high) % MAX64 == (result + scale * (low + 128 * high)) % MAX64
  {
    Distributes(scale, low, high);
    Commutes(scale, low);
    AddsMod(result + low * scale, (scale * 128) * high);
  }

  lemma AddsMod(a: nat, b: nat)
    ensures (a % MAX64 + b) % MAX64 == (a + b) % MAX64
  {
    SkipsMultiples(a % MAX64 + b, a / MAX64);
  }

  lemma {:induction false} SkipsMultiples(a: nat, q: nat)
    ensures (a + MAX64 * q) % MAX64 == a % MAX64
  {
    if q > 0 {
      SkipsMultiples(a, q - 1);
    }
  }

  /** pb_decode_varint reads a varint of at most ten bytes, modulo 2^64. */
  lemma VarintMeans(b: Bytes)
    ensures VarintIn(b).Some? <==> VarintEnd(b).Some? && VarintEnd(b).value <= 10
    ensures VarintIn(b).Some? ==> VarintIn(b).value == (VarintOf(b) % 0x1_0000_0000_0000_0000, b[VarintEnd(b).value..])
  {
    hide VarintFrom;
    VarintFromMeans(b, 0, 1, 0);
  }

  predicate Complete(r: Raw) {
    r.wire < 8 && PayloadEnd(r.wire, r.payload) == Some(|r.payload|)
  }

  function RawBytes(r: Raw): Bytes {
    Varint(r.number * 8 + r.wire) + r.payload
  }

  function Flat(rs: seq<Raw>): Bytes {
    if rs == [] then [] else RawBytes(rs[0]) + Flat(rs[1..])
  }

  lemma {:induction false} FlatConcat(a: seq<Raw>, b: seq<Raw>)
    ensures Flat(a + b) == Flat(a) + Flat(b)
  {
    hide RawBytes;
    if a == [] {
      assert a + b == b;
    } else {
      FlatConcat(a[1..], b);
      assert (a + b)[1..] == a[1..] + b;
    }
  }

  /** The record at the front is found. */
  lemma SplitFirst(r: Raw, rest: Bytes)
    requires Complete(r)
    ensures Split(RawBytes(r) + rest) == if Split(rest).Some? then Some([r] + Split(rest).value) else None
  {
    hide Varint, VarintEnd, VarintOf, PayloadEnd;
    var key, b := r.number * 8 + r.wire, RawBytes(r) + rest;
    var k := |Varint(key)|;
    VarintFound(key, r.payload + rest);
    PayloadStays(r.wire, r.payload, rest);
    KeyParts(r.number, r.wire);
    assert b == Varint(key) + (r.payload + rest);
    assert b[k..] == r.payload + rest;
    assert b[k..k + |r.payload|] == r.payload && b[k + |r.payload|..] == rest;
  }

  /** Records written one after the other are found again. */
  lemma {:induction false} SplitFlat(rs: seq<Raw>)
    requires forall r | r in rs :: Complete(r)
    ensures Split(Flat(rs)) == Some(rs)
  {
    hide Complete, RawBytes, Split;
    if rs == [] {
      SplitNothing();
    } else {
      SplitFlat(rs[1..]);
      assert rs[0] in rs && rs == [rs[0]] + rs[1..];
      SplitFirst(rs[0], Flat(rs[1..]));
    }
  }

  lemma SplitNothing()
    ensures Split([]) == Some([])
  {
  }

  lemma KeyParts(number: nat, wire: nat)
    requires wire < 8
    ensures (number * 8 + wire) / 8 == number && (number * 8 + wire) % 8 == wire
  {
  }

  // ----- The records of a message -----

  /** The type of a field's payload. */
  function TypeOf(k: Kind): nat {
    match k
    case Bool => 0
    case Int => 0
    case UInt => 0
    case SInt => 0
    case Fixed64 => 1
    case Blobs => 2
    case Text => 2
    case Submessage(_) => 2
    case FixedBlob => 2
    case Fixed32 => 5
  }

  /** A packed array is one record; otherwise every value is. */
  function FieldRecords(f: Field, vs: seq<Value>): seq<Raw>
    requires (forall v | v in vs :: Shaped(f, v)) && RecordsBytes(f, vs).Some?
    decreases |vs|
  {
    if vs == [] then []
    else if IsPacked(f) then [Raw(f.tag, 2, Delimited(PackedBytes(f, vs)).value)]
    else
      assert RecordsBytes(f, vs) == Cat(Tagged(f, vs[0]), RecordsBytes(f, vs[1..]));
      [Raw(f.tag, TypeOf(f.kind), ValueBytes(f, vs[0]).value)] + FieldRecords(f, vs[1..])
  }

  /** The records of the fields from i on. */
  function RecordsOf(d: Descriptor, m: Value, i: nat): seq<Raw>
    requires ShapedMessage(d, m) && i <= |d.fields| && MessageBytes(d, m, i).Some?
    decreases |d.fields| - i
  {
    if i == |d.fields| then []
    else
      assert ShapedSlot(d.fields[i], m.slots[i], m.unions);
      FieldRecords(d.fields[i], Present(d.fields[i], m.slots[i], m.unions)) + RecordsOf(d, m, i + 1)
  }

  lemma DelimitedComplete(b: Bytes)
    requires |b| < MAX64
    ensures var p := Delimited(Some(b)).value;
      PayloadEnd(2, p) == Some(|p|) && VarintEnd(p).Some? && VarintOf(p) == |b| && p[VarintEnd(p).value..] == b
  {
    hide Varint, VarintEnd, VarintOf;
    VarintFound(|b|, b);
  }

  /** The payload is that of the value, in the words of the specification. */
  predicate Means(f: Field, v: Value, p: Bytes)
    requires Shaped(f, v)
  {
    PayloadEnd(TypeOf(f.kind), p) == Some(|p|) &&
    match f.kind
    case Bool => VarintOf(p) == v.n
    case UInt => VarintOf(p) == v.n
    case Int => VarintOf(p) == if v.n < 0 then 0x1_0000_0000_0000_0000 + v.n else v.n
    case SInt => VarintOf(p) == if v.n < 0 then -2 * v.n - 1 else 2 * v.n
    case Fixed32 => v.n == p[0] as int + 0x100 * p[1] as int + 0x1_0000 * p[2] as int + 0x100_0000 * p[3] as int
    case Fixed64 =>
      v.n == p[0] as int + 0x100 * p[1] as int + 0x1_0000 * p[2] as int + 0x100_0000 * p[3] as int +
        0x1_0000_0000 * (p[4] as int + 0x100 * p[5] as int + 0x1_0000 * p[6] as int + 0x100_0000 * p[7] as int)
    case Submessage(d) => MessageBytes(d, v, 0) == Some(p[VarintEnd(p).value..])
    case _ => p[VarintEnd(p).value..] == v.bytes
  }

  lemma PayloadMeans(f: Field, v: Value)
    requires Shaped(f, v) && ValueBytes(f, v).Some?
    ensures Means(f, v, ValueBytes(f, v).value)
  {
    hide Varint, VarintEnd, VarintOf, MessageBytes, Little, Delimited;
    match f.kind {
      case Bool => VarintAlone(v.n);
      case UInt => VarintAlone(v.n);
      case Int => VarintAlone(Unsigned64(v.n));
      case SInt => VarintAlone(ZigZag(v.n));
      case Fixed32 => FourBytes(v.n);
      case Fixed64 => EightBytes(v.n);
      case Submessage(d) =>
        DelimitedHas(MessageBytes(d, v, 0));
        DelimitedComplete(MessageBytes(d, v, 0).value);
      case _ =>
        DelimitedHas(Some(v.bytes));
        DelimitedComplete(v.bytes);
    }
  }

  lemma DelimitedHas(b: Option<Bytes>)
    ensures Delimited(b).Some? ==> b.Some? && |b.value| < MAX64
  {
  }

  lemma FourBytes(n: nat)
    requires n < MAX32
    ensures var p := Little(n, 4);
      |p| == 4 && n == p[0] as int + 0x100 * p[1] as int + 0x1_0000 * p[2] as int + 0x100_0000 * p[3] as int
  {
    hide Little, LittleOf;
    var p := Little(n, 4);
    Pow256Values();
    LittleRoundTrip(n, 4);
    FourOf(p);
    NothingOf(p[4..]);
  }

  lemma EightBytes(n: nat)
    requires n < MAX64
    ensures var p := Little(n, 8);
      |p| == 8 && n == p[0] as int + 0x100 * p[1] as int + 0x1_0000 * p[2] as int + 0x100_0000 * p[3] as int +
        0x1_0000_0000 * (p[4] as int + 0x100 * p[5] as int + 0x1_0000 * p[6] as int + 0x100_0000 * p[7] as int)
  {
    hide Little, LittleOf;
    var p := Little(n, 8);
    Pow256Values();
    LittleRoundTrip(n, 8);
    FourOf(p);
    FourOf(p[4..]);
    NothingOf(p[4..][4..]);
  }

  lemma NothingOf(b: Bytes)
    requires b == []
    ensures LittleOf(b) == 0
  {
  }

  lemma FourOf(b: Bytes)
    requires |b| >= 4
    ensures LittleOf(b) ==
      b[0] as int + 0x100 * b[1] as int + 0x1_0000 * b[2] as int + 0x100_0000 * b[3] as int + 0x1_0000_0000 * LittleOf(b[4..])
  {
    var x, y, z := b[1..], b[2..], b[3..];
    assert x[1..] == y && y[1..] == z && z[1..] == b[4..];
    assert LittleOf(b) == b[0] as nat + 256 * LittleOf(x) && LittleOf(x) == b[1] as nat + 256 * LittleOf(y);
    assert LittleOf(y) == b[2] as nat + 256 * LittleOf(z) && LittleOf(z) == b[3] as nat + 256 * LittleOf(b[4..]);
  }

  // ----- Whole messages -----

  lemma {:induction false} FieldIsFlat(f: Field, vs: seq<Value>)
    requires (forall v | v in vs :: Shaped(f, v)) && RecordsBytes(f, vs).Some?
    ensures RecordsBytes(f, vs) == Some(Flat(FieldRecords(f, vs)))
    ensures forall r | r in FieldRecords(f, vs) :: Complete(r) && r.number == f.tag
    decreases |vs|
  {
    hide ValueBytes, PackedBytes, Delimited, Shaped, MessageBytes, RawBytes, TagBytes, Complete;
    if vs == [] {
    } else if IsPacked(f) {
      PackedRecord(f, vs);
      OneFlat(FieldRecords(f, vs)[0]);
    } else {
      assert RecordsBytes(f, vs) == Cat(Tagged(f, vs[0]), RecordsBytes(f, vs[1..]));
      ValueRecord(f, vs[0]);
      FieldIsFlat(f, vs[1..]);
      var r := Raw(f.tag, TypeOf(f.kind), ValueBytes(f, vs[0]).value);
      FlatConcat([r], FieldRecords(f, vs[1..]));
      OneFlat(r);
    }
  }

  lemma ValueRecord(f: Field, v: Value)
    requires Shaped(f, v) && ValueBytes(f, v).Some?
    ensures var r := Raw(f.tag, TypeOf(f.kind), ValueBytes(f, v).value); Complete(r) && Tagged(f, v) == Some(RawBytes(r))
  {
    hide ValueBytes, Shaped, MessageBytes, PayloadEnd, VarintEnd, VarintOf, Varint;
    TypeIs(f.kind);
    PayloadMeans(f, v);
  }

  lemma PackedRecord(f: Field, vs: seq<Value>)
    requires (forall v | v in vs :: Shaped(f, v)) && Delimited(PackedBytes(f, vs)).Some?
    ensures var r := Raw(f.tag, 2, Delimited(PackedBytes(f, vs)).value);
      Complete(r) && Cat(Some(TagBytes(f.tag, WT_STRING)), Delimited(PackedBytes(f, vs))) == Some(RawBytes(r))
  {
    hide PackedBytes, Delimited, Shaped, PayloadEnd, VarintEnd, VarintOf, Varint;
    TypeIs(f.kind);
    DelimitedHas(PackedBytes(f, vs));
    DelimitedComplete(PackedBytes(f, vs).value);
  }

  lemma OneFlat(r: Raw)
    ensures Flat([r]) == RawBytes(r)
  {
    hide RawBytes;
    assert [r][1..] == [];
  }

  lemma TypeIs(k: Kind)
    ensures WireType(k) == TypeOf(k) && WT_STRING == 2
  {
  }

  lemma {:induction false} MessageIsFlat(d: Descriptor, m: Value, i: nat)
    requires ShapedMessage(d, m) && i <= |d.fields| && MessageBytes(d, m, i).Some?
    ensures MessageBytes(d, m, i) == Some(Flat(RecordsOf(d, m, i)))
    ensures forall r | r in RecordsOf(d, m, i) :: Complete(r)
    decreases |d.fields| - i
  {
    hide Complete, Present, RecordsBytes, Shaped, FieldRecords;
    if i < |d.fields| {
      var f := d.fields[i];
      assert ShapedSlot(f, m.slots[i], m.unions);
      var vs := Present(f, m.slots[i], m.unions);
      FieldIsFlat(f, vs);
      MessageIsFlat(d, m, i + 1);
      FlatConcat(FieldRecords(f, vs), RecordsOf(d, m, i + 1));
    }
  }

  /** MAIN: read after the specification, the bytes of a message are exactly the records of the values present: under the
      number of the field, in the order of the fields, with the type the specification has for the kind. */
  lemma MessageSplits(d: Descriptor, m: Value)
    requires ShapedMessage(d, m) && MessageBytes(d, m, 0).Some?
    ensures Split(MessageBytes(d, m, 0).value) == Some(RecordsOf(d, m, 0))
  {
    hide Complete, MessageBytes, Shaped, RecordsOf, ShapedMessage;
    MessageIsFlat(d, m, 0);
    SplitFlat(RecordsOf(d, m, 0));
  }

  function Payloads(f: Field, vs: seq<Value>): (r: seq<Bytes>)
    requires (forall v | v in vs :: Shaped(f, v)) && PackedBytes(f, vs).Some?
    decreases |vs|
  {
    if vs == [] then [] else [ValueBytes(f, vs[0]).value] + Payloads(f, vs[1..])
  }

  /** MAIN: the body of a packed array is exactly the payloads of its elements. */
  lemma {:induction false} PackedSplits(f: Field, vs: seq<Value>)
    requires Packable(f.kind) && (forall v | v in vs :: Shaped(f, v)) && PackedBytes(f, vs).Some?
    ensures Elements(TypeOf(f.kind), PackedBytes(f, vs).value) == Some(Payloads(f, vs))
    decreases |vs|
  {
    hide Varint, VarintEnd, VarintOf, ValueBytes, PayloadEnd, Shaped, TypeOf;
    if vs != [] {
      var p, rest := ValueBytes(f, vs[0]).value, PackedBytes(f, vs[1..]).value;
      PackedSplits(f, vs[1..]);
      PayloadMeans(f, vs[0]);
      PayloadStays(TypeOf(f.kind), p, rest);
      assert (p + rest)[..|p|] == p && (p + rest)[|p|..] == rest;
    }
  }
}
