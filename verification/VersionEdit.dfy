/** The encoding of version edits, the records of a MANIFEST (db/version_edit.cc). */
module VersionEdits {
  import opened Entries
  import opened Files
  import opened Encodings
  import opened Coding

  datatype Meta = Meta(number: nat, size: nat, smallest: Bytes, largest: Bytes)

  /** What an edit says; deleted files are a std::set, in ascending order. */
  datatype StoredEdit = StoredEdit(
    comparator: Option<Bytes>, logNumber: Option<nat>, prevLogNumber: Option<nat>, nextFileNumber: Option<nat>,
    lastSequence: Option<nat>, compactPointers: seq<(nat, Bytes)>, deletedFiles: seq<(nat, nat)>,
    newFiles: seq<(nat, Meta)>)

  const EMPTY: StoredEdit := StoredEdit(None, None, None, None, None, [], [], [])

  // ----- Records -----

  datatype Record =
    | Comparator(name: Bytes)
    | LogNumber(n: nat)
    | PrevLogNumber(n: nat)
    | NextFileNumber(n: nat)
    | LastSequence(n: nat)
    | CompactPointer(level: nat, key: Bytes)
    | DeletedFile(level: nat, number: nat)
    | NewFile(level: nat, file: Meta)

  function TagOf(r: Record): nat {
    match r
    case Comparator(_) => 1
    case LogNumber(_) => 2
    case NextFileNumber(_) => 3
    case LastSequence(_) => 4
    case CompactPointer(_, _) => 5
    case DeletedFile(_, _) => 6
    case NewFile(_, _) => 7
    case PrevLogNumber(_) => 9
  }

  function Payload(r: Record): Bytes {
    match r
    case Comparator(name) => Prefixed(name)
    case LogNumber(n) => Varint(n)
    case PrevLogNumber(n) => Varint(n)
    case NextFileNumber(n) => Varint(n)
    case LastSequence(n) => Varint(n)
    case CompactPointer(level, key) => Varint(level) + Prefixed(key)
    case DeletedFile(level, number) => Varint(level) + Varint(number)
    case NewFile(level, f) =>
      Varint(level) + (Varint(f.number) + (Varint(f.size) + (Prefixed(f.smallest) + Prefixed(f.largest))))
  }

  function RecordBytes(r: Record): Bytes {
    Varint(TagOf(r)) + Payload(r)
  }

  function AllBytes(rs: seq<Record>): Bytes {
    if rs == [] then [] else RecordBytes(rs[0]) + AllBytes(rs[1..])
  }

  predicate KeyFits(key: Bytes) {
    0 < |key| < MAX32
  }

  /** Numbers of 64 bits, strings of 32-bit length, levels that exist, keys that are not empty. */
  predicate Fits(r: Record) {
    match r
    case Comparator(name) => |name| < MAX32
    case LogNumber(n) => n < MAX64
    case PrevLogNumber(n) => n < MAX64
    case NextFileNumber(n) => n < MAX64
    case LastSequence(n) => n < MAX64
    case CompactPointer(level, key) => level < NUM_LEVELS && KeyFits(key)
    case DeletedFile(level, number) => level < NUM_LEVELS && number < MAX64
    case NewFile(level, f) =>
      level < NUM_LEVELS && f.number < MAX64 && f.size < MAX64 && KeyFits(f.smallest) && KeyFits(f.largest)
  }

  // ----- What a record does to an edit -----

  predicate Lower(a: (nat, nat), b: (nat, nat)) {
    a.0 < b.0 || (a.0 == b.0 && a.1 < b.1)
  }

  predicate Ascending(ds: seq<(nat, nat)>) {
    forall i, j | 0 <= i < j < |ds| :: Lower(ds[i], ds[j])
  }

  /** std::set::insert. */
  function Inserted(ds: seq<(nat, nat)>, d: (nat, nat)): seq<(nat, nat)> {
    if ds == [] then [d]
    else if ds[0] == d then ds
    else if Lower(d, ds[0]) then [d] + ds
    else [ds[0]] + Inserted(ds[1..], d)
  }

  lemma {:induction false} InsertedIs(ds: seq<(nat, nat)>, d: (nat, nat))
    requires Ascending(ds)
    ensures Ascending(Inserted(ds, d)) && forall x :: x in Inserted(ds, d) <==> x in ds || x == d
    ensures (forall x | x in ds :: Lower(x, d)) ==> Inserted(ds, d) == ds + [d]
  {
    var r := Inserted(ds, d);
    if ds == [] || ds[0] == d || Lower(d, ds[0]) {
      if forall x | x in ds :: Lower(x, d) {
        assert ds != [] ==> ds[0] in ds;
      }
    } else {
      InsertedIs(ds[1..], d);
      assert ds == [ds[0]] + ds[1..];
      forall j | 0 < j < |r|
        ensures Lower(r[0], r[j])
      {
        assert r[j] in Inserted(ds[1..], d);
      }
    }
  }

  function Apply(e: StoredEdit, r: Record): StoredEdit {
    match r
    case Comparator(name) => e.(comparator := Some(name))
    case LogNumber(n) => e.(logNumber := Some(n))
    case PrevLogNumber(n) => e.(prevLogNumber := Some(n))
    case NextFileNumber(n) => e.(nextFileNumber := Some(n))
    case LastSequence(n) => e.(lastSequence := Some(n))
    case CompactPointer(level, key) => e.(compactPointers := e.compactPointers + [(level, key)])
    case DeletedFile(level, number) => e.(deletedFiles := Inserted(e.deletedFiles, (level, number)))
    case NewFile(level, f) => e.(newFiles := e.newFiles + [(level, f)])
  }

  function ApplyAll(e: StoredEdit, rs: seq<Record>): StoredEdit
    decreases |rs|
  {
    if rs == [] then e else ApplyAll(Apply(e, rs[0]), rs[1..])
  }

  lemma {:induction false} ApplyConcat(e: StoredEdit, a: seq<Record>, b: seq<Record>)
    ensures ApplyAll(e, a + b) == ApplyAll(ApplyAll(e, a), b)
    decreases |a|
  {
    if a == [] {
      assert a + b == b;
    } else {
      ApplyConcat(Apply(e, a[0]), a[1..], b);
      assert (a + b)[1..] == a[1..] + b;
    }
  }

  // ----- The records EncodeTo writes -----

  function Numbers(e: StoredEdit): seq<Record> {
    (if e.comparator.Some? then [Comparator(e.comparator.value)] else []) +
    (if e.logNumber.Some? then [LogNumber(e.logNumber.value)] else []) +
    (if e.prevLogNumber.Some? then [PrevLogNumber(e.prevLogNumber.value)] else []) +
    (if e.nextFileNumber.Some? then [NextFileNumber(e.nextFileNumber.value)] else []) +
    (if e.lastSequence.Some? then [LastSequence(e.lastSequence.value)] else [])
  }

  function Pointers(ps: seq<(nat, Bytes)>): (r: seq<Record>)
    ensures |r| == |ps|
  {
    seq(|ps|, i requires 0 <= i < |ps| => CompactPointer(ps[i].0, ps[i].1))
  }

  function Deletions(ds: seq<(nat, nat)>): (r: seq<Record>)
    ensures |r| == |ds|
  {
    seq(|ds|, i requires 0 <= i < |ds| => DeletedFile(ds[i].0, ds[i].1))
  }

  function Additions(fs: seq<(nat, Meta)>): (r: seq<Record>)
    ensures |r| == |fs|
  {
    seq(|fs|, i requires 0 <= i < |fs| => NewFile(fs[i].0, fs[i].1))
  }

  function Records(e: StoredEdit): seq<Record> {
    Numbers(e) + Pointers(e.compactPointers) + Deletions(e.deletedFiles) + Additions(e.newFiles)
  }

  ghost predicate Storable(e: StoredEdit) {
    Ascending(e.deletedFiles) && forall r | r in Records(e) :: Fits(r)
  }

  // ----- Applying the records of an edit gives the edit -----

  lemma {:induction false} PointersApply(e: StoredEdit, ps: seq<(nat, Bytes)>)
    ensures ApplyAll(e, Pointers(ps)) == e.(compactPointers := e.compactPointers + ps)
    decreases |ps|
  {
    var rs := Pointers(ps);
    if ps == [] {
      assert e.compactPointers + ps == e.compactPointers;
    } else {
      assert rs[1..] == Pointers(ps[1..]);
      PointersApply(Apply(e, rs[0]), ps[1..]);
      assert e.compactPointers + [ps[0]] + ps[1..] == e.compactPointers + ps;
    }
  }

  lemma {:induction false} AdditionsApply(e: StoredEdit, fs: seq<(nat, Meta)>)
    ensures ApplyAll(e, Additions(fs)) == e.(newFiles := e.newFiles + fs)
    decreases |fs|
  {
    var rs := Additions(fs);
    if fs == [] {
      assert e.newFiles + fs == e.newFiles;
    } else {
      assert rs[1..] == Additions(fs[1..]);
      AdditionsApply(Apply(e, rs[0]), fs[1..]);
      assert e.newFiles + [fs[0]] + fs[1..] == e.newFiles + fs;
    }
  }

  /** Insertions in ascending order append. */
  lemma {:induction false} DeletionsApply(e: StoredEdit, ds: seq<(nat, nat)>)
    requires Ascending(e.deletedFiles + ds)
    ensures ApplyAll(e, Deletions(ds)) == e.(deletedFiles := e.deletedFiles + ds)
    decreases |ds|
  {
    var rs, before := Deletions(ds), e.deletedFiles;
    if ds == [] {
      assert before + ds == before;
    } else {
      assert rs[1..] == Deletions(ds[1..]);
      assert before + [ds[0]] + ds[1..] == before + ds;
      forall i, j | 0 <= i < j < |before|
        ensures Lower(before[i], before[j])
      {
        assert (before + ds)[i] == before[i] && (before + ds)[j] == before[j];
      }
      forall i | 0 <= i < |before|
        ensures Lower(before[i], ds[0])
      {
        assert (before + ds)[i] == before[i] && (before + ds)[|before|] == ds[0];
      }
      InsertedIs(before, ds[0]);
      DeletionsApply(Apply(e, rs[0]), ds[1..]);
    }
  }

  lemma NumbersApply(e: StoredEdit, before: StoredEdit)
    requires before.comparator == None && before.logNumber == before.prevLogNumber == None
    requires before.nextFileNumber == before.lastSequence == None
    ensures ApplyAll(before, Numbers(e)) == before.(
      comparator := e.comparator, logNumber := e.logNumber, prevLogNumber := e.prevLogNumber,
      nextFileNumber := e.nextFileNumber, lastSequence := e.lastSequence)
  {
    var a := if e.comparator.Some? then [Comparator(e.comparator.value)] else [];
    var b := if e.logNumber.Some? then [LogNumber(e.logNumber.value)] else [];
    var c := if e.prevLogNumber.Some? then [PrevLogNumber(e.prevLogNumber.value)] else [];
    var d := if e.nextFileNumber.Some? then [NextFileNumber(e.nextFileNumber.value)] else [];
    var f := if e.lastSequence.Some? then [LastSequence(e.lastSequence.value)] else [];
    ApplyConcat(before, a + b + c + d, f);
    ApplyConcat(before, a + b + c, d);
    ApplyConcat(before, a + b, c);
    ApplyConcat(before, a, b);
    OneRecord(ApplyAll(before, a + b + c + d), f);
    OneRecord(ApplyAll(before, a + b + c), d);
    OneRecord(ApplyAll(before, a + b), c);
    OneRecord(ApplyAll(before, a), b);
    OneRecord(before, a);
  }

  lemma OneRecord(e: StoredEdit, rs: seq<Record>)
    requires |rs| <= 1
    ensures ApplyAll(e, rs) == if rs == [] then e else Apply(e, rs[0])
  {
    if rs != [] {
      assert rs[1..] == [];
    }
  }

  /** Applying an edit's records to a cleared edit gives the edit, behind the pointers Clear leaves in place. */
  lemma RecordsApply(e: StoredEdit, pointers: seq<(nat, Bytes)>)
    requires Ascending(e.deletedFiles)
    ensures ApplyAll(EMPTY.(compactPointers := pointers), Records(e)) == e.(compactPointers := pointers + e.compactPointers)
  {
    hide Numbers, Pointers, Deletions, Additions, Apply, ApplyAll, Ascending;
    var start := EMPTY.(compactPointers := pointers);
    var n, p, d, a := Numbers(e), Pointers(e.compactPointers), Deletions(e.deletedFiles), Additions(e.newFiles);
    ApplyConcat(start, n + p + d, a);
    ApplyConcat(start, n + p, d);
    ApplyConcat(start, n, p);
    NumbersApply(e, start);
    PointersApply(ApplyAll(start, n), e.compactPointers);
    assert [] + e.deletedFiles == e.deletedFiles && [] + e.newFiles == e.newFiles;
    DeletionsApply(ApplyAll(start, n + p), e.deletedFiles);
    AdditionsApply(ApplyAll(start, n + p + d), e.newFiles);
  }

  // ----- Encoding -----

  lemma {:induction false} AllBytesConcat(a: seq<Record>, b: seq<Record>)
    ensures AllBytes(a + b) == AllBytes(a) + AllBytes(b)
  {
    hide RecordBytes;
    if a == [] {
      assert a + b == b;
    } else {
      AllBytesConcat(a[1..], b);
      assert (a + b)[1..] == a[1..] + b;
      assert RecordBytes(a[0]) + (AllBytes(a[1..]) + AllBytes(b)) == RecordBytes(a[0]) + AllBytes(a[1..]) + AllBytes(b);
    }
  }

  lemma AllBytesAppend(rs: seq<Record>, r: Record)
    ensures AllBytes(rs + [r]) == AllBytes(rs) + RecordBytes(r)
  {
    hide RecordBytes;
    AllBytesConcat(rs, [r]);
    assert AllBytes([r]) == RecordBytes(r) + AllBytes([]);
  }

  /** One tagged record. */
  method PutRecord(dst: Bytes, r: Record) returns (d: Bytes)
    ensures d == dst + RecordBytes(r)
  {
    hide Varint, Payload, TagOf;
    d := PutVarint(dst, TagOf(r));
    d := PutPayload(d, r);
    assert dst + Varint(TagOf(r)) + Payload(r) == dst + (Varint(TagOf(r)) + Payload(r));
  }

  method PutPayload(dst: Bytes, r: Record) returns (d: Bytes)
    ensures d == dst + Payload(r)
  {
    hide Varint, Prefixed;
    match r
    case Comparator(name) => d := PutLengthPrefixed(dst, name);
    case LogNumber(n) => d := PutVarint(dst, n);
    case PrevLogNumber(n) => d := PutVarint(dst, n);
    case NextFileNumber(n) => d := PutVarint(dst, n);
    case LastSequence(n) => d := PutVarint(dst, n);
    case CompactPointer(level, key) =>
      d := PutVarint(dst, level);
      d := PutLengthPrefixed(d, key);
      assert dst + Varint(level) + Prefixed(key) == dst + (Varint(level) + Prefixed(key));
    case DeletedFile(level, number) =>
      d := PutVarint(dst, level);
      d := PutVarint(d, number);
      assert dst + Varint(level) + Varint(number) == dst + (Varint(level) + Varint(number));
    case NewFile(level, f) =>
      d := PutVarint(dst, level);
      d := PutVarint(d, f.number);
      d := PutVarint(d, f.size);
      d := PutLengthPrefixed(d, f.smallest);
      d := PutLengthPrefixed(d, f.largest);
      Nests(dst, Varint(level), Varint(f.number), Varint(f.size), Prefixed(f.smallest), Prefixed(f.largest));
  }

  lemma Nests(dst: Bytes, a: Bytes, b: Bytes, c: Bytes, d: Bytes, e: Bytes)
    ensures dst + a + b + c + d + e == dst + (a + (b + (c + (d + e))))
  {
  }

  /** The records of a list, one after the other. */
  method PutRecords(dst: Bytes, rs: seq<Record>, ghost before: Bytes, ghost done: seq<Record>) returns (d: Bytes)
    requires dst == before + AllBytes(done)
    ensures d == before + AllBytes(done + rs)
  {
    hide RecordBytes, AllBytes;
    d := dst;
    assert done + rs[..0] == done;
    for i := 0 to |rs|
      invariant d == before + AllBytes(done + rs[..i])
    {
      AllBytesAppend(done + rs[..i], rs[i]);
      assert done + rs[..i + 1] == done + rs[..i] + [rs[i]];
      d := PutRecord(d, rs[i]);
    }
    assert done + rs[..|rs|] == done + rs;
  }

  // ----- Decoding -----

  /** An internal key at p: a string that is not empty. */
  function ReadKey(data: Bytes, p: nat): (r: Option<(Bytes, nat)>)
    requires p <= |data|
    ensures r.Some? ==> p < r.value.1 <= |data|
  {
    var s := ReadPrefixed(data, p);
    if s.Some? && s.value.0 != [] then s else None
  }

  /** A level at p: a number of a level there is. */
  function ReadLevel(data: Bytes, p: nat): (r: Option<(nat, nat)>)
    requires p <= |data|
    ensures r.Some? ==> p < r.value.1 <= |data|
  {
    var n := ReadVarint(data, p, |data|, MAX32);
    if n.Some? && n.value.0 < NUM_LEVELS then n else None
  }

  function ReadCompactPointer(data: Bytes, p: nat): (r: Option<(Record, nat)>)
    requires p <= |data|
    ensures r.Some? ==> p < r.value.1 <= |data|
  {
    var level := ReadLevel(data, p);
    if level.None? then None
    else
      var key := ReadKey(data, level.value.1);
      if key.None? then None else Some((CompactPointer(level.value.0, key.value.0), key.value.1))
  }

  function ReadDeletedFile(data: Bytes, p: nat): (r: Option<(Record, nat)>)
    requires p <= |data|
    ensures r.Some? ==> p < r.value.1 <= |data|
  {
    var level := ReadLevel(data, p);
    if level.None? then None
    else
      var number := ReadVarint(data, level.value.1, |data|, MAX64);
      if number.None? then None else Some((DeletedFile(level.value.0, number.value.0), number.value.1))
  }

  /** The number, the size and the two keys of a file. */
  function ReadMeta(data: Bytes, p: nat): (r: Option<(Meta, nat)>)
    requires p <= |data|
    ensures r.Some? ==> p < r.value.1 <= |data|
  {
    var number := ReadVarint(data, p, |data|, MAX64);
    if number.None? then None
    else
      var size := ReadVarint(data, number.value.1, |data|, MAX64);
      if size.None? then None
      else
        var smallest := ReadKey(data, size.value.1);
        if smallest.None? then None
        else
          var largest := ReadKey(data, smallest.value.1);
          if largest.None? then None
          else Some((Meta(number.value.0, size.value.0, smallest.value.0, largest.value.0), largest.value.1))
  }

  function ReadNewFile(data: Bytes, p: nat): (r: Option<(Record, nat)>)
    requires p <= |data|
    ensures r.Some? ==> p < r.value.1 <= |data|
  {
    var level := ReadLevel(data, p);
    if level.None? then None
    else
      var f := ReadMeta(data, level.value.1);
      if f.None? then None else Some((NewFile(level.value.0, f.value.0), f.value.1))
  }

  /** The record of this tag whose payload is at p, in any bytes. */
  function ReadPayload(data: Bytes, p: nat, tag: nat): (r: Option<(Record, nat)>)
    requires p <= |data|
    ensures r.Some? ==> p < r.value.1 <= |data|
  {
    if tag == 1 then
      var s := ReadPrefixed(data, p);
      if s.Some? then Some((Comparator(s.value.0), s.value.1)) else None
    else if tag == 5 then ReadCompactPointer(data, p)
    else if tag == 6 then ReadDeletedFile(data, p)
    else if tag == 7 then ReadNewFile(data, p)
    else
      var n := ReadVarint(data, p, |data|, MAX64);
      if n.None? then None
      else if tag == 2 then Some((LogNumber(n.value.0), n.value.1))
      else if tag == 3 then Some((NextFileNumber(n.value.0), n.value.1))
      else if tag == 4 then Some((LastSequence(n.value.0), n.value.1))
      else if tag == 9 then Some((PrevLogNumber(n.value.0), n.value.1))
      else None
  }

  /** The records from p to the end, or None: one is malformed, or bytes are left that are no tag. */
  function ReadRecords(data: Bytes, p: nat): Option<seq<Record>>
    requires p <= |data|
    decreases |data| - p
  {
    if p == |data| then Some([])
    else
      var tag := ReadVarint(data, p, |data|, MAX32);
      if tag.None? then None
      else
        var r := ReadPayload(data, tag.value.1, tag.value.0);
        if r.None? then None
        else
          var rest := ReadRecords(data, r.value.1);
          if rest.None? then None else Some([r.value.0] + rest.value)
  }

  // ----- Reading back -----

  lemma KeyReads(data: Bytes, p: nat, key: Bytes, rest: Bytes)
    requires KeyFits(key) && Left(data, p, Prefixed(key) + rest)
    ensures ReadKey(data, p) == Some((key, p + |Prefixed(key)|)) && Left(data, p + |Prefixed(key)|, rest)
  {
    hide Prefixed, ReadPrefixed, Left;
    LeftInside(data, p, Prefixed(key) + rest);
    StringReads(data, p, key, rest);
  }

  lemma LevelReads(data: Bytes, p: nat, n: nat, rest: Bytes)
    requires n < NUM_LEVELS && Left(data, p, Varint(n) + rest)
    ensures ReadLevel(data, p) == Some((n, p + |Varint(n)|)) && Left(data, p + |Varint(n)|, rest)
  {
    hide Varint, ReadVarint, Left;
    LeftInside(data, p, Varint(n) + rest);
    NumberReads(data, p, MAX32, n, rest);
  }

  lemma LeftInside(data: Bytes, p: nat, rest: Bytes)
    requires Left(data, p, rest)
    ensures p <= |data|
  {
  }

  lemma MetaReads(data: Bytes, p: nat, f: Meta, rest: Bytes)
    requires f.number < MAX64 && f.size < MAX64 && KeyFits(f.smallest) && KeyFits(f.largest)
    requires Left(data, p, Varint(f.number) + (Varint(f.size) + (Prefixed(f.smallest) + (Prefixed(f.largest) + rest))))
    ensures p <= |data| && ReadMeta(data, p).Some? && ReadMeta(data, p).value.0 == f
    ensures Left(data, ReadMeta(data, p).value.1, rest)
  {
    hide Varint, Prefixed, ReadVarint, ReadKey, Left, KeyFits;
    var r3 := Prefixed(f.largest) + rest;
    var r2 := Prefixed(f.smallest) + r3;
    var r1 := Varint(f.size) + r2;
    LeftInside(data, p, Varint(f.number) + r1);
    NumberReads(data, p, MAX64, f.number, r1);
    var q := p + |Varint(f.number)|;
    NumberReads(data, q, MAX64, f.size, r2);
    KeyReads(data, q + |Varint(f.size)|, f.smallest, r3);
    KeyReads(data, q + |Varint(f.size)| + |Prefixed(f.smallest)|, f.largest, rest);
  }

  lemma NewFileReads(data: Bytes, p: nat, level: nat, f: Meta, rest: Bytes)
    requires Fits(NewFile(level, f)) && Left(data, p, Payload(NewFile(level, f)) + rest)
    ensures p <= |data| && ReadNewFile(data, p).Some? && ReadNewFile(data, p).value.0 == NewFile(level, f)
    ensures Left(data, ReadNewFile(data, p).value.1, rest)
  {
    hide Varint, Prefixed, ReadLevel, ReadMeta, Left, KeyFits;
    Nested(Varint(level), Varint(f.number), Varint(f.size), Prefixed(f.smallest), Prefixed(f.largest), rest);
    var more := Varint(f.number) + (Varint(f.size) + (Prefixed(f.smallest) + (Prefixed(f.largest) + rest)));
    LeftInside(data, p, Varint(level) + more);
    LevelReads(data, p, level, more);
    MetaReads(data, p + |Varint(level)|, f, rest);
  }

  lemma Nested(a: Bytes, b: Bytes, c: Bytes, d: Bytes, e: Bytes, rest: Bytes)
    ensures a + (b + (c + (d + e))) + rest == a + (b + (c + (d + (e + rest))))
  {
  }

  lemma PayloadReads(data: Bytes, p: nat, r: Record, rest: Bytes)
    requires Fits(r) && Left(data, p, Payload(r) + rest)
    ensures p <= |data| && ReadPayload(data, p, TagOf(r)).Some? && ReadPayload(data, p, TagOf(r)).value.0 == r
    ensures Left(data, ReadPayload(data, p, TagOf(r)).value.1, rest)
  {
    hide Varint, Prefixed, ReadLevel, ReadKey, ReadVarint, ReadPrefixed, ReadNewFile, Left;
    LeftInside(data, p, Payload(r) + rest);
    match r
    case Comparator(name) => StringReads(data, p, name, rest);
    case LogNumber(n) => NumberReads(data, p, MAX64, n, rest);
    case PrevLogNumber(n) => NumberReads(data, p, MAX64, n, rest);
    case NextFileNumber(n) => NumberReads(data, p, MAX64, n, rest);
    case LastSequence(n) => NumberReads(data, p, MAX64, n, rest);
    case CompactPointer(level, key) =>
      assert Payload(r) + rest == Varint(level) + (Prefixed(key) + rest);
      LevelReads(data, p, level, Prefixed(key) + rest);
      KeyReads(data, p + |Varint(level)|, key, rest);
    case DeletedFile(level, number) =>
      assert Payload(r) + rest == Varint(level) + (Varint(number) + rest);
      LevelReads(data, p, level, Varint(number) + rest);
      NumberReads(data, p + |Varint(level)|, MAX64, number, rest);
    case NewFile(level, f) => NewFileReads(data, p, level, f, rest);
  }

  /** Records that fit are read back in order. */
  lemma {:induction false} RecordsRead(data: Bytes, p: nat, rs: seq<Record>)
    requires Left(data, p, AllBytes(rs)) && forall r | r in rs :: Fits(r)
    ensures p <= |data| && ReadRecords(data, p) == Some(rs)
    decreases |rs|
  {
    hide Varint, Payload, ReadVarint, ReadPayload, Fits;
    if rs == [] {
      assert |data[p..]| == 0;
    } else {
      var a, b, c := Varint(TagOf(rs[0])), Payload(rs[0]), AllBytes(rs[1..]);
      assert a + b + c == a + (b + c);
      NumberReads(data, p, MAX32, TagOf(rs[0]), b + c);
      PayloadReads(data, p + |a|, rs[0], c);
      RecordsRead(data, ReadPayload(data, p + |a|, TagOf(rs[0])).value.1, rs[1..]);
      assert [rs[0]] + rs[1..] == rs;
    }
  }

  // ----- The decoder -----

  /** GetInternalKey. */
  method GetKey(data: Bytes, p: nat) returns (ok: bool, r: Bytes, q: nat)
    requires p <= |data|
    ensures (if ok then Some((r, q)) else None) == ReadKey(data, p)
  {
    hide ReadPrefixed;
    ok, r, q := GetLengthPrefixed(data, p);
    ok := ok && r != [];
  }

  /** GetLevel. */
  method GetLevel(data: Bytes, p: nat) returns (ok: bool, level: nat, q: nat)
    requires p <= |data|
    ensures (if ok then Some((level, q)) else None) == ReadLevel(data, p)
  {
    hide ReadVarint;
    ok, level, q := GetVarint(data, p, |data|, MAX32);
    ok := ok && level < NUM_LEVELS;
  }

  /** The payload behind a tag. */
  method GetPayload(data: Bytes, p: nat, tag: nat) returns (r: Option<Record>, q: nat)
    requires p <= |data|
    ensures (if r.Some? then Some((r.value, q)) else None) == ReadPayload(data, p, tag)
  {
    hide ReadVarint, ReadPrefixed, ReadCompactPointer, ReadDeletedFile, ReadNewFile;
    var ok, n, s;
    r, q := None, p;
    match tag
    case 1 =>
      ok, s, q := GetLengthPrefixed(data, p);
      r := if ok then Some(Comparator(s)) else None;
    case 2 =>
      ok, n, q := GetVarint(data, p, |data|, MAX64);
      r := if ok then Some(LogNumber(n)) else None;
    case 9 =>
      ok, n, q := GetVarint(data, p, |data|, MAX64);
      r := if ok then Some(PrevLogNumber(n)) else None;
    case 3 =>
      ok, n, q := GetVarint(data, p, |data|, MAX64);
      r := if ok then Some(NextFileNumber(n)) else None;
    case 4 =>
      ok, n, q := GetVarint(data, p, |data|, MAX64);
      r := if ok then Some(LastSequence(n)) else None;
    case 5 => r, q := GetCompactPointer(data, p);
    case 6 => r, q := GetDeletedFile(data, p);
    case 7 => r, q := GetNewFile(data, p);
    case _ =>
  }

  method GetCompactPointer(data: Bytes, p: nat) returns (r: Option<Record>, q: nat)
    requires p <= |data|
    ensures (if r.Some? then Some((r.value, q)) else None) == ReadCompactPointer(data, p)
  {
    hide ReadLevel, ReadKey;
    var ok, level, key;
    ok, level, q := GetLevel(data, p);
    if !ok {
      return None, p;
    }
    ok, key, q := GetKey(data, q);
    r := if ok then Some(CompactPointer(level, key)) else None;
  }

  method GetDeletedFile(data: Bytes, p: nat) returns (r: Option<Record>, q: nat)
    requires p <= |data|
    ensures (if r.Some? then Some((r.value, q)) else None) == ReadDeletedFile(data, p)
  {
    hide ReadLevel, ReadVarint;
    var ok, level, number;
    ok, level, q := GetLevel(data, p);
    if !ok {
      return None, p;
    }
    ok, number, q := GetVarint(data, q, |data|, MAX64);
    r := if ok then Some(DeletedFile(level, number)) else None;
  }

  method GetNewFile(data: Bytes, p: nat) returns (r: Option<Record>, q: nat)
    requires p <= |data|
    ensures (if r.Some? then Some((r.value, q)) else None) == ReadNewFile(data, p)
  {
    hide ReadLevel, ReadVarint, ReadKey;
    var ok, level, number, size, smallest, largest;
    ok, level, q := GetLevel(data, p);
    if !ok {
      return None, p;
    }
    ok, number, q := GetVarint(data, q, |data|, MAX64);
    if !ok {
      return None, p;
    }
    ok, size, q := GetVarint(data, q, |data|, MAX64);
    if !ok {
      return None, p;
    }
    ok, smallest, q := GetKey(data, q);
    if !ok {
      return None, p;
    }
    ok, largest, q := GetKey(data, q);
    r := if ok then Some(NewFile(level, Meta(number, size, smallest, largest))) else None;
  }

  // ----- Edits -----

  class VersionEdit {
    var comparator: Option<Bytes>
    var logNumber: Option<nat>
    var prevLogNumber: Option<nat>
    var nextFileNumber: Option<nat>
    var lastSequence: Option<nat>
    var compactPointers: seq<(nat, Bytes)>
    var deletedFiles: seq<(nat, nat)>
    var newFiles: seq<(nat, Meta)>

    function Contents(): StoredEdit
      reads this
    {
      StoredEdit(comparator, logNumber, prevLogNumber, nextFileNumber, lastSequence, compactPointers, deletedFiles,
                 newFiles)
    }

    constructor ()
      ensures Contents() == EMPTY
    {
      comparator, logNumber, prevLogNumber, nextFileNumber, lastSequence := None, None, None, None, None;
      compactPointers, deletedFiles, newFiles := [], [], [];
    }

    /** Clear: everything but the compaction pointers. */
    method Clear()
      modifies this
      ensures Contents() == EMPTY.(compactPointers := old(compactPointers))
    {
      comparator, logNumber, prevLogNumber, nextFileNumber, lastSequence := None, None, None, None, None;
      deletedFiles, newFiles := [], [];
    }

    method EncodeTo(dst: Bytes) returns (d: Bytes)
      ensures d == dst + AllBytes(Records(Contents()))
    {
      hide AllBytes;
      var e := Contents();
      assert dst == dst + AllBytes([]) by {
        NoBytes();
      }
      d := PutRecords(dst, Numbers(e), dst, []);
      assert [] + Numbers(e) == Numbers(e);
      d := PutRecords(d, Pointers(compactPointers), dst, Numbers(e));
      d := PutRecords(d, Deletions(deletedFiles), dst, Numbers(e) + Pointers(compactPointers));
      d := PutRecords(d, Additions(newFiles), dst, Numbers(e) + Pointers(compactPointers) + Deletions(deletedFiles));
    }

    method Set(r: Record)
      modifies this
      ensures Contents() == Apply(old(Contents()), r)
    {
      match r
      case Comparator(name) => comparator := Some(name);
      case LogNumber(n) => logNumber := Some(n);
      case PrevLogNumber(n) => prevLogNumber := Some(n);
      case NextFileNumber(n) => nextFileNumber := Some(n);
      case LastSequence(n) => lastSequence := Some(n);
      case CompactPointer(level, key) => compactPointers := compactPointers + [(level, key)];
      case DeletedFile(level, number) => deletedFiles := Inserted(deletedFiles, (level, number));
      case NewFile(level, f) => newFiles := newFiles + [(level, f)];
    }

    /** MAIN: decoding, of any bytes, applies the records in order to the cleared edit, and fails if one is malformed or
        bytes are left over. */
    method DecodeFrom(src: Bytes) returns (ok: bool)
      modifies this
      ensures ok <==> ReadRecords(src, 0).Some?
      ensures ok ==> Contents() == ApplyAll(EMPTY.(compactPointers := old(compactPointers)), ReadRecords(src, 0).value)
    {
      hide ReadVarint, ReadPayload, Apply;
      Clear();
      var p := 0;
      ghost var start, all := Contents(), ReadRecords(src, 0);
      while true
        invariant p <= |src| && (all.Some? <==> ReadRecords(src, p).Some?)
        invariant all.Some? ==> ApplyAll(Contents(), ReadRecords(src, p).value) == ApplyAll(start, all.value)
        decreases |src| - p
      {
        var more, tag, q, r;
        more, tag, q := GetVarint(src, p, |src|, MAX32);
        if !more {
          break;
        }
        r, p := GetPayload(src, q, tag);
        if r.None? {
          return false;
        }
        Set(r.value);
      }
      ok := p == |src|;
    }
  }

  lemma NoBytes()
    ensures AllBytes([]) == []
  {
  }

  lemma AllLeft(src: Bytes, rs: seq<Record>)
    requires src == AllBytes(rs)
    ensures Left(src, 0, AllBytes(rs))
  {
    assert src[0..] == src;
  }

  /** MAIN: an edit that can be stored decodes to itself; an edit object used before keeps its old compaction
      pointers in front, which is the only difference. */
  method RoundTrip(e: VersionEdit, into: VersionEdit) returns (ok: bool)
    requires e != into && Storable(e.Contents())
    modifies into
    ensures ok
    ensures into.Contents() == e.Contents().(compactPointers := old(into.compactPointers) + e.compactPointers)
    ensures into.Contents() == e.Contents() <==> old(into.compactPointers) == []
  {
    hide AllBytes, Records, Fits;
    ghost var pointers := into.compactPointers;
    var src := e.EncodeTo([]);
    assert src == AllBytes(Records(e.Contents()));
    RecordsApply(e.Contents(), pointers);
    AllLeft(src, Records(e.Contents()));
    RecordsRead(src, 0, Records(e.Contents()));
    ok := into.DecodeFrom(src);
    assert pointers + e.compactPointers == e.compactPointers ==> |pointers| == 0;
  }
}
