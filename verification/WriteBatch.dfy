/** Write batches as bytes (db/write_batch.cc): a sequence number, a count, and tagged records. */
module WriteBatches {
  import opened Entries
  import opened Encodings
  import opened Coding
  import opened MemTables
  import KeyOrder
  import Skiplist

  const HEADER: nat := 12

  datatype Update = Put(key: Bytes, value: Bytes) | Delete(key: Bytes)

  predicate Short(u: Update) {
    |u.key| < MAX32 && (u.Put? ==> |u.value| < MAX32)
  }

  function KindByte(u: Update): Byte {
    if u.Put? then 1 else 0
  }

  function UpdateBody(u: Update): Bytes {
    match u
    case Put(key, value) => Prefixed(key) + Prefixed(value)
    case Delete(key) => Prefixed(key)
  }

  function UpdateBytes(u: Update): Bytes {
    [KindByte(u)] + UpdateBody(u)
  }

  function UpdatesBytes(us: seq<Update>): Bytes {
    if us == [] then [] else UpdateBytes(us[0]) + UpdatesBytes(us[1..])
  }

  function BatchBytes(sequence: nat, us: seq<Update>): Bytes {
    Little(sequence, 8) + Little(|us|, 4) + UpdatesBytes(us)
  }

  lemma {:induction false} UpdatesConcat(a: seq<Update>, b: seq<Update>)
    ensures UpdatesBytes(a + b) == UpdatesBytes(a) + UpdatesBytes(b)
  {
    hide UpdateBytes;
    if a == [] {
      assert a + b == b && UpdatesBytes(a) == [];
    } else {
      UpdatesConcat(a[1..], b);
      assert (a + b)[1..] == a[1..] + b;
      assert UpdateBytes(a[0]) + (UpdatesBytes(a[1..]) + UpdatesBytes(b)) == UpdateBytes(a[0]) + UpdatesBytes(a[1..]) + UpdatesBytes(b);
    }
  }

  lemma UpdatesAppend(us: seq<Update>, u: Update)
    ensures UpdatesBytes(us + [u]) == UpdatesBytes(us) + UpdateBytes(u)
  {
    hide UpdateBytes;
    UpdatesConcat(us, [u]);
    assert UpdatesBytes([u]) == UpdateBytes(u) + UpdatesBytes([]);
  }

  /** The parts of a batch. */
  lemma BatchParts(sequence: nat, us: seq<Update>)
    ensures var rep := BatchBytes(sequence, us);
      |rep| >= HEADER && rep[..8] == Little(sequence, 8) && rep[8..12] == Little(|us|, 4) && rep[HEADER..] == UpdatesBytes(us)
  {
    hide Little, UpdatesBytes;
  }

  lemma WordBack(n: nat)
    ensures LittleOf(Little(n, 4)) == n % MAX32
  {
    LittleLow(n, 4);
    Pow256Values();
  }

  /** A fixed-width word keeps the low bytes. */
  lemma {:induction false} LittleLow(n: nat, k: nat)
    ensures LittleOf(Little(n, k)) == n % Pow256(k)
  {
    if k > 0 {
      LittleLow(n / 256, k - 1);
      LowDigits(n, Pow256(k - 1));
    }
  }

  lemma LowDigits(n: nat, m: nat)
    requires m > 0
    ensures n % (256 * m) == n % 256 + 256 * (n / 256 % m)
  {
    var q, r := n / 256, n % 256;
    var a, b := q / m, q % m;
    assert n == 256 * q + r && q == a * m + b;
    assert n == a * (256 * m) + (256 * b + r) by {
      assert 256 * (a * m + b) == a * (256 * m) + 256 * b;
    }
    assert 256 * b + r < 256 * m;
    DivisionIsUnique(n, 256 * m, a, 256 * b + r);
  }

  lemma DivisionIsUnique(n: nat, d: nat, q: nat, r: nat)
    requires d > 0 && n == q * d + r && r < d
    ensures n % d == r
  {
    var q', r' := n / d, n % d;
    assert (q - q') * d == r' - r;
    Multiples(q - q', d);
  }

  lemma Multiples(x: int, d: nat)
    requires d > 0
    ensures x > 0 ==> x * d >= d
    ensures x < 0 ==> x * d + d <= 0
  {
  }

  lemma {:induction false} LittleModulo(n: nat, k: nat)
    ensures Little(n % Pow256(k), k) == Little(n, k)
  {
    if k > 0 {
      var m := Pow256(k - 1);
      LittleModulo(n / 256, k - 1);
      LittleDigits(n, m, k);
    }
  }

  lemma LittleDigits(n: nat, m: nat, k: nat)
    requires k > 0 && m == Pow256(k - 1) && Little(n / 256 % m, k - 1) == Little(n / 256, k - 1)
    ensures Little(n % Pow256(k), k) == Little(n, k)
  {
    LowDigits(n, m);
    var low := n % (256 * m);
    assert low == n % 256 + 256 * (n / 256 % m);
    LowByte(low, n % 256, n / 256 % m);
    assert Pow256(k) == 256 * m;
  }

  lemma LowByte(low: nat, r: nat, q: nat)
    requires low == r + 256 * q && r < 256
    ensures low % 256 == r && low / 256 == q
  {
  }

  lemma ModSum(n: nat, m: nat)
    ensures (n % MAX32 + m % MAX32) % MAX32 == (n + m) % MAX32
  {
    ModShift(n % MAX32 + m % MAX32, n / MAX32 + m / MAX32);
    assert n == n % MAX32 + n / MAX32 * MAX32 && m == m % MAX32 + m / MAX32 * MAX32;
  }

  lemma ModShift(a: nat, k: nat)
    ensures (a + k * MAX32) % MAX32 == a % MAX32
  {
    DivisionIsUnique(a + k * MAX32, MAX32, a / MAX32 + k, a % MAX32);
  }

  lemma WordNext(n: nat)
    ensures Word(Word(n) + 1) == Word(n + 1)
  {
    ModSum(n, 1);
  }

  /** The counter counts modulo 2^32. */
  lemma CountStep(n: nat, m: nat)
    ensures Little(n % MAX32 + m % MAX32, 4) == Little(n + m, 4)
  {
    hide Little, Pow256;
    Pow256Values();
    var a, b: nat := n % MAX32 + m % MAX32, n + m;
    LittleModulo(a, 4);
    LittleModulo(b, 4);
    ModSum(n, m);
  }

  // ----- The batch -----

  class WriteBatch {
    var rep: Bytes
    ghost var updates: seq<Update>
    ghost var sequence: nat

    ghost predicate Ok()
      reads this
    {
      rep == BatchBytes(sequence, updates) && sequence < MAX64
    }

    constructor ()
      ensures Ok() && updates == [] && sequence == 0
    {
      rep := Zeros(HEADER);
      updates, sequence := [], 0;
      new;
      EmptyBatch();
    }

    method Clear()
      modifies this
      ensures Ok() && updates == [] && sequence == 0
    {
      rep := Zeros(HEADER);
      updates, sequence := [], 0;
      EmptyBatch();
    }

    function Count(): (n: nat)
      requires Ok()
      reads this
      ensures n == |updates| % MAX32
    {
      BatchParts(sequence, updates);
      WordBack(|updates|);
      LittleOf(rep[8..12])
    }

    function Sequence(): (n: nat)
      requires Ok()
      reads this
      ensures n == sequence
    {
      BatchParts(sequence, updates);
      Pow256Values();
      LittleRoundTrip(sequence, 8);
      LittleOf(rep[..8])
    }

    method SetSequence(n: nat)
      requires Ok() && n < MAX64
      modifies this
      ensures Ok() && updates == old(updates) && sequence == n
    {
      hide Little, UpdatesBytes;
      BatchParts(sequence, updates);
      rep := Little(n, 8) + rep[8..];
      sequence := n;
    }

    /** SetContents: the bytes of a batch, as a log record gives them back. */
    method SetContents(contents: Bytes, ghost n: nat, ghost us: seq<Update>)
      requires contents == BatchBytes(n, us) && n < MAX64
      modifies this
      ensures Ok() && updates == us && sequence == n
    {
      rep, sequence, updates := contents, n, us;
    }

    /** The count and the record of one update. */
    method Record(u: Update)
      requires Ok()
      modifies this
      ensures Ok() && updates == old(updates) + [u] && sequence == old(sequence)
    {
      hide Little, UpdatesBytes, UpdateBytes;
      var count := Count() + 1;
      BatchParts(sequence, updates);
      CountStep(|updates|, 1);
      UpdatesAppend(updates, u);
      var body := PutUpdate(rep[HEADER..], u);
      rep := rep[..8] + Little(count, 4) + body;
      updates := updates + [u];
    }

    method Put(key: Bytes, value: Bytes)
      requires Ok()
      modifies this
      ensures Ok() && updates == old(updates) + [Update.Put(key, value)] && sequence == old(sequence)
    {
      Record(Update.Put(key, value));
    }

    method Delete(key: Bytes)
      requires Ok()
      modifies this
      ensures Ok() && updates == old(updates) + [Update.Delete(key)] && sequence == old(sequence)
    {
      Record(Update.Delete(key));
    }

    /** The other batch's records behind this one's; the sequence number stays. */
    method Append(source: WriteBatch)
      requires Ok() && source.Ok()
      modifies this
      ensures Ok() && updates == old(updates) + old(source.updates) && sequence == old(sequence)
    {
      hide Little, UpdatesBytes;
      var count := Count() + source.Count();
      BatchParts(sequence, updates);
      BatchParts(source.sequence, source.updates);
      CountStep(|updates|, |source.updates|);
      UpdatesConcat(updates, source.updates);
      rep := rep[..8] + Little(count, 4) + rep[HEADER..] + source.rep[HEADER..];
      updates := updates + source.updates;
    }
  }

  /** The type byte and the strings. */
  method PutUpdate(dst: Bytes, u: Update) returns (d: Bytes)
    ensures d == dst + UpdateBytes(u)
  {
    hide Prefixed;
    d := PutLengthPrefixed(dst + [KindByte(u)], u.key);
    if u.Put? {
      d := PutLengthPrefixed(d, u.value);
    }
    assert d == dst + ([KindByte(u)] + UpdateBody(u));
  }

  function Zeros(n: nat): Bytes {
    seq(n, _ => 0 as Byte)
  }

  lemma EmptyBatch()
    ensures Zeros(HEADER) == BatchBytes(0, [])
  {
    LittleZero(8);
    LittleZero(4);
  }

  lemma {:induction false} LittleZero(k: nat)
    ensures Little(0, k) == Zeros(k)
  {
    if k > 0 {
      LittleZero(k - 1);
    }
  }

  // ----- Iterating -----

  /** The record at p and the place behind it, or None: an unknown type byte, or a string that is cut off. */
  function ReadUpdate(rep: Bytes, p: nat): (r: Option<(Update, nat)>)
    requires p < |rep|
    ensures r.Some? ==> p < r.value.1 <= |rep|
  {
    if rep[p] > 1 then None
    else
      var key := ReadPrefixed(rep, p + 1);
      if key.None? then None
      else if rep[p] == 0 then Some((Update.Delete(key.value.0), key.value.1))
      else
        var value := ReadPrefixed(rep, key.value.1);
        if value.None? then None else Some((Update.Put(key.value.0, value.value.0), value.value.1))
  }

  /** The records from p up to the first that is malformed, and whether there is none such. */
  function ReadUpdates(rep: Bytes, p: nat): (seq<Update>, bool)
    requires p <= |rep|
    decreases |rep| - p
  {
    if p == |rep| then ([], true)
    else
      var u := ReadUpdate(rep, p);
      if u.None? then ([], false)
      else
        var rest := ReadUpdates(rep, u.value.1);
        ([u.value.0] + rest.0, rest.1)
  }

  method GetUpdate(rep: Bytes, p: nat) returns (u: Option<Update>, q: nat)
    requires p < |rep|
    ensures u.Some? ==> p < q <= |rep|
    ensures (if u.Some? then Some((u.value, q)) else None) == ReadUpdate(rep, p)
  {
    hide ReadPrefixed;
    var ok, key, value;
    if rep[p] == 1 {
      ok, key, q := GetLengthPrefixed(rep, p + 1);
      if !ok {
        return None, p;
      }
      ok, value, q := GetLengthPrefixed(rep, q);
      u := if ok then Some(Update.Put(key, value)) else None;
    } else if rep[p] == 0 {
      ok, key, q := GetLengthPrefixed(rep, p + 1);
      u := if ok then Some(Update.Delete(key)) else None;
    } else {
      u, q := None, p;
    }
  }

  /** Reading back. */
  lemma UpdateReads(rep: Bytes, p: nat, u: Update, rest: Bytes)
    requires Short(u) && Left(rep, p, UpdateBytes(u) + rest)
    ensures p < |rep| && ReadUpdate(rep, p) == Some((u, p + |UpdateBytes(u)|)) && Left(rep, p + |UpdateBytes(u)|, rest)
  {
    hide Prefixed, ReadPrefixed, Left;
    assert UpdateBytes(u) + rest == [KindByte(u)] + (UpdateBody(u) + rest);
    LeftMoves(rep, p, [KindByte(u)], UpdateBody(u) + rest);
    FirstLeft(rep, p, KindByte(u), UpdateBody(u) + rest);
    if u.Put? {
      assert UpdateBody(u) + rest == Prefixed(u.key) + (Prefixed(u.value) + rest);
      StringReads(rep, p + 1, u.key, Prefixed(u.value) + rest);
      StringReads(rep, p + 1 + |Prefixed(u.key)|, u.value, rest);
    } else {
      StringReads(rep, p + 1, u.key, rest);
    }
  }

  lemma FirstLeft(rep: Bytes, p: nat, b: Byte, rest: Bytes)
    requires Left(rep, p, [b] + rest)
    ensures p < |rep| && rep[p] == b
  {
    assert rep[p] == rep[p..][0];
  }

  lemma {:induction false} UpdatesRead(rep: Bytes, p: nat, us: seq<Update>)
    requires Left(rep, p, UpdatesBytes(us)) && forall u | u in us :: Short(u)
    ensures ReadUpdates(rep, p).0 == us && ReadUpdates(rep, p).1
    decreases |us|
  {
    hide ReadUpdate, UpdateBytes;
    if us != [] {
      UpdateReads(rep, p, us[0], UpdatesBytes(us[1..]));
      UpdatesRead(rep, p + |UpdateBytes(us[0])|, us[1..]);
    }
  }

  /** Iterate, collecting what the handler is given: on any bytes, every record before the first malformed one. The updates
      found are counted in a 32-bit word, as they are in the header. */
  method Iterate(rep: Bytes) returns (ok: bool, given: seq<Update>)
    ensures |rep| < HEADER ==> !ok && given == []
    ensures |rep| >= HEADER ==>
      given == ReadUpdates(rep, HEADER).0 &&
      (ok <==> ReadUpdates(rep, HEADER).1 && Word(|given|) == LittleOf(rep[8..12]))
  {
    hide LittleOf, Word, ReadUpdate;
    given := [];
    if |rep| < HEADER {
      return false, [];
    }
    var p, found := HEADER, Word(0);
    while p < |rep|
      invariant HEADER <= p <= |rep| && found == Word(|given|)
      invariant ReadUpdates(rep, HEADER).0 == given + ReadUpdates(rep, p).0
      invariant ReadUpdates(rep, HEADER).1 == ReadUpdates(rep, p).1
      decreases |rep| - p
    {
      var u, q := GetUpdate(rep, p);
      if u.None? {
        return false, given;
      }
      WordNext(|given|);
      found := Word(found + 1);
      ghost var rest := ReadUpdates(rep, q).0;
      assert given + ([u.value] + rest) == given + [u.value] + rest;
      given, p := given + [u.value], q;
    }
    ok := found == LittleOf(rep[8..12]);
  }

  lemma HeaderCounts(rep: Bytes, sequence: nat, us: seq<Update>)
    requires rep == BatchBytes(sequence, us)
    ensures |rep| >= HEADER && rep[HEADER..] == UpdatesBytes(us) && Word(|us|) == LittleOf(rep[8..12])
  {
    hide Little, LittleOf, UpdatesBytes;
    BatchParts(sequence, us);
    WordBack(|us|);
  }

  /** The updates of a batch are what its bytes are read as. */
  lemma BatchReads(rep: Bytes, us: seq<Update>)
    requires |rep| >= HEADER && rep[HEADER..] == UpdatesBytes(us) && forall u | u in us :: Short(u)
    ensures ReadUpdates(rep, HEADER).0 == us && ReadUpdates(rep, HEADER).1
  {
    UpdatesRead(rep, HEADER, us);
  }

  // ----- Inserting into the memtable -----

  /** The key and value an update adds. */
  function AddedFor(sequence: nat, u: Update): Added {
    match u
    case Put(key, value) => Added(KeyOrder.StoredKey(key, sequence, Value), value)
    case Delete(key) => Added(KeyOrder.StoredKey(key, sequence, Deletion), [])
  }

  function AllAdded(sequence: nat, us: seq<Update>): (r: seq<Added>)
    ensures |r| == |us|
  {
    seq(|us|, i requires 0 <= i < |us| => AddedFor(sequence + i, us[i]))
  }

  /** Sequence numbers in the memtable lie below n. */
  ghost predicate Older(added: seq<Added>, n: nat) {
    forall a | a in added :: a.key.sequence < n
  }

  /** A sequence number above all in the memtable makes a new key. */
  lemma KeyIsNew(mem: MemTable, sequence: nat, k: IKey)
    requires mem.Ok() && Older(mem.added, sequence) && k.sequence == sequence
    ensures k !in mem.table.Contents()
  {
    hide KeyOrder.Rank, MemTables.Short, MemTables.Buffer, Skiplist.Shaped, Skiplist.Keys;
    if k in mem.table.Contents() {
      mem.KeyWasAdded(k);
    }
  }

  /** One call of the handler. */
  method InsertUpdate(mem: MemTable, sequence: nat, u: Update, height: nat)
    requires mem.Ok() && Older(mem.added, sequence) && MemTables.Short(AddedFor(sequence, u))
    requires 1 <= height <= Skiplist.MAX_HEIGHT
    modifies mem, mem.table
    ensures mem.Ok() && mem.added == old(mem.added) + [AddedFor(sequence, u)]
  {
    hide KeyOrder.Rank, MemTables.Short, MemTable.Ok;
    KeyIsNew(mem, sequence, KeyOrder.KeyOf(AddedFor(sequence, u).key));
    match u
    case Put(key, value) => mem.Add(sequence, Value, key, value, height);
    case Delete(key) => mem.Add(sequence, Deletion, key, [], height);
  }

  /** MAIN: InsertInto puts the updates into the memtable in order, numbered on from the batch's sequence number. */
  method InsertInto(batch: WriteBatch, mem: MemTable, heights: seq<nat>) returns (ok: bool)
    requires batch.Ok() && mem.Ok() && Older(mem.added, batch.sequence)
    requires forall a | a in AllAdded(batch.sequence, batch.updates) :: MemTables.Short(a)
    requires |heights| == |batch.updates| && forall h | h in heights :: 1 <= h <= Skiplist.MAX_HEIGHT
    modifies mem, mem.table
    ensures ok && mem.Ok() && mem.added == old(mem.added) + AllAdded(batch.sequence, batch.updates)
  {
    hide MemTables.Short, MemTable.Ok, BatchBytes, UpdatesBytes, LittleOf, Word, Older, AddedFor, Short;
    ghost var all := AllAdded(batch.sequence, batch.updates);
    AddedAreShort(batch.sequence, batch.updates);
    var given;
    HeaderCounts(batch.rep, batch.sequence, batch.updates);
    BatchReads(batch.rep, batch.updates);
    ok, given := Iterate(batch.rep);
    var sequence := batch.Sequence();
    for i := 0 to |given|
      invariant sequence == batch.sequence + i && mem.Ok() && mem.added == old(mem.added) + all[..i]
      invariant Older(mem.added, sequence)
    {
      assert heights[i] in heights && all[i] in all && all[..i + 1] == all[..i] + [all[i]];
      OlderStep(mem.added, sequence, given[i]);
      InsertUpdate(mem, sequence, given[i], heights[i]);
      sequence := sequence + 1;
    }
    assert all[..|given|] == all;
  }

  lemma OlderStep(added: seq<Added>, sequence: nat, u: Update)
    requires Older(added, sequence)
    ensures Older(added + [AddedFor(sequence, u)], sequence + 1)
  {
  }

  lemma AddedAreShort(sequence: nat, us: seq<Update>)
    requires forall a | a in AllAdded(sequence, us) :: MemTables.Short(a)
    ensures forall u | u in us :: Short(u)
  {
    forall i | 0 <= i < |us|
      ensures Short(us[i])
    {
      assert AllAdded(sequence, us)[i] == AddedFor(sequence + i, us[i]);
      assert AddedFor(sequence + i, us[i]) in AllAdded(sequence, us);
    }
  }
}
