/** The memtable (db/memtable.cc): encoded entries in buffers, found through the skip list. */
module MemTables {
  import opened Entries
  import opened Encodings
  import opened Coding
  import opened KeyOrder
  import opened Skiplist
  import Reads

  datatype Added = Added(key: StoredKey, value: Bytes)

  function EntryOf(a: Added): Entry {
    Entry(KeyOf(a.key), a.value)
  }

  ghost function EntriesOf(added: seq<Added>): set<Entry> {
    set i | 0 <= i < |added| :: EntryOf(added[i])
  }

  predicate Short(a: Added) {
    |a.key.user| + 8 < MAX32 && |a.value| < MAX32 && a.key.sequence <= MAX_SEQUENCE
  }

  /** The internal key and the value, each behind its length. */
  function Buffer(a: Added): Bytes {
    Prefixed(Encoded(a.key)) + Prefixed(a.value)
  }

  /** The lengths fit in five bytes each. */
  lemma BufferParts(a: Added)
    requires Short(a)
    ensures var b, key := Buffer(a), Encoded(a.key);
      |key| == |a.key.user| + 8 && |Varint(|key|)| <= 5 <= |b| && Starts(b, 0, 5, Varint(|key|)) &&
      |Varint(|key|)| + |key| <= |b| && b[|Varint(|key|)|..|Varint(|key|)| + |key|] == key &&
      Starts(b, |Varint(|key|)| + |key|, |b|, Prefixed(a.value))
  {
    var key := Encoded(a.key);
    assert |Little(Tag(KeyOf(a.key)), 8)| == 8;
    Pow128Of5();
    VarintLength(|key|, 5);
    hide Varint, Encoded;
    var n, rest := Varint(|key|), Prefixed(a.value);
    var b := n + key + rest;
    assert Buffer(a) == b;
    assert b[0..5][..|n|] == n;
    assert n <= b[0..5];
    assert b[|n| + |key|..|b|] == rest;
  }

  lemma Pow128Of5()
    ensures MAX32 <= Pow128(5)
  {
    assert Pow128(5) == 128 * 128 * 128 * 128 * 128;
  }

  class MemTable {
    const table: SkipList
    var buffers: seq<Bytes>
    ghost var added: seq<Added>

    /** The buffer of node x is number x - 1. */
    ghost predicate Ok()
      reads this, table
    {
      table.Ok() && |table.t.nodes| == |buffers| + 1 && |added| == |buffers| &&
      (forall i | 0 <= i < |added| :: Short(added[i]) && buffers[i] == Buffer(added[i])) &&
      (forall i | 0 <= i < |added| :: table.t.nodes[i + 1].key == KeyOf(added[i].key)) &&
      forall i | 0 <= i < |added| :: KeyOf(added[i].key) in table.Contents()
    }

    constructor ()
      ensures Ok() && added == [] && fresh(table)
    {
      table := new SkipList();
      buffers, added := [], [];
    }

    /** The table holds only the keys added. */
    lemma KeyWasAdded(k: IKey)
      requires Ok() && k in table.Contents()
      ensures exists a :: a in added && KeyOf(a.key) == k
    {
      hide Shaped, Rank, Buffer, Keys;
      Heights(table.t, table.levels);
      KeyIsAdded(table.t, table.levels[0], added, k);
    }

    /** Add, with the height the skip list draws. */
    method Add(sequence: nat, kind: ValueType, key: Bytes, value: Bytes, height: nat)
      requires Ok() && Short(Added(StoredKey(key, sequence, kind), value)) && 1 <= height <= MAX_HEIGHT
      requires KeyOf(StoredKey(key, sequence, kind)) !in table.Contents()
      modifies this, table
      ensures Ok() && added == old(added) + [Added(StoredKey(key, sequence, kind), value)]
    {
      hide Varint, Little, Shaped, Rank;
      ghost var a := Added(StoredKey(key, sequence, kind), value);
      var buf := PutVarint([], |key| + 8);
      buf := buf + key;
      buf := buf + Little(Tag(KeyOf(StoredKey(key, sequence, kind))), 8);
      buf := PutVarint(buf, |value|);
      buf := buf + value;
      assert buf == Buffer(a);
      ghost var at, trace := table.Insert(KeyOf(StoredKey(key, sequence, kind)), height);
      buffers, added := buffers + [buf], added + [a];
    }

    /** MAIN: Get gives the newest visible entry's value, or that it is a deletion; None if there is no visible
        entry. */
    method Get(user: Bytes, s: nat) returns (r: Option<Option<Bytes>>)
      requires Ok() && s <= MAX_SEQUENCE
      ensures r.Some? ==> exists e :: IsNewest(EntriesOf(added), Rank(user), s, e) && r.value == Outcome(e)
      ensures r.None? ==> Reads.NothingVisible(EntriesOf(added), Rank(user), s)
    {
      hide Varint, Shaped, Rank, Buffer, Encoded, Starts, Splits, Prefixed, Reads.NothingVisible, IsNewest, EntriesOf;
      var x, prev;
      ghost var at;
      x, prev, at := table.FindGreaterOrEqual(LookupKey(Rank(user), s));
      Heights(table.t, table.levels);
      FoundIs(table.t, table.levels[0], added, Rank(user), s, x, at[0]);
      if x == 0 {
        return None;
      }
      ghost var a := added[x - 1];
      RankIsOrder(a.key.user, user);
      r := ReadBuffer(buffers[x - 1], user, a);
      assert r.Some? ==> IsNewest(EntriesOf(added), Rank(user), s, EntryOf(a));
    }
  }

  lemma KeyIsAdded(t: List, lv: seq<nat>, added: seq<Added>, k: IKey)
    requires Ascends(t, lv) && |t.nodes| == |added| + 1 && k in Keys(t, lv)
    requires forall i | 0 <= i < |added| :: t.nodes[i + 1].key == KeyOf(added[i].key)
    ensures exists a :: a in added && KeyOf(a.key) == k
  {
    hide Less, Rank;
    var j :| 0 <= j < |lv| && Keys(t, lv)[j] == k;
    var i := lv[j] - 1;
    assert t.nodes[i + 1].key == k && added[i] in added;
  }

  /** What Get reads in the buffer found. */
  method ReadBuffer(entry: Bytes, user: Bytes, ghost a: Added) returns (r: Option<Option<Bytes>>)
    requires Short(a) && entry == Buffer(a)
    ensures r == if a.key.user == user then Some(Outcome(EntryOf(a))) else None
  {
    hide Varint, Rank, Buffer, Encoded, Starts, Prefixed, UserOf, TagOf, ReadVarint, ReadPrefixed;
    BufferParts(a);
    EncodedParts(a.key);
    VarintReads(entry, 0, 5, MAX32, |Encoded(a.key)|);
    PrefixedReads(entry, |Varint(|Encoded(a.key)|)| + |Encoded(a.key)|, a.value);
    var ok, keyLength, keyAt := GetVarint(entry, 0, 5, MAX32);
    var key := entry[keyAt..keyAt + keyLength];
    if UserOf(key) != user {
      return None;
    }
    TagKind(KeyOf(a.key));
    if TagOf(key) % 256 == 1 {
      var value, end;
      ok, value, end := GetLengthPrefixed(entry, keyAt + keyLength);
      r := Some(Some(value));
    } else {
      r := Some(None);
    }
  }

  lemma TagKind(k: IKey)
    ensures Tag(k) % 256 == 1 <==> k.kind == Value
  {
  }

  /** Node x is the first at or after the lookup key, or 0; it decides. */
  lemma FoundIs(t: List, lv: seq<nat>, added: seq<Added>, k: UserKey, s: nat, x: nat, at: nat)
    requires Chain(t, lv, 0) && Splits(t, lv, LookupKey(k, s), at) && x == Pointer(lv, at)
    requires |t.nodes| == |added| + 1
    requires forall i | 0 <= i < |added| :: t.nodes[i + 1].key == KeyOf(added[i].key) && KeyOf(added[i].key) in Keys(t, lv)
    ensures x <= |added|
    ensures x == 0 ==> Reads.NothingVisible(EntriesOf(added), k, s)
    ensures x > 0 && KeyOf(added[x - 1].key).user == k ==> IsNewest(EntriesOf(added), k, s, EntryOf(added[x - 1]))
    ensures x > 0 && KeyOf(added[x - 1].key).user != k ==> Reads.NothingVisible(EntriesOf(added), k, s)
  {
    hide Rank, Linked;
    forall i | 0 <= i < |added| && Visible(EntryOf(added[i]), k, s)
      ensures x > 0 && KeyOf(added[x - 1].key).user == k && added[i].key.sequence <= added[x - 1].key.sequence
    {
      var e := EntryOf(added[i]);
      Reads.VisibleIsAtOrAfter(e, k, s);
      assert e.key in Keys(t, lv);
      var j :| 0 <= j < |lv| && t.nodes[lv[j]].key == e.key;
      assert at <= j && lv[at] > 0;
      var first := t.nodes[lv[at]].key;
      assert j == at || Less(first, e.key);
      assert !Less(first, LookupKey(k, s));
    }
    if x > 0 {
      assert at < |lv| && EntryOf(added[x - 1]) in EntriesOf(added);
      Reads.VisibleIsAtOrAfter(EntryOf(added[x - 1]), k, s);
    }
  }
}
