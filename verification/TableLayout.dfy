/** What a table file holds (doc/table_format.md): data blocks, an index of separators, a filter, a footer. */
module TableLayout {
  import opened Entries
  import opened Encodings
  import opened KeyOrder
  import opened Blocks
  import opened TableFormat
  import opened FilterBlocks
  import Bloom
  import Crc

  datatype KV = KV(key: StoredKey, value: Bytes)

  predicate Ordered(es: seq<KV>) {
    (forall i | 0 <= i < |es| :: es[i].key.sequence <= MAX_SEQUENCE) &&
    forall i, j | 0 <= i < j < |es| :: Less(KeyOf(es[i].key), KeyOf(es[j].key))
  }

  // ----- Entries in blocks -----

  /** Data block i holds the entries from Begin(ends, i) up to ends[i]. */
  predicate Cuts(ends: seq<nat>, n: nat) {
    (forall i | 0 <= i < |ends| :: 0 < ends[i] <= n) && forall i, j | 0 <= i < j < |ends| :: ends[i] < ends[j]
  }

  function Begin(ends: seq<nat>, i: nat): nat
    requires i <= |ends|
  {
    if i == 0 then 0 else ends[i - 1]
  }

  function Coded(es: seq<KV>): (r: seq<(Bytes, Bytes)>)
    ensures |r| == |es|
  {
    seq(|es|, i requires 0 <= i < |es| => (Encoded(es[i].key), es[i].value))
  }

  function IndexPairs(seps: seq<StoredKey>, handles: seq<Handle>): (r: seq<(Bytes, Bytes)>)
    requires |seps| <= |handles|
    ensures |r| == |seps|
  {
    seq(|seps|, i requires 0 <= i < |seps| => (Encoded(seps[i]), HandleBytes(handles[i])))
  }

  /** A block as the builder makes it from these pairs. */
  ghost predicate Packs(items: seq<Item>, starts: seq<nat>, block: Bytes, pairs: seq<(Bytes, Bytes)>) {
    Chained(items) && Restarts(items, starts) && (forall k | 0 <= k < |starts| :: starts[k] <= |items|) &&
    block == BlockBytes(items, starts) && Pairs(items) == pairs
  }

  ghost predicate BlockOf(block: Bytes, pairs: seq<(Bytes, Bytes)>) {
    exists items, starts :: Packs(items, starts, block, pairs)
  }

  ghost predicate BlockAt(t: Crc.Tables, file: Bytes, h: Handle, pairs: seq<(Bytes, Bytes)>) {
    h.offset + h.size <= |file| &&
    var block := file[h.offset..h.offset + h.size];
    StoredAt(t, file, h, block) && BlockOf(block, pairs)
  }

  /** Separator i is at or after block i and before block i + 1; unless it is block i's last key, its user key is
      also before the next block's. */
  ghost predicate Separator(es: seq<KV>, end: nat, sep: StoredKey)
    requires 0 < end <= |es|
  {
    sep.sequence <= MAX_SEQUENCE && AtMost(KeyOf(es[end - 1].key), KeyOf(sep)) &&
    (end < |es| ==>
       Less(KeyOf(sep), KeyOf(es[end].key)) &&
       (sep == es[end - 1].key || BytesLess(sep.user, es[end].key.user)))
  }

  ghost predicate Separated(es: seq<KV>, ends: seq<nat>, seps: seq<StoredKey>)
    requires Cuts(ends, |es|) && |seps| <= |ends|
  {
    forall i | 0 <= i < |seps| :: Separator(es, ends[i], seps[i])
  }

  ghost predicate DataBlocks(t: Crc.Tables, file: Bytes, es: seq<KV>, ends: seq<nat>, handles: seq<Handle>)
    requires Cuts(ends, |es|)
  {
    |handles| == |ends| &&
    forall i | 0 <= i < |ends| :: DataAt(t, file, handles[i], es, Begin(ends, i), ends[i])
  }

  /** The handle points at a block of the entries between these positions. */
  ghost predicate DataAt(t: Crc.Tables, file: Bytes, h: Handle, es: seq<KV>, from: nat, to: nat)
    requires from <= to <= |es|
  {
    BlockAt(t, file, h, Coded(es[from..to]))
  }

  // ----- The whole file -----

  datatype FilterLayout = FilterLayout(handle: Handle, filters: seq<Bytes>)

  datatype Layout = Layout(
    entries: seq<KV>, ends: seq<nat>, handles: seq<Handle>, seps: seq<StoredKey>,
    meta: Handle, index: Handle, filter: Option<FilterLayout>)

  /** "filter." and the policy's name. */
  function FilterKey(name: Bytes): Bytes {
    [102, 105, 108, 116, 101, 114, 46] + name
  }

  function MetaPairs(filter: Option<FilterLayout>, name: Bytes): seq<(Bytes, Bytes)> {
    match filter
    case None => []
    case Some(f) => [(FilterKey(name), HandleBytes(f.handle))]
  }

  /** Every key of block i may match in the filter for its offset. */
  ghost predicate Filtered(hash: Bytes -> nat, es: seq<KV>, ends: seq<nat>, handles: seq<Handle>, filters: seq<Bytes>)
    requires Cuts(ends, |es|) && |handles| == |ends|
  {
    forall i, j | 0 <= i < |ends| && Begin(ends, i) <= j < ends[i] ::
      InFilter(hash, handles[i].offset, es[j].key.user, filters)
  }

  ghost predicate InFilter(hash: Bytes -> nat, offset: nat, user: Bytes, filters: seq<Bytes>) {
    offset / 2048 < |filters| && Bloom.MayMatch(hash, user, filters[offset / 2048])
  }

  ghost predicate IsTable(t: Crc.Tables, file: Bytes, l: Layout, name: Bytes, hash: Bytes -> nat) {
    Ordered(l.entries) && Cuts(l.ends, |l.entries|) && Begin(l.ends, |l.ends|) == |l.entries| &&
    DataBlocks(t, file, l.entries, l.ends, l.handles) &&
    |l.seps| == |l.ends| && Separated(l.entries, l.ends, l.seps) &&
    BlockAt(t, file, l.index, IndexPairs(l.seps, l.handles)) &&
    BlockAt(t, file, l.meta, MetaPairs(l.filter, name)) &&
    (l.filter.Some? ==>
       StoredAt(t, file, l.filter.value.handle, FilterBlockBytes(l.filter.value.filters)) &&
       Filtered(hash, l.entries, l.ends, l.handles, l.filter.value.filters)) &&
    |file| >= FOOTER && file[|file| - FOOTER..] == FooterBytes(l.meta, l.index)
  }

  /** The format's limits: 64-bit offsets in the file, 32-bit offsets in a block. */
  ghost predicate Small(file: Bytes, l: Layout) {
    |file| < MAX64 && l.meta.size < MAX32 && l.index.size < MAX32 &&
    (forall i | 0 <= i < |l.handles| :: l.handles[i].size < MAX32) &&
    (l.filter.Some? ==> l.filter.value.handle.size < MAX32)
  }

  // ----- Lookups -----

  /** Entry c is the first at or after k. */
  ghost predicate FirstAt(es: seq<KV>, k: StoredKey, c: nat) {
    c <= |es| && (forall j | 0 <= j < c :: Less(KeyOf(es[j].key), KeyOf(k))) &&
    forall j | c <= j < |es| :: AtMost(KeyOf(k), KeyOf(es[j].key))
  }

  /** What a lookup of k may answer: the first entry at or after k, and nothing only if that is an entry of
      another user key. */
  ghost predicate Answers(es: seq<KV>, k: StoredKey, found: Option<(Bytes, Bytes)>) {
    exists c :: FirstAt(es, k, c) && AnswerIs(es, k, found, c)
  }

  ghost predicate AnswerIs(es: seq<KV>, k: StoredKey, found: Option<(Bytes, Bytes)>, c: nat)
    requires c <= |es|
  {
    (found.Some? ==> c < |es| && found.value == (Encoded(es[c].key), es[c].value)) &&
    (c < |es| && es[c].key.user == k.user ==> found.Some?)
  }
}
