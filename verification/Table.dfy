/** Reading a table file (table/table.cc). */
module Tables {
  import opened Entries
  import opened Encodings
  import opened Coding
  import opened KeyOrder
  import opened Blocks
  import opened TableFormat
  import opened FilterBlocks
  import opened TableLayout
  import Bloom
  import Crc

  // ----- Seeking in a block -----

  ghost predicate InKeyOrder(pairs: seq<(Bytes, Bytes)>, less: (Bytes, Bytes) -> bool) {
    (forall a, b, c :: less(a, b) && less(b, c) ==> less(a, c)) &&
    forall i, j | 0 <= i < j < |pairs| :: less(pairs[i].0, pairs[j].0)
  }

  /** Pair c is the first at or after the target. */
  ghost predicate SeekIs(pairs: seq<(Bytes, Bytes)>, less: (Bytes, Bytes) -> bool, target: Bytes, c: nat) {
    c <= |pairs| && (forall j | 0 <= j < c :: less(pairs[j].0, target)) &&
    (c < |pairs| ==> !less(pairs[c].0, target))
  }

  /** Block::NewIterator and a Seek, in any bytes: an error iterator, an empty one, or what the search comes to. */
  function SoughtIn(data: Bytes, less: (Bytes, Bytes) -> bool, target: Bytes): Search {
    var n := RestartsIn(data);
    if n.None? then Search(true, None)
    else if n.value == 0 then Search(false, None)
    else
      RestartArrayFits(data, n.value);
      Sought(data, (|data| - 4 * n.value - 4) % MAX32, n.value, less, target)
  }

  lemma RestartArrayFits(data: Bytes, n: nat)
    requires 4 * n + 4 <= |data|
    ensures (|data| - 4 * n - 4) % MAX32 + 4 * n + 4 <= |data|
  {
  }

  /** `ok` is false for a block that is corrupt. */
  method SeekIn(data: Bytes, less: (Bytes, Bytes) -> bool, target: Bytes, ghost pairs: seq<(Bytes, Bytes)>)
    returns (ok: bool, found: Option<(Bytes, Bytes)>, ghost c: nat)
    ensures Search(!ok, found) == SoughtIn(data, less, target)
    ensures BlockOf(data, pairs) && |data| < MAX32 && InKeyOrder(pairs, less) ==>
      ok && SeekIs(pairs, less, target, c) && found == if c < |pairs| then Some(pairs[c]) else None
  {
    hide Holds, BlockBytes, Chained, Restarts, Off, Sought;
    ghost var items: seq<Item>, starts: seq<nat> := [], [];
    ghost var good := BlockOf(data, pairs) && |data| < MAX32 && InKeyOrder(pairs, less);
    if good {
      items, starts :| Packs(items, starts, data, pairs);
      assert forall i | 0 <= i < |items| :: items[i].key == Pairs(items)[i].0 && items[i].value == Pairs(items)[i].1;
    }
    var limit, numRestarts;
    found, c := None, 0;
    ok, limit, numRestarts := OpenBlock(data, items, starts);
    if !ok || numRestarts == 0 {
      return;
    }
    var it := new BlockIter(data, limit, numRestarts, less, items, starts);
    if good {
      assert it.Good();
      assert forall i, j | 0 <= i < j < |items| :: less(items[i].key, items[j].key);
    }
    c := it.Seek(target);
    ok := !it.corrupt;
    if it.Valid() {
      found := Some((it.key, it.Value()));
    }
  }

  // ----- Which block holds a key -----

  lemma {:induction false} FirstExists(es: seq<KV>, k: StoredKey, n: nat) returns (c: nat)
    requires Ordered(es) && n <= |es| && forall j | n <= j < |es| :: AtMost(KeyOf(k), KeyOf(es[j].key))
    ensures FirstAt(es, k, c)
  {
    if n == 0 || Less(KeyOf(es[n - 1].key), KeyOf(k)) {
      c := n;
      forall j | 0 <= j < n
        ensures Less(KeyOf(es[j].key), KeyOf(k))
      {
        LessIsTotalOrder(KeyOf(es[j].key), KeyOf(es[n - 1].key), KeyOf(k));
      }
    } else {
      c := FirstExists(es, k, n - 1);
    }
  }

  /** The separators are in order, and so are the index entries. */
  lemma SeparatorsOrdered(es: seq<KV>, ends: seq<nat>, seps: seq<StoredKey>, i: nat, j: nat)
    requires Ordered(es) && Cuts(ends, |es|) && |seps| <= |ends| && Separated(es, ends, seps) && i < j < |seps|
    ensures Less(KeyOf(seps[i]), KeyOf(seps[j]))
  {
    assert ends[i] <= ends[j] - 1;
    var a, b, last := KeyOf(seps[i]), KeyOf(es[ends[i]].key), KeyOf(es[ends[j] - 1].key);
    assert Separator(es, ends[i], seps[i]) && Separator(es, ends[j], seps[j]);
    LessIsTotalOrder(a, b, last);
    LessIsTotalOrder(a, last, KeyOf(seps[j]));
  }

  lemma IndexInOrder(es: seq<KV>, ends: seq<nat>, seps: seq<StoredKey>, handles: seq<Handle>)
    requires Ordered(es) && Cuts(ends, |es|) && |seps| == |ends| == |handles| && Separated(es, ends, seps)
    ensures InKeyOrder(IndexPairs(seps, handles), InternalLess)
  {
    var pairs := IndexPairs(seps, handles);
    InternalLessTransitive();
    forall i, j | 0 <= i < j < |pairs|
      ensures InternalLess(pairs[i].0, pairs[j].0)
    {
      SeparatorsOrdered(es, ends, seps, i, j);
      assert Separator(es, ends[i], seps[i]) && Separator(es, ends[j], seps[j]);
      EncodedOrder(seps[i], seps[j]);
    }
  }

  lemma InternalLessTransitive()
    ensures forall a, b, c :: InternalLess(a, b) && InternalLess(b, c) ==> InternalLess(a, c)
  {
    forall a, b, c | InternalLess(a, b) && InternalLess(b, c)
      ensures InternalLess(a, c)
    {
      InternalLessIsOrder(a, b, c);
    }
  }

  lemma EntriesInOrder(es: seq<KV>, from: nat, to: nat)
    requires Ordered(es) && from <= to <= |es|
    ensures InKeyOrder(Coded(es[from..to]), InternalLess)
  {
    hide InternalLess, Encoded, Less;
    var pairs := Coded(es[from..to]);
    forall i, j | 0 <= i < j < |pairs|
      ensures InternalLess(pairs[i].0, pairs[j].0)
    {
      EncodedOrder(es[from + i].key, es[from + j].key);
    }
    InternalLessTransitive();
  }

  /** The block the index leads to is the only one that may hold the first entry of k's user key. */
  lemma IndexDecides(es: seq<KV>, ends: seq<nat>, seps: seq<StoredKey>, handles: seq<Handle>, k: StoredKey, c: nat)
    returns (first: nat)
    requires Ordered(es) && Cuts(ends, |es|) && Begin(ends, |ends|) == |es|
    requires |seps| == |ends| == |handles| && Separated(es, ends, seps) && k.sequence <= MAX_SEQUENCE
    requires SeekIs(IndexPairs(seps, handles), InternalLess, Encoded(k), c)
    ensures c <= |ends| && FirstAt(es, k, first) && Begin(ends, c) <= first
    ensures c == |ends| ==> first == |es|
    ensures c < |ends| && ends[c] <= first < |es| ==> es[first].key.user != k.user
  {
    hide Encoded, InternalLess;
    first := FirstExists(es, k, |es|);
    var pairs := IndexPairs(seps, handles);
    if c > 0 {
      assert Separator(es, ends[c - 1], seps[c - 1]);
      assert InternalLess(pairs[c - 1].0, Encoded(k));
      EncodedOrder(seps[c - 1], k);
      LessIsTotalOrder(KeyOf(es[ends[c - 1] - 1].key), KeyOf(seps[c - 1]), KeyOf(k));
      BeforeFirst(es, k, first, ends[c - 1] - 1);
    }
    if c < |ends| && ends[c] <= first < |es| {
      assert Separator(es, ends[c], seps[c]);
      assert !InternalLess(pairs[c].0, Encoded(k));
      EncodedOrder(seps[c], k);
      PastSeparator(es, ends[c], seps[c], k, first);
    }
  }

  lemma BeforeFirst(es: seq<KV>, k: StoredKey, first: nat, j: nat)
    requires FirstAt(es, k, first) && j < |es| && Less(KeyOf(es[j].key), KeyOf(k))
    ensures j < first
  {
  }

  lemma PastSeparator(es: seq<KV>, end: nat, sep: StoredKey, k: StoredKey, first: nat)
    requires Ordered(es) && 0 < end <= first < |es| && FirstAt(es, k, first)
    requires Separator(es, end, sep) && AtMost(KeyOf(k), KeyOf(sep))
    ensures es[first].key.user != k.user
  {
    assert Less(KeyOf(es[end - 1].key), KeyOf(k));
    RankIsOrder(sep.user, es[end].key.user);
    assert first == end;
  }

  // ----- The table -----

  class Table {
    const crc: Crc.Tables
    const file: Bytes
    const hash: Bytes -> nat
    const indexData: Bytes
    const filter: FilterBlockReader?
    ghost const layout: Layout
    ghost const name: Bytes

    constructor (crc: Crc.Tables, file: Bytes, hash: Bytes -> nat, indexData: Bytes, filter: FilterBlockReader?,
      ghost layout: Layout, ghost name: Bytes)
      ensures this.crc == crc && this.file == file && this.hash == hash && this.indexData == indexData
      ensures this.filter == filter && this.layout == layout && this.name == name
    {
      this.crc, this.file, this.hash, this.indexData, this.filter := crc, file, hash, indexData, filter;
      this.layout, this.name := layout, name;
    }

    ghost predicate Safe() {
      filter != null ==> filter.Safe() && filter.hash == hash
    }

    /** The file is one the builder finished, within the format's limits, and was opened as such. */
    ghost predicate Good() {
      IsTable(crc, file, layout, name, hash) && Small(file, layout) &&
      BlockOf(indexData, IndexPairs(layout.seps, layout.handles)) && |indexData| < MAX32 &&
      (filter != null ==> layout.filter.Some? && filter.Good() && filter.filters == layout.filter.value.filters)
    }

    /** What BlockReader and a Seek come to, on any file: an error if the block cannot be read. */
    function SoughtAt(handle: Handle, key: Bytes, verify: bool): Search {
      if MayRead(crc, file, handle, verify) then
        SoughtIn(file[handle.offset..handle.offset + handle.size], InternalLess, key)
      else Search(true, None)
    }

    /** What InternalGet comes to, on any file: the block that the index leads to is read unless the filter rules the key
        out. */
    ghost function Lookup(key: Bytes, verify: bool): Search
      requires Safe()
    {
      var at := SoughtIn(indexData, InternalLess, key);
      if at.found.None? then at
      else
        var handle := ReadHandle(at.found.value.1, 0);
        if handle.None? then Search(true, None)
        else if filter != null && !filter.Says(handle.value.0.offset, key) then Search(at.corrupt, None)
        else SoughtAt(handle.value.0, key, verify)
    }

    /** Table::BlockReader, on the decoded handle, and a Seek. */
    method SeekInBlock(handle: Handle, key: Bytes, verify: bool, ghost pairs: seq<(Bytes, Bytes)>)
      returns (ok: bool, found: Option<(Bytes, Bytes)>, ghost d: nat)
      ensures Search(!ok, found) == SoughtAt(handle, key, verify)
      ensures BlockAt(crc, file, handle, pairs) && handle.size < MAX32 && InKeyOrder(pairs, InternalLess) ==>
        ok && SeekIs(pairs, InternalLess, key, d) && found == if d < |pairs| then Some(pairs[d]) else None
    {
      hide StoredAt, BlockOf, InKeyOrder, SeekIs, InternalLess, SoughtIn, Sealed;
      var contents;
      ghost var block :=
        if handle.offset + handle.size <= |file| then file[handle.offset..handle.offset + handle.size] else [];
      ok, contents := ReadBlock(crc, file, handle, verify, block);
      if !ok {
        return false, None, 0;
      }
      ok, found, d := SeekIn(contents, InternalLess, key, pairs);
    }

    /** MAIN: InternalGet hands out the first entry at or after k, and nothing only if that entry has another
        user key; on any file, what the lookup through index and filter comes to. */
    method InternalGet(k: StoredKey, verify: bool) returns (ok: bool, found: Option<(Bytes, Bytes)>)
      requires Safe() && k.sequence <= MAX_SEQUENCE
      ensures Search(!ok, found) == Lookup(Encoded(k), verify)
      ensures Good() ==> ok && Answers(layout.entries, k, found)
    {
      hide SoughtIn, SoughtAt, ReadHandle, FilterBlockReader.Says, IsTable, BlockOf, BlockAt, InKeyOrder, SeekIs, InternalLess, Encoded, FirstAt, AnswerIs, InFilter, Small;
      var key := Encoded(k);
      ghost var l := layout;
      if Good() {
        TableParts(crc, file, l, name, hash);
      }
      ghost var c: nat, first: nat := 0, 0;
      var at, decoded, handle, q;
      ok, at, c := SeekIn(indexData, InternalLess, key, if Good() then IndexPairs(l.seps, l.handles) else []);
      if Good() {
        first := IndexDecides(l.entries, l.ends, l.seps, l.handles, k, c);
        SeekInside(IndexPairs(l.seps, l.handles), InternalLess, key, c);
      }
      found := None;
      if at.None? {
        if Good() {
          NothingFound(l.entries, k, first);
        }
        return;
      }
      ghost var h0 := if Good() then l.handles[c] else Handle(0, 0);
      if Good() {
        HandleFront(crc, file, l, name, hash, c);
      }
      decoded, handle, q := DecodeHandle(at.value.1, 0, h0);
      if filter != null && decoded {
        var may := filter.KeyMayMatch(handle.offset, key);
        if !may {
          if Good() {
            FilterIsRight(this, k, c, first);
            NothingFound(l.entries, k, first);
          }
          return;
        }
      }
      if !decoded {
        return false, None;
      }
      ghost var d: nat := 0;
      ok, found, d := SeekInBlock(handle, key, verify,
        if Good() then Coded(l.entries[Begin(l.ends, c)..l.ends[c]]) else []);
      if Good() {
        BlockDecides(l.entries, Begin(l.ends, c), l.ends[c], k, first, d, found);
      }
    }
  }

  /** What a lookup needs of the table, without the file's bytes. */
  lemma TableParts(t: Crc.Tables, file: Bytes, l: Layout, name: Bytes, hash: Bytes -> nat)
    requires IsTable(t, file, l, name, hash)
    ensures Ordered(l.entries) && Cuts(l.ends, |l.entries|) && Begin(l.ends, |l.ends|) == |l.entries|
    ensures |l.handles| == |l.ends| == |l.seps| && Separated(l.entries, l.ends, l.seps)
    ensures InKeyOrder(IndexPairs(l.seps, l.handles), InternalLess)
  {
    hide InKeyOrder, BlockAt, Separated, Ordered;
    IndexInOrder(l.entries, l.ends, l.seps, l.handles);
  }

  lemma SeekInside(pairs: seq<(Bytes, Bytes)>, less: (Bytes, Bytes) -> bool, target: Bytes, c: nat)
    requires SeekIs(pairs, less, target, c)
    ensures c <= |pairs|
  {
  }

  lemma NothingFound(es: seq<KV>, k: StoredKey, first: nat)
    requires FirstAt(es, k, first) && (first < |es| ==> es[first].key.user != k.user)
    ensures Answers(es, k, None)
  {
    assert AnswerIs(es, k, None, first);
  }

  /** The index entry's value is the block's handle, and the block is where it says. */
  lemma HandleFront(t: Crc.Tables, file: Bytes, l: Layout, name: Bytes, hash: Bytes -> nat, c: nat)
    requires IsTable(t, file, l, name, hash) && Small(file, l) && c < |l.ends|
    ensures |l.handles| == |l.ends| && Cuts(l.ends, |l.entries|) && Ordered(l.entries)
    ensures Fits64(l.handles[c]) && l.handles[c].size < MAX32
    ensures Starts(HandleBytes(l.handles[c]), 0, |HandleBytes(l.handles[c])|, HandleBytes(l.handles[c]))
    ensures BlockAt(t, file, l.handles[c], Coded(l.entries[Begin(l.ends, c)..l.ends[c]]))
    ensures InKeyOrder(Coded(l.entries[Begin(l.ends, c)..l.ends[c]]), InternalLess)
  {
    hide StoredAt, BlockOf, InternalLess, InKeyOrder, Separated, Filtered, Varint;
    assert DataAt(t, file, l.handles[c], l.entries, Begin(l.ends, c), l.ends[c]);
    EntriesInOrder(l.entries, Begin(l.ends, c), l.ends[c]);
  }

  /** When the filter says no, no entry of the block has the user key. */
  lemma FilterIsRight(table: Table, k: StoredKey, c: nat, first: nat)
    requires table.Good() && table.Safe() && table.filter != null && k.sequence <= MAX_SEQUENCE
    requires var l := table.layout;
      |l.ends| == |l.handles| && c < |l.ends| && FirstAt(l.entries, k, first) && Begin(l.ends, c) <= first &&
      (l.ends[c] <= first < |l.entries| ==> l.entries[first].key.user != k.user) &&
      var i := l.handles[c].offset / 2048;
      i < |table.filter.filters| && !Bloom.MayMatch(table.hash, UserOf(Encoded(k)), table.filter.filters[i])
    ensures first < |table.layout.entries| ==> table.layout.entries[first].key.user != k.user
  {
    hide BlockAt, BlockOf, StoredAt, Bloom.MayMatch, Separated, DataBlocks, Encoded, FirstAt;
    EncodedOrder(k, k);
    var l := table.layout;
    if first < |l.entries| && first < l.ends[c] {
      assert InFilter(table.hash, l.handles[c].offset, l.entries[first].key.user, l.filter.value.filters);
    }
  }

  lemma BlockDecides(es: seq<KV>, from: nat, to: nat, k: StoredKey, first: nat, d: nat, found: Option<(Bytes, Bytes)>)
    requires Ordered(es) && from <= to <= |es| && k.sequence <= MAX_SEQUENCE
    requires FirstAt(es, k, first) && from <= first && (to <= first < |es| ==> es[first].key.user != k.user)
    requires SeekIs(Coded(es[from..to]), InternalLess, Encoded(k), d)
    requires found == if d < to - from then Some(Coded(es[from..to])[d]) else None
    ensures Answers(es, k, found)
  {
    hide InternalLess, Encoded;
    var pairs := Coded(es[from..to]);
    if d < to - from {
      assert !InternalLess(pairs[d].0, Encoded(k));
      EncodedOrder(es[from + d].key, k);
      if d > 0 {
        assert InternalLess(pairs[d - 1].0, Encoded(k));
        EncodedOrder(es[from + d - 1].key, k);
      }
      assert first == from + d;
    } else if to > from {
      assert InternalLess(pairs[d - 1].0, Encoded(k));
      EncodedOrder(es[to - 1].key, k);
      assert to <= first;
    }
    assert AnswerIs(es, k, found, first);
  }

  // ----- Opening a table -----

  lemma BytesLessTransitive()
    ensures forall a, b, c :: BytesLess(a, b) && BytesLess(b, c) ==> BytesLess(a, c)
    ensures forall a :: !BytesLess(a, a)
  {
    forall a, b, c | BytesLess(a, b) && BytesLess(b, c)
      ensures BytesLess(a, c)
    {
      RankIsOrder(a, b);
      RankIsOrder(b, c);
      RankIsOrder(a, c);
    }
    forall a
      ensures !BytesLess(a, a)
    {
      RankIsOrder(a, a);
    }
  }

  lemma HandleStarts(h: Handle)
    ensures Starts(HandleBytes(h), 0, |HandleBytes(h)|, HandleBytes(h))
  {
    hide Varint;
  }

  /** The filter block, in any file: the metaindex and the block can be read, and the metaindex has a handle under the key. */
  function FilterBlockIn(t: Crc.Tables, file: Bytes, meta: Handle, name: Bytes, paranoid: bool): Option<Bytes> {
    if !MayRead(t, file, meta, paranoid) then None
    else
      var found := SoughtIn(file[meta.offset..meta.offset + meta.size], BytesLess, FilterKey(name)).found;
      if found.None? || found.value.0 != FilterKey(name) then None
      else
        var h := ReadHandle(found.value.1, 0);
        if h.Some? && MayRead(t, file, h.value.0, paranoid) then
          Some(file[h.value.0.offset..h.value.0.offset + h.value.0.size])
        else None
  }

  ghost predicate HasFilter(filter: FilterBlockReader?, block: Option<Bytes>) {
    (filter == null <==> block == None) && (filter != null ==> filter.data == block.value && filter.Opened())
  }

  /** ReadMeta and ReadFilter: the filter, if the table has one of this policy. Errors are passed over. */
  method ReadMeta(t: Crc.Tables, file: Bytes, meta: Handle, name: Bytes, hash: Bytes -> nat, paranoid: bool,
      ghost l: Layout)
    returns (filter: FilterBlockReader?)
    ensures filter != null ==> filter.Safe() && filter.hash == hash
    ensures HasFilter(filter, FilterBlockIn(t, file, meta, name, paranoid))
    ensures IsTable(t, file, l, name, hash) && Small(file, l) && meta == l.meta ==>
      (filter != null <==> l.filter.Some?) &&
      (filter != null ==> filter.Good() && filter.filters == l.filter.value.filters)
  {
    hide BlockAt, BlockOf, StoredAt, DataBlocks, Separated, Filtered, InKeyOrder, SeekIs, BytesLess, Cuts, Ordered,
      FilterBlockBytes, FilterKey, HandleBytes, FooterBytes, Starts, SoughtIn, ReadHandle, Sealed, FilterBlockReader.Opened;
    ghost var good := IsTable(t, file, l, name, hash) && Small(file, l) && meta == l.meta;
    if good {
      MetaInOrder(l, name);
      MetaStored(t, file, l, name, hash);
    }
    var ok, contents, found, h, q, block;
    ghost var c;
    ok, contents := ReadBlock(t, file, meta, paranoid, BlockContents(file, meta));
    if !ok {
      return null;
    }
    var key := FilterKey(name);
    ok, found, c := SeekIn(contents, BytesLess, key, if good then MetaPairs(l.filter, name) else []);
    if good {
      MetaSeek(l, name, c, found);
    }
    if found.None? || found.value.0 != key {
      return null;
    }
    ghost var h0 := if good then l.filter.value.handle else Handle(0, 0);
    HandleStarts(h0);
    ok, h, q := DecodeHandle(found.value.1, 0, h0);
    if !ok {
      return null;
    }
    ok, block := ReadBlock(t, file, h, paranoid, if good then FilterBlockBytes(l.filter.value.filters) else []);
    if !ok {
      return null;
    }
    filter := new FilterBlockReader(hash, block, if good then l.filter.value.filters else []);
    if good {
      FilterSize(t, file, l, name, hash);
    }
  }

  ghost function BlockContents(file: Bytes, h: Handle): Bytes {
    if h.offset + h.size <= |file| then file[h.offset..h.offset + h.size] else []
  }

  lemma MetaInOrder(l: Layout, name: Bytes)
    ensures InKeyOrder(MetaPairs(l.filter, name), BytesLess)
  {
    hide HandleBytes, FilterKey;
    BytesLessTransitive();
  }

  lemma MetaStored(t: Crc.Tables, file: Bytes, l: Layout, name: Bytes, hash: Bytes -> nat)
    requires IsTable(t, file, l, name, hash) && Small(file, l)
    ensures StoredAt(t, file, l.meta, BlockContents(file, l.meta)) && |BlockContents(file, l.meta)| < MAX32
    ensures BlockOf(BlockContents(file, l.meta), MetaPairs(l.filter, name))
    ensures l.filter.Some? ==> Fits64(l.filter.value.handle)
  {
    hide BlockOf, DataBlocks, Separated, Filtered, Cuts, Ordered, MetaPairs, FilterBlockBytes, FooterBytes;
    hide TrailerBytes;
  }

  /** The only key of the metaindex is the one looked for. */
  lemma MetaSeek(l: Layout, name: Bytes, c: nat, found: Option<(Bytes, Bytes)>)
    requires SeekIs(MetaPairs(l.filter, name), BytesLess, FilterKey(name), c)
    requires found == if c < |MetaPairs(l.filter, name)| then Some(MetaPairs(l.filter, name)[c]) else None
    ensures found.Some? <==> l.filter.Some?
    ensures found.Some? ==> found.value == (FilterKey(name), HandleBytes(l.filter.value.handle))
  {
    hide HandleBytes, FilterKey;
    BytesLessTransitive();
    var key := FilterKey(name);
    if l.filter.Some? {
      assert MetaPairs(l.filter, name)[0].0 == key && !BytesLess(key, key);
      assert c == 0;
    }
  }

  lemma FilterSize(t: Crc.Tables, file: Bytes, l: Layout, name: Bytes, hash: Bytes -> nat)
    requires IsTable(t, file, l, name, hash) && Small(file, l) && l.filter.Some?
    ensures |FilterBlockBytes(l.filter.value.filters)| < MAX32
  {
    hide BlockOf, DataBlocks, Separated, Filtered, Cuts, Ordered, MetaPairs, FilterBlockBytes, FooterBytes;
    hide TrailerBytes;
  }

  /** Such a file is opened as a table: it ends with a footer, and its index block can be read. */
  ghost predicate Opens(t: Crc.Tables, file: Bytes, paranoid: bool) {
    |file| >= FOOTER && ReadFooter(file[|file| - FOOTER..]).Some? &&
    MayRead(t, file, ReadFooter(file[|file| - FOOTER..]).value.1, paranoid)
  }

  /** What it is opened as. */
  ghost predicate OpenedAs(table: Table, t: Crc.Tables, file: Bytes, name: Bytes, hash: Bytes -> nat, hasPolicy: bool,
                           paranoid: bool)
    requires Opens(t, file, paranoid)
  {
    var footer := ReadFooter(file[|file| - FOOTER..]).value;
    table.crc == t && table.file == file && table.hash == hash &&
    table.indexData == file[footer.1.offset..footer.1.offset + footer.1.size] &&
    HasFilter(table.filter, if hasPolicy then FilterBlockIn(t, file, footer.0, name, paranoid) else None)
  }

  /** Table::Open, on any file. */
  method Open(t: Crc.Tables, file: Bytes, name: Bytes, hash: Bytes -> nat, hasPolicy: bool, paranoid: bool,
      ghost l: Layout)
    returns (table: Table?)
    ensures table != null <==> Opens(t, file, paranoid)
    ensures table != null ==> table.Safe() && OpenedAs(table, t, file, name, hash, hasPolicy, paranoid)
    ensures IsTable(t, file, l, name, hash) && Small(file, l) ==> table != null && table.Good() && table.layout == l
  {
    hide BlockAt, BlockOf, StoredAt, DataBlocks, Separated, Filtered, Cuts, Ordered, FilterBlockBytes, FooterBytes,
      MetaPairs, ReadFooter, Sealed, FilterBlockIn;
    ghost var good := IsTable(t, file, l, name, hash) && Small(file, l);
    var ok, meta, index, indexData;
    if |file| < FOOTER {
      return null;
    }
    if good {
      IndexStored(t, file, l, name, hash);
    }
    ok, meta, index := DecodeFooter(file[|file| - FOOTER..], l.meta, l.index);
    if !ok {
      return null;
    }
    ok, indexData := ReadBlock(t, file, index, paranoid, BlockContents(file, index));
    if !ok {
      return null;
    }
    var filter := null;
    if hasPolicy {
      filter := ReadMeta(t, file, meta, name, hash, paranoid, l);
    }
    table := new Table(t, file, hash, indexData, filter, l, name);
  }

  lemma IndexStored(t: Crc.Tables, file: Bytes, l: Layout, name: Bytes, hash: Bytes -> nat)
    requires IsTable(t, file, l, name, hash) && Small(file, l)
    ensures StoredAt(t, file, l.index, BlockContents(file, l.index)) && |BlockContents(file, l.index)| < MAX32
    ensures BlockOf(BlockContents(file, l.index), IndexPairs(l.seps, l.handles))
    ensures Fits64(l.meta) && Fits64(l.index)
  {
    hide BlockOf, DataBlocks, Separated, Filtered, Cuts, Ordered, MetaPairs, FilterBlockBytes, FooterBytes;
    hide TrailerBytes;
  }
}
