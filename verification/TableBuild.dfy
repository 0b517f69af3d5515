/** Building a table file (table/table_builder.cc). */
module TableBuild {
  import opened Entries
  import opened Encodings
  import opened KeyOrder
  import opened Blocks
  import opened TableFormat
  import opened FilterBlocks
  import opened TableLayout
  import opened Tables
  import Bloom
  import Crc
  import Reads

  // ----- What is kept while building -----

  /** The keys of finished blocks are in the filter for their offset, those of the current block are waiting for
      the filter of the current offset. */
  ghost predicate Covered(groups: seq<seq<Bytes>>, waiting: seq<Bytes>, offset: nat, es: seq<KV>, ends: seq<nat>,
    handles: seq<Handle>)
  {
    Cuts(ends, |es|) && |handles| == |ends| && |groups| == offset / 2048 &&
    (forall i, j | 0 <= i < |ends| && Begin(ends, i) <= j < ends[i] ::
       Encoded(es[j].key) in KeysAt(groups, waiting, handles[i].offset / 2048)) &&
    forall j | Begin(ends, |ends|) <= j < |es| :: Encoded(es[j].key) in waiting
  }

  lemma CoveredAdd(groups: seq<seq<Bytes>>, waiting: seq<Bytes>, offset: nat, es: seq<KV>, ends: seq<nat>,
    handles: seq<Handle>, e: KV)
    requires Covered(groups, waiting, offset, es, ends, handles)
    ensures Covered(groups, waiting + [Encoded(e.key)], offset, es + [e], ends, handles)
  {
    hide Encoded;
    var es' := es + [e];
    forall i, j | 0 <= i < |ends| && Begin(ends, i) <= j < ends[i]
      ensures Encoded(es'[j].key) in KeysAt(groups, waiting + [Encoded(e.key)], handles[i].offset / 2048)
    {
      assert es'[j] == es[j];
    }
  }

  /** The current block is finished, at the offset the waiting keys are for. */
  lemma CoveredCut(groups: seq<seq<Bytes>>, waiting: seq<Bytes>, es: seq<KV>, ends: seq<nat>, handles: seq<Handle>,
    h: Handle, groups': seq<seq<Bytes>>, waiting': seq<Bytes>, offset': nat)
    requires Covered(groups, waiting, h.offset, es, ends, handles) && Begin(ends, |ends|) < |es|
    requires (forall i: nat :: KeysAt(groups', waiting', i) == KeysAt(groups, waiting, i)) && |groups'| == offset' / 2048
    ensures Covered(groups', waiting', offset', es, ends + [|es|], handles + [h])
  {
    hide Encoded, KeysAt;
    var ends', handles' := ends + [|es|], handles + [h];
    CutsExtend(ends, |es|);
    CurrentKeys(groups, waiting);
    forall i, j | 0 <= i < |ends'| && Begin(ends', i) <= j < ends'[i]
      ensures Encoded(es[j].key) in KeysAt(groups', waiting', handles'[i].offset / 2048)
    {
      assert KeysAt(groups', waiting', handles'[i].offset / 2048) == KeysAt(groups, waiting, handles'[i].offset / 2048);
      if i < |ends| {
        assert Begin(ends', i) == Begin(ends, i) && ends'[i] == ends[i];
      }
    }
  }

  lemma CurrentKeys(groups: seq<seq<Bytes>>, waiting: seq<Bytes>)
    ensures KeysAt(groups, waiting, |groups|) == waiting
  {
  }

  lemma CutsExtend(ends: seq<nat>, n: nat)
    requires Cuts(ends, n) && Begin(ends, |ends|) < n
    ensures Cuts(ends + [n], n)
  {
  }

  lemma CutsGrow(ends: seq<nat>, n: nat)
    requires Cuts(ends, n)
    ensures Cuts(ends, n + 1)
  {
  }

  /** The entries are in order; finished blocks are in the file, the others in the current block. */
  ghost predicate Body(t: Crc.Tables, file: Bytes, es: seq<KV>, ends: seq<nat>, handles: seq<Handle>,
      current: seq<(Bytes, Bytes)>) {
    Ordered(es) && Cuts(ends, |es|) && DataBlocks(t, file, es, ends, handles) &&
    current == Coded(es[Begin(ends, |ends|)..])
  }

  lemma OrderedAppend(es: seq<KV>, e: KV)
    requires Ordered(es) && e.key.sequence <= MAX_SEQUENCE
    requires es != [] ==> Less(KeyOf(es[|es| - 1].key), KeyOf(e.key))
    ensures Ordered(es + [e])
  {
    var es' := es + [e];
    forall i, j | 0 <= i < j < |es'|
      ensures Less(KeyOf(es'[i].key), KeyOf(es'[j].key))
    {
      if j == |es| {
        LessIsTotalOrder(KeyOf(es[i].key), KeyOf(es[|es| - 1].key), KeyOf(e.key));
      }
    }
  }

  lemma BodyAdd(t: Crc.Tables, file: Bytes, es: seq<KV>, ends: seq<nat>, handles: seq<Handle>, current: seq<(Bytes,
      Bytes)>, e: KV)
    requires Body(t, file, es, ends, handles, current) && e.key.sequence <= MAX_SEQUENCE
    requires es != [] ==> Less(KeyOf(es[|es| - 1].key), KeyOf(e.key))
    ensures Body(t, file, es + [e], ends, handles, current + [(Encoded(e.key), e.value)])
  {
    hide BlockAt, Ordered, Encoded, DataBlocks;
    OrderedAppend(es, e);
    DataKept(t, file, es, ends, handles, e);
    assert (es + [e])[Begin(ends, |ends|)..] == es[Begin(ends, |ends|)..] + [e];
  }

  lemma DataKept(t: Crc.Tables, file: Bytes, es: seq<KV>, ends: seq<nat>, handles: seq<Handle>, e: KV)
    requires Cuts(ends, |es|) && DataBlocks(t, file, es, ends, handles)
    ensures Cuts(ends, |es + [e]|) && DataBlocks(t, file, es + [e], ends, handles)
  {
    hide BlockAt, Coded;
    CutsGrow(ends, |es|);
    forall i | 0 <= i < |ends|
      ensures DataAt(t, file, handles[i], es + [e], Begin(ends, i), ends[i])
    {
      assert DataAt(t, file, handles[i], es, Begin(ends, i), ends[i]);
      assert (es + [e])[Begin(ends, i)..ends[i]] == es[Begin(ends, i)..ends[i]];
    }
  }

  lemma BlockStays(t: Crc.Tables, file: Bytes, more: Bytes, h: Handle, pairs: seq<(Bytes, Bytes)>)
    requires BlockAt(t, file, h, pairs)
    ensures BlockAt(t, file + more, h, pairs)
  {
    hide BlockOf;
    StoredStays(t, file, more, h, file[h.offset..h.offset + h.size]);
    assert (file + more)[h.offset..h.offset + h.size] == file[h.offset..h.offset + h.size];
  }

  lemma BlockNow(t: Crc.Tables, file: Bytes, contents: Bytes, pairs: seq<(Bytes, Bytes)>)
    requires BlockOf(contents, pairs)
    ensures BlockAt(t, file + (contents + TrailerBytes(t, contents)), Handle(|file|, |contents|), pairs)
  {
    hide BlockOf, TrailerBytes;
    StoredNow(t, file, contents);
    assert (file + (contents + TrailerBytes(t, contents)))[|file|..|file| + |contents|] == contents;
  }

  lemma DataStays(t: Crc.Tables, file: Bytes, more: Bytes, es: seq<KV>, ends: seq<nat>, handles: seq<Handle>)
    requires Cuts(ends, |es|) && DataBlocks(t, file, es, ends, handles)
    ensures DataBlocks(t, file + more, es, ends, handles)
  {
    hide BlockAt;
    forall i | 0 <= i < |ends|
      ensures DataAt(t, file + more, handles[i], es, Begin(ends, i), ends[i])
    {
      assert DataAt(t, file, handles[i], es, Begin(ends, i), ends[i]);
      BlockStays(t, file, more, handles[i], Coded(es[Begin(ends, i)..ends[i]]));
    }
  }

  lemma BodyCut(t: Crc.Tables, file: Bytes, contents: Bytes, es: seq<KV>, ends: seq<nat>, handles: seq<Handle>,
      current: seq<(Bytes, Bytes)>)
    requires Body(t, file, es, ends, handles, current) && current != [] && BlockOf(contents, current)
    ensures Begin(ends, |ends|) < |es|
    ensures Body(t, file + (contents + TrailerBytes(t, contents)), es, ends + [|es|], handles + [Handle(|file|, |contents|)], [])
  {
    hide BlockAt, BlockOf, TrailerBytes, Ordered, DataBlocks;
    var more := contents + TrailerBytes(t, contents);
    assert es[Begin(ends, |ends|)..] == es[Begin(ends, |ends|)..|es|];
    CutsExtend(ends, |es|);
    DataStays(t, file, more, es, ends, handles);
    BlockNow(t, file, contents, current);
    assert DataAt(t, file + more, Handle(|file|, |contents|), es, Begin(ends, |ends|), |es|);
    DataExtend(t, file + more, es, ends, handles, Handle(|file|, |contents|));
    assert es[|es|..] == [];
  }

  lemma DataExtend(t: Crc.Tables, file: Bytes, es: seq<KV>, ends: seq<nat>, handles: seq<Handle>, h: Handle)
    requires Cuts(ends, |es|) && DataBlocks(t, file, es, ends, handles) && Begin(ends, |ends|) < |es|
    requires DataAt(t, file, h, es, Begin(ends, |ends|), |es|)
    ensures Cuts(ends + [|es|], |es|) && DataBlocks(t, file, es, ends + [|es|], handles + [h])
  {
    hide DataAt;
    CutsExtend(ends, |es|);
    var ends', handles' := ends + [|es|], handles + [h];
    forall i | 0 <= i < |ends'|
      ensures DataAt(t, file, handles'[i], es, Begin(ends', i), ends'[i])
    {
      if i < |ends| {
        assert DataAt(t, file, handles[i], es, Begin(ends, i), ends[i]);
      }
    }
  }

  /** The index has an entry for each finished block, but for the last one while it is pending. */
  ghost predicate Index(es: seq<KV>, ends: seq<nat>, handles: seq<Handle>, seps: seq<StoredKey>,
      pending: Option<Handle>,
    pairs: seq<(Bytes, Bytes)>)
  {
    Cuts(ends, |es|) && |handles| == |ends| &&
    (pending.Some? ==> ends != [] && ends[|ends| - 1] == |es| && pending.value == handles[|handles| - 1]) &&
    |seps| == (if pending.Some? then |ends| - 1 else |ends|) &&
    Separated(es, ends, seps) && pairs == IndexPairs(seps, handles)
  }

  /** The separator is right, whatever entry may follow. */
  lemma IndexPut(es: seq<KV>, ends: seq<nat>, handles: seq<Handle>, seps: seq<StoredKey>, h: Handle,
      pairs: seq<(Bytes, Bytes)>, sep: StoredKey)
    requires Index(es, ends, handles, seps, Some(h), pairs) && es != [] && Separator(es, |es|, sep)
    ensures Index(es, ends, handles, seps + [sep], None, pairs + [(Encoded(sep), HandleBytes(h))])
  {
    hide Encoded, HandleBytes, Separator;
  }

  lemma IndexCut(es: seq<KV>, ends: seq<nat>, handles: seq<Handle>, seps: seq<StoredKey>, h: Handle,
      pairs: seq<(Bytes, Bytes)>)
    requires Index(es, ends, handles, seps, None, pairs) && Begin(ends, |ends|) < |es|
    ensures Index(es, ends + [|es|], handles + [h], seps, Some(h), pairs)
  {
    hide Encoded, HandleBytes, Separator;
    CutsExtend(ends, |es|);
    assert IndexPairs(seps, handles + [h]) == IndexPairs(seps, handles);
  }

  /** A new entry leaves the separators right, if the one after the last block is right for it. */
  lemma IndexAdd(es: seq<KV>, ends: seq<nat>, handles: seq<Handle>, seps: seq<StoredKey>, pairs: seq<(Bytes, Bytes)>,
      e: KV)
    requires Index(es, ends, handles, seps, None, pairs)
    requires ends != [] && ends[|ends| - 1] == |es| ==> Separator(es + [e], |es|, seps[|seps| - 1])
    ensures Index(es + [e], ends, handles, seps, None, pairs)
  {
    CutsGrow(ends, |es|);
    forall i | 0 <= i < |seps|
      ensures Separator(es + [e], ends[i], seps[i])
    {
      assert Separator(es, ends[i], seps[i]);
      assert i < |ends| - 1 ==> ends[i] < ends[|ends| - 1];
    }
  }

  /** The shortened key between the last block and the new entry. */
  lemma SeparatesLast(es: seq<KV>, e: KV, sep: StoredKey)
    requires es != [] && Ordered(es) && e.key.sequence <= MAX_SEQUENCE
    requires var last := es[|es| - 1].key;
      Less(KeyOf(last), KeyOf(e.key)) && AtMost(KeyOf(last), KeyOf(sep)) && Less(KeyOf(sep), KeyOf(e.key)) &&
      (sep != last ==> BytesLess(sep.user, e.key.user) && sep.sequence == MAX_SEQUENCE)
    ensures Separator(es, |es|, sep) && Separator(es + [e], |es|, sep)
  {
    assert (es + [e])[|es|] == e && (es + [e])[|es| - 1] == es[|es| - 1];
  }

  // ----- The builder -----

  class TableBuilder {
    const crc: Crc.Tables
    const name: Bytes
    const hash: Bytes -> nat
    const blockSize: nat
    const interval: nat
    const dataBlock: BlockBuilder
    const indexBlock: BlockBuilder
    const filterBlock: FilterBlockBuilder?
    var file: Bytes
    var offset: nat
    var lastKey: StoredKey
    var numEntries: nat
    var pendingIndexEntry: bool
    var pendingHandle: Handle
    var closed: bool
    ghost var entries: seq<KV>
    ghost var ends: seq<nat>
    ghost var handles: seq<Handle>
    ghost var seps: seq<StoredKey>

    ghost function Repr(): set<object> {
      {this, dataBlock, indexBlock} + if filterBlock != null then {filterBlock} else {}
    }

    ghost predicate Parts()
      reads Repr()
    {
      dataBlock != indexBlock && dataBlock.Ok() && indexBlock.Ok() &&
      interval >= 1 && dataBlock.interval >= 1 && indexBlock.interval >= 1 &&
      (filterBlock != null ==> filterBlock.Ok() && filterBlock.hash == hash)
    }

    ghost function Pending(): Option<Handle>
      reads this
    {
      if pendingIndexEntry then Some(pendingHandle) else None
    }

    /** Everything about the file, the index and the filter so far. */
    ghost predicate Core()
      reads Repr()
    {
      Parts() && offset == |file| && numEntries == |entries| &&
      Body(crc, file, entries, ends, handles, Pairs(dataBlock.items)) &&
      Index(entries, ends, handles, seps, Pending(), Pairs(indexBlock.items)) &&
      (filterBlock != null ==>
         Covered(filterBlock.groups, filterBlock.pending, offset, entries, ends, handles))
    }

    ghost predicate Ok()
      reads Repr()
    {
      Core() && !closed && (entries != [] ==> lastKey == entries[|entries| - 1].key) &&
      (pendingIndexEntry ==> dataBlock.items == []) &&
      (!pendingIndexEntry ==> (entries != [] <==> dataBlock.items != []))
    }

    constructor (crc: Crc.Tables, name: Bytes, hash: Bytes -> nat, bitsPerKey: Option<nat>, blockSize: nat,
        interval: nat)
      requires interval >= 1
      ensures Ok() && entries == [] && handles == [] && dataBlock.items == [] && fresh(Repr())
      ensures this.crc == crc && this.name == name && this.hash == hash && this.blockSize == blockSize
      ensures dataBlock.interval == interval && indexBlock.interval == 1
      ensures filterBlock != null <==> bitsPerKey.Some?
    {
      hide Body, Index, Covered, BlockBuilder.Ok, FilterBlockBuilder.Ok;
      NothingYet(crc);
      this.crc, this.name, this.hash, this.blockSize, this.interval := crc, name, hash, blockSize, interval;
      var data := new BlockBuilder(interval);
      var index := new BlockBuilder(1);
      var filter: FilterBlockBuilder? := null;
      if bitsPerKey.Some? {
        filter := new FilterBlockBuilder(hash, bitsPerKey.value);
        filter.StartBlock(0);
        assert KeysAt(filter.groups, filter.pending, 0) == [];
      }
      dataBlock, indexBlock, filterBlock := data, index, filter;
      file, offset, lastKey, numEntries := [], 0, StoredKey([], 0, Deletion), 0;
      pendingIndexEntry, pendingHandle, closed := false, Handle(0, 0), false;
      entries, ends, handles, seps := [], [], [], [];
    }

    /** WriteRawBlock. */
    method WriteRawBlock(contents: Bytes) returns (handle: Handle)
      requires offset == |file|
      modifies `file, `offset
      ensures handle == Handle(|old(file)|, |contents|) && offset == |file|
      ensures file == old(file) + (contents + TrailerBytes(crc, contents))
    {
      hide TrailerBytes;
      handle := Handle(offset, |contents|);
      file := file + (contents + TrailerBytes(crc, contents));
      offset := offset + |contents| + TRAILER;
    }

    /** WriteBlock, without compression. */
    method WriteBlock(block: BlockBuilder) returns (handle: Handle, ghost contents: Bytes)
      requires block.Ok() && block.interval >= 1 && offset == |file|
      modifies block, `file, `offset
      ensures block.Ok() && block.items == [] && BlockOf(contents, old(Pairs(block.items)))
      ensures handle == Handle(|old(file)|, |contents|) && offset == |file|
      ensures handle.size == old(block.CurrentSizeEstimate())
      ensures file == old(file) + (contents + TrailerBytes(crc, contents))
    {
      hide TrailerBytes, Chained, Restarts, BlockBytes, Pairs;
      var raw := block.Finish();
      assert Packs(block.items, block.starts, raw, Pairs(block.items));
      handle := WriteRawBlock(raw);
      contents := raw;
      block.Reset();
    }

    ghost predicate IndexOk()
      reads this, indexBlock
    {
      indexBlock.Ok() && indexBlock.interval >= 1 &&
      Index(entries, ends, handles, seps, Pending(), Pairs(indexBlock.items))
    }

    /** The index entry for the last finished block. */
    method PutIndexEntry(sep: StoredKey)
      requires IndexOk() && pendingIndexEntry && entries != [] && Separator(entries, |entries|, sep)
      modifies this`pendingIndexEntry, this`lastKey, this`seps, indexBlock
      ensures IndexOk() && !pendingIndexEntry && seps == old(seps) + [sep] && lastKey == sep
    {
      hide Body, Index, Covered, Encoded, HandleBytes, Separator, BlockBuilder.Ok, FilterBlockBuilder.Ok;
      IndexPut(entries, ends, handles, seps, pendingHandle, Pairs(indexBlock.items), sep);
      lastKey := sep;
      var handleEncoding := EncodeHandle(pendingHandle, []);
      assert handleEncoding == HandleBytes(pendingHandle);
      ghost var before := indexBlock.items;
      ghost var it := indexBlock.Add(Encoded(lastKey), handleEncoding);
      assert Pairs(indexBlock.items) == Pairs(before) + [(Encoded(sep), HandleBytes(pendingHandle))];
      pendingIndexEntry := false;
      seps := seps + [sep];
    }

    /** Flush: the current block goes to the file; its index entry waits for the next key. */
    method Flush()
      requires Ok()
      modifies this`file, this`offset, this`pendingIndexEntry, this`pendingHandle, this`ends, this`handles
      modifies dataBlock, filterBlock
      ensures Ok() && dataBlock.items == [] && (entries != [] ==> pendingIndexEntry)
      ensures if old(dataBlock.items) == [] then handles == old(handles)
        else handles == old(handles) + [pendingHandle] && pendingHandle.size == old(dataBlock.CurrentSizeEstimate())
    {
      hide Body, Index, Covered, BlockOf, TrailerBytes, BlockBuilder.Ok, FilterBlockBuilder.Ok;
      EmptyBuffer(dataBlock);
      if dataBlock.buffer == [] {
        return;
      }
      ghost var current, contents := Pairs(dataBlock.items), [];
      ghost var file0 := file;
      pendingHandle, contents := WriteBlock(dataBlock);
      BodyCut(crc, file0, contents, entries, ends, handles, current);
      IndexCut(entries, ends, handles, seps, pendingHandle, Pairs(indexBlock.items));
      pendingIndexEntry := true;
      assert Pairs(dataBlock.items) == [];
      if filterBlock != null {
        ghost var groups, waiting := filterBlock.groups, filterBlock.pending;
        CoveredCount(groups, waiting, |file0|, entries, ends, handles);
        filterBlock.StartBlock(offset);
        CoveredCut(groups, waiting, entries, ends, handles, pendingHandle, filterBlock.groups, filterBlock.pending, offset);
      }
      ends, handles := ends + [|entries|], handles + [pendingHandle];
    }

    /** The start of Add: the index entry of the last block, now that the next key is known. */
    method PrepareIndex(key: StoredKey, ghost e: KV)
      requires Ok() && e.key == key && key.sequence <= MAX_SEQUENCE
      requires entries != [] ==> Less(KeyOf(entries[|entries| - 1].key), KeyOf(key))
      modifies this`pendingIndexEntry, this`lastKey, this`seps, indexBlock
      ensures Core() && !pendingIndexEntry
      ensures Index(entries + [e], ends, handles, seps, None, Pairs(indexBlock.items))
    {
      hide Body, Index, Covered, Encoded, BlockBuilder.Ok, FilterBlockBuilder.Ok, Separator, Less;
      if pendingIndexEntry {
        PendingHasEntries(entries, ends, handles, seps, pendingHandle, Pairs(indexBlock.items));
        BodyOrdered(crc, file, entries, ends, handles, Pairs(dataBlock.items));
        var sep := InternalSeparator(lastKey, key);
        SeparatesLast(entries, e, sep);
        PutIndexEntry(sep);
        SeparatorThere(entries, ends, handles, seps, Pairs(indexBlock.items), e, sep);
      } else {
        BlockStarted(crc, file, entries, ends, handles, Pairs(dataBlock.items));
      }
      IndexAdd(entries, ends, handles, seps, Pairs(indexBlock.items), e);
    }

    /** The middle of Add: the entry goes to the filter and to the current block. */
    method AddToBlock(key: StoredKey, value: Bytes)
      requires Core() && !pendingIndexEntry && !closed && key.sequence <= MAX_SEQUENCE
      requires entries != [] ==> Less(KeyOf(entries[|entries| - 1].key), KeyOf(key))
      requires Index(entries + [KV(key, value)], ends, handles, seps, None, Pairs(indexBlock.items))
      modifies this`lastKey, this`numEntries, this`entries, dataBlock, filterBlock
      ensures Ok() && entries == old(entries) + [KV(key, value)] && dataBlock.items != []
    {
      hide Body, Index, Covered, Encoded, BlockBuilder.Ok, FilterBlockBuilder.Ok, Separator, Less;
      ghost var e := KV(key, value);
      BodyAdd(crc, file, entries, ends, handles, Pairs(dataBlock.items), e);
      if filterBlock != null {
        CoveredAdd(filterBlock.groups, filterBlock.pending, offset, entries, ends, handles, e);
        filterBlock.AddKey(Encoded(key));
      }
      lastKey, numEntries := key, numEntries + 1;
      ghost var before := dataBlock.items;
      ghost var it := dataBlock.Add(Encoded(key), value);
      assert Pairs(dataBlock.items) == Pairs(before) + [(Encoded(key), value)];
      entries := entries + [e];
    }

    /** Add: a block is finished if and only if it has reached its size with the entry. */
    method Add(key: StoredKey, value: Bytes)
      requires Ok() && key.sequence <= MAX_SEQUENCE
      requires entries != [] ==> Less(KeyOf(entries[|entries| - 1].key), KeyOf(key))
      modifies Repr()
      ensures Ok() && entries == old(entries) + [KV(key, value)] && numEntries == |entries|
      ensures if dataBlock.items == [] then handles == old(handles) + [pendingHandle] && pendingHandle.size >= blockSize
        else handles == old(handles) && dataBlock.CurrentSizeEstimate() < blockSize
    {
      hide Body, Index, Covered, Encoded, BlockBuilder.Ok, FilterBlockBuilder.Ok, Separator, Less, Pairs;
      PrepareIndex(key, KV(key, value));
      AddToBlock(key, value);
      if dataBlock.CurrentSizeEstimate() >= blockSize {
        Flush();
      }
    }

    /** The filter block, behind the last data block. */
    method FinishFilter() returns (handle: Handle, ghost filter: Option<FilterLayout>)
      requires Ok() && dataBlock.items == []
      modifies this`file, this`offset, this`closed, filterBlock
      ensures closed && offset == |file| && IndexOk()
      ensures Finished(crc, file, entries, ends, handles, filter, hash)
      ensures filter.Some? <==> filterBlock != null
      ensures filter.Some? ==> filter.value.handle == handle
    {
      hide Body, Index, Covered, TrailerBytes, BlockBuilder.Ok, FilterBlockBuilder.Ok, FilterBlockBytes, Filtered,
        StoredAt;
      closed := true;
      assert Pairs(dataBlock.items) == [];
      BodyDone(crc, file, entries, ends, handles, hash);
      handle, filter := Handle(0, 0), None;
      if filterBlock != null {
        ghost var groups, waiting := filterBlock.groups, filterBlock.pending;
        var block := filterBlock.Finish();
        CoveredCount(groups, waiting, offset, entries, ends, handles);
        CoveredDone(groups, waiting, filterBlock.groups, filterBlock.pending, offset, entries, ends, handles);
        AllFiltered(filterBlock, entries, ends, handles);
        ghost var file0 := file;
        handle := WriteRawBlock(block);
        StoredNow(crc, file0, block);
        filter := Some(FilterLayout(handle, filterBlock.filters));
        FinishedStays(crc, file0, block + TrailerBytes(crc, block), entries, ends, handles, None, hash);
      }
    }

    /** The metaindex block. */
    method FinishMeta(filterHandle: Handle, ghost filter: Option<FilterLayout>) returns (handle: Handle)
      requires offset == |file| && interval >= 1 && Finished(crc, file, entries, ends, handles, filter, hash)
      requires filter.Some? <==> filterBlock != null
      requires filter.Some? ==> filter.value.handle == filterHandle
      modifies this`file, this`offset
      ensures offset == |file| && Finished(crc, file, entries, ends, handles, filter, hash)
      ensures BlockAt(crc, file, handle, MetaPairs(filter, name))
    {
      hide Finished, BlockAt, BlockOf, TrailerBytes, BlockBuilder.Ok, HandleBytes, FilterKey;
      var metaBlock := new BlockBuilder(interval);
      if filterBlock != null {
        var handleEncoding := EncodeHandle(filterHandle, []);
        assert handleEncoding == HandleBytes(filterHandle);
        ghost var it := metaBlock.Add(FilterKey(name), handleEncoding);
      }
      assert Pairs(metaBlock.items) == MetaPairs(filter, name);
      ghost var file0, contents := file, [];
      handle, contents := WriteBlock(metaBlock);
      BlockNow(crc, file0, contents, MetaPairs(filter, name));
      FinishedStays(crc, file0, contents + TrailerBytes(crc, contents), entries, ends, handles, filter, hash);
    }

    /** The index block, with the entry for the last data block. */
    method FinishIndex() returns (handle: Handle, ghost contents: Bytes)
      requires offset == |file| && IndexOk() && (entries != [] ==> pendingIndexEntry)
      requires Ordered(entries) && (entries != [] ==> lastKey == entries[|entries| - 1].key)
      modifies this`file, this`offset, this`pendingIndexEntry, this`lastKey, this`seps, indexBlock
      ensures offset == |file| && file == old(file) + (contents + TrailerBytes(crc, contents))
      ensures |handles| == |ends| == |seps| && Cuts(ends, |entries|) && Separated(entries, ends, seps)
      ensures BlockAt(crc, file, handle, IndexPairs(seps, handles))
    {
      hide BlockAt, BlockOf, TrailerBytes, BlockBuilder.Ok, Separator, Less, HandleBytes, Encoded;
      if pendingIndexEntry {
        var sep := InternalSuccessor(lastKey);
        LastSeparator(entries, sep);
        PutIndexEntry(sep);
      }
      handle, contents := WriteBlock(indexBlock);
      BlockNow(crc, old(file), contents, IndexPairs(seps, handles));
    }

    /** Finish: what is left of the blocks, the filter, both indexes and the footer. */
    method Finish() returns (ghost l: Layout)
      requires Ok()
      modifies Repr()
      ensures closed && l.entries == entries == old(entries) && (l.filter.Some? <==> filterBlock != null)
      ensures offset == |file| && old(handles) <= l.handles
      ensures |l.handles| == |old(handles)| + if old(dataBlock.items) == [] then 0 else 1
      ensures IsTable(crc, file, l, name, hash)
    {
      hide Body, Index, Covered, TrailerBytes, BlockBuilder.Ok, FilterBlockBuilder.Ok, BlockAt, Separated, Finished,
        FooterBytes, IsTable, DataBlocks;
      var filterHandle, meta, index;
      ghost var filter, contents;
      Flush();
      filterHandle, filter := FinishFilter();
      FinishedOrdered(crc, file, entries, ends, handles, filter, hash);
      meta := FinishMeta(filterHandle, filter);
      ghost var file0 := file;
      index, contents := FinishIndex();
      FinishedStays(crc, file0, contents + TrailerBytes(crc, contents), entries, ends, handles, filter, hash);
      BlockStays(crc, file0, contents + TrailerBytes(crc, contents), meta, MetaPairs(filter, name));
      l := Layout(entries, ends, handles, seps, meta, index, filter);
      FooterCompletes(crc, file, l, name, hash);
      var footer := EncodeFooter(meta, index);
      file := file + footer;
      offset := offset + |footer|;
    }
  }

  lemma NothingYet(t: Crc.Tables)
    ensures Body(t, [], [], [], [], []) && Index([], [], [], [], None, []) && Covered([], [], 0, [], [], [])
    ensures Pairs([]) == []
  {
    hide BlockAt, Encoded;
  }

  lemma EmptyBuffer(block: BlockBuilder)
    requires block.Ok()
    ensures block.buffer == [] <==> block.items == []
    ensures block.items == [] <==> Pairs(block.items) == []
  {
    hide ItemBytes, Chained, Restarts;
    ChainFits(block.items);
  }

  lemma CoveredCount(groups: seq<seq<Bytes>>, waiting: seq<Bytes>, offset: nat, es: seq<KV>, ends: seq<nat>,
      handles: seq<Handle>)
    requires Covered(groups, waiting, offset, es, ends, handles)
    ensures |groups| == offset / 2048
    ensures forall later: nat | later >= offset :: later / 2048 >= |groups|
  {
  }

  lemma PendingHasEntries(es: seq<KV>, ends: seq<nat>, handles: seq<Handle>, seps: seq<StoredKey>, h: Handle,
      pairs: seq<(Bytes, Bytes)>)
    requires Index(es, ends, handles, seps, Some(h), pairs)
    ensures es != []
  {
  }

  lemma BodyOrdered(t: Crc.Tables, file: Bytes, es: seq<KV>, ends: seq<nat>, handles: seq<Handle>,
      current: seq<(Bytes, Bytes)>)
    requires Body(t, file, es, ends, handles, current)
    ensures Ordered(es)
  {
  }

  /** The separator just put is the one after the last block. */
  lemma SeparatorThere(es: seq<KV>, ends: seq<nat>, handles: seq<Handle>, seps: seq<StoredKey>, pairs: seq<(Bytes,
      Bytes)>, e: KV, sep: StoredKey)
    requires Index(es, ends, handles, seps, None, pairs) && seps != [] && seps[|seps| - 1] == sep
    requires Separator(es + [e], |es|, sep)
    ensures ends != [] && ends[|ends| - 1] == |es| ==> Separator(es + [e], |es|, seps[|seps| - 1])
  {
  }

  lemma BlockStarted(t: Crc.Tables, file: Bytes, es: seq<KV>, ends: seq<nat>, handles: seq<Handle>,
      current: seq<(Bytes, Bytes)>)
    requires Body(t, file, es, ends, handles, current) && (es != [] <==> current != [])
    ensures Begin(ends, |ends|) < |es| || ends == []
  {
  }

  // ----- The end of the file -----

  lemma LastSeparator(es: seq<KV>, sep: StoredKey)
    requires es != [] && Ordered(es)
    requires var last := es[|es| - 1].key;
      AtMost(KeyOf(last), KeyOf(sep)) && (sep != last ==> sep.sequence == MAX_SEQUENCE)
    ensures Separator(es, |es|, sep)
  {
  }

  /** All entries are in data blocks of the file, and the filter, if any, is behind them. */
  ghost predicate Finished(t: Crc.Tables, file: Bytes, es: seq<KV>, ends: seq<nat>, handles: seq<Handle>,
    filter: Option<FilterLayout>, hash: Bytes -> nat)
  {
    Ordered(es) && Cuts(ends, |es|) && |handles| == |ends| && Begin(ends, |ends|) == |es| &&
    DataBlocks(t, file, es, ends, handles) &&
    (filter.Some? ==>
       StoredAt(t, file, filter.value.handle, FilterBlockBytes(filter.value.filters)) &&
       Filtered(hash, es, ends, handles, filter.value.filters))
  }

  lemma FinishedOrdered(t: Crc.Tables, file: Bytes, es: seq<KV>, ends: seq<nat>, handles: seq<Handle>,
    filter: Option<FilterLayout>, hash: Bytes -> nat)
    requires Finished(t, file, es, ends, handles, filter, hash)
    ensures Ordered(es)
  {
  }

  lemma FinishedStays(t: Crc.Tables, file: Bytes, more: Bytes, es: seq<KV>, ends: seq<nat>, handles: seq<Handle>,
    filter: Option<FilterLayout>, hash: Bytes -> nat)
    requires Finished(t, file, es, ends, handles, filter, hash)
    ensures Finished(t, file + more, es, ends, handles, filter, hash)
  {
    hide StoredAt, Ordered, DataBlocks, FilterBlockBytes, Cuts, Filtered;
    DataStays(t, file, more, es, ends, handles);
    if filter.Some? {
      StoredStays(t, file, more, filter.value.handle, FilterBlockBytes(filter.value.filters));
    }
  }

  lemma BodyDone(t: Crc.Tables, file: Bytes, es: seq<KV>, ends: seq<nat>, handles: seq<Handle>, hash: Bytes -> nat)
    requires Body(t, file, es, ends, handles, [])
    ensures Finished(t, file, es, ends, handles, None, hash)
  {
    hide DataAt;
  }

  /** With the footer the file is a table. */
  lemma FooterCompletes(t: Crc.Tables, file: Bytes, l: Layout, name: Bytes, hash: Bytes -> nat)
    requires Finished(t, file, l.entries, l.ends, l.handles, l.filter, hash)
    requires |l.seps| == |l.ends| == |l.handles| && Cuts(l.ends, |l.entries|) && Separated(l.entries, l.ends, l.seps)
    requires BlockAt(t, file, l.index, IndexPairs(l.seps, l.handles)) && BlockAt(t, file, l.meta, MetaPairs(l.filter, name))
    ensures IsTable(t, file + FooterBytes(l.meta, l.index), l, name, hash)
  {
    hide BlockAt, StoredAt, Ordered, Separated, DataBlocks, FilterBlockBytes, Cuts, FooterBytes, Filtered;
    var footer := FooterBytes(l.meta, l.index);
    FinishedStays(t, file, footer, l.entries, l.ends, l.handles, l.filter, hash);
    BlockStays(t, file, footer, l.index, IndexPairs(l.seps, l.handles));
    BlockStays(t, file, footer, l.meta, MetaPairs(l.filter, name));
    assert (file + footer)[|file|..] == footer;
  }

  lemma CoveredDone(groups: seq<seq<Bytes>>, waiting: seq<Bytes>, groups': seq<seq<Bytes>>, waiting': seq<Bytes>,
    offset: nat, es: seq<KV>, ends: seq<nat>, handles: seq<Handle>)
    requires Covered(groups, waiting, offset, es, ends, handles)
    requires forall i: nat :: KeysAt(groups', waiting', i) == KeysAt(groups, waiting, i)
    ensures AllCovered(groups', waiting', es, ends, handles)
  {
    hide Encoded, KeysAt;
  }

  ghost predicate AllCovered(groups: seq<seq<Bytes>>, waiting: seq<Bytes>, es: seq<KV>, ends: seq<nat>,
      handles: seq<Handle>) {
    Cuts(ends, |es|) && |handles| == |ends| &&
    forall i, j | 0 <= i < |ends| && Begin(ends, i) <= j < ends[i] ::
      Encoded(es[j].key) in KeysAt(groups, waiting, handles[i].offset / 2048)
  }

  /** When all filters are made, every key is in its filter. */
  lemma AllFiltered(builder: FilterBlockBuilder, es: seq<KV>, ends: seq<nat>, handles: seq<Handle>)
    requires builder.Ok() && builder.pending == [] && Ordered(es)
    requires AllCovered(builder.groups, builder.pending, es, ends, handles)
    ensures Filtered(builder.hash, es, ends, handles, builder.filters)
  {
    hide Encoded, Bloom.MayMatch, FilterBlockBuilder.Ok;
    forall i, j | 0 <= i < |ends| && Begin(ends, i) <= j < ends[i]
      ensures InFilter(builder.hash, handles[i].offset, es[j].key.user, builder.filters)
    {
      var key := es[j].key;
      MatchesOwnKey(builder, handles[i].offset / 2048, Encoded(key));
      EncodedOrder(key, key);
    }
  }

  // ----- From entries to a read -----

  function AsEntries(es: seq<KV>): (r: seq<Entry>)
    ensures |r| == |es|
  {
    seq(|es|, i requires 0 <= i < |es| => Entry(KeyOf(es[i].key), es[i].value))
  }

  /** ParseInternalKey accepts the key: eight bytes of tag, and a kind there is. */
  predicate Parses(key: Bytes) {
    |key| >= 8 && TagOf(key) % 256 <= 1
  }

  /** The parts of an internal key, as ParseInternalKey finds them. */
  function Parsed(key: Bytes): IKey {
    IKey(Rank(UserOf(key)), TagOf(key) / 256, if TagOf(key) % 256 == 1 then Value else Deletion)
  }

  lemma ParsedEncoded(k: StoredKey)
    requires k.sequence <= MAX_SEQUENCE
    ensures Parsed(Encoded(k)) == KeyOf(k) && UserOf(Encoded(k)) == k.user && Parses(Encoded(k))
  {
    hide Encoded, TagOf, UserOf, Rank;
    EncodedParts(k);
    TagParts(KeyOf(k));
  }

  lemma TagParts(k: IKey)
    ensures Tag(k) / 256 == k.sequence && Tag(k) % 256 == (if k.kind == Value then 1 else 0)
  {
  }

  /** TableCache::Get with SaveValue: the entry counts if it has the user key looked for. */
  method Get(table: Table, user: Bytes, s: nat, verify: bool) returns (ok: bool, hit: Option<Entry>)
    requires table.Safe() && s <= MAX_SEQUENCE
    ensures var r := table.Lookup(Encoded(StoredKey(user, s, Value)), verify);
      ok == (!r.corrupt && (r.found.Some? ==> Parses(r.found.value.0))) &&
      (ok ==> hit == if r.found.Some? && UserOf(r.found.value.0) == user then
                       Some(Entry(Parsed(r.found.value.0), r.found.value.1))
                     else None)
    ensures var S := Elements(AsEntries(table.layout.entries));
      table.Good() ==>
        ok && (hit.Some? ==> IsNewest(S, Rank(user), s, hit.value)) &&
        (hit.None? ==> Reads.NothingVisible(S, Rank(user), s))
  {
    hide IsTable, Small, Encoded, TagOf, UserOf, Parsed, Table.Lookup;
    var k, found := StoredKey(user, s, Value), None;
    ok, found := table.InternalGet(k, verify);
    hit := None;
    if table.Good() {
      TableParts(table.crc, table.file, table.layout, table.name, table.hash);
      AnswerDecides(table.layout.entries, k, found);
    }
    if ok && found.Some? {
      var key := found.value.0;
      if !Parses(key) {
        return false, None;
      }
      if UserOf(key) == user {
        hit := Some(Entry(Parsed(key), found.value.1));
      }
    }
  }

  /** What an answer says about the newest entry visible to the lookup. */
  lemma AnswerDecides(es: seq<KV>, k: StoredKey, found: Option<(Bytes, Bytes)>)
    requires Ordered(es) && k.sequence <= MAX_SEQUENCE && k.kind == Value && Answers(es, k, found)
    ensures found.Some? ==> Parses(found.value.0)
    ensures found.Some? && UserOf(found.value.0) == k.user ==>
      IsNewest(Elements(AsEntries(es)), Rank(k.user), k.sequence, Entry(Parsed(found.value.0), found.value.1))
    ensures !(found.Some? && UserOf(found.value.0) == k.user) ==>
      Reads.NothingVisible(Elements(AsEntries(es)), Rank(k.user), k.sequence)
  {
    hide Encoded, TagOf, UserOf, Parsed, Less;
    var c: nat :| FirstAt(es, k, c) && AnswerIs(es, k, found, c);
    var all := AsEntries(es);
    assert Sorted(all);
    Reads.SeekFindsNewest(all, c, Rank(k.user), k.sequence);
    if c < |es| {
      RankIsOrder(es[c].key.user, k.user);
      ParsedEncoded(es[c].key);
    }
  }

  lemma ShortIsSmall(t: Crc.Tables, file: Bytes, l: Layout, name: Bytes, hash: Bytes -> nat)
    requires IsTable(t, file, l, name, hash) && |file| < MAX32
    ensures Small(file, l)
  {
    hide Ordered, Separated, BlockOf, FilterBlockBytes, Filtered, TrailerBytes, FooterBytes, Coded;
    forall i | 0 <= i < |l.handles|
      ensures l.handles[i].size < MAX32
    {
      assert DataAt(t, file, l.handles[i], l.entries, Begin(l.ends, i), l.ends[i]);
    }
  }

  /** MAIN: a table built from entries in order, opened again with or without its filter, gives every read the
      newest entry visible to it. */
  method BuildAndGet(crc: Crc.Tables, name: Bytes, hash: Bytes -> nat, bitsPerKey: Option<nat>, blockSize: nat,
      interval: nat,
    entries: seq<KV>, hasPolicy: bool, paranoid: bool, verify: bool, user: Bytes, s: nat)
    returns (file: Bytes, ghost l: Layout, ok: bool, hit: Option<Entry>)
    requires interval >= 1 && Ordered(entries) && s <= MAX_SEQUENCE
    ensures Small(file, l) || |file| < MAX32 ==>
      ok && (hit.Some? ==> IsNewest(Elements(AsEntries(entries)), Rank(user), s, hit.value)) &&
      (hit.None? ==> Reads.NothingVisible(Elements(AsEntries(entries)), Rank(user), s))
    ensures l.entries == entries && IsTable(crc, file, l, name, hash) && (l.filter.Some? <==> bitsPerKey.Some?)
    ensures forall i | 0 <= i < |l.handles| - 1 :: l.handles[i].size >= blockSize
  {
    hide IsTable, Small, Less, TableBuilder.Ok, Reads.NothingVisible;
    var builder := new TableBuilder(crc, name, hash, bitsPerKey, blockSize, interval);
    for i := 0 to |entries|
      invariant builder.Ok() && fresh(builder.Repr()) && builder.entries == entries[..i]
      invariant forall h | h in builder.handles :: h.size >= blockSize
    {
      builder.Add(entries[i].key, entries[i].value);
    }
    assert entries[..|entries|] == entries;
    l := builder.Finish();
    file := builder.file;
    ok, hit := false, None;
    if |file| < MAX32 {
      ShortIsSmall(crc, file, l, name, hash);
    }
    var table := Open(crc, file, name, hash, hasPolicy, paranoid, l);
    if table != null {
      ok, hit := Get(table, user, s, verify);
    }
  }
}
