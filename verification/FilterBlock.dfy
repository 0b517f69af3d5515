/** The filter block of a table (table/filter_block.cc): one filter for each 2 KiB of block offsets, with
    InternalFilterPolicy (db/dbformat.cc) over the Bloom policy. */
module FilterBlocks {
  import opened Entries
  import opened Encodings
  import opened Coding
  import opened KeyOrder
  import Bloom

  const FILTER_BASE_LG: nat := 11

  // ----- The format -----

  /** Strings one after the other. */
  function Flat(parts: seq<Bytes>): Bytes {
    if parts == [] then [] else Flat(parts[..|parts| - 1]) + parts[|parts| - 1]
  }

  lemma FlatAppend(parts: seq<Bytes>, part: Bytes)
    ensures Flat(parts + [part]) == Flat(parts) + part
  {
    assert (parts + [part])[..|parts|] == parts;
  }

  /** Part i lies between the offsets where it starts and the next one does. */
  lemma {:induction false} FlatAt(parts: seq<Bytes>, i: nat)
    requires i < |parts|
    ensures |Flat(parts[..i])| <= |Flat(parts[..i + 1])| <= |Flat(parts)|
    ensures Flat(parts)[|Flat(parts[..i])|..|Flat(parts[..i + 1])|] == parts[i]
  {
    var init := parts[..|parts| - 1];
    if i < |parts| - 1 {
      FlatAt(init, i);
      assert init[..i] == parts[..i] && init[..i + 1] == parts[..i + 1];
    } else {
      assert parts[..i + 1] == parts;
    }
  }

  ghost function Begins(parts: seq<Bytes>): (r: seq<nat>)
    ensures |r| == |parts|
  {
    seq(|parts|, i requires 0 <= i < |parts| => |Flat(parts[..i])|)
  }

  lemma BeginsAppend(parts: seq<Bytes>, part: Bytes)
    ensures Begins(parts + [part]) == Begins(parts) + [|Flat(parts)|]
  {
    assert (parts + [part])[..|parts|] == parts;
    assert forall i | 0 <= i < |parts| :: (parts + [part])[..i] == parts[..i];
  }

  ghost function FilterBlockBytes(filters: seq<Bytes>): Bytes {
    Flat(filters) + Words(Begins(filters)) + Little(|Flat(filters)|, 4) + [FILTER_BASE_LG as Byte]
  }

  // ----- The policy -----

  function UserKeys(keys: seq<Bytes>): (r: seq<Bytes>)
    ensures |r| == |keys|
  {
    seq(|keys|, i requires 0 <= i < |keys| => UserOf(keys[i]))
  }

  /** A filter made of these keys; no filter at all for no keys. */
  ghost predicate FilterOf(hash: Bytes -> nat, bitsPerKey: nat, keys: seq<Bytes>, filter: Bytes) {
    if keys == [] then filter == []
    else Bloom.IsFilter(hash, UserKeys(keys), Bloom.Probes(bitsPerKey), filter)
  }

  // ----- The builder -----

  /** The keys for filter i: those of a finished filter, or the ones waiting for the next. */
  ghost function KeysAt(groups: seq<seq<Bytes>>, pending: seq<Bytes>, i: nat): seq<Bytes> {
    if i < |groups| then groups[i] else if i == |groups| then pending else []
  }

  class FilterBlockBuilder {
    const hash: Bytes -> nat
    const bitsPerKey: nat
    var keys: Bytes
    var start: seq<nat>
    var result: Bytes
    var filterOffsets: seq<nat>
    ghost var pending: seq<Bytes>
    ghost var groups: seq<seq<Bytes>>
    ghost var filters: seq<Bytes>

    ghost predicate Ok()
      reads this
    {
      keys == Flat(pending) && start == Begins(pending) &&
      result == Flat(filters) && filterOffsets == Begins(filters) && |groups| == |filters| &&
      forall i | 0 <= i < |filters| :: FilterOf(hash, bitsPerKey, groups[i], filters[i])
    }

    constructor (hash: Bytes -> nat, bitsPerKey: nat)
      ensures Ok() && groups == [] && pending == [] && this.hash == hash && this.bitsPerKey == bitsPerKey
    {
      this.hash, this.bitsPerKey, keys, start, result, filterOffsets := hash, bitsPerKey, [], [], [], [];
      pending, groups, filters := [], [], [];
    }

    /** The filters up to this block's offset are done. */
    method StartBlock(blockOffset: nat)
      requires Ok() && blockOffset / 2048 >= |groups|
      modifies this
      ensures Ok() && |groups| == blockOffset / 2048
      ensures forall i: nat :: KeysAt(groups, pending, i) == old(KeysAt(groups, pending, i))
    {
      hide FilterOf, Flat;
      var filterIndex := blockOffset / 2048;
      while filterIndex > |filterOffsets|
        invariant Ok() && |filterOffsets| <= filterIndex
        invariant forall i: nat :: KeysAt(groups, pending, i) == old(KeysAt(groups, pending, i))
      {
        GenerateFilter();
      }
    }

    method AddKey(key: Bytes)
      requires Ok()
      modifies this
      ensures Ok() && groups == old(groups) && pending == old(pending) + [key]
    {
      FlatAppend(pending, key);
      BeginsAppend(pending, key);
      start := start + [|keys|];
      keys := keys + key;
      pending := pending + [key];
    }

    method GenerateFilter()
      requires Ok()
      modifies this
      ensures Ok() && groups == old(groups) + [old(pending)] && pending == []
      ensures forall i: nat :: KeysAt(groups, pending, i) == old(KeysAt(groups, pending, i))
    {
      hide Bloom.IsFilter, Flat;
      var numKeys := |start|;
      var tmpKeys: seq<Bytes> := [];
      ghost var made: Bytes := [];
      if numKeys == 0 {
        filterOffsets := filterOffsets + [|result|];
        FlatNothing();
        assert result + made == result;
      } else {
        start := start + [|keys|];
        tmpKeys := Unflatten(keys, start, pending);
        filterOffsets := filterOffsets + [|result|];
        ghost var before := result;
        result := Bloom.CreateFilter(hash, bitsPerKey, tmpKeys, result);
        made := result[|before|..];
        keys, start := [], [];
        FlatNothing();
      }
      FlatAppend(filters, made);
      BeginsAppend(filters, made);
      filters, groups, pending := filters + [made], groups + [pending], [];
    }

    method Finish() returns (block: Bytes)
      requires Ok()
      modifies this
      ensures Ok() && block == FilterBlockBytes(filters) && pending == []
      ensures groups == old(groups) + if old(pending) == [] then [] else [old(pending)]
      ensures forall i: nat :: KeysAt(groups, pending, i) == old(KeysAt(groups, pending, i))
    {
      hide Flat, Little, Words, FilterOf;
      if start != [] {
        GenerateFilter();
      }
      var arrayOffset := |result|;
      var words := PutWords(filterOffsets);
      block := result + words + Little(arrayOffset, 4) + [FILTER_BASE_LG as Byte];
    }
  }

  lemma FlatNothing()
    ensures Flat([]) == [] && Begins([]) == []
  {
  }

  /** The user keys back out of the flattened keys. */
  method Unflatten(keys: Bytes, start: seq<nat>, ghost parts: seq<Bytes>) returns (r: seq<Bytes>)
    requires keys == Flat(parts) && start == Begins(parts) + [|keys|]
    ensures r == UserKeys(parts)
  {
    r := [];
    for i := 0 to |start| - 1
      invariant |r| == i && forall j | 0 <= j < i :: r[j] == UserOf(parts[j])
    {
      FlatAt(parts, i);
      assert i + 1 == |parts| ==> parts[..i + 1] == parts;
      r := r + [UserOf(keys[start[i]..start[i + 1]])];
    }
  }

  // ----- The reader -----

  class FilterBlockReader {
    const hash: Bytes -> nat
    const data: Bytes
    const offset: nat
    const num: nat
    const baseLg: nat
    ghost const filters: seq<Bytes>

    /** The contents are what a builder finished. */
    ghost predicate Good() {
      data == FilterBlockBytes(filters) && |data| < MAX32 && offset == |Flat(filters)| && num == |filters| &&
      baseLg == FILTER_BASE_LG
    }

    ghost predicate Safe() {
      num > 0 ==> offset + 4 * num + 5 <= |data|
    }

    /** What any bytes are opened as: the last byte is the base, the word before it where the offsets start. */
    ghost predicate Opened() {
      var n := |data|;
      if n < 5 || LittleOf(data[n - 5..n - 1]) > n - 5 then num == 0
      else
        offset == LittleOf(data[n - 5..n - 1]) && num == (n - 5 - offset) / 4 && baseLg == data[n - 1] as nat
    }

    /** What the filter for the block at this offset says of the key, in any bytes: there is none for it, or its bounds are
        in no order or outside, and then the key may match; an empty one matches nothing. */
    ghost predicate Says(blockOffset: nat, key: Bytes)
      requires Safe()
    {
      PowerOf11();
      var index := blockOffset / Bloom.Pow2(baseLg);
      if index >= num then true
      else
        WordsInside(index, offset, num, |data|);
        var start := LittleOf(data[offset + index * 4..offset + index * 4 + 4]);
        var limit := LittleOf(data[offset + index * 4 + 4..offset + index * 4 + 8]);
        if start <= limit && limit <= offset then Bloom.MayMatch(hash, UserOf(key), data[start..limit]) else start != limit
    }

    constructor (hash: Bytes -> nat, contents: Bytes, ghost filters: seq<Bytes>)
      ensures Safe() && this.hash == hash && this.filters == filters && data == contents && Opened()
      ensures contents == FilterBlockBytes(filters) && |contents| < MAX32 ==> Good()
    {
      hide Flat, Little, Words;
      this.hash, this.filters, data := hash, filters, contents;
      var n := |contents|;
      offset, num, baseLg := 0, 0, 0;
      if contents == FilterBlockBytes(filters) && n < MAX32 {
        LastParts(contents, filters);
      }
      if n >= 5 {
        var lastWord := LittleOf(contents[n - 5..n - 1]);
        baseLg := contents[n - 1] as nat;
        if lastWord <= n - 5 {
          offset := lastWord;
          num := (n - 5 - lastWord) / 4;
        }
      }
    }

    /** Whether the block at this offset may hold the key. */
    method KeyMayMatch(blockOffset: nat, key: Bytes) returns (b: bool)
      requires Safe()
      ensures b == Says(blockOffset, key)
      ensures Good() && blockOffset / 2048 < |filters| ==>
        b == Bloom.MayMatch(hash, UserOf(key), filters[blockOffset / 2048])
      ensures Good() && blockOffset / 2048 >= |filters| ==> b
    {
      hide Flat, Little, Words, Bloom.MayMatch, Bloom.Pow2;
      var index := blockOffset / Bloom.Pow2(baseLg);
      PowerOf11();
      if index < num {
        WordsInside(index, offset, num, |data|);
        var start := LittleOf(data[offset + index * 4..offset + index * 4 + 4]);
        var limit := LittleOf(data[offset + index * 4 + 4..offset + index * 4 + 8]);
        if Good() {
          FilterAt(data, filters, index);
        }
        if start <= limit && limit <= offset {
          b := Bloom.KeyMayMatch(hash, UserOf(key), data[start..limit]);
          return b;
        } else if start == limit {
          return false;
        }
      }
      return true;
    }
  }

  lemma PowerOf11()
    ensures Bloom.Pow2(FILTER_BASE_LG) == 2048 && forall n: nat :: Bloom.Pow2(n) > 0
  {
    assert Bloom.Pow2(5) == 32;
    assert Bloom.Pow2(8) == 256;
  }

  lemma WordsInside(index: nat, offset: nat, num: nat, size: nat)
    requires index < num && offset + 4 * num + 5 <= size
    ensures offset + index * 4 + 8 <= size
  {
  }

  lemma LastParts(data: Bytes, filters: seq<Bytes>)
    requires data == FilterBlockBytes(filters) && |data| < MAX32
    ensures |data| == |Flat(filters)| + 4 * |filters| + 5 && data[|data| - 1] as nat == FILTER_BASE_LG
    ensures LittleOf(data[|data| - 5..|data| - 1]) == |Flat(filters)|
  {
    hide Flat, Little, Words, LittleOf;
    assert data[|data| - 5..|data| - 1] == Little(|Flat(filters)|, 4);
    Pow256Values();
    LittleRoundTrip(|Flat(filters)|, 4);
  }

  /** Word i and the word after it enclose filter i; the last one ends where the offsets start. */
  lemma FilterAt(data: Bytes, filters: seq<Bytes>, i: nat)
    requires data == FilterBlockBytes(filters) && |data| < MAX32 && i < |filters|
    ensures |Flat(filters)| + i * 4 + 8 <= |data|
    ensures var offset := |Flat(filters)|;
      var start := LittleOf(data[offset + i * 4..offset + i * 4 + 4]);
      var limit := LittleOf(data[offset + i * 4 + 4..offset + i * 4 + 8]);
      start <= limit <= offset && data[start..limit] == filters[i]
  {
    hide Flat, Little, Words, LittleOf;
    var offset := |Flat(filters)|;
    var words := Words(Begins(filters));
    assert data[offset..offset + |words|] == words;
    FlatAt(filters, i);
    assert data[..offset] == Flat(filters);
    StoredWord(data, filters, i);
    if i + 1 < |filters| {
      StoredWord(data, filters, i + 1);
    } else {
      LastParts(data, filters);
      assert filters[..i + 1] == filters;
    }
    var start, limit := |Flat(filters[..i])|, |Flat(filters[..i + 1])|;
    assert data[start..limit] == data[..offset][start..limit];
  }

  lemma StoredWord(data: Bytes, filters: seq<Bytes>, i: nat)
    requires data == FilterBlockBytes(filters) && |data| < MAX32 && i < |filters|
    ensures |Flat(filters)| + i * 4 + 4 <= |data|
    ensures LittleOf(data[|Flat(filters)| + i * 4..|Flat(filters)| + i * 4 + 4]) == |Flat(filters[..i])|
  {
    hide Flat, Little, Words, LittleOf;
    var offset, begins := |Flat(filters)|, Begins(filters);
    var words := Words(begins);
    WordAt(begins, i);
    assert data[offset..offset + |words|] == words;
    assert data[offset + i * 4..offset + i * 4 + 4] == words[4 * i..4 * i + 4];
    FlatAt(filters, i);
    Pow256Values();
    LittleRoundTrip(begins[i], 4);
  }

  /** MAIN: a key given to the builder for a block may match in that block's filter. */
  method BuildAndMatch(hash: Bytes -> nat, bitsPerKey: nat, blocks: seq<(nat, seq<Bytes>)>, at: nat, key: Bytes)
    returns (block: Bytes, b: bool)
    requires forall i, j | 0 <= i < j < |blocks| :: blocks[i].0 <= blocks[j].0
    requires at < |blocks| && key in blocks[at].1
    ensures |block| < MAX32 ==> b
  {
    hide FilterOf, FilterBlockBytes, Flat, Begins, FilterBlockBuilder.Ok;
    var builder := new FilterBlockBuilder(hash, bitsPerKey);
    for i := 0 to |blocks|
      invariant builder.Ok() && fresh(builder) && builder.hash == hash && builder.bitsPerKey == bitsPerKey
      invariant i < |blocks| ==> |builder.groups| <= blocks[i].0 / 2048
      invariant at < i ==> key in KeysAt(builder.groups, builder.pending, blocks[at].0 / 2048)
    {
      builder.StartBlock(blocks[i].0);
      AddKeys(builder, blocks[i].1);
      if i + 1 < |blocks| {
        SmallerOffset(blocks[i].0, blocks[i + 1].0);
      }
    }
    block := builder.Finish();
    var reader := new FilterBlockReader(hash, block, builder.filters);
    b := reader.KeyMayMatch(blocks[at].0, key);
    MatchesOwnKey(builder, blocks[at].0 / 2048, key);
  }

  /** The table's keys of one block. */
  method AddKeys(builder: FilterBlockBuilder, keys: seq<Bytes>)
    requires builder.Ok()
    modifies builder
    ensures builder.Ok() && builder.groups == old(builder.groups)
    ensures builder.pending == old(builder.pending) + keys
  {
    hide FilterOf, Flat, Begins;
    for j := 0 to |keys|
      invariant builder.Ok() && builder.groups == old(builder.groups) && builder.pending == old(builder.pending) + keys[..j]
    {
      builder.AddKey(keys[j]);
    }
  }

  lemma SmallerOffset(a: nat, b: nat)
    requires a <= b
    ensures a / 2048 <= b / 2048
  {
  }

  lemma MatchesOwnKey(builder: FilterBlockBuilder, i: nat, key: Bytes)
    requires builder.Ok() && builder.pending == [] && key in KeysAt(builder.groups, builder.pending, i)
    ensures i < |builder.filters| && Bloom.MayMatch(builder.hash, UserOf(key), builder.filters[i])
  {
    hide Bloom.MayMatch, Bloom.IsFilter;
    var keys := builder.groups[i];
    var k :| 0 <= k < |keys| && keys[k] == key;
    assert UserKeys(keys)[k] == UserOf(key);
    Bloom.NoFalseNegatives(builder.hash, UserKeys(keys), Bloom.Probes(builder.bitsPerKey), builder.filters[i], UserOf(key));
  }
}
