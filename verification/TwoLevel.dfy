/** The two-level iterator (table/two_level_iterator.cc): one cursor over the blocks an index points at, for the data
    blocks of a table and for the files of a sorted level. */
module TwoLevel {
  import opened Entries
  import opened Files
  import opened Iterators
  import opened Encodings

  // ----- The blocks one after the other -----

  function Flat(blocks: seq<seq<Entry>>): seq<Entry> {
    if blocks == [] then [] else Flat(blocks[..|blocks| - 1]) + blocks[|blocks| - 1]
  }

  function Start(blocks: seq<seq<Entry>>, i: nat): nat
    requires i <= |blocks|
  {
    |Flat(blocks[..i])|
  }

  lemma {:induction false} FlatAt(blocks: seq<seq<Entry>>, i: nat)
    requires i < |blocks|
    ensures Start(blocks, i + 1) == Start(blocks, i) + |blocks[i]| <= |Flat(blocks)|
    ensures forall j | 0 <= j < |blocks[i]| :: Flat(blocks)[Start(blocks, i) + j] == blocks[i][j]
  {
    var init := blocks[..|blocks| - 1];
    if i < |init| {
      FlatAt(init, i);
      assert init[..i] == blocks[..i] && init[..i + 1] == blocks[..i + 1];
    } else {
      assert blocks[..i + 1] == blocks;
    }
  }

  lemma Ends(blocks: seq<seq<Entry>>)
    ensures Start(blocks, 0) == 0 && Start(blocks, |blocks|) == |Flat(blocks)|
  {
    assert blocks[..|blocks|] == blocks;
  }

  lemma {:induction false} Whose(blocks: seq<seq<Entry>>, n: nat) returns (i: nat, j: nat)
    requires n < |Flat(blocks)|
    ensures i < |blocks| && j < |blocks[i]| && n == Start(blocks, i) + j && Flat(blocks)[n] == blocks[i][j]
  {
    var init := blocks[..|blocks| - 1];
    if n < |Flat(init)| {
      i, j := Whose(init, n);
      assert init[..i] == blocks[..i];
    } else {
      i, j := |init|, n - |Flat(init)|;
    }
  }

  lemma {:induction false} StartGrows(blocks: seq<seq<Entry>>, a: nat, b: nat)
    requires a <= b <= |blocks|
    ensures Start(blocks, a) <= Start(blocks, b)
  {
    if a < b {
      StartGrows(blocks, a, b - 1);
      FlatAt(blocks, b - 1);
    }
  }

  // ----- The index -----

  function Opened(index: seq<Entry>, open: Bytes -> seq<Entry>): (r: seq<seq<Entry>>)
    ensures |r| == |index|
  {
    seq(|index|, i requires 0 <= i < |index| => open(index[i].value))
  }

  /** Each block is in order, and its index key is at or after it and before all later blocks. */
  ghost predicate Indexed(index: seq<Entry>, open: Bytes -> seq<Entry>) {
    Sorted(index) &&
    (forall i | 0 <= i < |index| :: Sorted(open(index[i].value)) && Below(open(index[i].value), index[i].key)) &&
    forall i, k | 0 <= i < k < |index| :: Above(open(index[k].value), index[i].key)
  }

  ghost predicate Below(es: seq<Entry>, key: IKey) {
    forall e | e in es :: AtMost(e.key, key)
  }

  ghost predicate Above(es: seq<Entry>, key: IKey) {
    forall e | e in es :: Less(key, e.key)
  }

  /** Position n is the first at or after the target. */
  ghost predicate FirstFrom(es: seq<Entry>, target: IKey, n: nat) {
    n <= |es| && (forall m | 0 <= m < n :: Less(es[m].key, target)) && forall m | n <= m < |es| :: !Less(es[m].key, target)
  }

  /** The index leads to the block, and the search in the block to its position. */
  lemma SeekSplits(index: seq<Entry>, open: Bytes -> seq<Entry>, target: IKey, i: nat, j: nat)
    requires Indexed(index, open) && i < |index| && !Less(index[i].key, target)
    requires forall k | 0 <= k < i :: Less(index[k].key, target)
    requires j <= |open(index[i].value)|
    requires forall m | 0 <= m < j :: Less(open(index[i].value)[m].key, target)
    requires j < |open(index[i].value)| ==> !Less(open(index[i].value)[j].key, target)
    ensures FirstFrom(Flat(Opened(index, open)), target, Start(Opened(index, open), i) + j)
  {
    hide Less, Indexed, Flat, Start;
    var blocks := Opened(index, open);
    var all, n := Flat(blocks), Start(blocks, i) + j;
    FlatAt(blocks, i);
    forall m | 0 <= m < |all|
      ensures Less(all[m].key, target) <==> m < n
    {
      var a, b := Whose(blocks, m);
      SeekSide(index, open, target, i, j, a, b);
      if a < i {
        StartGrows(blocks, a + 1, i);
        FlatAt(blocks, a);
      } else if a > i {
        StartGrows(blocks, i + 1, a);
      }
    }
  }

  /** Entry b of block a is before the target just when it is before the place found. */
  lemma SeekSide(index: seq<Entry>, open: Bytes -> seq<Entry>, target: IKey, i: nat, j: nat, a: nat, b: nat)
    requires Indexed(index, open) && i < |index| && !Less(index[i].key, target)
    requires forall k | 0 <= k < i :: Less(index[k].key, target)
    requires j <= |open(index[i].value)|
    requires forall m | 0 <= m < j :: Less(open(index[i].value)[m].key, target)
    requires j < |open(index[i].value)| ==> !Less(open(index[i].value)[j].key, target)
    requires a < |index| && b < |open(index[a].value)|
    ensures Less(open(index[a].value)[b].key, target) <==> a < i || (a == i && b < j)
  {
    hide Less;
    var block := open(index[a].value);
    assert block[b] in block;
    if a < i {
      assert Below(block, index[a].key);
      AtMostLess(block[b].key, index[a].key, target);
    } else if a > i {
      assert Above(block, index[i].key);
      NotLessLess(target, index[i].key, block[b].key);
    } else if b > j {
      assert Sorted(block);
      NotLessLess(target, block[j].key, block[b].key);
    }
  }

  lemma AtMostLess(a: IKey, b: IKey, c: IKey)
    requires AtMost(a, b) && Less(b, c)
    ensures Less(a, c)
  {
  }

  lemma NotLessLess(a: IKey, b: IKey, c: IKey)
    requires !Less(b, a) && Less(b, c)
    ensures !Less(c, a)
  {
    LessIsTotalOrder(b, c, a);
  }

  /** Past all index keys there is nothing at or after the target. */
  lemma SeekPast(index: seq<Entry>, open: Bytes -> seq<Entry>, target: IKey)
    requires Indexed(index, open) && forall k | 0 <= k < |index| :: Less(index[k].key, target)
    ensures FirstFrom(Flat(Opened(index, open)), target, |Flat(Opened(index, open))|)
  {
    hide Less;
    var blocks := Opened(index, open);
    forall m | 0 <= m < |Flat(blocks)|
      ensures Less(Flat(blocks)[m].key, target)
    {
      var a, b := Whose(blocks, m);
      assert Flat(blocks)[m] in blocks[a] && Below(open(index[a].value), index[a].key);
      AtMostLess(Flat(blocks)[m].key, index[a].key, target);
    }
  }

  // ----- Sorted levels -----

  /** LevelFileNumIterator: the largest key of a file, with its number and size as the handle. */
  function LevelIndex(files: seq<File>): (r: seq<Entry>)
    ensures |r| == |files|
  {
    seq(|files|, i requires 0 <= i < |files| => Entry(files[i].largest, Little(files[i].number, 8) + Little(files[i].size, 8)))
  }

  /** MAIN: the files of a sorted level are indexed by their largest keys, and the cursor runs over the level. */
  lemma LevelIsIndexed(files: seq<File>, open: Bytes -> seq<Entry>)
    requires ValidFiles(files) && SortedFiles(files)
    requires forall i | 0 <= i < |files| :: open(LevelIndex(files)[i].value) == files[i].entries
    ensures Indexed(LevelIndex(files), open) && Flat(Opened(LevelIndex(files), open)) == Concat(files)
  {
    hide Less, Above, Below, ValidFile, Little, Flat, Sorted;
    var index := LevelIndex(files);
    forall i, j | 0 <= i < j < |index|
      ensures Less(index[i].key, index[j].key) && Above(open(index[j].value), index[i].key)
    {
      FileAfter(files[i], files[j]);
    }
    forall i | 0 <= i < |index|
      ensures Sorted(open(index[i].value)) && Below(open(index[i].value), index[i].key)
    {
      FileWithin(files[i]);
    }
    KeysSorted(index);
    LevelFlat(files, open);
  }

  lemma KeysSorted(index: seq<Entry>)
    requires forall i, j | 0 <= i < j < |index| :: Less(index[i].key, index[j].key)
    ensures Sorted(index)
  {
  }

  lemma FileWithin(f: File)
    requires ValidFile(f)
    ensures Sorted(f.entries) && Below(f.entries, f.largest)
  {
    forall e | e in f.entries
      ensures AtMost(e.key, f.largest)
    {
      FileBounds(f, e);
    }
  }

  lemma FileAfter(f: File, g: File)
    requires ValidFile(f) && ValidFile(g) && Less(f.largest, g.smallest)
    ensures Less(f.largest, g.largest) && Above(g.entries, f.largest)
  {
    forall e | e in g.entries
      ensures Less(f.largest, e.key)
    {
      FileBounds(g, e);
      LessIsTotalOrder(f.largest, g.smallest, e.key);
    }
    assert g.entries[|g.entries| - 1] in g.entries;
  }

  lemma {:induction false} LevelFlat(files: seq<File>, open: Bytes -> seq<Entry>)
    requires forall i | 0 <= i < |files| :: open(LevelIndex(files)[i].value) == files[i].entries
    ensures Flat(Opened(LevelIndex(files), open)) == Concat(files)
  {
    if files != [] {
      var init := files[..|files| - 1];
      assert LevelIndex(init) == LevelIndex(files)[..|init|];
      LevelFlat(init, open);
      assert Opened(LevelIndex(init), open) == Opened(LevelIndex(files), open)[..|init|];
    }
  }

  // ----- The iterator -----

  class TwoLevelIterator {
    const index: RunIterator
    const open: Bytes -> seq<Entry>
    var data: RunIterator?
    var dataBlockHandle: Bytes

    ghost function Repr(): set<object>
      reads this
    {
      {this, index} + if data == null then {} else {data}
    }

    ghost function Blocks(): (r: seq<seq<Entry>>)
      ensures |r| == |index.entries|
    {
      Opened(index.entries, open)
    }

    /** All entries, in order. */
    ghost function All(): seq<Entry> {
      Flat(Blocks())
    }

    ghost predicate Ok()
      reads Repr()
    {
      index.Ok() && Indexed(index.entries, open) &&
      (data != null ==>
         data != index && data.Ok() && data.entries == open(dataBlockHandle) && index.Valid() &&
         dataBlockHandle == index.Current().value)
    }

    predicate Valid()
      reads this, data
    {
      data != null && data.Valid()
    }

    /** The cursor's position among all entries; past them all when it is nowhere. */
    ghost function Position(): nat
      requires Ok()
      reads Repr()
    {
      if Valid() then Start(Blocks(), index.at.value) + data.at.value else |All()|
    }

    constructor (index: RunIterator, open: Bytes -> seq<Entry>)
      requires index.Ok() && Indexed(index.entries, open)
      ensures Ok() && !Valid() && this.index == index && this.open == open && data == null
    {
      this.index, this.open, data, dataBlockHandle := index, open, null, [];
    }

    /** What the cursor shows is the entry at its position. */
    lemma ShowsPosition()
      requires Ok() && Valid()
      ensures Position() < |All()| && All()[Position()] == data.Current()
    {
      FlatAt(Blocks(), index.at.value);
      assert Blocks()[index.at.value][data.at.value] == data.Current();
    }

    /** InitDataBlock: the block the index stands on, opened anew unless it is open already. */
    method InitDataBlock()
      requires index.Ok() && Indexed(index.entries, open)
      requires data != null ==> data != index && data.Ok() && data.entries == open(dataBlockHandle)
      modifies `data, `dataBlockHandle
      ensures Ok() && (data != null <==> index.Valid()) && (data == null || data == old(data) || fresh(data))
    {
      if !index.Valid() {
        data := null;
      } else {
        var handle := index.Current().value;
        if data != null && handle == dataBlockHandle {
        } else {
          var block := open(handle);
          assert Sorted(block);
          var it := new RunIterator(block);
          dataBlockHandle := handle;
          data := it;
        }
      }
    }

    /** From the end of the current block to the next entry there is. */
    method SkipEmptyDataBlocksForward()
      requires Ok() && (data != null <==> index.Valid())
      modifies Repr()
      ensures Ok() && fresh(Repr() - old(Repr()))
      ensures old(Valid()) ==> Valid() && Position() == old(Position())
      ensures !old(Valid()) && !old(index.Valid()) ==> !Valid()
      ensures !old(Valid()) && old(index.Valid()) ==> Position() == old(Start(Blocks(), index.at.value + 1))
    {
      hide Flat, Indexed;
      ghost var blocks := Blocks();
      ghost var at := if index.Valid() then index.at.value + 1 else |blocks|;
      Ends(blocks);
      while data == null || !data.Valid()
        invariant Ok() && fresh(Repr() - old(Repr())) && Blocks() == blocks
        invariant !old(Valid()) ==> at <= |blocks| && (index.Valid() <==> data != null)
        invariant !old(Valid()) && Valid() ==> Position() == Start(blocks, at)
        invariant !old(Valid()) && !Valid() && index.Valid() ==> Start(blocks, index.at.value + 1) == Start(blocks, at)
        invariant !old(Valid()) && !index.Valid() ==> Start(blocks, at) == |All()|
        invariant old(Valid()) ==> Valid() && Position() == old(Position())
        invariant !old(index.Valid()) ==> !index.Valid()
        decreases index.Valid(), if index.Valid() then |blocks| - index.at.value else 0, Valid()
      {
        if !index.Valid() {
          data := null;
          return;
        }
        index.Next();
        InitDataBlock();
        if data != null {
          data.SeekToFirst();
          FlatAt(blocks, index.at.value);
        }
      }
    }

    /** The same, backwards. */
    method SkipEmptyDataBlocksBackward()
      requires Ok() && (data != null <==> index.Valid())
      modifies Repr()
      ensures Ok() && fresh(Repr() - old(Repr()))
      ensures old(Valid()) ==> Valid() && Position() == old(Position())
      ensures !old(Valid()) && !old(index.Valid()) ==> !Valid()
      ensures !old(Valid()) && old(index.Valid()) ==>
        Steps(old(Start(Blocks(), index.at.value)))
    {
      hide Flat, Indexed;
      ghost var blocks := Blocks();
      ghost var at := if index.Valid() then index.at.value else 0;
      Ends(blocks);
      while data == null || !data.Valid()
        invariant Ok() && fresh(Repr() - old(Repr())) && Blocks() == blocks && at <= |blocks|
        invariant !old(Valid()) ==> (index.Valid() <==> data != null)
        invariant !old(Valid()) && Valid() ==> Position() + 1 == Start(blocks, at)
        invariant !old(Valid()) && !Valid() && index.Valid() ==> Start(blocks, index.at.value) == Start(blocks, at)
        invariant !old(Valid()) && !index.Valid() && old(index.Valid()) ==> Start(blocks, at) == 0
        invariant old(Valid()) ==> Valid() && Position() == old(Position())
        invariant !old(index.Valid()) ==> !index.Valid()
        decreases index.Valid(), if index.Valid() then index.at.value else 0, Valid()
      {
        if !index.Valid() {
          data := null;
          return;
        }
        index.Prev();
        InitDataBlock();
        if data != null {
          data.SeekToLast();
          FlatAt(blocks, index.at.value);
        }
      }
    }

    /** The cursor is just before position n, if there is such an entry. */
    ghost predicate Steps(n: nat)
      requires Ok()
      reads Repr()
    {
      (Valid() <==> n > 0) && (n > 0 ==> Position() + 1 == n)
    }

    /** MAIN: the first entry at or after the target, in whichever block it is. */
    method Seek(target: IKey)
      requires Ok()
      modifies Repr()
      ensures Ok() && fresh(Repr() - old(Repr()))
      ensures FirstFrom(All(), target, Position())
    {
      hide Flat, Indexed, Start, FirstFrom, Less;
      ghost var blocks := Blocks();
      index.Seek(target);
      InitDataBlock();
      if data != null {
        data.Seek(target);
        ghost var i, j := index.at.value, if data.Valid() then data.at.value else |data.entries|;
        SeekSplits(index.entries, open, target, i, j);
        FlatAt(blocks, i);
      } else {
        SeekPast(index.entries, open, target);
      }
      SkipEmptyDataBlocksForward();
    }

    method SeekToFirst()
      requires Ok()
      modifies Repr()
      ensures Ok() && fresh(Repr() - old(Repr()))
      ensures Position() == 0 && (Valid() <==> All() != [])
    {
      hide Flat, Indexed, Start;
      ghost var blocks := Blocks();
      Ends(blocks);
      index.SeekToFirst();
      InitDataBlock();
      if data != null {
        data.SeekToFirst();
        FlatAt(blocks, 0);
      }
      SkipEmptyDataBlocksForward();
      PlaceIs();
    }

    method SeekToLast()
      requires Ok()
      modifies Repr()
      ensures Ok() && fresh(Repr() - old(Repr()))
      ensures Steps(|All()|)
    {
      hide Flat, Indexed, Start;
      ghost var blocks := Blocks();
      Ends(blocks);
      index.SeekToLast();
      InitDataBlock();
      if data != null {
        data.SeekToLast();
        FlatAt(blocks, |blocks| - 1);
      }
      SkipEmptyDataBlocksBackward();
      PlaceIs();
    }

    /** MAIN: one entry on, over any empty blocks. */
    method Next()
      requires Ok() && Valid()
      modifies Repr()
      ensures Ok() && fresh(Repr() - old(Repr()))
      ensures Position() == old(Position()) + 1 && (Valid() <==> Position() < |All()|)
    {
      hide Flat, Indexed, Start;
      FlatAt(Blocks(), index.at.value);
      data.Next();
      SkipEmptyDataBlocksForward();
      PlaceIs();
    }

    /** MAIN: one entry back. */
    method Prev()
      requires Ok() && Valid()
      modifies Repr()
      ensures Ok() && fresh(Repr() - old(Repr()))
      ensures Steps(old(Position()))
    {
      hide Flat, Indexed, Start;
      FlatAt(Blocks(), index.at.value);
      data.Prev();
      SkipEmptyDataBlocksBackward();
    }

    /** A valid cursor is inside. */
    lemma PlaceIs()
      requires Ok()
      ensures Valid() <==> Position() < |All()|
    {
      if Valid() {
        ShowsPosition();
      }
    }

    ghost function Standing(): Option<nat>
      requires Ok()
      reads Repr()
    {
      if Valid() then Some(Position()) else None
    }

    method Perform(call: Call<IKey>)
      requires Ok()
      modifies Repr()
      ensures Ok() && fresh(Repr() - old(Repr()))
      ensures CursorMoves(All(), old(Standing()), call, Standing())
    {
      hide Flat, Start, Indexed, Less;
      if Valid() {
        ShowsPosition();
      }
      match call {
        case First => SeekToFirst();
        case Last => SeekToLast();
        case To(target) => Seek(target);
        case Forth => if Valid() { Next(); }
        case Back => if Valid() { Prev(); }
      }
      if Valid() {
        ShowsPosition();
      }
    }
  }

  // ----- Whole runs -----

  /** MAIN: under every sequence of calls, in both directions, a two-level iterator shows what the reference cursor in
      the concatenation of its blocks shows. */
  method Drive(index: RunIterator, open: Bytes -> seq<Entry>, calls: seq<Call<IKey>>)
    returns (seen: seq<Option<Entry>>, ghost path: seq<Option<nat>>)
    requires index.Ok() && Indexed(index.entries, open)
    modifies index
    ensures |seen| == |calls| && |path| == |calls| + 1 && path[0] == None
    ensures var all := Flat(Opened(index.entries, open));
      forall i | 0 <= i < |calls| ::
        CursorMoves(all, path[i], calls[i], path[i + 1]) && seen[i] == EntryAt(all, path[i + 1])
  {
    hide Flat, CursorMoves, Indexed, Start;
    var it := new TwoLevelIterator(index, open);
    ghost var all := it.All();
    seen, path := [], [None];
    for n := 0 to |calls|
      invariant it.Ok() && it.index == index && it.open == open && fresh(it.Repr() - {index})
      invariant |seen| == n && |path| == n + 1 && path[0] == None
      invariant path[n] == it.Standing()
      invariant forall i | 0 <= i < n :: CursorMoves(all, path[i], calls[i], path[i + 1]) && seen[i] == EntryAt(all, path[i + 1])
    {
      it.Perform(calls[n]);
      path := path + [it.Standing()];
      if it.Valid() {
        it.ShowsPosition();
        seen := seen + [Some(it.data.Current())];
      } else {
        seen := seen + [None];
      }
    }
  }
}
