/** Blocks of sorted entries with shared key prefixes and restart points (table/block_builder.cc, table/block.cc). */
module Blocks {
  import opened Entries
  import opened Encodings
  import opened Coding

  // ----- The format -----

  /** An entry and how many bytes of its key it takes over from the key before. */
  datatype Item = Item(key: Bytes, value: Bytes, shared: nat)

  predicate Fits(it: Item) {
    it.shared <= |it.key|
  }

  function ItemBytes(it: Item): (r: Bytes)
    requires Fits(it)
    ensures |r| >= 3
  {
    Varint(it.shared) + Varint(|it.key| - it.shared) + Varint(|it.value|) + it.key[it.shared..] + it.value
  }

  /** Each item starts from the key before it. */
  predicate Chained(items: seq<Item>) {
    forall i | 0 <= i < |items| ::
      Fits(items[i]) && (i == 0 ==> items[i].shared == 0) &&
      (i > 0 ==> items[i].shared <= |items[i - 1].key| && items[i].key[..items[i].shared] == items[i - 1].key[..items[i].shared])
  }

  /** The bytes of the items from j on. */
  function Tail(items: seq<Item>, j: nat): Bytes
    requires j <= |items| && forall i | 0 <= i < |items| :: Fits(items[i])
    decreases |items| - j
  {
    if j == |items| then [] else ItemBytes(items[j]) + Tail(items, j + 1)
  }

  /** The offset of item j. */
  function Off(items: seq<Item>, j: nat): nat
    requires j <= |items| && forall i | 0 <= i < |items| :: Fits(items[i])
  {
    if j == 0 then 0 else Off(items, j - 1) + |ItemBytes(items[j - 1])|
  }

  function Offsets(items: seq<Item>, starts: seq<nat>): (r: seq<nat>)
    requires (forall i | 0 <= i < |items| :: Fits(items[i])) && forall k | 0 <= k < |starts| :: starts[k] <= |items|
    ensures |r| == |starts|
  {
    seq(|starts|, k requires 0 <= k < |starts| => Off(items, starts[k]))
  }

  /** Restart points: the first item, and later ones, which share nothing. */
  predicate Restarts(items: seq<Item>, starts: seq<nat>) {
    starts != [] && starts[0] == 0 && (forall k | 0 < k < |starts| :: starts[k - 1] < starts[k] < |items|) &&
    forall k | 0 <= k < |starts| && starts[k] < |items| :: items[starts[k]].shared == 0
  }

  function BlockBytes(items: seq<Item>, starts: seq<nat>): Bytes
    requires (forall i | 0 <= i < |items| :: Fits(items[i])) && forall k | 0 <= k < |starts| :: starts[k] <= |items|
  {
    Tail(items, 0) + Words(Offsets(items, starts)) + Little(|starts|, 4)
  }

  ghost predicate WellFormed(items: seq<Item>, starts: seq<nat>) {
    Chained(items) && Restarts(items, starts) && (forall k | 0 <= k < |starts| :: starts[k] <= |items|) &&
    |BlockBytes(items, starts)| < MAX32
  }

  // ----- The builder -----

  lemma {:induction false} TailAppend(items: seq<Item>, it: Item, j: nat)
    requires j <= |items| && Fits(it) && forall i | 0 <= i < |items| :: Fits(items[i])
    ensures Tail(items + [it], j) == Tail(items, j) + ItemBytes(it)
    decreases |items| - j
  {
    hide ItemBytes;
    if j < |items| {
      TailAppend(items, it, j + 1);
      assert (items + [it])[j] == items[j];
      assert ItemBytes(items[j]) + (Tail(items, j + 1) + ItemBytes(it)) == ItemBytes(items[j]) + Tail(items, j + 1) + ItemBytes(it);
    } else {
      assert Tail(items + [it], j + 1) == [];
    }
  }

  lemma {:induction false} OffAppend(items: seq<Item>, it: Item, j: nat)
    requires j <= |items| && Fits(it) && forall i | 0 <= i < |items| :: Fits(items[i])
    ensures Off(items + [it], j) == Off(items, j)
  {
    hide ItemBytes;
    if j > 0 {
      OffAppend(items, it, j - 1);
    }
  }

  lemma {:induction false} OffEnd(items: seq<Item>)
    requires forall i | 0 <= i < |items| :: Fits(items[i])
    ensures Off(items, |items|) == |Tail(items, 0)|
  {
    hide ItemBytes;
    if items != [] {
      var init, last := items[..|items| - 1], items[|items| - 1];
      assert items == init + [last];
      OffEnd(init);
      TailAppend(init, last, 0);
      OffAppend(init, last, |init|);
    }
  }

  /** What the builder keeps: a restart every `interval` items, `counter` items since the last one. */
  ghost predicate Built(items: seq<Item>, starts: seq<nat>, interval: nat, counter: nat) {
    Chained(items) && Restarts(items, starts) && (forall k | 0 <= k < |starts| :: starts[k] <= |items|) &&
    counter <= interval && |items| == starts[|starts| - 1] + counter &&
    forall k | 0 < k < |starts| :: starts[k] == starts[k - 1] + interval
  }

  predicate Follows(items: seq<Item>, it: Item) {
    Fits(it) &&
    if items == [] then it.shared == 0
    else
      var last := items[|items| - 1].key;
      it.shared <= |last| && it.key[..it.shared] == last[..it.shared]
  }

  lemma ChainAppend(items: seq<Item>, it: Item)
    requires Chained(items) && Follows(items, it)
    ensures Chained(items + [it])
  {
    var all := items + [it];
    assert forall i | 0 <= i < |items| :: all[i] == items[i];
  }

  lemma Rejoin(a: Bytes, b: Bytes, n: nat)
    requires n <= |a| && n <= |b| && a[..n] == b[..n]
    ensures a[..n] + b[n..] == b
  {
  }

  lemma ChainFits(items: seq<Item>)
    requires Chained(items)
    ensures forall i | 0 <= i < |items| :: Fits(items[i])
  {
  }

  lemma OffsetsAppend(items: seq<Item>, starts: seq<nat>, it: Item)
    requires (forall i | 0 <= i < |items| :: Fits(items[i])) && Fits(it) && forall k | 0 <= k < |starts| :: starts[k] <= |items|
    ensures Offsets(items + [it], starts) == Offsets(items, starts)
    ensures Offsets(items + [it], starts + [|items|]) == Offsets(items, starts) + [|Tail(items, 0)|]
  {
    hide ItemBytes, Tail, Off;
    OffEnd(items);
    forall k | 0 <= k <= |items|
      ensures Off(items + [it], k) == Off(items, k)
    {
      OffAppend(items, it, k);
    }
  }

  lemma BuiltOn(items: seq<Item>, starts: seq<nat>, interval: nat, counter: nat, it: Item)
    requires Built(items, starts, interval, counter) && Follows(items, it)
    ensures counter <= interval && (forall k | 0 <= k < |starts| :: starts[k] <= |items|) && Chained(items)
    ensures counter < interval ==> Built(items + [it], starts, interval, counter + 1)
    ensures counter == interval >= 1 && it.shared == 0 ==> Built(items + [it], starts + [|items|], interval, 1)
  {
    hide ItemBytes, Tail, Off, Chained, Restarts;
    ChainAppend(items, it);
    RestartsAppend(items, starts, it);
  }

  lemma RestartsAppend(items: seq<Item>, starts: seq<nat>, it: Item)
    requires Restarts(items, starts) && forall k | 0 <= k < |starts| :: starts[k] <= |items|
    ensures starts != [] && starts[0] == 0 && (|starts| > 1 ==> starts[|starts| - 1] < |items|)
    ensures (starts[|starts| - 1] < |items| || it.shared == 0 ==> Restarts(items + [it], starts))
    ensures starts[|starts| - 1] < |items| && it.shared == 0 ==> Restarts(items + [it], starts + [|items|])
  {
  }

  class BlockBuilder {
    const interval: nat
    var buffer: Bytes
    var restarts: seq<nat>
    var counter: nat
    var lastKey: Bytes
    ghost var items: seq<Item>
    ghost var starts: seq<nat>

    ghost predicate Ok()
      reads this
    {
      interval >= 1 && Built(items, starts, interval, counter) &&
      buffer == Tail(items, 0) && restarts == Offsets(items, starts) &&
      lastKey == if items == [] then [] else items[|items| - 1].key
    }

    constructor (interval: nat)
      requires interval >= 1
      ensures Ok() && items == [] && this.interval == interval
    {
      this.interval, buffer, restarts, counter, lastKey, items, starts := interval, [], [0], 0, [], [], [0];
    }

    /** Ready for the next block. */
    method Reset()
      requires interval >= 1
      modifies this
      ensures Ok() && items == []
    {
      buffer, restarts, counter, lastKey, items, starts := [], [0], 0, [], [], [0];
    }

    /** The size the block would have now. */
    function CurrentSizeEstimate(): nat
      reads this
    {
      |buffer| + |restarts| * 4 + 4
    }

    /** How much of the key the last key already has. */
    method Common(key: Bytes) returns (shared: nat)
      ensures shared <= |lastKey| && shared <= |key| && lastKey[..shared] == key[..shared]
      ensures shared < |lastKey| && shared < |key| ==> lastKey[shared] != key[shared]
    {
      var minLength := if |lastKey| < |key| then |lastKey| else |key|;
      shared := 0;
      while shared < minLength && lastKey[shared] == key[shared]
        invariant shared <= minLength && lastKey[..shared] == key[..shared]
      {
        shared := shared + 1;
      }
    }

    method AppendEntry(shared: nat, key: Bytes, value: Bytes)
      requires shared <= |key|
      modifies `buffer
      ensures buffer == old(buffer) + ItemBytes(Item(key, value, shared))
    {
      hide Varint;
      buffer := PutVarint(buffer, shared);
      buffer := PutVarint(buffer, |key| - shared);
      buffer := PutVarint(buffer, |value|);
      buffer := buffer + key[shared..];
      buffer := buffer + value;
    }

    /** The entry is appended; it shares all it can with the last key, but after `interval` entries the key is stored
        in full. */
    method Add(key: Bytes, value: Bytes) returns (ghost it: Item)
      requires Ok()
      modifies this
      ensures Ok() && items == old(items) + [it] && it.key == key && it.value == value
      ensures old(counter) >= interval ==> it.shared == 0
      ensures old(counter) < interval ==>
        it.shared <= |key| && it.shared <= |old(lastKey)| &&
        (it.shared < |key| && it.shared < |old(lastKey)| ==> key[it.shared] != old(lastKey)[it.shared])
    {
      hide ItemBytes, Built, Tail, Offsets, Chained, Restarts;
      var shared := 0;
      if counter < interval {
        shared := Common(key);
      }
      it := Item(key, value, shared);
      Rejoin(lastKey, key, shared);
      BuiltOn(items, starts, interval, counter, it);
      ChainFits(items);
      OffsetsAppend(items, starts, it);
      TailAppend(items, it, 0);
      if counter >= interval {
        restarts := restarts + [|buffer|];
        starts := starts + [|items|];
        counter := 0;
      }
      AppendEntry(shared, key, value);
      lastKey := lastKey[..shared] + key[shared..];
      counter := counter + 1;
      items := items + [it];
    }

    /** The restart array and its length go behind the entries. */
    method Finish() returns (block: Bytes)
      requires Ok()
      modifies `buffer
      ensures Chained(items) && Restarts(items, starts) && forall k | 0 <= k < |starts| :: starts[k] <= |items|
      ensures block == BlockBytes(items, starts) && |block| == old(CurrentSizeEstimate())
    {
      hide Tail, Little, Chained, Restarts, Offsets, Words;
      ChainFits(items);
      var words := PutWords(restarts);
      buffer := buffer + words + Little(|restarts|, 4);
      block := buffer;
    }
  }

  // ----- Finding things in a block -----

  lemma {:induction false} TailSplits(items: seq<Item>, j: nat)
    requires j <= |items| && forall i | 0 <= i < |items| :: Fits(items[i])
    ensures Off(items, j) <= |Tail(items, 0)| && Tail(items, 0)[Off(items, j)..] == Tail(items, j)
  {
    hide ItemBytes;
    if j > 0 {
      TailSplits(items, j - 1);
      var b, rest := ItemBytes(items[j - 1]), Tail(items, j);
      assert (b + rest)[|b|..] == rest;
      var all := Tail(items, 0);
      assert all[Off(items, j - 1)..][|b|..] == all[Off(items, j)..];
    }
  }

  lemma {:induction false} OffIncreases(items: seq<Item>, a: nat, b: nat)
    requires a <= b <= |items| && forall i | 0 <= i < |items| :: Fits(items[i])
    ensures Off(items, a) + 3 * (b - a) <= Off(items, b)
  {
    hide ItemBytes;
    if a < b {
      OffIncreases(items, a, b - 1);
    }
  }

  /** The block's bytes, seen from its parts. */
  ghost predicate Holds(data: Bytes, limit: nat, numRestarts: nat, items: seq<Item>, starts: seq<nat>) {
    WellFormed(items, starts) && data == BlockBytes(items, starts) && limit == |Tail(items, 0)| && numRestarts == |starts|
  }

  lemma RestartPoint(data: Bytes, limit: nat, numRestarts: nat, items: seq<Item>, starts: seq<nat>, k: nat)
    requires Holds(data, limit, numRestarts, items, starts) && k < numRestarts
    ensures limit + 4 * k + 4 <= |data| && LittleOf(data[limit + 4 * k..limit + 4 * k + 4]) == Off(items, starts[k])
    ensures Off(items, starts[k]) <= limit
  {
    hide Tail, Little, Words, Off, Chained, Restarts;
    ChainFits(items);
    var ns := Offsets(items, starts);
    WordAt(ns, k);
    var words := Words(ns);
    assert data[limit..limit + |words|] == words;
    assert data[limit + 4 * k..limit + 4 * k + 4] == words[4 * k..4 * k + 4];
    OffIncreases(items, starts[k], |items|);
    OffEnd(items);
    Pow256Values();
    LittleRoundTrip(ns[k], 4);
  }

  lemma LastWord(data: Bytes, limit: nat, numRestarts: nat, items: seq<Item>, starts: seq<nat>)
    requires Holds(data, limit, numRestarts, items, starts)
    ensures |data| == limit + 4 * numRestarts + 4 < MAX32 && numRestarts > 0
    ensures LittleOf(data[|data| - 4..]) == numRestarts
  {
    hide Tail, Little, Words, Offsets, Chained;
    assert data[|data| - 4..] == Little(|starts|, 4);
    Pow256Values();
    LittleRoundTrip(|starts|, 4);
  }

  /** Item j starts at its offset. */
  lemma ItemAt(data: Bytes, limit: nat, numRestarts: nat, items: seq<Item>, starts: seq<nat>, j: nat)
    requires Holds(data, limit, numRestarts, items, starts) && j < |items|
    ensures Fits(items[j]) && Off(items, j) + |ItemBytes(items[j])| == Off(items, j + 1) <= limit <= |data| < MAX32
    ensures Starts(data, Off(items, j), limit, ItemBytes(items[j])) && items[j].shared < MAX32
  {
    KeyBound(items, j);
    hide ItemBytes, Words, Offsets, Little, Restarts;
    ChainFits(items);
    TailSplits(items, j);
    OffIncreases(items, j + 1, |items|);
    OffEnd(items);
    assert data[..limit] == Tail(items, 0);
    assert data[Off(items, j)..limit] == Tail(items, 0)[Off(items, j)..];
  }

  /** Keys are put together from bytes in the block. */
  lemma {:induction false} KeyBound(items: seq<Item>, j: nat)
    requires Chained(items) && j < |items|
    ensures |items[j].key| <= Off(items, j + 1)
  {
    hide Varint, Off;
    ChainFits(items);
    if j > 0 {
      KeyBound(items, j - 1);
    }
    OffNext(items, j);
  }

  lemma OffNext(items: seq<Item>, j: nat)
    requires j < |items| && forall i | 0 <= i < |items| :: Fits(items[i])
    ensures Off(items, j + 1) == Off(items, j) + |ItemBytes(items[j])|
  {
  }

  /** The three lengths and the two strings of an entry, one after the other. */
  lemma ItemParts(data: Bytes, limit: nat, p: nat, it: Item)
    requires Fits(it) && Starts(data, p, limit, ItemBytes(it))
    ensures var a, b, c := Varint(it.shared), Varint(|it.key| - it.shared), Varint(|it.value|);
      Starts(data, p, limit, a) && Starts(data, p + |a|, limit, b) && Starts(data, p + |a| + |b|, limit, c) &&
      var q := p + |a| + |b| + |c|; var k := |it.key| - it.shared;
      q + k + |it.value| == p + |ItemBytes(it)| <= limit &&
      data[q..q + k] == it.key[it.shared..] && data[q + k..q + k + |it.value|] == it.value
  {
    hide Varint, Starts;
    var a, b, c, d := Varint(it.shared), Varint(|it.key| - it.shared), Varint(|it.value|), it.key[it.shared..];
    StartsSplits(data, p, limit, a + b + c + d, it.value);
    StartsSplits(data, p, limit, a + b + c, d);
    StartsSplits(data, p, limit, a + b, c);
    StartsSplits(data, p, limit, a, b);
    StartsAll(data, p + |a| + |b| + |c|, limit, d);
    StartsAll(data, p + |a| + |b| + |c| + |d|, limit, it.value);
  }

  lemma StartsSplits(data: Bytes, p: nat, limit: nat, a: Bytes, b: Bytes)
    requires Starts(data, p, limit, a + b)
    ensures Starts(data, p, limit, a) && Starts(data, p + |a|, limit, b)
  {
    StartsMoves(data, p, limit, a, b);
    StartsFront(data, p, limit, a, b);
  }

  lemma StartsFront(data: Bytes, p: nat, limit: nat, a: Bytes, b: Bytes)
    requires Starts(data, p, limit, a + b)
    ensures Starts(data, p, limit, a)
  {
  }

  lemma StartsAll(data: Bytes, p: nat, limit: nat, a: Bytes)
    requires Starts(data, p, limit, a)
    ensures p + |a| <= limit && data[p..p + |a|] == a
  {
    assert a + [] == a;
    StartsMoves(data, p, limit, a, []);
  }

  lemma FirstByte(data: Bytes, p: nat, limit: nat, n: nat)
    requires Starts(data, p, limit, Varint(n))
    ensures |Varint(n)| >= 1 && p + |Varint(n)| <= limit <= |data| && (data[p] < 128 <==> n < 128)
    ensures n < 128 ==> data[p] as nat == n && |Varint(n)| == 1
  {
    VarintUnfolds(n);
    StartsAll(data, p, limit, Varint(n));
  }

  ghost predicate LengthsAt(data: Bytes, p: nat, limit: nat, na: nat, nb: nat, nc: nat) {
    na < MAX32 && nb < MAX32 && nc < MAX32 && Starts(data, p, limit, Varint(na)) &&
    Starts(data, p + |Varint(na)|, limit, Varint(nb)) && Starts(data, p + |Varint(na)| + |Varint(nb)|, limit, Varint(nc))
  }

  /** What DecodeEntry finds: the three lengths, and where the key delta is. */
  datatype Lengths = Lengths(shared: nat, nonShared: nat, valueLength: nat, at: nat)

  /** The lengths at p, in any bytes: by the short cut if all three are small. */
  function LengthsFrom(data: Bytes, p: nat, limit: nat): (r: Option<Lengths>)
    requires limit <= |data|
    ensures r.Some? ==> p + 3 <= r.value.at <= limit && r.value.nonShared < MAX32 && r.value.valueLength < MAX32
  {
    if p > limit || limit - p < 3 then None
    else if data[p] < 128 && data[p + 1] < 128 && data[p + 2] < 128 then
      Some(Lengths(data[p] as nat, data[p + 1] as nat, data[p + 2] as nat, p + 3))
    else
      var a := ReadVarint(data, p, limit, MAX32);
      if a.None? then None
      else
        var b := ReadVarint(data, a.value.1, limit, MAX32);
        if b.None? then None
        else
          var c := ReadVarint(data, b.value.1, limit, MAX32);
          if c.None? then None else Some(Lengths(a.value.0, b.value.0, c.value.0, c.value.1))
  }

  /** The entry at p, in any bytes; the sum of its lengths is a 32-bit word. */
  function EntryAt(data: Bytes, p: nat, limit: nat): (r: Option<Lengths>)
    requires limit <= |data|
    ensures r.Some? ==> p + 3 <= r.value.at <= limit && r.value.nonShared < MAX32 && r.value.valueLength < MAX32
  {
    var r := LengthsFrom(data, p, limit);
    if r.Some? && limit - r.value.at >= Word(r.value.nonShared + r.value.valueLength) then r else None
  }

  /** MAIN: in any bytes, what the iterator takes for the key delta and the value of an entry lies inside the block if
      and only if their lengths add up to less than 2^32; the next entry is looked for inside the block in either
      case. */
  lemma EntryInside(data: Bytes, p: nat, limit: nat)
    requires limit <= |data| && limit < MAX32 && EntryAt(data, p, limit).Some?
    ensures var e := EntryAt(data, p, limit).value;
      (e.at + e.nonShared + e.valueLength <= limit <==> e.nonShared + e.valueLength < MAX32) &&
      p + 3 <= Word(e.at + e.nonShared + e.valueLength) <= limit
  {
    hide LengthsFrom;
    var e := EntryAt(data, p, limit).value;
    var sum := e.nonShared + e.valueLength;
    if sum >= MAX32 {
      assert sum % MAX32 == sum - MAX32;
      assert (e.at + sum) % MAX32 == e.at + (sum - MAX32);
    }
  }

  /** The lengths 2^32 - 8 and 16 of an entry with nine bytes left: their sum is 8 as a 32-bit word. */
  function StrayBytes(): (r: Bytes)
    ensures |r| >= 3
  {
    [0] + Varint(MAX32 - 8) + Varint(16) + seq(9, _ => 0 as Byte)
  }

  lemma StrayLengths()
    ensures |StrayBytes()| < 20
    ensures LengthsFrom(StrayBytes(), 0, |StrayBytes()|) == Some(Lengths(0, MAX32 - 8, 16, |StrayBytes()| - 9))
  {
    hide ReadVarint, Varint, Starts;
    var n, rest := Varint(MAX32 - 8), seq(9, _ => 0 as Byte);
    var data := StrayBytes();
    var limit := |data|;
    StrayVarints();
    assert data == [0] + (n + ([16] + rest));
    StartsAt(data, [], [0], n + ([16] + rest));
    StartsAt(data, [0], n, [16] + rest);
    StartsAt(data, [0] + n, [16], rest);
    VarintReads(data, 0, limit, MAX32, 0);
    VarintReads(data, 1, limit, MAX32, MAX32 - 8);
    VarintReads(data, 1 + |n|, limit, MAX32, 16);
    assert data[1] == n[0];
  }

  lemma StrayVarints()
    ensures Varint(0) == [0] && Varint(16) == [16] && |Varint(MAX32 - 8)| <= 5 && Varint(MAX32 - 8)[0] >= 128
  {
    VarintUnfolds(MAX32 - 8);
    Pow128Values();
    VarintLength(MAX32 - 8, 5);
  }

  lemma StartsAt(data: Bytes, a: Bytes, b: Bytes, c: Bytes)
    requires data == a + b + c || data == a + (b + c)
    ensures Starts(data, |a|, |data|, b)
  {
    assert data[|a|..|data|] == b + c;
  }

  /** Such an entry is accepted although its key delta reaches far beyond the block. */
  lemma StrayEntry()
    ensures |StrayBytes()| < 20
    ensures var e := EntryAt(StrayBytes(), 0, |StrayBytes()|);
      e.Some? && e.value.nonShared == MAX32 - 8 && e.value.valueLength == 16 && e.value.at + 9 == |StrayBytes()| &&
      e.value.at + e.value.nonShared > MAX32 - 8 &&
      Word(e.value.at + e.value.nonShared + e.value.valueLength) == e.value.at + 8
  {
    hide LengthsFrom, StrayBytes;
    StrayLengths();
  }

  lemma LengthsRead(data: Bytes, p: nat, limit: nat, na: nat, nb: nat, nc: nat)
    requires limit <= |data| && LengthsAt(data, p, limit, na, nb, nc)
    ensures LengthsFrom(data, p, limit) == Some(Lengths(na, nb, nc, p + |Varint(na)| + |Varint(nb)| + |Varint(nc)|))
  {
    hide Varint, Starts, ReadVarint;
    var q, r := p + |Varint(na)|, p + |Varint(na)| + |Varint(nb)|;
    FirstByte(data, p, limit, na);
    FirstByte(data, q, limit, nb);
    FirstByte(data, r, limit, nc);
    VarintReads(data, p, limit, MAX32, na);
    VarintReads(data, q, limit, MAX32, nb);
    VarintReads(data, r, limit, MAX32, nc);
  }

  /** The three lengths of DecodeEntry, with its short cut for small ones. */
  method DecodeLengths(data: Bytes, p: nat, limit: nat) returns (ok: bool, a: nat, b: nat, c: nat, q: nat)
    requires limit <= |data|
    ensures (if ok then Some(Lengths(a, b, c, q)) else None) == LengthsFrom(data, p, limit)
  {
    hide Varint, Starts, ReadVarint;
    if p > limit || limit - p < 3 {
      return false, 0, 0, 0, p;
    }
    a, b, c := data[p] as nat, data[p + 1] as nat, data[p + 2] as nat;
    if a < 128 && b < 128 && c < 128 {
      return true, a, b, c, p + 3;
    }
    ok, a, q := GetVarint(data, p, limit, MAX32);
    if ok {
      ok, b, q := GetVarint(data, q, limit, MAX32);
    }
    if ok {
      ok, c, q := GetVarint(data, q, limit, MAX32);
    }
  }

  /** DecodeEntry. */
  method DecodeEntry(data: Bytes, p: nat, limit: nat, ghost it: Item)
    returns (ok: bool, shared: nat, nonShared: nat, valueLength: nat, q: nat)
    requires limit <= |data|
    ensures (if ok then Some(Lengths(shared, nonShared, valueLength, q)) else None) == EntryAt(data, p, limit)
    ensures Fits(it) && Starts(data, p, limit, ItemBytes(it)) && limit < MAX32 && it.shared < MAX32 ==>
      (ok && shared == it.shared && nonShared == |it.key| - it.shared && valueLength == |it.value| &&
       q + nonShared + valueLength == p + |ItemBytes(it)| && q + nonShared + valueLength <= limit &&
       data[q..q + nonShared] == it.key[it.shared..] && data[q + nonShared..q + nonShared + valueLength] == it.value)
  {
    hide Varint, ItemBytes, Starts, LengthsFrom;
    if Fits(it) && Starts(data, p, limit, ItemBytes(it)) && limit < MAX32 && it.shared < MAX32 {
      ItemParts(data, limit, p, it);
      LengthsRead(data, p, limit, it.shared, |it.key| - it.shared, |it.value|);
    }
    ok, shared, nonShared, valueLength, q := DecodeLengths(data, p, limit);
    ok := ok && limit - q >= Word(nonShared + valueLength);
  }

  // ----- The iterator -----

  /** The n bytes at p; what lies outside the block is not part of this model. */
  function Slice(data: Bytes, p: nat, n: nat): Bytes {
    if p + n <= |data| then data[p..p + n] else []
  }

  /** The number of restart points in any bytes, at their end; None if it is not there or the array does not fit. */
  function RestartsIn(data: Bytes): (r: Option<nat>)
    ensures r.Some? ==> 4 * r.value + 4 <= |data|
  {
    if |data| < 4 || LittleOf(data[|data| - 4..]) > (|data| - 4) / 4 then None else Some(LittleOf(data[|data| - 4..]))
  }

  /** Block::Block: the restart array must fit. */
  method OpenBlock(data: Bytes, ghost items: seq<Item>, ghost starts: seq<nat>)
    returns (ok: bool, limit: nat, numRestarts: nat)
    ensures (if ok then Some(numRestarts) else None) == RestartsIn(data)
    ensures ok ==> limit == (|data| - 4 * numRestarts - 4) % MAX32 && limit + 4 * numRestarts + 4 <= |data|
    ensures WellFormed(items, starts) && data == BlockBytes(items, starts) ==>
      ok && numRestarts > 0 && Holds(data, limit, numRestarts, items, starts)
  {
    hide Tail, Words, Offsets, Little, Chained, Restarts;
    if WellFormed(items, starts) {
      ChainFits(items);
      if data == BlockBytes(items, starts) {
        LastWord(data, |Tail(items, 0)|, |starts|, items, starts);
      }
    }
    if |data| < 4 {
      return false, 0, 0;
    }
    numRestarts := LittleOf(data[|data| - 4..]);
    if numRestarts > (|data| - 4) / 4 {
      return false, 0, numRestarts;
    }
    ok, limit := true, (|data| - (1 + numRestarts) * 4) % MAX32;
  }

  // ----- Looking for a key, in any bytes -----

  /** Where restart point `index` points. */
  function PointAt(data: Bytes, limit: nat, index: nat): nat
    requires limit + 4 * index + 4 <= |data|
  {
    LittleOf(data[limit + 4 * index..limit + 4 * index + 4])
  }

  /** There is an entry at `next`, and the key before is long enough for it. */
  predicate CanParse(data: Bytes, limit: nat, next: nat, before: Bytes)
    requires limit <= |data|
  {
    next < limit && EntryAt(data, next, limit).Some? && EntryAt(data, next, limit).value.shared <= |before|
  }

  /** The last of the restart points from left to right whose key is less than the target, by halving; None if one that is
      looked at holds no whole key. */
  function PointBefore(data: Bytes, limit: nat, n: nat, less: (Bytes, Bytes) -> bool, target: Bytes, left: nat, right: nat)
    : (r: Option<nat>)
    requires limit + 4 * n + 4 <= |data| && left <= right < n
    ensures r.Some? ==> left <= r.value <= right
    decreases right - left
  {
    if left == right then Some(left)
    else
      var mid := (left + right + 1) / 2;
      var e := EntryAt(data, PointAt(data, limit, mid), limit);
      if e.None? || e.value.shared != 0 then None
      else if less(Slice(data, e.value.at, e.value.nonShared), target) then
        PointBefore(data, limit, n, less, target, mid, right)
      else PointBefore(data, limit, n, less, target, left, mid - 1)
  }

  lemma PointStep(data: Bytes, limit: nat, n: nat, less: (Bytes, Bytes) -> bool, target: Bytes, left: nat, right: nat, mid: nat)
    requires limit + 4 * n + 4 <= |data| && left < right < n && mid == (left + right + 1) / 2
    ensures left < mid <= right
    ensures var e := EntryAt(data, PointAt(data, limit, mid), limit);
      PointBefore(data, limit, n, less, target, left, right) ==
        if e.None? || e.value.shared != 0 then None
        else if less(Slice(data, e.value.at, e.value.nonShared), target) then
          PointBefore(data, limit, n, less, target, mid, right)
        else PointBefore(data, limit, n, less, target, left, mid - 1)
  {
    hide EntryAt, Slice, PointAt;
  }

  lemma PointFound(data: Bytes, limit: nat, n: nat, less: (Bytes, Bytes) -> bool, target: Bytes, left: nat)
    requires limit + 4 * n + 4 <= |data| && left < n
    ensures PointBefore(data, limit, n, less, target, left, left) == Some(left)
  {
  }

  /** A search: `corrupt` if it met a bad entry, and otherwise the entry found, if any. */
  datatype Search = Search(corrupt: bool, found: Option<(Bytes, Bytes)>)

  /** The first entry from `next` on whose key is not less than the target; `before` is the key in front of it. */
  function ScanFrom(data: Bytes, limit: nat, less: (Bytes, Bytes) -> bool, target: Bytes, next: nat, before: Bytes): Search
    requires limit <= |data| && limit < MAX32
    decreases limit - next
  {
    if next >= limit then Search(false, None)
    else if !CanParse(data, limit, next, before) then Search(true, None)
    else
      var e := EntryAt(data, next, limit).value;
      var key := before[..e.shared] + Slice(data, e.at, e.nonShared);
      EntryInside(data, next, limit);
      if less(key, target) then ScanFrom(data, limit, less, target, Word(e.at + e.nonShared + e.valueLength), key)
      else Search(false, Some((key, Slice(data, e.at + e.nonShared, e.valueLength))))
  }

  /** The binary search among the restart points, and the linear search from there. */
  function Sought(data: Bytes, limit: nat, n: nat, less: (Bytes, Bytes) -> bool, target: Bytes): Search
    requires limit + 4 * n + 4 <= |data| && limit < MAX32 && n > 0
  {
    var left := PointBefore(data, limit, n, less, target, 0, n - 1);
    if left.None? then Search(true, None)
    else ScanFrom(data, limit, less, target, Word(PointAt(data, limit, left.value)), [])
  }

  /** `less` orders the keys, and they are in order. */
  ghost predicate InOrder(items: seq<Item>, less: (Bytes, Bytes) -> bool) {
    (forall a, b, c :: less(a, b) && less(b, c) ==> less(a, c)) &&
    forall i, j | 0 <= i < j < |items| :: less(items[i].key, items[j].key)
  }

  class BlockIter {
    const data: Bytes
    const limit: nat
    const numRestarts: nat
    const less: (Bytes, Bytes) -> bool
    ghost const items: seq<Item>
    ghost const starts: seq<nat>
    var current: nat
    var restartIndex: nat
    var key: Bytes
    var valueAt: nat
    var valueSize: nat
    var corrupt: bool

    /** The block is one the builder finished. */
    ghost predicate Good() {
      Holds(data, limit, numRestarts, items, starts)
    }

    predicate Valid()
      reads this
    {
      current < limit
    }

    ghost predicate Safe()
      reads this
    {
      limit + 4 * numRestarts + 4 <= |data| && limit < MAX32 && numRestarts > 0 && (Valid() ==> restartIndex < numRestarts)
    }

    /** A 32-bit word, as the lengths of an entry are. */
    function NextEntryOffset(): nat
      reads this
    {
      Word(valueAt + valueSize)
    }

    function Value(): Bytes
      reads this
    {
      Slice(data, valueAt, valueSize)
    }

    function GetRestartPoint(index: nat): nat
      requires index < numRestarts && limit + 4 * numRestarts + 4 <= |data|
    {
      PointAt(data, limit, index)
    }

    /** From restart point `from` on, the current one is the last before the current entry. */
    ghost predicate Latest(from: nat)
      requires limit + 4 * numRestarts + 4 <= |data| && restartIndex < numRestarts
      reads `restartIndex, `current
    {
      from <= restartIndex && (forall k | from < k <= restartIndex :: GetRestartPoint(k) < current) &&
      (restartIndex + 1 < numRestarts ==> current <= GetRestartPoint(restartIndex + 1))
    }

    /** The iterator is at item c, or past the last one. */
    ghost predicate Stands(c: nat)
      requires Good()
      reads this
    {
      ChainFits(items);
      c <= |items| && (Valid() <==> c < |items|) &&
      (c < |items| ==>
         current == Off(items, c) && key == items[c].key && Value() == items[c].value &&
         NextEntryOffset() == Off(items, c + 1) && restartIndex < numRestarts && starts[restartIndex] <= c)
    }

    /** ParseNextKey would parse item j. */
    ghost predicate Before(j: nat)
      requires Good()
      reads this
    {
      ChainFits(items);
      j <= |items| && NextEntryOffset() == Off(items, j) && restartIndex < numRestarts &&
      (j < |items| ==>
         starts[restartIndex] <= j && (items[j].shared == 0 || (j > 0 && key == items[j - 1].key)))
    }

    constructor (data: Bytes, limit: nat, numRestarts: nat, less: (Bytes, Bytes) -> bool, ghost items: seq<Item>,
        ghost starts: seq<nat>)
      requires limit + 4 * numRestarts + 4 <= |data| && limit < MAX32 && numRestarts > 0
      ensures Safe() && !Valid() && this.data == data && this.limit == limit && this.numRestarts == numRestarts
      ensures this.less == less && this.items == items && this.starts == starts && !corrupt
    {
      this.data, this.limit, this.numRestarts, this.less := data, limit, numRestarts, less;
      this.items, this.starts := items, starts;
      current, restartIndex, key, valueAt, valueSize := limit, numRestarts, [], 0, 0;
      corrupt := false;
    }

    /** CorruptionError. */
    method Corrupt()
      modifies this
      ensures corrupt && !Valid() && (old(Safe()) ==> Safe())
    {
      current, restartIndex, key, valueAt, valueSize := limit, numRestarts, [], 0, 0;
      corrupt := true;
    }

    predicate Parsable(next: nat, before: Bytes)
      requires limit <= |data|
    {
      CanParse(data, limit, next, before)
    }

    /** The iterator has taken entry e: its key delta and its value are inside the block if and only if their lengths
        add up to less than 2^32. */
    ghost predicate Took(e: Lengths, before: Bytes)
      requires e.shared <= |before|
      reads `key, `valueAt, `valueSize
    {
      key == before[..e.shared] + Slice(data, e.at, e.nonShared) && valueAt == e.at + e.nonShared &&
      valueSize == e.valueLength && (valueAt + valueSize <= limit <==> e.nonShared + e.valueLength < MAX32)
    }

    /** Item j is at p, and the iterator is ready to take it. */
    ghost predicate At(p: nat, j: nat)
      requires Good()
      reads `key, `restartIndex
    {
      ChainFits(items);
      j < |items| && p == Off(items, j) && restartIndex < numRestarts && starts[restartIndex] <= j &&
      (items[j].shared == 0 || (j > 0 && key == items[j - 1].key))
    }

    /** It has taken item j. */
    ghost predicate Has(j: nat)
      requires Good()
      reads `key, `valueAt, `valueSize
    {
      ChainFits(items);
      j < |items| && key == items[j].key && Slice(data, valueAt, valueSize) == items[j].value &&
      valueAt + valueSize == Off(items, j + 1)
    }

    lemma HasIsStanding(j: nat)
      requires Good() && j < |items| && CurrentIs(j) && Has(j)
      requires limit < MAX32 && restartIndex < numRestarts && starts[restartIndex] <= j
      ensures Stands(j) && Valid()
    {
      hide Off, Word, ItemBytes;
      ParseFacts(data, limit, numRestarts, items, starts, j);
      WordSmall(valueAt + valueSize);
    }

    lemma EndIsStanding()
      requires Good() && !Valid()
      ensures Stands(|items|)
    {
    }

    lemma BeforeIsAt(j: nat)
      requires Good() && Before(j)
      ensures j <= |items| && (NextEntryOffset() >= limit <==> j == |items|) && (j < |items| ==> At(NextEntryOffset(), j))
    {
      hide Off, Word, ItemBytes;
      ParseFacts(data, limit, numRestarts, items, starts, j);
    }

    /** Moves to the entry at NextEntryOffset, or past the end. */
    method ParseNextKey(ghost j: nat) returns (ok: bool)
      requires Safe() && restartIndex < numRestarts
      modifies this
      ensures Safe() && ok == Valid() && (ok ==> current == old(NextEntryOffset()) && NextEntryOffset() >= current + 3)
      ensures ok == Parsable(old(NextEntryOffset()), old(key))
      ensures corrupt == (old(corrupt) || (!ok && old(NextEntryOffset()) < limit))
      ensures ok ==> Took(EntryAt(data, current, limit).value, old(key)) && Latest(old(restartIndex))
      ensures Good() && old(Before(j)) ==> Stands(j) && corrupt == old(corrupt)
    {
      hide EntryAt, Holds, Before, Has, Stands, Took, Off, Word, Latest;
      ghost var good := Good() && Before(j);
      if good {
        BeforeIsAt(j);
      }
      current := NextEntryOffset();
      if current >= limit {
        current, restartIndex := limit, numRestarts;
        if good {
          EndIsStanding();
        }
        return false;
      }
      ok := TakeEntry(j);
      if !ok {
        Corrupt();
        return false;
      }
      AdvanceRestart(j);
      if good {
        HasIsStanding(j);
      }
    }

    /** The key and the value of the entry at current. */
    method TakeEntry(ghost j: nat) returns (ok: bool)
      requires limit <= |data| && limit < MAX32 && current < limit
      modifies `key, `valueAt, `valueSize
      ensures ok == Parsable(current, old(key))
      ensures ok ==> Took(EntryAt(data, current, limit).value, old(key)) && NextEntryOffset() >= current + 3
      ensures Good() && old(At(current, j)) ==> ok && Has(j)
    {
      hide EntryAt, Varint, ItemBytes, Tail, Off, WellFormed, BlockBytes, Chained, Restarts, Starts, Word;
      ghost var good := Good() && At(current, j);
      if good {
        ParseFacts(data, limit, numRestarts, items, starts, j);
        ParsedKey(items, j, key);
      }
      var shared, nonShared, valueLength, q;
      ok, shared, nonShared, valueLength, q := DecodeEntry(data, current, limit, if good then items[j] else Item([], [], 0));
      if !ok || |key| < shared {
        return false;
      }
      EntryInside(data, current, limit);
      key := key[..shared] + Slice(data, q, nonShared);
      valueAt, valueSize := q + nonShared, valueLength;
    }

    /** The last restart point before the current entry, or the one at it. */
    method AdvanceRestart(ghost j: nat)
      requires limit + 4 * numRestarts + 4 <= |data| && restartIndex < numRestarts
      modifies `restartIndex
      ensures restartIndex < numRestarts && Latest(old(restartIndex))
      ensures Good() && j <= |items| && old(CurrentIs(j)) && starts[old(restartIndex)] <= j ==> starts[restartIndex] <= j
    {
      hide Off, WellFormed, BlockBytes;
      ghost var good := Good() && j <= |items| && CurrentIs(j) && starts[restartIndex] <= j;
      while restartIndex + 1 < numRestarts && GetRestartPoint(restartIndex + 1) < current
        invariant old(restartIndex) <= restartIndex < numRestarts && (good ==> starts[restartIndex] <= j)
        invariant forall k | old(restartIndex) < k <= restartIndex :: GetRestartPoint(k) < current
        decreases numRestarts - restartIndex
      {
        if good {
          RestartBelow(data, limit, numRestarts, items, starts, restartIndex + 1, j);
        }
        restartIndex := restartIndex + 1;
      }
    }

    ghost predicate CurrentIs(j: nat)
      requires Good() && j <= |items|
      reads this
    {
      ChainFits(items);
      current == Off(items, j)
    }

    method SeekToRestartPoint(index: nat)
      requires Safe() && index < numRestarts
      modifies this
      ensures restartIndex == index && current == old(current) && corrupt == old(corrupt)
      ensures key == [] && NextEntryOffset() == Word(PointAt(data, limit, index))
      ensures Good() ==> index < |starts| && Before(starts[index])
    {
      hide Holds, Off;
      if Good() {
        BlockFacts(data, limit, numRestarts, items, starts);
        RestartPoint(data, limit, numRestarts, items, starts, index);
      }
      key, restartIndex := [], index;
      var offset := GetRestartPoint(index);
      valueAt, valueSize := offset, 0;
    }

    method Next(ghost c: nat)
      requires Safe() && Valid()
      modifies this
      ensures Safe() && (Valid() ==> current == old(NextEntryOffset()) && NextEntryOffset() >= current + 3)
      ensures Good() && old(Stands(c)) ==> c < |items| && Stands(c + 1)
    {
      hide WellFormed, BlockBytes, Off, Restarts, Chained;
      var ok := ParseNextKey(c + 1);
    }

    method SeekToFirst()
      requires Safe()
      modifies this
      ensures Safe() && (Good() ==> Stands(0)) && (Valid() ==> NextEntryOffset() >= current + 3)
    {
      hide Holds, Off;
      SeekToRestartPoint(0);
      if Good() {
        BlockFacts(data, limit, numRestarts, items, starts);
      }
      var ok := ParseNextKey(0);
    }

    /** Parses entries until one ends at `stop`, which is where item c starts. */
    method ParseUpTo(stop: nat, ghost j: nat, ghost c: nat)
      requires Safe() && restartIndex < numRestarts
      modifies this
      ensures Safe()
      ensures Good() && old(Before(j)) && j < c <= |items| && StopIs(stop, c) ==> Stands(c - 1)
    {
      hide Holds, Off, Restarts, Chained, Before, Stands, StopIs, InScan;
      ghost var good := Good() && Before(j) && j < c <= |items| && StopIs(stop, c);
      ghost var k: nat := j;
      var ok := ParseInScan(stop, k, c);
      while ok && NextEntryOffset() < stop
        invariant Safe() && ok == Valid() && (ok ==> NextEntryOffset() >= current + 3)
        invariant good ==> InScan(stop, k, c)
        decreases if ok then limit - current else 0
      {
        if good {
          InScanMeans(stop, k, c);
        }
        k := k + 1;
        ok := ParseInScan(stop, k, c);
      }
      if good {
        InScanMeans(stop, k, c);
      }
    }

    /** On the way to `stop`, at item k. */
    ghost predicate InScan(stop: nat, k: nat, c: nat)
      requires Good()
      reads this
    {
      k < c <= |items| && StopIs(stop, c) && Stands(k) && Valid() &&
      if NextEntryOffset() < stop then Before(k + 1) && k + 1 < c else k + 1 == c
    }

    lemma InScanMeans(stop: nat, k: nat, c: nat)
      requires Good() && InScan(stop, k, c)
      ensures k < c <= |items| && StopIs(stop, c) && Stands(k) && Valid()
      ensures if NextEntryOffset() < stop then Before(k + 1) && k + 1 < c else k + 1 == c
    {
    }

    method ParseInScan(stop: nat, ghost k: nat, ghost c: nat) returns (ok: bool)
      requires Safe() && restartIndex < numRestarts
      modifies this
      ensures Safe() && ok == Valid() && (ok ==> current == old(NextEntryOffset()) && NextEntryOffset() >= current + 3)
      ensures Good() && old(Before(k)) && k < c <= |items| && StopIs(stop, c) ==> InScan(stop, k, c)
    {
      hide Holds, Off, Restarts, Chained, Before, Stands, StopIs;
      ghost var good := Good() && Before(k) && k < c <= |items| && StopIs(stop, c);
      ok := ParseNextKey(k);
      if good {
        Ready(stop, k, c);
      }
    }

    /** The next entry starts before the stop unless it is item c. */
    lemma Ready(stop: nat, k: nat, c: nat)
      requires Good() && k < c <= |items| && StopIs(stop, c) && Stands(k)
      ensures Valid() && Before(k + 1) && (NextEntryOffset() < stop <==> k + 1 < c)
    {
      hide Off, Tail, BlockBytes, Restarts;
      ChainFits(items);
      OffOrder(items, k + 1, c);
    }

    ghost predicate StopIs(stop: nat, c: nat)
      requires Good() && c <= |items|
    {
      ChainFits(items);
      stop == Off(items, c)
    }

    /** Stands on the last item; an empty block has none. */
    method SeekToLast()
      requires Safe()
      modifies this
      ensures Safe() && (Good() ==> if items == [] then !Valid() else Stands(|items| - 1))
    {
      hide Holds, Off, Restarts, Chained, EntryAt, CanParse, Took, Word, PointAt, Slice;
      SeekToRestartPoint(numRestarts - 1);
      if Good() {
        BlockFacts(data, limit, numRestarts, items, starts);
      }
      var ok := ParseNextKey(if Good() then starts[numRestarts - 1] else 0);
      if ok && NextEntryOffset() < limit {
        ParseUpTo(limit, if Good() then starts[numRestarts - 1] + 1 else 0, |items|);
      } else if Good() && ok {
        OffOrder(items, starts[numRestarts - 1] + 1, |items|);
      }
    }

    method Prev(ghost c: nat)
      requires Safe() && Valid()
      modifies this
      ensures Safe()
      ensures Good() && old(Stands(c)) ==> if c == 0 then !Valid() else Stands(c - 1)
    {
      hide WellFormed, BlockBytes, Off, Restarts, Chained;
      var original := current;
      ghost var good := Good() && Stands(c);
      var found := RestartBefore(original, c);
      if !found {
        current, restartIndex := limit, numRestarts;
        return;
      }
      SeekToRestartPoint(restartIndex);
      ParseUpTo(original, if good then starts[restartIndex] else 0, c);
    }

    /** Back to a restart point before the original entry, item c; there is none before item 0. */
    method RestartBefore(original: nat, ghost c: nat) returns (found: bool)
      requires Safe() && restartIndex < numRestarts
      modifies `restartIndex
      ensures restartIndex < numRestarts
      ensures Good() && c <= |items| && old(CurrentIs(c)) && original == current && starts[old(restartIndex)] <= c ==>
        found == (c > 0) && (found ==> starts[restartIndex] < c)
    {
      hide Off, WellFormed, BlockBytes;
      ghost var good := Good() && c <= |items| && CurrentIs(c) && original == current && starts[restartIndex] <= c;
      if good {
        BlockFacts(data, limit, numRestarts, items, starts);
      }
      while GetRestartPoint(restartIndex) >= original
        invariant restartIndex < numRestarts && (good ==> starts[restartIndex] <= c)
        decreases restartIndex
      {
        if good {
          RestartBelow(data, limit, numRestarts, items, starts, restartIndex, c);
        }
        if restartIndex == 0 {
          return false;
        }
        restartIndex := restartIndex - 1;
      }
      if good {
        RestartBelow(data, limit, numRestarts, items, starts, restartIndex, c);
      }
      found := true;
    }

    /** Binary search for the last restart point with a key less than the target; `ok` is false if the block is
        corrupt. */
    method FindRestart(target: Bytes) returns (ok: bool, left: nat)
      requires Safe()
      ensures left < numRestarts
      ensures (if ok then Some(left) else None) == PointBefore(data, limit, numRestarts, less, target, 0, numRestarts - 1)
      ensures Good() ==> ok && |starts| == numRestarts
      ensures Good() && left > 0 ==> starts[left] < |items| && less(items[starts[left]].key, target)
    {
      hide WellFormed, BlockBytes, Off, ItemBytes, Starts, EntryAt, Holds, PointBefore, Chained, Restarts, Offsets;
      left := 0;
      var right: nat := numRestarts - 1;
      while left < right
        invariant left <= right < numRestarts
        invariant PointBefore(data, limit, numRestarts, less, target, left, right) ==
          PointBefore(data, limit, numRestarts, less, target, 0, numRestarts - 1)
        invariant Good() && left > 0 ==> |starts| == numRestarts && starts[left] < |items| && less(items[starts[left]].key, target)
      {
        var mid := (left + right + 1) / 2;
        PointStep(data, limit, numRestarts, less, target, left, right, mid);
        if Good() {
          StartEntry(data, limit, numRestarts, items, starts, mid);
        }
        var regionOffset := GetRestartPoint(mid);
        var shared, nonShared, valueLength, q;
        ok, shared, nonShared, valueLength, q :=
          DecodeEntry(data, regionOffset, limit, if Good() then items[starts[mid]] else Item([], [], 0));
        if !ok || shared != 0 {
          return false, 0;
        }
        var midKey := Slice(data, q, nonShared);
        if less(midKey, target) {
          left := mid;
        } else {
          right := mid - 1;
        }
      }
      PointFound(data, limit, numRestarts, less, target, left);
      if Good() {
        BlockFacts(data, limit, numRestarts, items, starts);
      }
      ok := true;
    }

    /** What a search has come to. */
    ghost function Standing(): Search
      reads this
    {
      Search(corrupt, if Valid() then Some((key, Value())) else None)
    }

    lemma ScanStep(target: Bytes, next: nat, before: Bytes, ok: bool)
      requires Safe() && ok == Parsable(next, before) == Valid() && corrupt == (!ok && next < limit)
      requires ok ==> current == next && Took(EntryAt(data, next, limit).value, before)
      ensures ScanFrom(data, limit, less, target, next, before) ==
        if ok && less(key, target) then ScanFrom(data, limit, less, target, NextEntryOffset(), key) else Standing()
    {
      hide EntryAt, Slice, Word;
    }

    /** MAIN: the first entry at or after the target; in any bytes, what the two searches come to. */
    method Seek(target: Bytes) returns (ghost c: nat)
      requires Safe() && !corrupt
      modifies this
      ensures Safe() && Standing() == Sought(data, limit, numRestarts, less, target)
      ensures Good() && InOrder(items, less) ==> Stands(c) && FirstFrom(items, less, target, c) && !corrupt
    {
      hide Holds, Off, Restarts, Chained, InOrder, Took, CanParse, EntryAt, Word, PointBefore, ScanFrom, PointAt;
      ghost var good := Good() && InOrder(items, less);
      if good {
        BlockFacts(data, limit, numRestarts, items, starts);
      }
      var ok, left := FindRestart(target);
      if !ok {
        Corrupt();
        return 0;
      }
      SeekToRestartPoint(left);
      c := if good then starts[left] else 0;
      if good && left > 0 {
        BelowStart(items, less, target, c);
      }
      while true
        invariant Safe() && restartIndex < numRestarts && !corrupt
        invariant ScanFrom(data, limit, less, target, NextEntryOffset(), key) ==
          Sought(data, limit, numRestarts, less, target)
        invariant good ==> Before(c) && forall j | 0 <= j < c :: less(items[j].key, target)
        decreases limit - NextEntryOffset()
      {
        ghost var next, before := NextEntryOffset(), key;
        ok := ParseNextKey(c);
        ScanStep(target, next, before, ok);
        if !ok || !less(key, target) {
          return c;
        }
        c := c + 1;
      }
    }
  }

  lemma BelowStart(items: seq<Item>, less: (Bytes, Bytes) -> bool, target: Bytes, s: nat)
    requires InOrder(items, less) && s < |items| && less(items[s].key, target)
    ensures forall j | 0 <= j < s :: less(items[j].key, target)
  {
  }

  /** Item c is the first whose key is not less than the target. */
  ghost predicate FirstFrom(items: seq<Item>, less: (Bytes, Bytes) -> bool, target: Bytes, c: nat) {
    c <= |items| && (forall j | 0 <= j < c :: less(items[j].key, target)) &&
    (c < |items| ==> !less(items[c].key, target))
  }

  /** A restart point that is not the first holds an item with its whole key. */
  lemma StartEntry(data: Bytes, limit: nat, numRestarts: nat, items: seq<Item>, starts: seq<nat>, k: nat)
    requires Holds(data, limit, numRestarts, items, starts) && 0 < k < numRestarts
    ensures |starts| == numRestarts && starts[k] < |items| && limit + 4 * k + 4 <= |data| && limit < MAX32 && limit <= |data|
    ensures items[starts[k]].shared == 0 && Fits(items[starts[k]])
    ensures Starts(data, LittleOf(data[limit + 4 * k..limit + 4 * k + 4]), limit, ItemBytes(items[starts[k]]))
  {
    hide Starts, ItemBytes, Off, Tail, BlockBytes;
    RestartPoint(data, limit, numRestarts, items, starts, k);
    ItemAt(data, limit, numRestarts, items, starts, starts[k]);
  }

  lemma OffOrder(items: seq<Item>, a: nat, b: nat)
    requires a <= |items| && b <= |items| && forall i | 0 <= i < |items| :: Fits(items[i])
    ensures Off(items, a) < Off(items, b) <==> a < b
  {
    hide Off;
    OffIncreases(items, if a < b then a else b, if a < b then b else a);
  }

  lemma BlockFacts(data: Bytes, limit: nat, numRestarts: nat, items: seq<Item>, starts: seq<nat>)
    requires Holds(data, limit, numRestarts, items, starts)
    ensures Chained(items) && |starts| == numRestarts && |starts| > 0 && starts[0] == 0
    ensures forall i | 0 <= i < |items| :: Fits(items[i])
    ensures forall k | 0 <= k < |starts| :: starts[k] <= |items| && (starts[k] < |items| ==> items[starts[k]].shared == 0)
    ensures starts[|starts| - 1] < |items| || items == []
    ensures forall k | 0 < k < |starts| :: starts[k - 1] <= starts[k]
    ensures Off(items, |items|) == limit && forall j | 0 <= j < |items| :: Off(items, j) < limit
  {
    hide BlockBytes, Off, Tail;
    OffEnd(items);
    forall j | 0 <= j < |items|
      ensures Off(items, j) < limit
    {
      OffIncreases(items, j, |items|);
    }
  }

  lemma ParseFacts(data: Bytes, limit: nat, numRestarts: nat, items: seq<Item>, starts: seq<nat>, j: nat)
    requires Holds(data, limit, numRestarts, items, starts) && j <= |items|
    ensures Chained(items) && |starts| == numRestarts && forall i | 0 <= i < |items| :: Fits(items[i])
    ensures Off(items, j) >= limit <==> j == |items|
    ensures limit <= |data| < MAX32
    ensures j < |items| ==> Starts(data, Off(items, j), limit, ItemBytes(items[j])) && items[j].shared < MAX32
    ensures j < |items| ==> Off(items, j) + |ItemBytes(items[j])| == Off(items, j + 1) <= limit
  {
    hide Varint, ItemBytes, Tail, Off, Starts, Words, Little;
    ChainFits(items);
    OffEnd(items);
    OffIncreases(items, j, |items|);
    if j < |items| {
      ItemAt(data, limit, numRestarts, items, starts, j);
    }
  }

  /** Taking over the shared front of the last key gives the key. */
  lemma ParsedKey(items: seq<Item>, j: nat, key: Bytes)
    requires Chained(items) && j < |items| && (items[j].shared == 0 || (j > 0 && key == items[j - 1].key))
    ensures items[j].shared <= |key| && key[..items[j].shared] + items[j].key[items[j].shared..] == items[j].key
  {
  }

  /** A restart point before item j belongs to an earlier item. */
  lemma RestartBelow(data: Bytes, limit: nat, numRestarts: nat, items: seq<Item>, starts: seq<nat>, k: nat, j: nat)
    requires Holds(data, limit, numRestarts, items, starts) && k < numRestarts && j <= |items|
    ensures Chained(items) && |starts| == numRestarts && forall i | 0 <= i < |items| :: Fits(items[i])
    ensures limit + 4 * k + 4 <= |data|
    ensures LittleOf(data[limit + 4 * k..limit + 4 * k + 4]) < Off(items, j) <==> starts[k] < j
  {
    hide Varint, ItemBytes, Tail, Off, Words, Little, Restarts;
    ChainFits(items);
    RestartPoint(data, limit, numRestarts, items, starts, k);
    if starts[k] < j {
      OffIncreases(items, starts[k], j);
    } else {
      OffIncreases(items, j, starts[k]);
    }
  }

  // ----- Round trips -----

  function Pairs(items: seq<Item>): seq<(Bytes, Bytes)> {
    seq(|items|, i requires 0 <= i < |items| => (items[i].key, items[i].value))
  }

  /** MAIN: iterating over a block built from entries yields the entries, whatever the restart interval. */
  method BuildAndRead(entries: seq<(Bytes, Bytes)>, interval: nat, less: (Bytes, Bytes) -> bool)
    returns (block: Bytes, read: seq<(Bytes, Bytes)>)
    requires interval >= 1
    ensures |block| < MAX32 ==> read == entries
  {
    hide Holds, BlockBytes, Chained, Restarts, Off;
    ghost var items, starts;
    block, items, starts := Build(entries, interval);
    read := [];
    var ok, limit, numRestarts := OpenBlock(block, items, starts);
    if !ok || numRestarts == 0 {
      return;
    }
    var it := new BlockIter(block, limit, numRestarts, less, items, starts);
    it.SeekToFirst();
    ghost var c: nat := 0;
    while it.Valid()
      invariant it.Safe() && fresh(it) && it.items == items && (it.Valid() ==> it.NextEntryOffset() >= it.current + 3)
      invariant it.Good() ==> it.Stands(c) && read == entries[..c]
      decreases it.limit - it.current
    {
      read := read + [(it.key, it.Value())];
      it.Next(c);
      c := c + 1;
    }
  }

  method Build(entries: seq<(Bytes, Bytes)>, interval: nat)
    returns (block: Bytes, ghost items: seq<Item>, ghost starts: seq<nat>)
    requires interval >= 1
    ensures Chained(items) && Restarts(items, starts) && forall k | 0 <= k < |starts| :: starts[k] <= |items|
    ensures block == BlockBytes(items, starts) && Pairs(items) == entries
  {
    hide BlockBytes, Chained, Restarts;
    var builder := new BlockBuilder(interval);
    for i := 0 to |entries|
      invariant builder.Ok() && fresh(builder) && Pairs(builder.items) == entries[..i]
    {
      ghost var it := builder.Add(entries[i].0, entries[i].1);
    }
    block := builder.Finish();
    items, starts := builder.items, builder.starts;
  }

  /** The first entry whose key is not less than the target, or none. */
  ghost predicate SeekGives(entries: seq<(Bytes, Bytes)>, less: (Bytes, Bytes) -> bool, target: Bytes,
    found: Option<(Bytes, Bytes)>)
  {
    match found
    case None => forall j | 0 <= j < |entries| :: less(entries[j].0, target)
    case Some(e) => exists c: nat :: c < |entries| && FirstEntry(entries, less, target, c) && e == entries[c]
  }

  ghost predicate FirstEntry(entries: seq<(Bytes, Bytes)>, less: (Bytes, Bytes) -> bool, target: Bytes, c: nat) {
    c <= |entries| && (forall j | 0 <= j < c :: less(entries[j].0, target)) &&
    (c < |entries| ==> !less(entries[c].0, target))
  }

  /** MAIN: Seek in a block built from entries in order finds the first one at or after the target. */
  method BuildAndSeek(entries: seq<(Bytes, Bytes)>, interval: nat, less: (Bytes, Bytes) -> bool, target: Bytes)
    returns (block: Bytes, found: Option<(Bytes, Bytes)>)
    requires interval >= 1
    requires forall x, y, z :: less(x, y) && less(y, z) ==> less(x, z)
    requires forall i, j | 0 <= i < j < |entries| :: less(entries[i].0, entries[j].0)
    ensures |block| < MAX32 ==> SeekGives(entries, less, target, found)
  {
    hide Holds, BlockBytes, Chained, Restarts, Off;
    ghost var items, starts;
    block, items, starts := Build(entries, interval);
    found := None;
    var ok, limit, numRestarts := OpenBlock(block, items, starts);
    if !ok || numRestarts == 0 {
      return;
    }
    assert forall i | 0 <= i < |items| :: items[i].key == Pairs(items)[i].0 && items[i].value == Pairs(items)[i].1;
    var it := new BlockIter(block, limit, numRestarts, less, items, starts);
    assert |block| < MAX32 ==> it.Good();
    assert forall i, j | 0 <= i < j < |items| :: less(items[i].key, items[j].key);
    ghost var c := it.Seek(target);
    if it.Valid() {
      found := Some((it.key, it.Value()));
    }
    assert |block| < MAX32 ==> FirstEntry(entries, less, target, c);
  }
}
