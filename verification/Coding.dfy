/** Byte encodings of LevelDB (util/coding.cc): little-endian words, varints and length-prefixed strings. */
module Coding {
  import opened Entries
  import opened Encodings

  /** PutVarint64, and PutVarint32 for small values: the loop of EncodeVarint64. */
  method PutVarint(dst: Bytes, value: nat) returns (r: Bytes)
    ensures r == dst + Varint(value)
  {
    hide Varint;
    r := dst;
    var v := value;
    while v >= 128
      invariant r + Varint(v) == dst + Varint(value)
    {
      VarintUnfolds(v);
      assert r + ([(v % 128 + 128) as Byte] + Varint(v / 128)) == r + [(v % 128 + 128) as Byte] + Varint(v / 128);
      r, v := r + [(v % 128 + 128) as Byte], v / 128;
    }
    VarintUnfolds(v);
    r := r + [v as Byte];
  }

  /** The bytes from p up to the limit start with `front`. */
  ghost predicate Starts(data: Bytes, p: nat, limit: nat, front: Bytes) {
    p <= limit <= |data| && front <= data[p..limit]
  }

  lemma StartsMoves(data: Bytes, p: nat, limit: nat, a: Bytes, b: Bytes)
    requires Starts(data, p, limit, a + b)
    ensures p + |a| <= limit && Starts(data, p + |a|, limit, b) && data[p..p + |a|] == a
    ensures a != [] ==> p < limit && data[p] == a[0]
  {
    var rest := data[p..limit];
    assert (a + b)[..|a|] == a && (a + b)[|a|..] == b;
    assert rest[..|a|] == (a + b)[..|a|];
    assert data[p + |a|..limit] == rest[|a|..];
  }

  /** A varint of a 32-bit or a 64-bit word takes at most five or ten bytes. */
  function VarintMax(range: nat): nat {
    if range == MAX32 then 5 else 10
  }

  /** Decoding any bytes, k bytes on the way: seven bits at a time, bits shifted out at the top are lost. */
  function VarintFrom(data: Bytes, p: nat, limit: nat, range: nat, k: nat, scale: nat, result: nat): (r: Option<(nat, nat)>)
    requires limit <= |data| && range > 0
    ensures r.Some? ==> r.value.0 < range && p < r.value.1 <= limit
    decreases limit - p
  {
    if k >= VarintMax(range) || p >= limit then None
    else
      var mixed := Mix(result, data[p], scale, range);
      if data[p] < 128 then Some((mixed, p + 1)) else VarintFrom(data, p + 1, limit, range, k + 1, scale * 128, mixed)
  }

  /** The varint at p and the place behind it, or None. */
  function ReadVarint(data: Bytes, p: nat, limit: nat, range: nat): (r: Option<(nat, nat)>)
    requires limit <= |data| && range > 0
    ensures r.Some? ==> r.value.0 < range && p < r.value.1 <= limit
  {
    VarintFrom(data, p, limit, range, 0, 1, 0)
  }

  lemma {:induction false} VarintFromIs(data: Bytes, p: nat, limit: nat, range: nat, n: nat, k: nat, scale: nat, result: nat,
      v: nat)
    requires limit <= |data| && (range == MAX32 || range == MAX64)
    requires Starts(data, p, limit, Varint(v)) && Underway(n, range, k, scale, result, v)
    ensures VarintFrom(data, p, limit, range, k, scale, result) == Some((n, p + |Varint(v)|))
    decreases limit - p
  {
    hide Varint, Underway, Mix, Pow128;
    VarintUnfolds(v);
    StartsMoves(data, p, limit, [Varint(v)[0]], Varint(v)[1..]);
    assert [Varint(v)[0]] + Varint(v)[1..] == Varint(v);
    UnderwayStep(n, range, k, scale, result, v, data[p]);
    InTime(n, range, k, scale, result, v);
    if v >= 128 {
      VarintFromIs(data, p + 1, limit, range, n, k + 1, scale * 128, Mix(result, data[p], scale, range), v / 128);
    }
  }

  lemma InTime(n: nat, range: nat, k: nat, scale: nat, result: nat, v: nat)
    requires (range == MAX32 || range == MAX64) && Underway(n, range, k, scale, result, v)
    ensures k < VarintMax(range)
  {
    if v > 0 {
      UnderwayEnds(n, range, k, scale, result, v);
    }
  }

  /** Reading back. */
  lemma VarintReads(data: Bytes, p: nat, limit: nat, range: nat, n: nat)
    requires limit <= |data| && (range == MAX32 || range == MAX64) && n < range && Starts(data, p, limit, Varint(n))
    ensures ReadVarint(data, p, limit, range) == Some((n, p + |Varint(n)|))
  {
    hide Varint, Underway, Starts, VarintFrom;
    UnderwayStarts(n, range);
    VarintFromIs(data, p, limit, range, n, 0, 1, 0, n);
  }

  /** GetVarint32Ptr and GetVarint64Ptr, for words of `range` values. */
  method GetVarint(data: Bytes, p: nat, limit: nat, range: nat) returns (ok: bool, value: nat, q: nat)
    requires limit <= |data| && (range == MAX32 || range == MAX64)
    ensures value < range && if ok then p < q <= limit && q <= p + (if range == MAX32 then 5 else 10) else q == p
    ensures (if ok then Some((value, q)) else None) == ReadVarint(data, p, limit, range)
  {
    hide Varint, Mix;
    var bytes := VarintMax(range);
    var k: nat, scale: nat, result: nat := 0, 1, 0;
    q := p;
    while k < bytes && q < limit
      invariant q == p + k && result < range && k <= bytes && (k > 0 ==> q <= limit)
      invariant VarintFrom(data, q, limit, range, k, scale, result) == ReadVarint(data, p, limit, range)
    {
      var b := data[q];
      q := q + 1;
      result := Mix(result, b, scale, range);
      scale, k := scale * 128, k + 1;
      if b < 128 {
        return true, result, q;
      }
    }
    return false, 0, p;
  }

  /** PutLengthPrefixedSlice. */
  function Prefixed(b: Bytes): Bytes {
    Varint(|b|) + b
  }

  method PutLengthPrefixed(dst: Bytes, b: Bytes) returns (r: Bytes)
    ensures r == dst + Prefixed(b)
  {
    hide Varint;
    r := PutVarint(dst, |b|);
    assert dst + Varint(|b|) + b == dst + (Varint(|b|) + b);
    r := r + b;
  }

  /** The string behind its length at p and the place behind it, or None: no length, or fewer bytes than that. */
  function ReadPrefixed(data: Bytes, p: nat): (r: Option<(Bytes, nat)>)
    requires p <= |data|
    ensures r.Some? ==> p < r.value.1 <= |data| && |r.value.0| < MAX32
  {
    var n := ReadVarint(data, p, |data|, MAX32);
    if n.Some? && n.value.1 + n.value.0 <= |data| then
      Some((data[n.value.1..n.value.1 + n.value.0], n.value.1 + n.value.0))
    else None
  }

  lemma PrefixedReads(data: Bytes, p: nat, b: Bytes)
    requires p <= |data| && |b| < MAX32 && Starts(data, p, |data|, Prefixed(b))
    ensures ReadPrefixed(data, p) == Some((b, p + |Prefixed(b)|))
  {
    hide Varint, ReadVarint;
    StartsMoves(data, p, |data|, Varint(|b|), b);
    assert Varint(|b|) <= data[p..];
    VarintReads(data, p, |data|, MAX32, |b|);
    var q := p + |Varint(|b|)|;
    assert b <= data[q..|data|];
    assert data[q..q + |b|] == data[q..|data|][..|b|] == b;
  }

  /** GetLengthPrefixedSlice. */
  method GetLengthPrefixed(data: Bytes, p: nat) returns (ok: bool, r: Bytes, q: nat)
    requires p <= |data|
    ensures if ok then p < q <= |data| else q == p
    ensures (if ok then Some((r, q)) else None) == ReadPrefixed(data, p)
  {
    hide Varint, ReadVarint;
    var length;
    ok, length, q := GetVarint(data, p, |data|, MAX32);
    if !ok || q + length > |data| {
      return false, [], p;
    }
    r := data[q..q + length];
    q := q + length;
  }

  // ----- Slices taken from the front -----

  /** What is left of the input from p on. */
  ghost predicate Left(data: Bytes, p: nat, rest: Bytes) {
    p <= |data| && data[p..] == rest
  }

  lemma LeftMoves(data: Bytes, p: nat, a: Bytes, rest: Bytes)
    requires Left(data, p, a + rest)
    ensures Starts(data, p, |data|, a) && p + |a| <= |data| && Left(data, p + |a|, rest)
  {
    assert data[p..|data|] == data[p..];
    assert (a + rest)[..|a|] == a && (a + rest)[|a|..] == rest;
  }

  lemma NumberReads(data: Bytes, p: nat, range: nat, n: nat, rest: Bytes)
    requires (range == MAX32 || range == MAX64) && n < range && Left(data, p, Varint(n) + rest)
    ensures ReadVarint(data, p, |data|, range) == Some((n, p + |Varint(n)|)) && Left(data, p + |Varint(n)|, rest)
  {
    hide Varint, Starts, ReadVarint, Left;
    LeftMoves(data, p, Varint(n), rest);
    VarintReads(data, p, |data|, range, n);
  }

  lemma StringReads(data: Bytes, p: nat, s: Bytes, rest: Bytes)
    requires |s| < MAX32 && Left(data, p, Prefixed(s) + rest)
    ensures ReadPrefixed(data, p) == Some((s, p + |Prefixed(s)|)) && Left(data, p + |Prefixed(s)|, rest)
  {
    hide Varint, Starts, ReadPrefixed, Prefixed;
    LeftMoves(data, p, Prefixed(s), rest);
    PrefixedReads(data, p, s);
  }

  // ----- Arrays of words -----

  /** An array of 32-bit words. */
  function Words(ns: seq<nat>): (r: Bytes)
    ensures |r| == 4 * |ns|
  {
    if ns == [] then [] else Words(ns[..|ns| - 1]) + Little(ns[|ns| - 1], 4)
  }

  method PutWords(ns: seq<nat>) returns (r: Bytes)
    ensures r == Words(ns)
  {
    hide Little;
    r := [];
    for i := 0 to |ns|
      invariant r == Words(ns[..i])
    {
      assert ns[..i + 1][..i] == ns[..i];
      r := r + Little(ns[i], 4);
    }
    assert ns[..|ns|] == ns;
  }

  lemma {:induction false} WordAt(ns: seq<nat>, k: nat)
    requires k < |ns|
    ensures 4 * k + 4 <= |Words(ns)| && Words(ns)[4 * k..4 * k + 4] == Little(ns[k], 4)
  {
    hide Little;
    if k < |ns| - 1 {
      WordAt(ns[..|ns| - 1], k);
    }
  }
}
