/** The Bloom filter policy (util/bloom.cc). The hash function is a parameter. */
module Bloom {
  import opened Entries
  import opened Encodings

  // ----- Bits of a byte -----

  /** (b >> i) & 1 */
  predicate Bit(b: nat, i: nat) {
    if i == 0 then b % 2 == 1 else Bit(b / 2, i - 1)
  }

  /** b | (1 << i) */
  function Or(b: nat, i: nat): nat {
    if i == 0 then b / 2 * 2 + 1 else Or(b / 2, i - 1) * 2 + b % 2
  }

  lemma {:induction false} OrSetsBit(b: nat, i: nat, j: nat)
    ensures Bit(Or(b, i), j) <==> j == i || Bit(b, j)
  {
    if i > 0 && j > 0 {
      OrSetsBit(b / 2, i - 1, j - 1);
      assert Or(b, i) / 2 == Or(b / 2, i - 1);
    }
  }

  function Pow2(n: nat): (r: nat)
    ensures r > 0
  {
    if n == 0 then 1 else 2 * Pow2(n - 1)
  }

  lemma {:induction false} OrFits(b: nat, i: nat, n: nat)
    requires i < n && b < Pow2(n)
    ensures Or(b, i) < Pow2(n)
  {
    if i > 0 {
      OrFits(b / 2, i - 1, n - 1);
    }
  }

  lemma Pow2Of8()
    ensures Pow2(8) == 256
  {
    assert Pow2(4) == 16;
  }

  function SetBit(b: Byte, i: nat): Byte
    requires i < 8
  {
    Pow2Of8();
    OrFits(b as nat, i, 8);
    Or(b as nat, i) as Byte
  }

  /** Bit p of the bitmap. */
  predicate BitAt(bitmap: Bytes, p: nat)
    requires p < 8 * |bitmap|
  {
    Bit(bitmap[p / 8] as nat, p % 8)
  }

  // ----- Probes -----

  /** Rotate right 17 bits. */
  function Delta(h: nat): nat {
    h / 0x20000 + h % 0x20000 * 0x8000
  }

  /** The hash value of probe j. */
  function ProbeHash(h: nat, j: nat): nat {
    if j == 0 then h else (ProbeHash(h, j - 1) + Delta(h)) % MAX32
  }

  function Probe(h: nat, j: nat, bits: nat): (r: nat)
    requires bits > 0
    ensures r < bits
  {
    ProbeHash(h, j) % bits
  }

  /** BloomFilterPolicy's k_ (0.69 is about ln(2)). */
  function Probes(bitsPerKey: nat): (k: nat)
    ensures 1 <= k <= 30
  {
    var k := bitsPerKey * 69 / 100;
    if k < 1 then 1 else if k > 30 then 30 else k
  }

  /** Seventeen bits to the right and fifteen more are all 32: a rotation, which moves the lowest bit to place 15. */
  lemma DeltaIsRotation(h: nat)
    requires h < MAX32
    ensures Delta(h) < MAX32 && Delta(h) / 0x8000 + Delta(h) % 0x8000 * 0x2_0000 == h
    ensures Delta(1) == 0x8000 && Delta(0x2_0000) == 1
  {
    var high, low := h / 0x2_0000, h % 0x2_0000;
    assert high < 0x8000 && Delta(h) == high + low * 0x8000;
  }

  /** ln(2) probes for each bit of a key, rounded down; at least one, at most thirty. */
  lemma ProbesAre(bitsPerKey: nat)
    ensures var k := Probes(bitsPerKey);
      if bitsPerKey < 2 then k == 1
      else if bitsPerKey > 44 then k == 30
      else k as real <= 0.69 * bitsPerKey as real < k as real + 1.0
  {
  }

  // ----- Filters -----

  /** One of the first k probes of one of the keys hits bit p. */
  ghost predicate Hit(hash: Bytes -> nat, keys: seq<Bytes>, k: nat, bits: nat, p: nat)
    requires bits > 0
  {
    exists i, j: nat :: 0 <= i < |keys| && j < k && Probe(hash(keys[i]), j, bits) == p
  }

  /** The first k probes find their bits set. */
  ghost predicate AllSet(h: nat, k: nat, bitmap: Bytes, bits: nat)
    requires bits == 8 * |bitmap| > 0
  {
    forall j: nat | j < k :: BitAt(bitmap, Probe(h, j, bits))
  }

  /** The set bits are exactly those the probes of the keys hit. */
  ghost predicate Exactly(hash: Bytes -> nat, keys: seq<Bytes>, k: nat, bitmap: Bytes, bits: nat)
    requires bits == 8 * |bitmap| > 0
  {
    forall p: nat | p < bits :: BitAt(bitmap, p) <==> Hit(hash, keys, k, bits, p)
  }

  /** What KeyMayMatch answers. */
  ghost predicate MayMatch(hash: Bytes -> nat, key: Bytes, filter: Bytes) {
    |filter| >= 2 &&
    var k := filter[|filter| - 1] as nat;
    k > 30 ||
    AllSet(hash(key), k, filter[..|filter| - 1], 8 * (|filter| - 1))
  }

  /** A filter made of the keys with k probes each. */
  ghost predicate IsFilter(hash: Bytes -> nat, keys: seq<Bytes>, k: nat, filter: Bytes) {
    |filter| >= 9 && filter[|filter| - 1] as nat == k <= 30 &&
    Exactly(hash, keys, k, filter[..|filter| - 1], 8 * (|filter| - 1))
  }

  /** MAIN: no false negatives. */
  lemma NoFalseNegatives(hash: Bytes -> nat, keys: seq<Bytes>, k: nat, filter: Bytes, key: Bytes)
    requires IsFilter(hash, keys, k, filter) && key in keys
    ensures MayMatch(hash, key, filter)
  {
    var i :| 0 <= i < |keys| && keys[i] == key;
    var bitmap, bits := filter[..|filter| - 1], 8 * (|filter| - 1);
    forall j: nat | j < k
      ensures BitAt(bitmap, Probe(hash(key), j, bits))
    {
      assert Hit(hash, keys, k, bits, Probe(hash(keys[i]), j, bits));
    }
  }

  /** Bit p is hit by a key before i, or by one of the first j probes of key i. */
  ghost predicate HitSoFar(hash: Bytes -> nat, keys: seq<Bytes>, k: nat, bits: nat, p: nat, i: nat, j: nat)
    requires bits > 0 && i <= |keys|
  {
    Hit(hash, keys[..i], k, bits, p) || (i < |keys| && Hit(hash, [keys[i]], j, bits, p))
  }

  lemma HitsAppend(hash: Bytes -> nat, keys: seq<Bytes>, k: nat, bits: nat, p: nat, i: nat)
    requires bits > 0 && i < |keys|
    ensures Hit(hash, keys[..i + 1], k, bits, p) <==> HitSoFar(hash, keys, k, bits, p, i, k)
  {
    if Hit(hash, keys[..i + 1], k, bits, p) {
      var a, j: nat :| 0 <= a < i + 1 && j < k && Probe(hash(keys[..i + 1][a]), j, bits) == p;
      if a < i {
        assert keys[..i][a] == keys[..i + 1][a];
      } else {
        assert [keys[i]][0] == keys[..i + 1][a];
      }
    }
    if Hit(hash, keys[..i], k, bits, p) {
      var a, j: nat :| 0 <= a < i && j < k && Probe(hash(keys[..i][a]), j, bits) == p;
      assert keys[..i][a] == keys[..i + 1][a];
    }
    if Hit(hash, [keys[i]], k, bits, p) {
      var a, j: nat :| 0 <= a < 1 && j < k && Probe(hash([keys[i]][a]), j, bits) == p;
      assert keys[..i + 1][i] == [keys[i]][a];
    }
  }

  lemma HitStep(hash: Bytes -> nat, key: Bytes, bits: nat, p: nat, j: nat)
    requires bits > 0
    ensures Hit(hash, [key], j + 1, bits, p) <==> Hit(hash, [key], j, bits, p) || Probe(hash(key), j, bits) == p
  {
    if Hit(hash, [key], j + 1, bits, p) {
      var a, m: nat :| 0 <= a < 1 && m < j + 1 && Probe(hash([key][a]), m, bits) == p;
      assert m == j || (m < j && Probe(hash([key][a]), m, bits) == p);
    }
    if Probe(hash(key), j, bits) == p {
      assert Probe(hash([key][0]), j, bits) == p;
    }
  }

  /** The probes of one key: the inner loop of CreateFilter. */
  method AddToFilter(hash: Bytes -> nat, key: Bytes, k: nat, bitmap: array<Byte>)
    requires bitmap.Length > 0
    modifies bitmap
    ensures forall p: nat | p < 8 * bitmap.Length ::
      BitAt(bitmap[..], p) <==> old(BitAt(bitmap[..], p)) || Hit(hash, [key], k, 8 * bitmap.Length, p)
  {
    hide Probe, Bit, SetBit, Delta;
    var bits := 8 * bitmap.Length;
    var h := hash(key);
    var delta := Delta(h);
    for j := 0 to k
      invariant h == ProbeHash(hash(key), j)
      invariant forall p: nat | p < bits ::
        BitAt(bitmap[..], p) <==> old(BitAt(bitmap[..], p)) || Hit(hash, [key], j, bits, p)
    {
      var bitpos := h % bits;
      ghost var before := bitmap[..];
      bitmap[bitpos / 8] := SetBit(bitmap[bitpos / 8], bitpos % 8);
      SetsOne(before, bitmap[..], bitpos);
      forall p: nat | p < bits
        ensures Hit(hash, [key], j + 1, bits, p) <==> Hit(hash, [key], j, bits, p) || p == bitpos
      {
        ProbeIs(hash(key), j, bits);
        HitStep(hash, key, bits, p, j);
      }
      h := (h + delta) % MAX32;
    }
  }

  lemma ProbeIs(h: nat, j: nat, bits: nat)
    requires bits > 0
    ensures Probe(h, j, bits) == ProbeHash(h, j) % bits
  {
  }

  lemma SetsOne(before: Bytes, after: Bytes, bitpos: nat)
    requires |before| == |after| && bitpos < 8 * |before|
    requires after == before[bitpos / 8 := SetBit(before[bitpos / 8], bitpos % 8)]
    ensures forall p: nat | p < 8 * |before| :: BitAt(after, p) <==> BitAt(before, p) || p == bitpos
  {
    forall p: nat | p < 8 * |before|
      ensures BitAt(after, p) <==> BitAt(before, p) || p == bitpos
    {
      if p / 8 == bitpos / 8 {
        OrSetsBit(before[p / 8] as nat, bitpos % 8, p % 8);
      } else {
        assert after[p / 8] == before[p / 8];
      }
    }
  }

  /** BloomFilterPolicy::CreateFilter. */
  method CreateFilter(hash: Bytes -> nat, bitsPerKey: nat, keys: seq<Bytes>, dst: Bytes) returns (r: Bytes)
    ensures dst <= r && IsFilter(hash, keys, Probes(bitsPerKey), r[|dst|..])
    ensures |r| - |dst| == (if |keys| * bitsPerKey < 64 then 64 else |keys| * bitsPerKey + 7) / 8 + 1
  {
    hide Bit, Hit;
    var bits := |keys| * bitsPerKey;
    if bits < 64 {
      bits := 64;
    }
    var bytes := (bits + 7) / 8;
    bits := bytes * 8;
    var k := Probes(bitsPerKey);
    var bitmap := new Byte[bytes](_ => 0);
    NoBits(bitmap[..]);
    NoHits(hash, k, bits);
    assert keys[..0] == [];
    for i := 0 to |keys|
      invariant Exactly(hash, keys[..i], k, bitmap[..], bits)
    {
      AddToFilter(hash, keys[i], k, bitmap);
      forall p: nat | p < bits
        ensures BitAt(bitmap[..], p) <==> Hit(hash, keys[..i + 1], k, bits, p)
      {
        HitsAppend(hash, keys, k, bits, p, i);
      }
    }
    assert keys[..|keys|] == keys;
    r := dst + bitmap[..] + [k as Byte];
    assert r[|dst|..] == bitmap[..] + [k as Byte];
    assert r[|dst|..][..bytes] == bitmap[..];
  }

  lemma NoBits(bitmap: Bytes)
    requires forall i | 0 <= i < |bitmap| :: bitmap[i] == 0
    ensures forall p: nat | p < 8 * |bitmap| :: !BitAt(bitmap, p)
  {
    forall p: nat | p < 8 * |bitmap|
      ensures !BitAt(bitmap, p)
    {
      ZeroHasNoBits(p % 8);
    }
  }

  lemma {:induction false} ZeroHasNoBits(i: nat)
    ensures !Bit(0, i)
  {
    if i > 0 {
      ZeroHasNoBits(i - 1);
    }
  }

  lemma NoHits(hash: Bytes -> nat, k: nat, bits: nat)
    requires bits > 0
    ensures forall p :: !Hit(hash, [], k, bits, p)
  {
  }

  /** BloomFilterPolicy::KeyMayMatch. */
  method KeyMayMatch(hash: Bytes -> nat, key: Bytes, filter: Bytes) returns (b: bool)
    ensures b == MayMatch(hash, key, filter)
  {
    hide Bit;
    var len := |filter|;
    if len < 2 {
      return false;
    }
    var bitmap := filter[..len - 1];
    var bits := 8 * (len - 1);
    var k := filter[len - 1] as nat;
    if k > 30 {
      return true;
    }
    var h := hash(key);
    var delta := Delta(h);
    for j := 0 to k
      invariant h == ProbeHash(hash(key), j)
      invariant forall i: nat | i < j :: BitAt(bitmap, Probe(hash(key), i, bits))
    {
      var bitpos := h % bits;
      if !Bit(bitmap[bitpos / 8] as nat, bitpos % 8) {
        assert !BitAt(bitmap, Probe(hash(key), j, bits));
        return false;
      }
      h := (h + delta) % MAX32;
    }
    return true;
  }
}
