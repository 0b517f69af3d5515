/** Number encodings that LevelDB and nanopb share: base-128 varints (Protocol Buffers Encoding specification,
    section "Base 128 Varints") and little-endian words. */
module Encodings {
  import opened Entries

  const MAX32: nat := 0x1_0000_0000
  const MAX64: nat := 0x1_0000_0000_0000_0000

  // ----- Varints -----

  function Varint(n: nat): (r: Bytes)
    ensures |r| >= 1
  {
    if n < 128 then [n as Byte] else [(n % 128 + 128) as Byte] + Varint(n / 128)
  }

  function Pow128(k: nat): nat {
    if k == 0 then 1 else 128 * Pow128(k - 1)
  }

  lemma {:induction false} VarintLength(n: nat, k: nat)
    requires k > 0 && n < Pow128(k)
    ensures |Varint(n)| <= k
  {
    if n >= 128 {
      assert n / 128 < Pow128(k - 1);
      VarintLength(n / 128, k - 1);
    }
  }

  lemma Varint64Length(n: nat)
    requires n < MAX64
    ensures |Varint(n)| <= 10
  {
    Pow128Values();
    VarintLength(n, 10);
  }

  lemma VarintUnfolds(n: nat)
    ensures Varint(n) == if n < 128 then [n as Byte] else [(n % 128 + 128) as Byte] + Varint(n / 128)
  {
  }

  lemma VarintFront(n: nat, rest: Bytes)
    ensures var b := Varint(n) + rest;
      if n < 128 then b[0] == n as Byte && b[1..] == rest
      else b[0] == (n % 128 + 128) as Byte && b[1..] == Varint(n / 128) + rest
  {
    if n >= 128 {
      var tail := Varint(n / 128);
      assert [(n % 128 + 128) as Byte] + tail + rest == [(n % 128 + 128) as Byte] + (tail + rest);
    }
  }

  /** Seven more bits at `scale`, in a register of `limit` values. */
  function Mix(result: nat, b: Byte, scale: nat, limit: nat): (r: nat)
    requires limit > 0
    ensures r < limit
  {
    (result + (b as nat % 128) * scale) % limit
  }

  /** Decoding n has read k bytes: they gave `result`, and v is still to come. */
  ghost predicate Underway(n: nat, limit: nat, k: nat, scale: nat, result: nat, v: nat) {
    n < limit && result + scale * v == n && scale == Pow128(k) && (v > 0 || k == 0)
  }

  lemma UnderwayStep(n: nat, limit: nat, k: nat, scale: nat, result: nat, v: nat, b: Byte)
    requires Underway(n, limit, k, scale, result, v) && b as nat % 128 == v % 128
    ensures v >= 128 ==> Underway(n, limit, k + 1, scale * 128, Mix(result, b, scale, limit), v / 128)
    ensures v < 128 ==> Mix(result, b, scale, limit) == n
    ensures scale * v < limit
  {
    hide Pow128;
    Pow128Splits(scale, v);
    Commutes(scale, v % 128);
    ProductIsNat(scale * 128, v / 128);
    MixSmall(result, b, scale, limit, v);
    Pow128Next(k);
  }

  lemma MixSmall(result: nat, b: Byte, scale: nat, limit: nat, v: nat)
    requires b as nat % 128 == v % 128 && result + (v % 128) * scale < limit
    ensures Mix(result, b, scale, limit) == result + (v % 128) * scale
  {
  }

  lemma Pow128Next(k: nat)
    ensures Pow128(k + 1) == Pow128(k) * 128
  {
  }

  lemma Pow128Splits(scale: nat, n: nat)
    ensures scale * (n % 128) + (scale * 128) * (n / 128) == scale * n
  {
    var q, r := n / 128, n % 128;
    assert n == r + 128 * q;
    Distributes(scale, r, q);
  }

  lemma Distributes(a: nat, b: nat, c: nat)
    ensures a * b + (a * 128) * c == a * (b + 128 * c)
  {
  }

  lemma Commutes(a: nat, b: nat)
    ensures a * b == b * a
  {
  }

  lemma ProductIsNat(a: nat, b: nat)
    ensures a * b >= 0 && (b == 0 ==> a * b == 0) && (b > 0 ==> a * b >= a)
  {
  }

  /** A number below the limit has run out before the register does. */
  lemma UnderwayEnds(n: nat, limit: nat, k: nat, scale: nat, result: nat, v: nat)
    requires Underway(n, limit, k, scale, result, v) && v > 0
    ensures limit == MAX64 ==> k < 10
    ensures limit == MAX32 ==> k < 5 && (k == 4 ==> v < 16)
  {
    ProductIsNat(scale, v);
    Pow128Values();
    if k >= 5 {
      Pow128Grows(5, k);
    }
    if k >= 10 {
      Pow128Grows(10, k);
    }
  }

  lemma {:induction false} Pow128Grows(a: nat, b: nat)
    requires a <= b
    ensures Pow128(a) <= Pow128(b)
  {
    if a < b {
      Pow128Grows(a, b - 1);
    }
  }

  lemma Pow128Values()
    ensures Pow128(4) == 0x1000_0000 && Pow128(5) == 0x8_0000_0000 && Pow128(10) >= MAX64
  {
    assert Pow128(4) == 128 * 128 * 128 * 128;
    assert Pow128(5) == 128 * Pow128(4);
    assert Pow128(8) == 128 * 128 * 128 * Pow128(5);
  }

  lemma UnderwayStarts(n: nat, limit: nat)
    requires n < limit
    ensures Underway(n, limit, 0, 1, 0, n)
  {
  }

  lemma MixFirst(b: Byte)
    ensures Mix(0, b, 1, MAX32) == b as nat % 128
  {
  }

  // ----- Fixed-width words -----

  /** n in k bytes, least significant first. */
  function Little(n: nat, k: nat): (r: Bytes)
    ensures |r| == k
  {
    if k == 0 then [] else [(n % 256) as Byte] + Little(n / 256, k - 1)
  }

  function LittleOf(b: Bytes): nat {
    if b == [] then 0 else b[0] as nat + 256 * LittleOf(b[1..])
  }

  function Pow256(k: nat): (r: nat)
    ensures r > 0
  {
    if k == 0 then 1 else 256 * Pow256(k - 1)
  }

  lemma {:induction false} LittleRoundTrip(n: nat, k: nat)
    requires n < Pow256(k)
    ensures LittleOf(Little(n, k)) == n
  {
    if k > 0 {
      LittleRoundTrip(n / 256, k - 1);
    }
  }

  lemma {:induction false} LittleBounded(b: Bytes)
    ensures LittleOf(b) < Pow256(|b|)
  {
    if b != [] {
      LittleBounded(b[1..]);
    }
  }

  lemma Pow256Values()
    ensures Pow256(4) == MAX32 && Pow256(8) == MAX64
  {
    assert Pow256(4) == 256 * 256 * 256 * 256;
    assert Pow256(8) == 256 * 256 * 256 * 256 * Pow256(4);
  }

  /** A 32-bit word: what does not fit is lost. */
  function Word(n: nat): (r: nat)
    ensures r < MAX32
  {
    n % MAX32
  }

  lemma WordSmall(n: nat)
    requires n < MAX32
    ensures Word(n) == n
  {
  }
}
