/** The default comparator (util/comparator.cc) and the keys it shortens for index blocks (db/dbformat.cc),
    on the bytes themselves. `Rank` embeds the byte order in the reals, which the other modules use for
    user keys. */
module KeyOrder {
  import opened Entries
  import opened Encodings

  /** Slice::compare(a, b) < 0: bytewise, a proper prefix first. */
  predicate BytesLess(a: Bytes, b: Bytes) {
    b != [] && (a == [] || a[0] < b[0] || (a[0] == b[0] && BytesLess(a[1..], b[1..])))
  }

  function Rank(s: Bytes): (r: real)
    ensures 0.0 <= r < 1.0
    ensures s != [] ==> 0.0 < r
  {
    if s == [] then 0.0 else (s[0] as real + 1.0 + Rank(s[1..])) / 257.0
  }

  /** The rank is an order embedding: it keeps and reflects the order, and tells all keys apart. */
  lemma {:induction false} RankIsOrder(a: Bytes, b: Bytes)
    ensures BytesLess(a, b) <==> Rank(a) < Rank(b)
    ensures a == b <==> Rank(a) == Rank(b)
  {
    if a != [] && b != [] {
      if a[0] == b[0] {
        RankIsOrder(a[1..], b[1..]);
        assert a == [a[0]] + a[1..] && b == [b[0]] + b[1..];
      } else if a[0] < b[0] {
        assert a[0] as real + 1.0 <= b[0] as real;
      } else {
        assert b[0] as real + 1.0 <= a[0] as real;
      }
    }
  }

  /** The index where both strings first differ, if neither is a prefix of the other. */
  predicate FirstDifference(a: Bytes, b: Bytes, d: nat) {
    d < |a| && d < |b| && (forall i | 0 <= i < d :: a[i] == b[i]) && a[d] != b[d]
  }

  lemma {:induction false} DifferenceDecides(a: Bytes, b: Bytes, d: nat)
    requires FirstDifference(a, b, d)
    ensures BytesLess(a, b) <==> a[d] < b[d]
  {
    if d > 0 {
      DifferenceDecides(a[1..], b[1..], d - 1);
    }
  }

  /** There is a byte strictly between the two first differing ones. */
  predicate HasGap(start: Bytes, limit: Bytes, d: nat) {
    FirstDifference(start, limit, d) && start[d] as int + 1 < limit[d] as int
  }

  /** BytewiseComparatorImpl::FindShortestSeparator. */
  method FindShortestSeparator(start: Bytes, limit: Bytes) returns (r: Bytes)
    ensures forall d: nat | HasGap(start, limit, d) :: r == start[..d] + [start[d] + 1]
    ensures (forall d: nat :: !HasGap(start, limit, d)) ==> r == start
    ensures r == start || BytesLess(start, r)
    ensures BytesLess(start, limit) ==> BytesLess(r, limit)
  {
    r := start;
    var minLength := if |start| < |limit| then |start| else |limit|;
    var diff := 0;
    while diff < minLength && start[diff] == limit[diff]
      invariant diff <= minLength && forall i | 0 <= i < diff :: start[i] == limit[i]
    {
      diff := diff + 1;
    }
    assert forall d: nat | FirstDifference(start, limit, d) :: d == diff;
    if diff < minLength {
      var diffByte := start[diff];
      if diffByte < 0xff && diffByte + 1 < limit[diff] {
        r := r[diff := diffByte + 1][..diff + 1];
        assert HasGap(start, limit, diff);
        assert FirstDifference(start, r, diff) && FirstDifference(r, limit, diff);
        DifferenceDecides(start, r, diff);
        DifferenceDecides(r, limit, diff);
      }
    }
  }

  /** The first byte that can be incremented. */
  predicate FirstBelow(key: Bytes, i: nat) {
    i < |key| && key[i] != 0xff && forall j | 0 <= j < i :: key[j] == 0xff
  }

  /** BytewiseComparatorImpl::FindShortSuccessor. */
  method FindShortSuccessor(key: Bytes) returns (r: Bytes)
    ensures (forall b | b in key :: b == 0xff) ==> r == key
    ensures forall i | 0 <= i < |key| && FirstBelow(key, i) :: r == key[..i] + [key[i] + 1]
    ensures r == key || BytesLess(key, r)
  {
    r := key;
    for i := 0 to |key|
      invariant r == key && forall j | 0 <= j < i :: key[j] == 0xff
    {
      var byte := key[i];
      if byte != 0xff {
        assert byte in key;
        r := r[i := byte + 1][..i + 1];
        assert FirstDifference(key, r, i);
        DifferenceDecides(key, r, i);
        return;
      }
    }
  }

  /** An internal key as stored: the user key's bytes and the tag. */
  datatype StoredKey = StoredKey(user: Bytes, sequence: nat, kind: ValueType)

  function KeyOf(k: StoredKey): IKey {
    IKey(Rank(k.user), k.sequence, k.kind)
  }

  /** InternalKeyComparator::FindShortestSeparator: what the index stores between two blocks separates them. */
  method InternalSeparator(start: StoredKey, limit: StoredKey) returns (r: StoredKey)
    ensures AtMost(KeyOf(start), KeyOf(r)) && |r.user| <= |start.user|
    ensures Less(KeyOf(start), KeyOf(limit)) ==> Less(KeyOf(r), KeyOf(limit))
    ensures Less(KeyOf(start), KeyOf(limit)) && r != start ==> BytesLess(r.user, limit.user)
    ensures r != start ==> |r.user| < |start.user| && r.sequence == MAX_SEQUENCE && r.kind == Value
    ensures forall d: nat | HasGap(start.user, limit.user, d) && d + 1 < |start.user| ::
      r == StoredKey(start.user[..d] + [start.user[d] + 1], MAX_SEQUENCE, Value)
    ensures (forall d: nat | HasGap(start.user, limit.user, d) :: d + 1 == |start.user|) ==> r == start
  {
    var tmp := FindShortestSeparator(start.user, limit.user);
    RankIsOrder(start.user, tmp);
    RankIsOrder(start.user, limit.user);
    RankIsOrder(tmp, limit.user);
    assert start.user == limit.user ==> forall d: nat :: !HasGap(start.user, limit.user, d);
    if |tmp| < |start.user| && BytesLess(start.user, tmp) {
      r := StoredKey(tmp, MAX_SEQUENCE, Value);
    } else {
      r := start;
    }
  }

  /** InternalKeyComparator::FindShortSuccessor: the key after the last block. */
  method InternalSuccessor(key: StoredKey) returns (r: StoredKey)
    ensures AtMost(KeyOf(key), KeyOf(r)) && |r.user| <= |key.user|
    ensures r != key ==> |r.user| < |key.user| && r.sequence == MAX_SEQUENCE && r.kind == Value
    ensures forall i | 0 <= i < |key.user| && FirstBelow(key.user, i) ::
      r == if i + 1 < |key.user| then StoredKey(key.user[..i] + [key.user[i] + 1], MAX_SEQUENCE, Value) else key
    ensures (forall b | b in key.user :: b == 0xff) ==> r == key
  {
    var tmp := FindShortSuccessor(key.user);
    RankIsOrder(key.user, tmp);
    if |tmp| < |key.user| && BytesLess(key.user, tmp) {
      r := StoredKey(tmp, MAX_SEQUENCE, Value);
    } else {
      r := key;
    }
  }

  // ----- Internal keys as bytes -----

  /** AppendInternalKey: the user key and the tag in eight bytes. */
  function Encoded(k: StoredKey): Bytes {
    k.user + Little(Tag(KeyOf(k)), 8)
  }

  /** ExtractUserKey. */
  function UserOf(k: Bytes): Bytes {
    if |k| >= 8 then k[..|k| - 8] else []
  }

  function TagOf(k: Bytes): nat {
    if |k| >= 8 then LittleOf(k[|k| - 8..]) else 0
  }

  /** InternalKeyComparator::Compare(a, b) < 0 on the encoded keys. */
  predicate InternalLess(a: Bytes, b: Bytes) {
    BytesLess(UserOf(a), UserOf(b)) || (UserOf(a) == UserOf(b) && TagOf(a) > TagOf(b))
  }

  /** The byte form keeps the order, and loses nothing. */
  lemma EncodedOrder(j: StoredKey, k: StoredKey)
    requires j.sequence <= MAX_SEQUENCE && k.sequence <= MAX_SEQUENCE
    ensures InternalLess(Encoded(j), Encoded(k)) <==> Less(KeyOf(j), KeyOf(k))
    ensures Encoded(j) == Encoded(k) ==> j == k
    ensures UserOf(Encoded(j)) == j.user
  {
    EncodedParts(j);
    EncodedParts(k);
    RankIsOrder(j.user, k.user);
  }

  lemma EncodedParts(k: StoredKey)
    requires k.sequence <= MAX_SEQUENCE
    ensures UserOf(Encoded(k)) == k.user && TagOf(Encoded(k)) == Tag(KeyOf(k)) && |Encoded(k)| >= 8
  {
    var e := Encoded(k);
    assert |Little(Tag(KeyOf(k)), 8)| == 8;
    assert e[..|e| - 8] == k.user && e[|e| - 8..] == Little(Tag(KeyOf(k)), 8);
    Pow256Values();
    LittleRoundTrip(Tag(KeyOf(k)), 8);
  }

  lemma InternalLessIsOrder(a: Bytes, b: Bytes, c: Bytes)
    ensures !InternalLess(a, a)
    ensures InternalLess(a, b) && InternalLess(b, c) ==> InternalLess(a, c)
    ensures InternalLess(a, b) ==> !InternalLess(b, a)
    ensures InternalLess(a, b) || InternalLess(b, a) <==> UserOf(a) != UserOf(b) || TagOf(a) != TagOf(b)
  {
    RankIsOrder(UserOf(a), UserOf(b));
    RankIsOrder(UserOf(b), UserOf(c));
    RankIsOrder(UserOf(a), UserOf(c));
    RankIsOrder(UserOf(a), UserOf(a));
    RankIsOrder(UserOf(b), UserOf(a));
  }
}
