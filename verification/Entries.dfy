/** Internal keys and the read specification every other module refines (db/dbformat).

A database is a set of entries; a read of user key `k` at snapshot `s` returns the outcome of the
entry of `k` with the greatest sequence number not above `s`. */
module Entries {
  /** A user key is represented by its rank under the database's comparator. Byte strings are
      countable, so every total order on them embeds in the reals; `KeyOrder.RankIsOrder` gives the
      embedding for the default bytewise comparator. */
  type UserKey = real

  newtype Byte = x: int | 0 <= x < 256

  type Bytes = seq<Byte>

  datatype Option<+T> = None | Some(value: T)

  datatype ValueType = Deletion | Value

  datatype IKey = IKey(user: UserKey, sequence: nat, kind: ValueType)

  datatype Entry = Entry(key: IKey, value: Bytes)

  const MAX_SEQUENCE: nat := 0x100_0000_0000_0000 - 1

  /** The 64-bit tag stored after the user key: (sequence << 8) | type. */
  function Tag(a: IKey): nat {
    a.sequence * 256 + (if a.kind == Value then 1 else 0)
  }

  /** InternalKeyComparator::Compare(a, b) < 0: user keys ascending, tags descending. */
  predicate Less(a: IKey, b: IKey) {
    a.user < b.user || (a.user == b.user && Tag(a) > Tag(b))
  }

  predicate AtMost(a: IKey, b: IKey) {
    !Less(b, a)
  }

  lemma LessIsTotalOrder(a: IKey, b: IKey, c: IKey)
    ensures !Less(a, a)
    ensures Less(a, b) && Less(b, c) ==> Less(a, c)
    ensures a == b || Less(a, b) || Less(b, a)
    ensures Less(a, b) ==> !Less(b, a)
  {
    assert a.user == b.user && Tag(a) == Tag(b) ==> a.sequence == b.sequence;
  }

  /** The key a reader seeks to: kValueTypeForSeek is kTypeValue. */
  function LookupKey(k: UserKey, s: nat): IKey {
    IKey(k, s, Value)
  }

  predicate Sorted(es: seq<Entry>) {
    forall i, j | 0 <= i < j < |es| :: Less(es[i].key, es[j].key)
  }

  function Elements(es: seq<Entry>): set<Entry> {
    set e | e in es
  }

  predicate Visible(e: Entry, k: UserKey, s: nat) {
    e.key.user == k && e.key.sequence <= s
  }

  ghost predicate IsNewest(S: set<Entry>, k: UserKey, s: nat, e: Entry) {
    e in S && Visible(e, k, s) && forall x | x in S && Visible(x, k, s) :: x.key.sequence <= e.key.sequence
  }

  /** No two entries carry the same user key and sequence number. */
  ghost predicate Unique(S: set<Entry>) {
    forall a, b | a in S && b in S && a.key.user == b.key.user && a.key.sequence == b.key.sequence :: a == b
  }

  function Outcome(e: Entry): Option<Bytes> {
    if e.key.kind == Value then Some(e.value) else None
  }

  /** The specification of every read. */
  ghost function Read(S: set<Entry>, k: UserKey, s: nat): Option<Bytes> {
    if exists e :: IsNewest(S, k, s, e) then
      var e :| IsNewest(S, k, s, e);
      Outcome(e)
    else
      None
  }

  lemma ReadIs(S: set<Entry>, k: UserKey, s: nat, e: Entry)
    requires Unique(S) && IsNewest(S, k, s, e)
    ensures Read(S, k, s) == Outcome(e)
  {
    forall x | IsNewest(S, k, s, x)
      ensures x == e
    {
      assert x.key.sequence == e.key.sequence;
    }
  }

  lemma ReadNothing(S: set<Entry>, k: UserKey, s: nat)
    requires forall e | e in S :: !Visible(e, k, s)
    ensures Read(S, k, s) == None
  {
  }

  lemma NewestExists(S: set<Entry>, k: UserKey, s: nat, e: Entry) returns (n: Entry)
    requires e in S && Visible(e, k, s)
    ensures IsNewest(S, k, s, n) && e.key.sequence <= n.key.sequence
    decreases s - e.key.sequence
  {
    if x :| x in S && Visible(x, k, s) && x.key.sequence > e.key.sequence {
      n := NewestExists(S, k, s, x);
    } else {
      n := e;
    }
  }

  /** Two sets give the same read when they have the same newest entry, or when neither shows a value. */
  lemma SameRead(S: set<Entry>, T: set<Entry>, k: UserKey, s: nat)
    requires Unique(S) && Unique(T)
    requires forall e | IsNewest(S, k, s, e) ::
      (Outcome(e) == None || IsNewest(T, k, s, e))
    requires forall e | IsNewest(T, k, s, e) ::
      (Outcome(e) == None || IsNewest(S, k, s, e))
    ensures Read(S, k, s) == Read(T, k, s)
  {
    if e :| IsNewest(S, k, s, e) && Outcome(e) != None {
      ReadIs(S, k, s, e);
      ReadIs(T, k, s, e);
    } else {
      ReadsNone(S, k, s);
      ReadsNone(T, k, s);
    }
  }

  lemma ReadsNone(S: set<Entry>, k: UserKey, s: nat)
    requires Unique(S)
    requires forall e | IsNewest(S, k, s, e) :: Outcome(e) == None
    ensures Read(S, k, s) == None
  {
  }
}
