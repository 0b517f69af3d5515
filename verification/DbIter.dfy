/** The user-visible iterator (db/db_iter.cc): one live value per user key at a snapshot, in either direction,
    on top of an iterator over all internal entries. */
module DbIter {
  import opened Entries
  import opened InternalIterators
  import opened Iterators
  import Merger

  datatype Pair = Pair(key: UserKey, value: Bytes)

  // ----- What a snapshot shows -----

  predicate Shown(es: seq<Entry>, s: nat, i: int) {
    0 <= i < |es| && es[i].key.sequence <= s
  }

  /** The first shown entry of its user key, and it is a value. */
  predicate Live(es: seq<Entry>, s: nat, i: int) {
    Shown(es, s, i) && es[i].key.kind == Value &&
    forall j | 0 <= j < i && es[j].key.user == es[i].key.user :: !Shown(es, s, j)
  }

  function PairOf(e: Entry): Pair {
    Pair(e.key.user, e.value)
  }

  /** The live pairs among the first n entries, in order. */
  ghost function View(es: seq<Entry>, s: nat, n: nat): seq<Pair>
    requires n <= |es|
  {
    if n == 0 then []
    else View(es, s, n - 1) + if Live(es, s, n - 1) then [PairOf(es[n - 1])] else []
  }

  /** The cursor position of entry i. */
  ghost function Rank(es: seq<Entry>, s: nat, i: nat): nat
    requires i <= |es|
  {
    |View(es, s, i)|
  }

  lemma {:induction false} ViewGrows(es: seq<Entry>, s: nat, a: nat, b: nat)
    requires a <= b <= |es|
    ensures View(es, s, a) <= View(es, s, b)
    ensures (forall j | a <= j < b :: !Live(es, s, j)) ==> View(es, s, b) == View(es, s, a)
  {
    if a < b {
      ViewGrows(es, s, a, b - 1);
    }
  }

  /** A live entry is what the view shows at its rank. */
  lemma LiveHasRank(es: seq<Entry>, s: nat, i: nat)
    requires Live(es, s, i)
    ensures Rank(es, s, i + 1) == Rank(es, s, i) + 1 <= |View(es, s, |es|)|
    ensures View(es, s, |es|)[Rank(es, s, i)] == PairOf(es[i])
  {
    ViewGrows(es, s, i + 1, |es|);
  }

  lemma {:induction false} RankHasLive(es: seq<Entry>, s: nat, n: nat, c: nat) returns (i: nat)
    requires n <= |es| && c < |View(es, s, n)|
    ensures i < n && Live(es, s, i) && Rank(es, s, i) == c && View(es, s, n)[c] == PairOf(es[i])
  {
    if c < |View(es, s, n - 1)| {
      i := RankHasLive(es, s, n - 1, c);
    } else {
      i := n - 1;
    }
  }

  /** The live entry of a key is the newest shown one. */
  lemma LiveIsNewest(es: seq<Entry>, s: nat, i: nat)
    requires Sorted(es) && Live(es, s, i)
    ensures IsNewest(Elements(es), es[i].key.user, s, es[i])
  {
    forall x | x in Elements(es) && Visible(x, es[i].key.user, s)
      ensures x.key.sequence <= es[i].key.sequence
    {
      var j :| 0 <= j < |es| && es[j] == x;
      assert !Shown(es, s, j) || i <= j;
      assert i < j ==> Less(es[i].key, es[j].key);
    }
  }

  /** MAIN: the view lists exactly the keys a read at the snapshot finds, each once, in key order, with the
      value the read returns. */
  lemma ViewIsReads(es: seq<Entry>, s: nat, k: UserKey, v: Bytes)
    requires Sorted(es) && Unique(Elements(es))
    ensures Read(Elements(es), k, s) == Some(v) <==> Pair(k, v) in View(es, s, |es|)
    ensures forall a, b | 0 <= a < b < |View(es, s, |es|)| :: View(es, s, |es|)[a].key < View(es, s, |es|)[b].key
  {
    if Read(Elements(es), k, s) == Some(v) {
      ReadIsLive(es, s, k, v);
    }
    if Pair(k, v) in View(es, s, |es|) {
      var c :| 0 <= c < |View(es, s, |es|)| && View(es, s, |es|)[c] == Pair(k, v);
      var i := RankHasLive(es, s, |es|, c);
      LiveIsNewest(es, s, i);
      ReadIs(Elements(es), k, s, es[i]);
    }
    forall a, b | 0 <= a < b < |View(es, s, |es|)|
      ensures View(es, s, |es|)[a].key < View(es, s, |es|)[b].key
    {
      ViewAscends(es, s, a, b);
    }
  }

  lemma ViewAscends(es: seq<Entry>, s: nat, a: nat, b: nat)
    requires Sorted(es) && a < b < |View(es, s, |es|)|
    ensures View(es, s, |es|)[a].key < View(es, s, |es|)[b].key
  {
    var i := RankHasLive(es, s, |es|, a);
    var j := RankHasLive(es, s, |es|, b);
    if j <= i {
      ViewGrows(es, s, j, i);
    } else {
      assert Less(es[i].key, es[j].key);
    }
  }

  lemma ReadIsLive(es: seq<Entry>, s: nat, k: UserKey, v: Bytes)
    requires Sorted(es) && Unique(Elements(es)) && Read(Elements(es), k, s) == Some(v)
    ensures Pair(k, v) in View(es, s, |es|)
  {
    var e :| IsNewest(Elements(es), k, s, e);
    ReadIs(Elements(es), k, s, e);
    var i :| 0 <= i < |es| && es[i] == e;
    forall j | 0 <= j < i && es[j].key.user == k
      ensures !Shown(es, s, j)
    {
      assert Less(es[j].key, es[i].key);
      assert es[j] in Elements(es);
    }
    LiveHasRank(es, s, i);
  }

  // ----- Scanning forwards -----

  /** What a forward scan is looking for. */
  ghost predicate Wanted(es: seq<Entry>, s: nat, j: int, skipping: bool, skip: Option<UserKey>) {
    Live(es, s, j) && !(skipping && skip.Some? && es[j].key.user <= skip.value)
  }

  /** Some shown entry before `start` has this user key. */
  ghost predicate SeenBefore(es: seq<Entry>, s: nat, start: int, k: UserKey) {
    exists i :: 0 <= i < start && Shown(es, s, i) && es[i].key.user == k
  }

  /** From `start` on, skipping hides just the keys that already had a shown entry. */
  ghost predicate Covered(es: seq<Entry>, s: nat, start: int, skipping: bool, skip: Option<UserKey>) {
    (skipping ==> skip.Some?) &&
    forall j | start <= j && Shown(es, s, j) ::
      (skipping ==> skip.value <= es[j].key.user) &&
      (SeenBefore(es, s, start, es[j].key.user) ==> skipping && es[j].key.user == skip.value)
  }

  lemma FirstShownIsLive(es: seq<Entry>, s: nat, at: nat, skipping: bool, skip: Option<UserKey>)
    requires Covered(es, s, at, skipping, skip) && Shown(es, s, at) && es[at].key.kind == Value
    requires !(skipping && es[at].key.user <= skip.value)
    ensures Wanted(es, s, at, skipping, skip)
  {
  }

  /** One turn of the scan: a marker hides its key, everything else is passed. */
  lemma PassEntry(es: seq<Entry>, s: nat, at: nat, skipping: bool, skip: Option<UserKey>, skipping': bool,
      skip': Option<UserKey>)
    requires Sorted(es) && at < |es| && Covered(es, s, at, skipping, skip)
    requires if Shown(es, s, at) && es[at].key.kind == Deletion then skipping' && skip' == Some(es[at].key.user)
             else skipping' == skipping && skip' == skip && (Shown(es, s, at) ==> skipping && es[at].key.user <= skip.value)
    ensures Covered(es, s, at + 1, skipping', skip') && !Wanted(es, s, at, skipping, skip)
    ensures forall j | at < j < |es| :: Wanted(es, s, j, skipping, skip) <==> Wanted(es, s, j, skipping', skip')
  {
    forall j | at < j < |es|
      ensures es[at].key.user <= es[j].key.user
    {
      assert Less(es[at].key, es[j].key);
    }
    forall j | at + 1 <= j && Shown(es, s, j)
      ensures skipping' ==> skip'.value <= es[j].key.user
      ensures SeenBefore(es, s, at + 1, es[j].key.user) ==> skipping' && es[j].key.user == skip'.value
    {
      if SeenBefore(es, s, at, es[j].key.user) {
        assert Shown(es, s, at) ==> skip.value <= es[at].key.user;
      } else if SeenBefore(es, s, at + 1, es[j].key.user) {
        var i :| 0 <= i < at + 1 && Shown(es, s, i) && es[i].key.user == es[j].key.user;
        assert i == at;
      }
    }
  }

  // ----- Scanning backwards -----

  /** Entry q is the last shown one met on the way down from `from` to p, and a value; nothing live was passed
      above it. */
  ghost predicate Candidate(es: seq<Entry>, s: nat, from: int, p: int, key: Option<UserKey>, value: Bytes, q: int) {
    p < q <= from && Shown(es, s, q) && es[q].key.kind == Value && key == Some(es[q].key.user) && value == es[q].value &&
    (forall j | p < j < q :: !Shown(es, s, j)) && forall j | q < j <= from :: !Live(es, s, j)
  }

  /** What FindPrevUserEntry knows after passing the entries above p. */
  ghost predicate Backed(es: seq<Entry>, s: nat, from: int, p: int, kind: ValueType, key: Option<UserKey>,
      value: Bytes) {
    -1 <= p <= from < |es| &&
    match kind
    case Deletion => forall j | p < j <= from :: !Live(es, s, j)
    case Value => key.Some? && exists q :: Candidate(es, s, from, p, key, value, q)
  }

  lemma BackEntry(es: seq<Entry>, s: nat, from: int, p: int, kind: ValueType, key: Option<UserKey>, value: Bytes)
    requires Sorted(es) && 0 <= p && Backed(es, s, from, p, kind, key, value)
    requires Shown(es, s, p) && kind == Value ==> !(es[p].key.user < key.value)
    ensures !Shown(es, s, p) ==> Backed(es, s, from, p - 1, kind, key, value)
    ensures Shown(es, s, p) && es[p].key.kind == Deletion ==> Backed(es, s, from, p - 1, Deletion, None, [])
    ensures Shown(es, s, p) && es[p].key.kind == Value ==>
      Backed(es, s, from, p - 1, Value, Some(es[p].key.user), es[p].value)
  {
    if kind == Value {
      var q :| Candidate(es, s, from, p, key, value, q);
      assert Less(es[p].key, es[q].key);
      if Shown(es, s, p) {
        assert !Live(es, s, q);
        assert es[p].key.kind == Value ==> Candidate(es, s, from, p - 1, Some(es[p].key.user), es[p].value, p);
      } else {
        assert Candidate(es, s, from, p - 1, key, value, q);
      }
    } else if Shown(es, s, p) && es[p].key.kind == Value {
      assert Candidate(es, s, from, p - 1, Some(es[p].key.user), es[p].value, p);
    }
  }

  /** The scan may stop below a value once the entries are exhausted or a shown entry has a smaller key. */
  lemma CandidateIsLive(es: seq<Entry>, s: nat, from: int, p: int, key: Option<UserKey>, value: Bytes) returns (q: nat)
    requires Sorted(es) && Backed(es, s, from, p, Value, key, value)
    requires 0 <= p ==> es[p].key.user < key.value
    ensures Candidate(es, s, from, p, key, value, q) && Live(es, s, q)
  {
    q :| Candidate(es, s, from, p, key, value, q);
    assert forall j | 0 <= j < p :: Less(es[j].key, es[p].key);
  }

  // ----- Steps of the cursor -----

  /** Nothing live in between leaves the rank as it is. */
  lemma RankSteps(es: seq<Entry>, s: nat, a: nat, b: nat)
    requires a <= b <= |es|
    ensures Rank(es, s, a) <= Rank(es, s, b)
    ensures (forall j | a <= j < b :: !Live(es, s, j)) ==> Rank(es, s, b) == Rank(es, s, a)
  {
    ViewGrows(es, s, a, b);
  }

  lemma KeysAscend(es: seq<Entry>, i: nat)
    requires Sorted(es) && i < |es|
    ensures forall j | 0 <= j < i :: es[j].key.user <= es[i].key.user
    ensures forall j | i <= j < |es| :: es[i].key.user <= es[j].key.user
  {
    assert forall j | 0 <= j < i :: Less(es[j].key, es[i].key);
    assert forall j | i < j < |es| :: Less(es[i].key, es[j].key);
  }

  /** Past a live entry, skipping its key skips nothing else. */
  lemma NextLive(es: seq<Entry>, s: nat, i: nat, start: nat, n: nat)
    requires Sorted(es) && Live(es, s, i) && start <= i + 1 && start <= n <= |es|
    requires forall j | start <= j < n :: !Wanted(es, s, j, true, Some(es[i].key.user))
    requires n < |es| ==> Wanted(es, s, n, true, Some(es[i].key.user))
    ensures i < n && Rank(es, s, n) == Rank(es, s, i) + 1
  {
    KeysAscend(es, i);
    LiveHasRank(es, s, i);
    forall j | i < j < n
      ensures !Live(es, s, j)
    {
      assert !Wanted(es, s, j, true, Some(es[i].key.user)) || j < start;
    }
    RankSteps(es, s, i + 1, n);
  }

  lemma LastLive(es: seq<Entry>, s: nat, i: nat)
    requires Live(es, s, i) && forall j | i < j < |es| :: !Live(es, s, j)
    ensures Rank(es, s, i) + 1 == Rank(es, s, |es|)
  {
    LiveHasRank(es, s, i);
    RankSteps(es, s, i + 1, |es|);
  }

  lemma PrevLive(es: seq<Entry>, s: nat, q: nat, i: nat)
    requires q < i <= |es| && Live(es, s, q) && forall j | q < j < i :: !Live(es, s, j)
    ensures Rank(es, s, i) == Rank(es, s, q) + 1
  {
    LiveHasRank(es, s, q);
    RankSteps(es, s, q + 1, i);
  }

  lemma WantedIsLive(es: seq<Entry>, s: nat, a: nat, b: nat, skip: Option<UserKey>)
    requires forall j | a <= j < b :: !Wanted(es, s, j, false, skip)
    ensures forall j | a <= j < b :: !Live(es, s, j)
  {
    forall j | a <= j < b
      ensures !Live(es, s, j)
    {
      assert !Wanted(es, s, j, false, skip);
    }
  }

  /** After a key's live entry, or just before its group, skipping that key is safe. */
  lemma SkipCovers(es: seq<Entry>, s: nat, i: nat, start: nat)
    requires Sorted(es) && Live(es, s, i) && start <= i + 1
    requires forall j | start <= j < i :: !Shown(es, s, j)
    requires start <= i ==> forall j | 0 <= j < start && Shown(es, s, j) :: es[j].key.user < es[i].key.user
    ensures Covered(es, s, start, true, Some(es[i].key.user))
  {
    KeysAscend(es, i);
  }

  /** The pairs of the entries before a seek position are those below the target. */
  lemma SeekSplits(es: seq<Entry>, s: nat, target: UserKey, start: nat, n: nat)
    requires Sorted(es) && start <= n <= |es|
    requires forall j | 0 <= j < start :: Less(es[j].key, LookupKey(target, s))
    requires forall j | start <= j < n :: !Live(es, s, j)
    ensures Rank(es, s, n) <= |View(es, s, |es|)|
    ensures forall c | 0 <= c < Rank(es, s, n) :: View(es, s, |es|)[c].key < target
  {
    ViewGrows(es, s, n, |es|);
    forall c | 0 <= c < Rank(es, s, n)
      ensures View(es, s, |es|)[c].key < target
    {
      var j := RankHasLive(es, s, n, c);
      assert View(es, s, |es|)[c] == View(es, s, n)[c];
      assert j < start && Less(es[j].key, LookupKey(target, s));
    }
  }

  // ----- The reference -----

  /** The reference: a cursor in a sorted list of pairs. Forth and Back are only called on a valid iterator. */
  predicate PairCursorMoves(pairs: seq<Pair>, from: Option<nat>, call: Call<UserKey>, to: Option<nat>) {
    (to.Some? ==> to.value < |pairs|) &&
    match call
    case First => to == if pairs == [] then None else Some(0)
    case Last => to == if pairs == [] then None else Some(|pairs| - 1)
    case To(target) =>
      (to.Some? ==> target <= pairs[to.value].key) &&
      forall c | 0 <= c < |pairs| && (to.Some? ==> c < to.value) :: pairs[c].key < target
    case Forth => to == if from.Some? && from.value + 1 < |pairs| then Some(from.value + 1) else None
    case Back => to == if from.Some? && from.value > 0 then Some(from.value - 1) else None
  }

  // ----- The iterator -----

  datatype Direction = Forward | Reverse

  class DBIter {
    const iter: InternalIterator
    const snapshot: nat
    var savedKey: Option<UserKey>
    var savedValue: Bytes
    var direction: Direction
    var valid: bool
    ghost var cursor: nat

    ghost function Pairs(): seq<Pair>
      reads this, iter
    {
      View(iter.entries, snapshot, |iter.entries|)
    }

    /** The internal position as a number; off either end counts as before the first entry. */
    ghost function Position(): int
      reads this, iter
    {
      if iter.at.Some? then iter.at.value else -1
    }

    /** Going backwards, everything shown between the internal position and the current entry is passed. */
    ghost predicate Behind(i: nat)
      reads this, iter
    {
      Position() < i && (forall j | Position() < j < i :: !Shown(iter.entries, snapshot, j)) &&
      (0 <= Position() < i < |iter.entries| ==>
         Shown(iter.entries, snapshot, Position()) && iter.entries[Position()].key.user < iter.entries[i].key.user)
    }

    ghost predicate Ok()
      reads this, iter.Footprint()
    {
      this !in iter.Footprint() && iter.Ok() && (valid ==> exists i: nat :: StandsAt(i))
    }

    /** The cursor is at live entry i. */
    ghost predicate StandsAt(i: nat)
      reads this, iter
    {
      Live(iter.entries, snapshot, i) && cursor == Rank(iter.entries, snapshot, i) &&
      match direction
      case Forward => iter.at == Some(i)
      case Reverse =>
        savedKey == Some(iter.entries[i].key.user) && savedValue == iter.entries[i].value && Behind(i)
    }

    constructor (iter: InternalIterator, s: nat)
      requires iter.Ok()
      ensures Ok() && !valid && this.iter == iter && snapshot == s
    {
      this.iter, snapshot := iter, s;
      savedKey, savedValue, direction, valid := None, [], Forward, false;
    }

    lemma CursorShows()
      requires Ok() && valid
      ensures cursor < |Pairs()|
      ensures direction == Forward ==> iter.at.Some? && PairOf(iter.Current()) == Pairs()[cursor]
      ensures direction == Reverse ==> savedKey.Some? && Pair(savedKey.value, savedValue) == Pairs()[cursor]
    {
      var i: nat :| StandsAt(i);
      LiveHasRank(iter.entries, snapshot, i);
    }

    function Key(): (k: UserKey)
      requires Ok() && valid
      reads this, iter.Footprint()
      ensures cursor < |Pairs()| && k == Pairs()[cursor].key
    {
      CursorShows();
      if direction == Forward then iter.Current().key.user else savedKey.value
    }

    function CurrentValue(): (v: Bytes)
      requires Ok() && valid
      reads this, iter.Footprint()
      ensures cursor < |Pairs()| && v == Pairs()[cursor].value
    {
      CursorShows();
      if direction == Forward then iter.Current().value else savedValue
    }

    // ----- Moving -----

    method FindNextUserEntry(skip: bool)
      requires this !in iter.Footprint() && iter.Ok() && iter.Valid() && direction == Forward && (skip ==> savedKey.Some?)
      requires Covered(iter.entries, snapshot, iter.at.value, skip, savedKey)
      modifies this, iter.Footprint()
      ensures Ok() && (valid ==> direction == Forward && iter.at.Some? && iter.at.value >= old(iter.at.value))
      ensures valid ==> StandsAt(iter.at.value) && Wanted(iter.entries, snapshot, iter.at.value, skip, old(savedKey))
      ensures forall j | old(iter.at.value) <= j < (if valid then iter.at.value else |iter.entries|) ::
        !Wanted(iter.entries, snapshot, j, skip, old(savedKey))
    {
      hide Live, View, Covered, Wanted, InternalIterator.Tracks, InternalIterator.Footprint;
      var skipping := skip;
      ghost var es, s, start, key := iter.entries, snapshot, iter.at.value, savedKey;
      while true
        invariant this !in iter.Footprint() && iter.Ok() && iter.Valid() && direction == Forward && start <= iter.at.value
        invariant Covered(es, s, iter.at.value, skipping, savedKey) && (skipping ==> savedKey.Some?)
        invariant forall j | start <= j < iter.at.value :: !Wanted(es, s, j, skip, key)
        invariant forall j | iter.at.value <= j < |es| :: Wanted(es, s, j, skip, key) <==> Wanted(es, s, j, skipping, savedKey)
        decreases |es| - iter.at.value
      {
        var e := iter.Current();
        ghost var at, skipped, skipKey := iter.at.value, skipping, savedKey;
        if e.key.sequence <= snapshot {
          match e.key.kind {
            case Deletion =>
              savedKey := Some(e.key.user);
              skipping := true;
            case Value =>
              if !(skipping && e.key.user <= savedKey.value) {
                valid, savedKey := true, None;
                cursor := Rank(es, s, iter.at.value);
                FirstShownIsLive(es, s, iter.at.value, skipped, skipKey);
                assert StandsAt(iter.at.value);
                return;
              }
          }
        }
        PassEntry(es, s, iter.at.value, skipped, skipKey, skipping, savedKey);
        iter.Next();
        if !iter.Valid() {
          break;
        }
      }
      savedKey, valid := None, false;
    }

    /** The candidate found going backwards is where the cursor stands. */
    lemma StandsBehind(from: int, q: nat)
      requires iter.Ok() && direction == Reverse && Position() < |iter.entries| && Live(iter.entries, snapshot, q)
      requires cursor == Rank(iter.entries, snapshot, q)
      requires Candidate(iter.entries, snapshot, from, Position(), savedKey, savedValue, q)
      requires 0 <= Position() ==>
        Shown(iter.entries, snapshot, Position()) && iter.entries[Position()].key.user < savedKey.value
      ensures StandsAt(q) && q <= from && forall j | q < j <= from :: !Live(iter.entries, snapshot, j)
    {
      hide Live, View, Less, Sorted, InternalIterator.Tracks, InternalIterator.Footprint;
    }

    /** The loop of FindPrevUserEntry: back to an entry of a smaller key than the one saved, or off the front. */
    method BackUp() returns (kind: ValueType)
      requires this !in iter.Footprint() && iter.Ok() && direction == Reverse
      modifies this, iter.Footprint()
      ensures iter.Ok() && direction == Reverse && (kind == Deletion ==> !iter.Valid())
      ensures Backed(iter.entries, snapshot, old(Position()), Position(), kind, savedKey, savedValue)
      ensures kind == Value ==> savedKey.Some?
      ensures kind == Value && 0 <= Position() ==>
        Shown(iter.entries, snapshot, Position()) && iter.entries[Position()].key.user < savedKey.value
    {
      hide Live, View, Less, Sorted, Candidate, StandsAt, InternalIterator.Tracks, InternalIterator.Footprint;
      ghost var es, s, from := iter.entries, snapshot, Position();
      kind := Deletion;
      if iter.Valid() {
        while true
          invariant this !in iter.Footprint() && iter.Ok() && iter.Valid() && direction == Reverse
          invariant Backed(es, s, from, iter.at.value, kind, savedKey, savedValue)
          decreases iter.at.value
        {
          var e := iter.Current();
          ghost var at, kind0, key0, value0 := iter.at.value, kind, savedKey, savedValue;
          if e.key.sequence <= snapshot {
            if kind != Deletion && e.key.user < savedKey.value {
              break;
            }
            kind := e.key.kind;
            if kind == Deletion {
              savedKey, savedValue := None, [];
            } else {
              savedKey, savedValue := Some(e.key.user), e.value;
            }
          }
          BackEntry(es, s, from, at, kind0, key0, value0);
          iter.Prev();
          if !iter.Valid() {
            break;
          }
        }
      }
    }

    method FindPrevUserEntry()
      requires this !in iter.Footprint() && iter.Ok() && direction == Reverse
      modifies this, iter.Footprint()
      ensures Ok()
      ensures valid ==> direction == Reverse && exists i: nat ::
        StandsAt(i) && i <= old(Position()) && forall j | i < j <= old(Position()) :: !Live(iter.entries, snapshot, j)
      ensures !valid ==> forall j | 0 <= j <= old(Position()) :: !Live(iter.entries, snapshot, j)
    {
      hide Live, View, Less, Sorted, Candidate, StandsAt, InternalIterator.Tracks, InternalIterator.Footprint;
      ghost var from := Position();
      var kind := BackUp();
      if kind == Deletion {
        valid, savedKey, savedValue, direction := false, None, [], Forward;
      } else {
        valid := true;
        ghost var q := CandidateIsLive(iter.entries, snapshot, from, Position(), savedKey, savedValue);
        cursor := Rank(iter.entries, snapshot, q);
        StandsBehind(from, q);
      }
    }

    /** MAIN: the cursor moves one live pair on, whichever way it was moving before. */
    method Next()
      requires Ok() && valid
      modifies this, iter.Footprint()
      ensures Ok() && valid == (old(cursor) + 1 < |Pairs()|) && (valid ==> cursor == old(cursor) + 1)
    {
      hide View, InternalIterator.Tracks, InternalIterator.Footprint;
      ghost var es, s := iter.entries, snapshot;
      ghost var i: nat :| StandsAt(i);
      if direction == Reverse {
        direction := Forward;
        if !iter.Valid() {
          iter.SeekToFirst();
        } else {
          iter.Next();
        }
      } else {
        savedKey := Some(iter.Current().key.user);
        iter.Next();
      }
      if !iter.Valid() {
        valid, savedKey := false, None;
        LastLive(es, s, i);
        return;
      }
      ghost var start := iter.at.value;
      SkipCovers(es, s, i, start);
      hide Live, View, Covered, Wanted;
      FindNextUserEntry(true);
      NextLive(es, s, i, start, if valid then iter.at.value else |es|);
      if valid {
        CursorShows();
      }
    }

    /** The direction switch of Prev: back over the entries of the current key. */
    method LeaveKey(ghost i: nat)
      requires Ok() && valid && direction == Forward && StandsAt(i)
      modifies this, iter.Footprint()
      ensures iter.Ok() && direction == (if iter.Valid() then Reverse else Forward) && cursor == old(cursor)
      ensures valid == iter.Valid() && Position() < i && forall j | Position() < j < i :: !Live(iter.entries, snapshot, j)
    {
      hide InternalIterator.Tracks, InternalIterator.Footprint;
      ghost var es, s := iter.entries, snapshot;
      savedKey := Some(iter.Current().key.user);
      KeysAscend(es, i);
      while true
        invariant this !in iter.Footprint() && iter.Ok() && iter.Valid() && iter.at.value <= i && savedKey == Some(es[i].key.user)
        invariant valid && direction == Forward && cursor == old(cursor)
        invariant forall j | iter.at.value <= j < i :: es[j].key.user == es[i].key.user
        decreases iter.at.value
      {
        iter.Prev();
        if !iter.Valid() {
          valid, savedKey, savedValue := false, None, [];
          return;
        }
        if iter.Current().key.user < savedKey.value {
          break;
        }
      }
      direction := Reverse;
    }

    /** MAIN: the cursor moves one live pair back. */
    method Prev()
      requires Ok() && valid
      modifies this, iter.Footprint()
      ensures Ok() && valid == (old(cursor) > 0) && (valid ==> cursor == old(cursor) - 1)
    {
      hide InternalIterator.Tracks, InternalIterator.Footprint;
      ghost var es, s := iter.entries, snapshot;
      ghost var i: nat :| StandsAt(i);
      if direction == Forward {
        LeaveKey(i);
        if !valid {
          RankSteps(es, s, 0, i);
          return;
        }
      }
      ghost var p := Position();
      assert forall j | p < j < i :: !Live(es, s, j);
      hide Live, View, Covered, Backed;
      FindPrevUserEntry();
      if valid {
        ghost var q: nat :| StandsAt(q) && q <= p && forall j | q < j <= p :: !Live(es, s, j);
        PrevLive(es, s, q, i);
      } else {
        RankSteps(es, s, 0, i);
      }
    }

    /** MAIN: the cursor stands on the first live pair at or after the target. */
    method Seek(target: UserKey)
      requires Ok()
      modifies this, iter.Footprint()
      ensures Ok()
      ensures valid ==> cursor < |Pairs()| && target <= Pairs()[cursor].key
      ensures forall c | 0 <= c < |Pairs()| && (valid ==> c < cursor) :: Pairs()[c].key < target
    {
      hide InternalIterator.Tracks, InternalIterator.Footprint;
      direction, savedKey, savedValue := Forward, None, [];
      iter.Seek(LookupKey(target, snapshot));
      ghost var start := if iter.Valid() then iter.at.value else |iter.entries|;
      if iter.Valid() {
        FindNextUserEntry(false);
        WantedIsLive(iter.entries, snapshot, start, if valid then iter.at.value else |iter.entries|, None);
      } else {
        valid := false;
      }
      SeekSplits(iter.entries, snapshot, target, start, if valid then iter.at.value else |iter.entries|);
      if valid {
        CursorShows();
      }
    }

    method SeekToFirst()
      requires Ok()
      modifies this, iter.Footprint()
      ensures Ok() && valid == (Pairs() != []) && (valid ==> cursor == 0)
    {
      hide InternalIterator.Tracks, InternalIterator.Footprint;
      direction, savedKey, savedValue := Forward, None, [];
      iter.SeekToFirst();
      if iter.Valid() {
        FindNextUserEntry(false);
        WantedIsLive(iter.entries, snapshot, 0, if valid then iter.at.value else |iter.entries|, None);
        RankSteps(iter.entries, snapshot, 0, if valid then iter.at.value else |iter.entries|);
        if valid {
          CursorShows();
        }
      } else {
        valid := false;
      }
    }

    method SeekToLast()
      requires Ok()
      modifies this, iter.Footprint()
      ensures Ok() && valid == (Pairs() != []) && (valid ==> cursor == |Pairs()| - 1)
    {
      hide InternalIterator.Tracks, InternalIterator.Footprint;
      ghost var es, s := iter.entries, snapshot;
      direction, savedValue := Reverse, [];
      iter.SeekToLast();
      FindPrevUserEntry();
      if valid {
        ghost var q: nat :| StandsAt(q) && forall j | q < j < |es| :: !Live(es, s, j);
        RankSteps(es, s, q + 1, |es|);
        LiveHasRank(es, s, q);
      } else {
        RankSteps(es, s, 0, |es|);
      }
    }

    ghost function Standing(): Option<nat>
      reads this
    {
      if valid then Some(cursor) else None
    }

    method Perform(call: Call<UserKey>)
      requires Ok()
      modifies this, iter.Footprint()
      ensures Ok() && PairCursorMoves(Pairs(), old(Standing()), call, Standing())
    {
      hide View, StandsAt, InternalIterator.Tracks, InternalIterator.Footprint;
      match call {
        case First => SeekToFirst();
        case Last => SeekToLast();
        case To(target) => Seek(target);
        case Forth => if valid { Next(); }
        case Back => if valid { Prev(); }
      }
      if valid {
        CursorShows();
      }
    }
  }

  // ----- Whole runs -----

  function PairAt(pairs: seq<Pair>, at: Option<nat>): Option<Pair> {
    if at.Some? && at.value < |pairs| then Some(pairs[at.value]) else None
  }

  /** MAIN: under every sequence of calls, in both directions, a DBIter over any memtables and tables shows what the
      reference cursor in the sorted live keys of all their entries shows. */
  method Drive(children: seq<RunIterator>, s: nat, calls: seq<Call<UserKey>>)
    returns (seen: seq<Option<Pair>>, ghost path: seq<Option<nat>>)
    requires forall i | 0 <= i < |children| :: children[i].Ok()
    requires forall i, j | 0 <= i < j < |children| ::
      children[i] != children[j] && Merger.Apart(children[i].entries, children[j].entries)
    modifies children
    ensures |seen| == |calls| && |path| == |calls| + 1 && path[0] == None
    ensures var es := Merger.Merge(RunsOf(children));
      forall i | 0 <= i < |calls| ::
        PairCursorMoves(View(es, s, |es|), path[i], calls[i], path[i + 1]) && seen[i] == PairAt(View(es, s, |es|), path[i + 1])
  {
    hide View, PairCursorMoves, InternalIterator.Tracks, Merger.Merge;
    var internal := new InternalIterator(children);
    ghost var es := internal.entries;
    var it := new DBIter(internal, s);
    ghost var pairs := it.Pairs();
    seen, path := [], [None];
    for n := 0 to |calls|
      invariant it.Ok() && it.iter == internal && it.snapshot == s && fresh(it) && fresh({internal, internal.merged})
      invariant internal.merged.children == children
      invariant |seen| == n && |path| == n + 1 && path[0] == None
      invariant path[n] == it.Standing()
      invariant forall i | 0 <= i < n :: PairCursorMoves(pairs, path[i], calls[i], path[i + 1]) && seen[i] == PairAt(pairs, path[i + 1])
    {
      it.Perform(calls[n]);
      path := path + [it.Standing()];
      if it.valid {
        var key, value := it.Key(), it.CurrentValue();
        seen := seen + [Some(Pair(key, value))];
      } else {
        seen := seen + [None];
      }
    }
  }
}
