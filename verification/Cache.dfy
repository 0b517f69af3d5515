/** The LRU cache (util/cache.cc): two rings of cached handles, a hash table, and reference counts. Handles are
    numbers; the rings' heads are handles of their own, and 0 is null. */
module Cache {
  import opened Entries
  import opened HandleTables
  import opened LinkedRings

  const LRU: nat := 1
  const IN_USE: nat := 2

  // ----- Rings -----

  /** Both lists, with no handle on both. */
  ghost predicate Rings(next: map<nat, nat>, prev: map<nat, nat>, lru: seq<nat>, inUse: seq<nat>) {
    Ring(next, prev, LRU, lru) && Ring(next, prev, IN_USE, inUse) &&
    (forall e | e in lru :: e > 2 && e !in inUse) && forall e | e in inUse :: e > 2
  }

  /** LRU_Remove. */
  function Unlinked(next: map<nat, nat>, prev: map<nat, nat>, e: nat): (map<nat, nat>, map<nat, nat>)
    requires e in next && e in prev
  {
    (next[prev[e] := next[e]], prev[next[e] := prev[e]])
  }

  /** LRU_Append. */
  function LinkedIn(next: map<nat, nat>, prev: map<nat, nat>, head: nat, e: nat): (map<nat, nat>, map<nat, nat>)
    requires head in prev
  {
    (next[e := head][prev[head] := e], prev[e := prev[head]][head := e])
  }

  lemma UnlinkKeeps(next: map<nat, nat>, prev: map<nat, nat>, lru: seq<nat>, inUse: seq<nat>, e: nat)
    requires Rings(next, prev, lru, inUse) && (e in lru || e in inUse)
    ensures e in next && e in prev && prev[e] in next && next[e] in prev
    ensures var (n, p) := Unlinked(next, prev, e); Rings(n, p, Drop(lru, e), Drop(inUse, e))
  {
    var head, c, otherHead, other := LRU, lru, IN_USE, inUse;
    if e in inUse {
      head, c, otherHead, other := IN_USE, inUse, LRU, lru;
    }
    var i := IndexOf(c, e);
    RingCells(next, prev, head, c, e);
    RingUnlink(next, prev, head, c, i);
    var (n, p) := Unlinked(next, prev, e);
    forall x | x == otherHead || x in other
      ensures x in next && x in n && n[x] == next[x] && x in prev && x in p && p[x] == prev[x]
    {
      RingCells(next, prev, otherHead, other, x);
    }
    RingKept(next, prev, n, p, otherHead, other);
  }

  lemma LinkKeeps(next: map<nat, nat>, prev: map<nat, nat>, lru: seq<nat>, inUse: seq<nat>, head: nat, e: nat)
    requires Rings(next, prev, lru, inUse) && e !in lru && e !in inUse && e > 2 && (head == LRU || head == IN_USE)
    ensures head in prev && prev[head] != e
    ensures var (n, p) := LinkedIn(next, prev, head, e);
      Rings(n, p, if head == LRU then lru + [e] else lru, if head == IN_USE then inUse + [e] else inUse)
  {
    var c, otherHead, other := lru, IN_USE, inUse;
    if head == IN_USE {
      c, otherHead, other := inUse, LRU, lru;
    }
    RingCells(next, prev, head, c, head);
    RingLink(next, prev, head, c, e);
    var (n, p) := LinkedIn(next, prev, head, e);
    forall x | x == otherHead || x in other
      ensures x in next && x in n && n[x] == next[x] && x in prev && x in p && p[x] == prev[x]
    {
      RingCells(next, prev, otherHead, other, x);
    }
    RingKept(next, prev, n, p, otherHead, other);
  }

  // ----- Counts -----

  function One(b: bool): nat {
    if b then 1 else 0
  }

  /** A handle's references are those handed out and the cache's own; a cached handle is on one list, by whether
      references are out. Handle x still has one reference to give back. */
  ghost predicate Counted(refs: map<nat, nat>, inCache: map<nat, bool>, held: map<nat, nat>, lru: seq<nat>,
      inUse: seq<nat>, x: nat) {
    refs.Keys == inCache.Keys == held.Keys && 0 !in refs &&
    (forall e | e in refs :: CountOf(refs[e], inCache[e], held[e], e in lru, e in inUse, e == x)) &&
    (forall e | e in lru :: e in refs) && (forall e | e in inUse :: e in refs)
  }

  ghost predicate CountOf(refs: nat, cached: bool, held: nat, onLru: bool, onInUse: bool, owed: bool) {
    refs == held + One(cached) + One(owed) && refs > 0 &&
    (onLru <==> cached && held == 0 && !owed) && (onInUse <==> cached && (held > 0 || owed))
  }

  /** How many references to the handle clients have. */
  ghost function Out(held: map<nat, nat>, e: nat): nat {
    if e in held then held[e] else 0
  }

  // ----- Charges -----

  function Charge(info: map<nat, Info>, e: nat): nat {
    if e in info then info[e].charge else 0
  }

  function Total(info: map<nat, Info>, c: seq<nat>): nat {
    if c == [] then 0 else Charge(info, c[0]) + Total(info, c[1..])
  }

  lemma {:induction false} TotalAppend(info: map<nat, Info>, c: seq<nat>, d: seq<nat>)
    ensures Total(info, c + d) == Total(info, c) + Total(info, d)
  {
    if c == [] {
      assert c + d == d;
    } else {
      TotalAppend(info, c[1..], d);
      assert (c + d)[1..] == c[1..] + d;
    }
  }

  lemma TotalDrop(info: map<nat, Info>, c: seq<nat>, e: nat)
    ensures e in c ==> Total(info, c) == Total(info, Drop(c, e)) + Charge(info, e)
    ensures e !in c ==> Total(info, c) == Total(info, Drop(c, e))
  {
    if e in c {
      var i := IndexOf(c, e);
      assert c == c[..i] + ([e] + c[i + 1..]);
      TotalAppend(info, c[..i], [e] + c[i + 1..]);
      TotalAppend(info, [e], c[i + 1..]);
      TotalAppend(info, c[..i], c[i + 1..]);
      assert Total(info, [e]) == Charge(info, e) + Total(info, []);
    }
  }

  lemma {:induction false} TotalSame(info: map<nat, Info>, info': map<nat, Info>, c: seq<nat>)
    requires forall e | e in c :: e in info && e in info' && info'[e] == info[e]
    ensures Total(info', c) == Total(info, c)
  {
    if c != [] {
      TotalSame(info, info', c[1..]);
    }
  }

  // ----- Deleter calls -----

  /** A call of a handle's deleter. */
  datatype Call = Call(handle: nat, key: Bytes, value: nat)

  function CallFor(info: map<nat, Info>, e: nat): Call {
    if e in info then Call(e, info[e].key, info[e].value) else Call(e, [], 0)
  }

  /** Every handle ever made is either live or deleted, with its own key and value, exactly once. */
  ghost predicate Logged(info: map<nat, Info>, live: set<nat>, deleted: seq<Call>, unused: nat) {
    (forall e :: e in info <==> 2 < e < unused) &&
    (forall i | 0 <= i < |deleted| ::
       deleted[i].handle in info && deleted[i].handle !in live && deleted[i] == CallFor(info, deleted[i].handle)) &&
    (forall i, j | 0 <= i < j < |deleted| :: deleted[i].handle != deleted[j].handle) &&
    (forall e | e in live :: e in info) &&
    forall e | e in info && e !in live :: exists i :: 0 <= i < |deleted| && deleted[i].handle == e
  }

  lemma LogDelete(info: map<nat, Info>, live: set<nat>, deleted: seq<Call>, unused: nat, e: nat)
    requires Logged(info, live, deleted, unused) && e in live
    ensures Logged(info, live - {e}, deleted + [CallFor(info, e)], unused)
  {
    var deleted' := deleted + [CallFor(info, e)];
    forall x | x in info && x !in live - {e}
      ensures exists i :: 0 <= i < |deleted'| && deleted'[i].handle == x
    {
      if x == e {
        assert deleted'[|deleted|].handle == x;
      } else {
        var i :| 0 <= i < |deleted| && deleted[i].handle == x;
        assert deleted'[i].handle == x;
      }
    }
  }

  lemma LogMake(info: map<nat, Info>, live: set<nat>, deleted: seq<Call>, unused: nat, i: Info)
    requires Logged(info, live, deleted, unused) && unused > 2
    ensures unused !in info && unused !in live
    ensures Logged(info[unused := i], live + {unused}, deleted, unused + 1)
  {
    forall x | x in info[unused := i] && x !in live + {unused}
      ensures exists k :: 0 <= k < |deleted| && deleted[k].handle == x
    {
      assert x in info;
    }
  }

  // ----- The cache -----

  /** The table holds exactly the cached handles, but for one on its way out. */
  ghost predicate InTable(members: set<nat>, inCache: map<nat, bool>, out: nat) {
    forall e :: e in members <==> e in inCache && inCache[e] && e != out
  }

  class LRUCache {
    var capacity: nat
    var usage: nat
    var next: map<nat, nat>
    var prev: map<nat, nat>
    var refs: map<nat, nat>
    var inCache: map<nat, bool>
    var info: map<nat, Info>
    var unused: nat
    var deleted: seq<Call>
    const table: HandleTable
    ghost var lru: seq<nat>
    ghost var inUse: seq<nat>
    ghost var held: map<nat, nat>

    /** The invariant, while handle `owed` has a reference to give back and `out` has left the table. */
    ghost predicate Core(owed: nat, out: nat)
      reads this, table
    {
      Rings(next, prev, lru, inUse) && Counted(refs, inCache, held, lru, inUse, owed) &&
      usage == Total(info, lru) + Total(info, inUse) &&
      table.Ok(info) && InTable(table.members, inCache, out) &&
      Logged(info, refs.Keys, deleted, unused) && unused > 2
    }

    ghost predicate Ok()
      reads this, table
    {
      Core(0, 0)
    }

    constructor (capacity: nat)
      ensures Ok() && refs == map[] && held == map[] && this.capacity == capacity && deleted == [] && fresh(table)
    {
      hide HandleTable.Ok;
      this.capacity, usage := capacity, 0;
      next, prev := map[LRU := LRU, IN_USE := IN_USE], map[LRU := LRU, IN_USE := IN_USE];
      refs, inCache, info, unused, deleted := map[], map[], map[], 3, [];
      lru, inUse, held := [], [], map[];
      table := new HandleTable();
      new;
      EmptyRings();
    }

    method LruRemove(e: nat)
      requires Rings(next, prev, lru, inUse) && (e in lru || e in inUse)
      modifies `next, `prev, `lru, `inUse
      ensures Rings(next, prev, lru, inUse) && lru == Drop(old(lru), e) && inUse == Drop(old(inUse), e)
      ensures usage == old(usage) && Total(info, lru) + Total(info, inUse) + Charge(info, e) == old(Total(info, lru) + Total(info, inUse))
    {
      hide Rings, Drop;
      UnlinkKeeps(next, prev, lru, inUse, e);
      ListsDistinct(next, prev, lru, inUse);
      TotalDrop(info, lru, e);
      TotalDrop(info, inUse, e);
      prev := prev[next[e] := prev[e]];
      next := next[prev[e] := next[e]];
      lru, inUse := Drop(lru, e), Drop(inUse, e);
    }

    method LruAppend(list: nat, e: nat)
      requires Rings(next, prev, lru, inUse) && e > 2 && e !in lru && e !in inUse && (list == LRU || list == IN_USE)
      modifies `next, `prev, `lru, `inUse
      ensures Rings(next, prev, lru, inUse)
      ensures lru == if list == LRU then old(lru) + [e] else old(lru)
      ensures inUse == if list == IN_USE then old(inUse) + [e] else old(inUse)
      ensures Total(info, lru) + Total(info, inUse) == old(Total(info, lru) + Total(info, inUse)) + Charge(info, e)
    {
      hide Rings;
      LinkKeeps(next, prev, lru, inUse, list, e);
      TotalAdd(info, lru, e);
      TotalAdd(info, inUse, e);
      ghost var (n, p) := LinkedIn(next, prev, list, e);
      next := next[e := list];
      prev := prev[e := prev[list]];
      next := next[prev[e] := e];
      prev := prev[next[e] := e];
      assert next == n && prev == p;
      lru := if list == LRU then lru + [e] else lru;
      inUse := if list == IN_USE then inUse + [e] else inUse;
    }

    /** Ref, for a cached handle. */
    method Ref(e: nat)
      requires Ok() && e in refs && e in held && e in inCache && inCache[e]
      modifies `next, `prev, `refs, `lru, `inUse, `held
      ensures Ok() && refs.Keys == old(refs.Keys) && held == old(held)[e := old(held)[e] + 1]
      ensures old(held)[e] == 0 ==> e in old(lru) && lru == Drop(old(lru), e) && inUse == old(inUse) + [e]
      ensures old(held)[e] > 0 ==> lru == old(lru) && inUse == old(inUse)
    {
      hide Rings, HandleTable.Ok, Logged, InTable, Counted, Drop, Total, Charge;
      CountAt(refs, inCache, held, lru, inUse, 0, e);
      ListsDistinct(next, prev, lru, inUse);
      LiveHandles(info, refs.Keys, deleted, unused);
      ghost var lru0, inUse0 := lru, inUse;
      if refs[e] == 1 && inCache[e] {
        LruRemove(e);
        NotDropped(lru0, inUse0, e);
        LruAppend(IN_USE, e);
      }
      RefCounts(refs, inCache, held, lru0, inUse0, lru, inUse, e);
      refs := refs[e := refs[e] + 1];
      held := held[e := held[e] + 1];
      assert refs.Keys == old(refs.Keys);
    }

    /** Unref: the last reference deletes the handle, the last but the cache's own puts it behind the others on
        the LRU list. */
    method Unref(e: nat)
      requires Core(e, 0) && e in refs && e in held && e in inCache
      modifies `next, `prev, `refs, `inCache, `lru, `inUse, `held, `deleted
      ensures Ok() && usage == old(usage)
      ensures old(inCache)[e] ==>
        refs.Keys == old(refs.Keys) && inCache == old(inCache) && held == old(held) && deleted == old(deleted) &&
        lru == (if held[e] == 0 then old(lru) + [e] else old(lru)) &&
        inUse == (if held[e] == 0 then Drop(old(inUse), e) else old(inUse))
      ensures !old(inCache)[e] ==> lru == old(lru) && inUse == old(inUse)
      ensures !old(inCache)[e] && old(held)[e] > 0 ==>
        refs.Keys == old(refs.Keys) && inCache == old(inCache) && held == old(held) && deleted == old(deleted)
      ensures !old(inCache)[e] && old(held)[e] == 0 ==>
        refs.Keys == old(refs.Keys) - {e} && inCache == old(inCache) - {e} && held == old(held) - {e} &&
        deleted == old(deleted) + [CallFor(info, e)]
    {
      hide Rings, HandleTable.Ok, Logged, InTable, Counted, Drop, Charge, CallFor, Total;
      CountAt(refs, inCache, held, lru, inUse, e, e);
      ListsDistinct(next, prev, lru, inUse);
      LiveHandles(info, refs.Keys, deleted, unused);
      refs := refs[e := refs[e] - 1];
      assert refs[e := refs[e] + 1] == old(refs) && refs.Keys == old(refs.Keys);
      if refs[e] == 0 {
        Deallocate(e);
      } else {
        ghost var lru0, inUse0 := lru, inUse;
        if inCache[e] && refs[e] == 1 {
          LruRemove(e);
          NotDropped(inUse0, lru0, e);
          LruAppend(LRU, e);
        }
        UnrefCounts(old(refs), inCache, held, lru0, inUse0, lru, inUse, e);
        assert refs.Keys == old(refs.Keys);
      }
    }

    /** The deleter is called, and the handle freed. */
    method Deallocate(e: nat)
      requires Rings(next, prev, lru, inUse) && usage == Total(info, lru) + Total(info, inUse) && unused > 2
      requires e in refs && Counted(refs[e := 1], inCache, held, lru, inUse, e)
      requires table.Ok(info) && InTable(table.members, inCache, 0) && Logged(info, refs.Keys, deleted, unused)
      modifies `refs, `inCache, `held, `deleted
      ensures Ok() && old(inCache.Keys) == old(held.Keys) == old(refs.Keys) && !old(inCache)[e] && old(held)[e] == 0
      ensures refs.Keys == old(refs.Keys) - {e} && inCache == old(inCache) - {e} && held == old(held) - {e}
      ensures deleted == old(deleted) + [CallFor(info, e)]
    {
      hide Rings, HandleTable.Ok, Logged, InTable, Counted, CallFor, Total;
      CountedKeys(refs[e := 1], inCache, held, lru, inUse, e);
      assert refs[e := 1].Keys == refs.Keys;
      UnrefLast(refs[e := 1], inCache, held, lru, inUse, e);
      TableForgets(table.members, inCache, e);
      LogDelete(info, refs.Keys, deleted, unused, e);
      deleted := deleted + [CallFor(info, e)];
      refs, inCache, held := refs - {e}, inCache - {e}, held - {e};
      assert refs == old(refs)[e := 1] - {e};
      assert refs.Keys == old(refs.Keys) - {e};
    }

    method Lookup(key: Bytes, hash: nat) returns (e: nat)
      requires Ok()
      modifies `next, `prev, `refs, `lru, `inUse, `held
      ensures Ok() && refs.Keys == old(refs.Keys)
      ensures forall x | x in inCache && inCache[x] && Matches(info, x, key, hash) :: x == e
      ensures e == 0 ==> held == old(held)
      ensures e != 0 ==>
        e in inCache && inCache[e] && Matches(info, e, key, hash) && e in old(held) && held == old(held)[e := old(held)[e] + 1]
      ensures e in old(lru) ==> lru == Drop(old(lru), e) && inUse == old(inUse) + [e]
      ensures e !in old(lru) ==> lru == old(lru) && inUse == old(inUse)
    {
      hide Rings, HandleTable.Ok, Logged, Drop, Matches, Counted, InTable, Total, Charge;
      CachedMembers(table.members, inCache);
      CountedKeys(refs, inCache, held, lru, inUse, 0);
      LiveHandles(info, refs.Keys, deleted, unused);
      ListsDistinct(next, prev, lru, inUse);
      e := table.Lookup(info, key, hash);
      if e != 0 {
        CountAt(refs, inCache, held, lru, inUse, 0, e);
        Ref(e);
      }
    }

    /** The caller gives back a handle it was given. */
    method Release(e: nat)
      requires Ok() && e in held && held[e] > 0
      modifies `next, `prev, `refs, `inCache, `lru, `inUse, `held, `deleted
      ensures Ok() && usage == old(usage)
      ensures old(held)[e] > 1 || e in old(inUse) ==>
        held == old(held)[e := old(held)[e] - 1] && inCache == old(inCache) && deleted == old(deleted)
      ensures old(held)[e] == 1 && e in old(inUse) ==> lru == old(lru) + [e] && inUse == Drop(old(inUse), e)
      ensures old(held)[e] > 1 || e !in old(inUse) ==> lru == old(lru) && inUse == old(inUse)
      ensures old(held)[e] == 1 && e !in old(inUse) ==>
        held == old(held) - {e} && inCache == old(inCache) - {e} && deleted == old(deleted) + [CallFor(info, e)]
    {
      hide Rings, HandleTable.Ok, Logged, Drop, Matches, Counted, InTable;
      HeldIsLive(refs, inCache, held, lru, inUse, e);
      LiveHandles(info, refs.Keys, deleted, unused);
      GiveBack(refs, inCache, held, lru, inUse, e);
      held := held[e := held[e] - 1];
      Unref(e);
      assert old(held) - {e} == old(held)[e := old(held)[e] - 1] - {e};
    }

    /** FinishErase, for a handle that has left the table. */
    method FinishErase(e: nat) returns (erased: bool)
      requires Core(0, e) && (e != 0 ==> e in refs && e in inCache && inCache[e] && e in held)
      modifies `next, `prev, `refs, `inCache, `lru, `inUse, `held, `deleted, `usage
      ensures Ok() && erased == (e != 0) && usage + Charge(info, e) >= old(usage)
      ensures lru == Drop(old(lru), e) && inUse == Drop(old(inUse), e)
      ensures e == 0 ==>
        refs.Keys == old(refs.Keys) && held == old(held) && inCache == old(inCache) && deleted == old(deleted) && usage == old(usage)
      ensures e != 0 ==> usage == old(usage) - Charge(info, e)
      ensures e != 0 && old(held)[e] > 0 ==>
        refs.Keys == old(refs.Keys) && held == old(held) && inCache == old(inCache)[e := false] && deleted == old(deleted)
      ensures e != 0 && old(held)[e] == 0 ==>
        refs.Keys == old(refs.Keys) - {e} && held == old(held) - {e} && inCache == old(inCache) - {e} &&
        deleted == old(deleted) + [CallFor(info, e)]
    {
      hide Rings, HandleTable.Ok, Logged, Drop, Matches, Counted, InTable;
      LiveHandles(info, refs.Keys, deleted, unused);
      ListsDistinct(next, prev, lru, inUse);
      if e != 0 {
        CountAt(refs, inCache, held, lru, inUse, 0, e);
        EraseCounts(refs, inCache, held, lru, inUse, e);
        TableErased(table.members, inCache, e);
        LruRemove(e);
        inCache := inCache[e := false];
        usage := usage - Charge(info, e);
        Unref(e);
        assert old(inCache)[e := false] - {e} == old(inCache) - {e};
      } else {
        NullOnNoList(lru, inUse);
      }
      erased := e != 0;
    }

    method Erase(key: Bytes, hash: nat) returns (o: nat)
      requires Ok()
      modifies this, table
      ensures Ok() && info == old(info) && capacity == old(capacity)
      ensures forall x | x in old(inCache) && old(inCache)[x] && Matches(info, x, key, hash) :: x == o
      ensures o != 0 ==> o in old(inCache) && old(inCache)[o] && Matches(info, o, key, hash)
      ensures forall x :: x in inCache && inCache[x] <==> x in old(inCache) && old(inCache)[x] && x != o
      ensures lru == Drop(old(lru), o) && inUse == Drop(old(inUse), o)
      ensures if o != 0 && old(held)[o] == 0
        then held == old(held) - {o} && deleted == old(deleted) + [CallFor(info, o)]
        else held == old(held) && deleted == old(deleted)
    {
      hide Rings, HandleTable.Ok, Logged, Drop, Matches, Counted;
      CountedKeys(refs, inCache, held, lru, inUse, 0);
      LiveHandles(info, refs.Keys, deleted, unused);
      o := table.Remove(info, key, hash);
      var erased := FinishErase(o);
    }

    /** The oldest handle on the LRU list goes. */
    method EvictOldest()
      requires Ok() && lru != []
      modifies this, table
      ensures Ok() && info == old(info) && capacity == old(capacity)
      ensures var e := old(lru)[0];
        lru == old(lru)[1..] && inUse == old(inUse) && usage == old(usage) - Charge(info, e) &&
        e in old(held) && old(held)[e] == 0 && held == old(held) - {e} && inCache == old(inCache) - {e} &&
        deleted == old(deleted) + [CallFor(info, e)]
    {
      hide Rings, HandleTable.Ok, Logged, Drop, Matches, Counted;
      ListsDistinct(next, prev, lru, inUse);
      CountedKeys(refs, inCache, held, lru, inUse, 0);
      LiveHandles(info, refs.Keys, deleted, unused);
      OldestIs(next, prev, lru, inUse);
      var e := next[LRU];
      assert e in lru;
      CountAt(refs, inCache, held, lru, inUse, 0, e);
      MatchesItself(info, e);
      var o := table.Remove(info, info[e].key, info[e].hash);
      var erased := FinishErase(o);
      DropFirst(old(lru));
      NotOnOther(old(inUse), e);
    }

    /** The loop at the end of Insert: oldest first, and no more than needed. */
    method EvictOverCapacity() returns (ghost n: nat)
      requires Ok()
      modifies this, table
      ensures Ok() && info == old(info) && capacity == old(capacity) && inUse == old(inUse)
      ensures usage <= capacity || lru == []
      ensures n <= |old(lru)| && lru == old(lru)[n..]
      ensures n > 0 ==> usage + Charge(info, old(lru)[n - 1]) > capacity
      ensures deleted == old(deleted) + Calls(info, old(lru)[..n])
      ensures forall e :: Out(held, e) == Out(old(held), e)
      ensures forall e | Out(held, e) > 0 :: e in inCache && e in old(inCache) && inCache[e] == old(inCache)[e]
    {
      hide Rings, HandleTable.Ok, Logged, Drop, Matches, Counted, InTable, Total, Charge, Calls, CallFor;
      n := 0;
      NoCalls(info);
      CountedKeys(refs, inCache, held, lru, inUse, 0);
      RingsEmpty(next, prev, lru, inUse);
      while usage > capacity && next[LRU] != LRU
        invariant Ok() && info == old(info) && capacity == old(capacity) && inUse == old(inUse)
        invariant n <= |old(lru)| && lru == old(lru)[n..]
        invariant n > 0 ==> usage + Charge(info, old(lru)[n - 1]) > capacity
        invariant deleted == old(deleted) + Calls(info, old(lru)[..n])
        invariant LRU in next && (next[LRU] == LRU <==> lru == [])
        invariant forall e :: Out(held, e) == Out(old(held), e)
        invariant forall e | Out(held, e) > 0 :: e in inCache && e in old(inCache) && inCache[e] == old(inCache)[e]
        decreases |lru|
      {
        EvictOldest();
        CallsAppend(info, old(lru), n);
        n := n + 1;
        RingsEmpty(next, prev, lru, inUse);
      }
    }

    /** Prune: everything no client holds goes. */
    method Prune()
      requires Ok()
      modifies this, table
      ensures Ok() && info == old(info) && capacity == old(capacity) && lru == [] && inUse == old(inUse)
      ensures deleted == old(deleted) + Calls(info, old(lru))
      ensures forall e :: Out(held, e) == Out(old(held), e)
      ensures forall e | Out(held, e) > 0 :: e in inCache && e in old(inCache) && inCache[e] == old(inCache)[e]
    {
      hide Rings, HandleTable.Ok, Logged, Drop, Matches, Counted, InTable, Total, Charge, Calls, CallFor;
      ghost var n: nat := 0;
      NoCalls(info);
      CountedKeys(refs, inCache, held, lru, inUse, 0);
      RingsEmpty(next, prev, lru, inUse);
      while next[LRU] != LRU
        invariant Ok() && info == old(info) && capacity == old(capacity) && inUse == old(inUse)
        invariant n <= |old(lru)| && lru == old(lru)[n..]
        invariant deleted == old(deleted) + Calls(info, old(lru)[..n])
        invariant LRU in next && (next[LRU] == LRU <==> lru == [])
        invariant forall e :: Out(held, e) == Out(old(held), e)
        invariant forall e | Out(held, e) > 0 :: e in inCache && e in old(inCache) && inCache[e] == old(inCache)[e]
        decreases |lru|
      {
        EvictOldest();
        CallsAppend(info, old(lru), n);
        n := n + 1;
        RingsEmpty(next, prev, lru, inUse);
      }
      assert old(lru)[..n] == old(lru);
    }

    /** The start of Insert: a handle for the caller. */
    method MakeHandle(key: Bytes, hash: nat, value: nat, charge: nat) returns (e: nat)
      requires Ok()
      modifies `info, `unused, `refs, `inCache, `held
      ensures Ok() && e == old(unused) && e !in old(held) && e !in old(inCache)
      ensures info == old(info)[e := Info(key, hash, value, charge)]
      ensures held == old(held)[e := 1] && inCache == old(inCache)[e := false]
    {
      hide Rings, HandleTable.Ok, Logged, Drop, Matches, Counted, InTable, Total, Charge;
      CountedKeys(refs, inCache, held, lru, inUse, 0);
      LiveHandles(info, refs.Keys, deleted, unused);
      e := unused;
      TableIgnores(table.members, inCache, e);
      LogMake(info, refs.Keys, deleted, unused, Info(key, hash, value, charge));
      NewCounts(refs, inCache, held, lru, inUse, e);
      TotalSame(info, info[e := Info(key, hash, value, charge)], lru);
      TotalSame(info, info[e := Info(key, hash, value, charge)], inUse);
      NewInfo(table, info, e, Info(key, hash, value, charge));
      info := info[e := Info(key, hash, value, charge)];
      unused := unused + 1;
      inCache, refs, held := inCache[e := false], refs[e := 1], held[e := 1];
      assert refs.Keys == old(refs.Keys) + {e};
    }

    /** The cache takes a reference of its own; an entry with the same key leaves the table. */
    method AddToCache(e: nat) returns (o: nat)
      requires Ok() && e in refs && e in inCache && !inCache[e] && e in held && held[e] == 1 && e in info
      modifies `refs, `inCache, `next, `prev, `lru, `inUse, `usage, table
      ensures Core(0, o) && inCache == old(inCache)[e := true] && lru == old(lru) && inUse == old(inUse) + [e]
      ensures o != 0 ==> o in refs && o in old(inCache) && old(inCache)[o] && o in held
      ensures forall x | x in old(inCache) && old(inCache)[x] && Matches(info, x, info[e].key, info[e].hash) :: x == o
    {
      hide Rings, HandleTable.Ok, Logged, Drop, Matches, Counted, InTable;
      ghost var members, cached := table.members, inCache;
      CachedMembers(members, inCache);
      CountedKeys(refs, inCache, held, lru, inUse, 0);
      CountAt(refs, inCache, held, lru, inUse, 0, e);
      LiveHandles(info, refs.Keys, deleted, unused);
      CacheCounts(refs, inCache, held, lru, inUse, e);
      refs := refs[e := refs[e] + 1];
      assert refs.Keys == old(refs.Keys);
      inCache := inCache[e := true];
      LruAppend(IN_USE, e);
      usage := usage + info[e].charge;
      o := Enter(table, info, e);
      TableTakes(members, cached, e, o);
    }

    lemma KeysAndLists()
      requires Ok()
      ensures refs.Keys == inCache.Keys == held.Keys && 0 !in refs && lru == Drop(lru, 0) && inUse == Drop(inUse, 0)
      ensures forall e | e in refs :: e in info
    {
      hide Rings, HandleTable.Ok, Logged, Drop, Counted, InTable;
      CountedKeys(refs, inCache, held, lru, inUse, 0);
      ListsDistinct(next, prev, lru, inUse);
      NullOnNoList(lru, inUse);
      LiveHandles(info, refs.Keys, deleted, unused);
    }

    /** A new handle is cached, and the one with the same key gives way. */
    method Cached(e: nat) returns (o: nat, ghost gone: seq<Call>)
      requires Ok() && e in refs && e in inCache && !inCache[e] && e in held && held[e] == 1 && e in info
      modifies `next, `prev, `refs, `inCache, `lru, `inUse, `held, `deleted, `usage, table
      ensures Ok() && e in held && held[e] == 1 && e in inCache && inCache[e]
      ensures forall x | x in old(inCache) && old(inCache)[x] && Matches(info, x, info[e].key, info[e].hash) :: x == o
      ensures lru == Drop(old(lru), o) && inUse == Drop(old(inUse) + [e], o) && deleted == old(deleted) + gone
      ensures gone == if o != 0 && o in old(held) && old(held)[o] == 0 then [CallFor(info, o)] else []
      ensures forall x :: Out(held, x) == Out(old(held), x)
    {
      hide Rings, HandleTable.Ok, Logged, Drop, Matches, Counted, InTable, Charge, CallFor, Total, Core;
      KeysAndLists();
      o := AddToCache(e);
      gone := if o != 0 && held[o] == 0 then [CallFor(info, o)] else [];
      var erased := FinishErase(o);
    }

    /** Insert, up to the evictions. */
    method Place(key: Bytes, hash: nat, value: nat, charge: nat) returns (e: nat, o: nat, ghost gone: seq<Call>)
      requires Ok()
      modifies this, table
      ensures Ok() && capacity == old(capacity)
      ensures e == old(unused) && info == old(info)[e := Info(key, hash, value, charge)]
      ensures e in held && held[e] == 1 && e in inCache && (inCache[e] <==> capacity > 0)
      ensures capacity > 0 ==> forall x | x in old(inCache) && old(inCache)[x] && Matches(info, x, key, hash) :: x == o
      ensures lru == Drop(old(lru), o) && inUse == Drop(if capacity > 0 then old(inUse) + [e] else old(inUse), o)
      ensures deleted == old(deleted) + gone
      ensures gone == if o != 0 && o in old(held) && old(held)[o] == 0 then [CallFor(info, o)] else []
      ensures forall x | x != e :: Out(held, x) == Out(old(held), x)
    {
      hide Rings, HandleTable.Ok, Logged, Drop, Matches, Counted, InTable, Charge, CallFor, Total, Core;
      e := MakeHandle(key, hash, value, charge);
      KeysAndLists();
      o, gone := 0, [];
      if capacity > 0 {
        o, gone := Cached(e);
      }
    }

    /** MAIN: Insert. The handle is the caller's, and cached if the cache is on; an entry with the same key leaves
        the cache; then the oldest unused entries go, one at a time, until the rest fits or all are gone. */
    method Insert(key: Bytes, hash: nat, value: nat, charge: nat)
      returns (e: nat, o: nat, ghost gone: seq<Call>, ghost n: nat)
      requires Ok()
      modifies this, table
      ensures Ok() && capacity == old(capacity) && (usage <= capacity || lru == [])
      ensures e == old(unused) && info == old(info)[e := Info(key, hash, value, charge)]
      ensures e in held && held[e] == 1 && e in inCache && (inCache[e] <==> capacity > 0)
      ensures capacity > 0 ==> forall x | x in old(inCache) && old(inCache)[x] && Matches(info, x, key, hash) :: x == o
      ensures inUse == Drop(if capacity > 0 then old(inUse) + [e] else old(inUse), o)
      ensures n <= |Drop(old(lru), o)| && lru == Drop(old(lru), o)[n..]
      ensures n > 0 ==> usage + Charge(info, Drop(old(lru), o)[n - 1]) > capacity
      ensures gone == if o != 0 && o in old(held) && old(held)[o] == 0 then [CallFor(info, o)] else []
      ensures deleted == old(deleted) + gone + Calls(info, Drop(old(lru), o)[..n])
      ensures forall x | x != e :: Out(held, x) == Out(old(held), x)
    {
      hide Rings, HandleTable.Ok, Logged, Drop, Matches, Counted, InTable, Charge, CallFor, Total, Calls;
      e, o, gone := Place(key, hash, value, charge);
      assert Out(held, e) == 1;
      n := EvictOverCapacity();
      assert Out(held, e) == 1;
    }
  }

  /** The table without its length, which does not matter to the cache. */
  method Enter(table: HandleTable, info: map<nat, Info>, e: nat) returns (o: nat)
    requires table.Ok(info) && e != 0 && e in info && e !in table.members
    modifies table
    ensures table.Ok(info) && table.members == old(table.members) - {o} + {e}
    ensures o != 0 ==> o in old(table.members) && Matches(info, o, info[e].key, info[e].hash)
    ensures o == 0 ==> 0 !in old(table.members)
    ensures forall x | x in old(table.members) && Matches(info, x, info[e].key, info[e].hash) :: x == o
  {
    hide HandleTable.Ok, Matches;
    o := table.Insert(info, e);
  }

  function Calls(info: map<nat, Info>, c: seq<nat>): (r: seq<Call>)
    ensures |r| == |c|
  {
    seq(|c|, i requires 0 <= i < |c| => CallFor(info, c[i]))
  }

  lemma NoCalls(info: map<nat, Info>)
    ensures Calls(info, []) == []
  {
  }

  lemma CallsAppend(info: map<nat, Info>, c: seq<nat>, n: nat)
    requires n < |c|
    ensures Calls(info, c[..n + 1]) == Calls(info, c[..n]) + [CallFor(info, c[n])]
  {
  }

  lemma CountedKeys(refs: map<nat, nat>, inCache: map<nat, bool>, held: map<nat, nat>, lru: seq<nat>, inUse: seq<nat>,
      x: nat)
    requires Counted(refs, inCache, held, lru, inUse, x)
    ensures refs.Keys == inCache.Keys == held.Keys && 0 !in refs
    ensures forall e | e in lru || e in inUse :: e in refs
  {
  }

  lemma OldestIs(next: map<nat, nat>, prev: map<nat, nat>, lru: seq<nat>, inUse: seq<nat>)
    requires Rings(next, prev, lru, inUse) && lru != []
    ensures LRU in next && next[LRU] == lru[0]
  {
    RingEnds(next, prev, LRU, lru);
  }

  lemma RingsEmpty(next: map<nat, nat>, prev: map<nat, nat>, lru: seq<nat>, inUse: seq<nat>)
    requires Rings(next, prev, lru, inUse)
    ensures LRU in next && (next[LRU] == LRU <==> lru == [])
  {
    RingEnds(next, prev, LRU, lru);
  }

  lemma MatchesItself(info: map<nat, Info>, e: nat)
    requires e in info
    ensures Matches(info, e, info[e].key, info[e].hash)
  {
  }

  lemma DropFirst(c: seq<nat>)
    requires c != []
    ensures Drop(c, c[0]) == c[1..]
  {
    assert IndexOf(c, c[0]) == 0;
  }

  lemma NotOnOther(c: seq<nat>, e: nat)
    ensures e !in c ==> Drop(c, e) == c
  {
  }

  lemma NewCounts(refs: map<nat, nat>, inCache: map<nat, bool>, held: map<nat, nat>, lru: seq<nat>, inUse: seq<nat>,
      e: nat)
    requires Counted(refs, inCache, held, lru, inUse, 0) && e !in refs && e != 0
    ensures Counted(refs[e := 1], inCache[e := false], held[e := 1], lru, inUse, 0)
  {
    var refs', inCache', held' := refs[e := 1], inCache[e := false], held[e := 1];
    forall x | x in refs'
      ensures CountOf(refs'[x], inCache'[x], held'[x], x in lru, x in inUse, x == 0)
    {
      if x != e {
        assert CountOf(refs[x], inCache[x], held[x], x in lru, x in inUse, x == 0);
      }
    }
  }

  lemma CacheCounts(refs: map<nat, nat>, inCache: map<nat, bool>, held: map<nat, nat>, lru: seq<nat>, inUse: seq<nat>,
      e: nat)
    requires Counted(refs, inCache, held, lru, inUse, 0) && e in refs && !inCache[e] && held[e] > 0
    ensures Counted(refs[e := refs[e] + 1], inCache[e := true], held, lru, inUse + [e], 0)
  {
    var refs', inCache', inUse' := refs[e := refs[e] + 1], inCache[e := true], inUse + [e];
    forall x | x in refs'
      ensures CountOf(refs'[x], inCache'[x], held[x], x in lru, x in inUse', x == 0)
    {
      assert CountOf(refs[x], inCache[x], held[x], x in lru, x in inUse, x == 0);
    }
  }

  lemma TableIgnores(members: set<nat>, inCache: map<nat, bool>, e: nat)
    requires InTable(members, inCache, 0) && e !in inCache
    ensures InTable(members, inCache[e := false], 0)
  {
  }

  lemma CachedMembers(members: set<nat>, inCache: map<nat, bool>)
    requires InTable(members, inCache, 0)
    ensures forall x | x in members :: x in inCache && inCache[x]
    ensures forall x | x in inCache && inCache[x] :: x == 0 || x in members
  {
  }

  lemma TableTakes(members: set<nat>, inCache: map<nat, bool>, e: nat, o: nat)
    requires InTable(members, inCache, 0) && e != o && e != 0 && 0 !in inCache
    ensures InTable(members - {o} + {e}, inCache[e := true], o)
  {
  }

  lemma NewInfo(table: HandleTable, info: map<nat, Info>, e: nat, i: Info)
    requires table.Ok(info) && e !in info
    ensures table.Ok(info[e := i])
  {
    hide Slot, Linked;
  }

  lemma NullOnNoList(lru: seq<nat>, inUse: seq<nat>)
    requires (forall e | e in lru :: e > 2) && forall e | e in inUse :: e > 2
    ensures Drop(lru, 0) == lru && Drop(inUse, 0) == inUse
  {
  }

  lemma UnrefLast(refs: map<nat, nat>, inCache: map<nat, bool>, held: map<nat, nat>, lru: seq<nat>, inUse: seq<nat>,
      e: nat)
    requires Counted(refs, inCache, held, lru, inUse, e) && e in refs && refs[e] == 1
    ensures e in inCache && !inCache[e] && e in held && held[e] == 0
    ensures Counted(refs - {e}, inCache - {e}, held - {e}, lru, inUse, 0)
  {
    assert CountOf(refs[e], inCache[e], held[e], e in lru, e in inUse, e == e);
    forall x | x in refs && x != e
      ensures CountOf(refs[x], inCache[x], held[x], x in lru, x in inUse, x == 0)
    {
      assert CountOf(refs[x], inCache[x], held[x], x in lru, x in inUse, x == e);
    }
    assert (refs - {e}).Keys == refs.Keys - {e} && (inCache - {e}).Keys == inCache.Keys - {e};
    assert (held - {e}).Keys == held.Keys - {e};
  }

  lemma UnrefCounts(refs: map<nat, nat>, inCache: map<nat, bool>, held: map<nat, nat>, lru: seq<nat>, inUse: seq<nat>,
    lru': seq<nat>, inUse': seq<nat>, e: nat)
    requires Counted(refs, inCache, held, lru, inUse, e) && e in refs && refs[e] > 1 && Distinct(inUse)
    requires if inCache[e] && refs[e] == 2 then lru' == lru + [e] && inUse' == Drop(inUse, e) else lru' == lru && inUse' == inUse
    ensures Counted(refs[e := refs[e] - 1], inCache, held, lru', inUse', 0)
  {
    hide Drop;
    DropIs(inUse, e);
    var refs' := refs[e := refs[e] - 1];
    forall x | x in refs'
      ensures CountOf(refs'[x], inCache[x], held[x], x in lru', x in inUse', x == 0)
    {
      assert CountOf(refs[x], inCache[x], held[x], x in lru, x in inUse, x == e);
    }
  }

  lemma TableForgets(members: set<nat>, inCache: map<nat, bool>, e: nat)
    requires InTable(members, inCache, 0) && e in inCache && !inCache[e]
    ensures InTable(members, inCache - {e}, 0)
  {
  }

  lemma HeldIsLive(refs: map<nat, nat>, inCache: map<nat, bool>, held: map<nat, nat>, lru: seq<nat>, inUse: seq<nat>,
      e: nat)
    requires Counted(refs, inCache, held, lru, inUse, 0) && e in held && held[e] > 0
    ensures e in refs && e in inCache && refs[e] > 0 && (e in inUse <==> inCache[e]) && e !in lru
  {
    assert CountOf(refs[e], inCache[e], held[e], e in lru, e in inUse, e == 0);
  }

  lemma GiveBack(refs: map<nat, nat>, inCache: map<nat, bool>, held: map<nat, nat>, lru: seq<nat>, inUse: seq<nat>,
      e: nat)
    requires Counted(refs, inCache, held, lru, inUse, 0) && e in held && held[e] > 0
    ensures Counted(refs, inCache, held[e := held[e] - 1], lru, inUse, e)
  {
    var held' := held[e := held[e] - 1];
    forall x | x in refs
      ensures CountOf(refs[x], inCache[x], held'[x], x in lru, x in inUse, x == e)
    {
      assert CountOf(refs[x], inCache[x], held[x], x in lru, x in inUse, x == 0);
    }
  }

  /** The cache's own reference is the one owed. */
  lemma EraseCounts(refs: map<nat, nat>, inCache: map<nat, bool>, held: map<nat, nat>, lru: seq<nat>, inUse: seq<nat>,
      e: nat)
    requires Counted(refs, inCache, held, lru, inUse, 0) && e in refs && inCache[e] && Distinct(lru) && Distinct(inUse)
    ensures e in lru || e in inUse
    ensures Counted(refs, inCache[e := false], held, Drop(lru, e), Drop(inUse, e), e)
  {
    hide Drop;
    DropIs(lru, e);
    DropIs(inUse, e);
    assert CountOf(refs[e], inCache[e], held[e], e in lru, e in inUse, e == 0);
    var inCache', lru', inUse' := inCache[e := false], Drop(lru, e), Drop(inUse, e);
    forall x | x in refs
      ensures CountOf(refs[x], inCache'[x], held[x], x in lru', x in inUse', x == e)
    {
      assert CountOf(refs[x], inCache[x], held[x], x in lru, x in inUse, x == 0);
    }
  }

  lemma TableErased(members: set<nat>, inCache: map<nat, bool>, e: nat)
    requires InTable(members, inCache, e) && 0 !in inCache
    ensures InTable(members, inCache[e := false], 0)
  {
  }

  lemma CountAt(refs: map<nat, nat>, inCache: map<nat, bool>, held: map<nat, nat>, lru: seq<nat>, inUse: seq<nat>,
      x: nat, e: nat)
    requires Counted(refs, inCache, held, lru, inUse, x) && e in refs
    ensures e in inCache && e in held && CountOf(refs[e], inCache[e], held[e], e in lru, e in inUse, e == x)
    ensures 0 !in inCache
  {
  }

  lemma LiveHandles(info: map<nat, Info>, live: set<nat>, deleted: seq<Call>, unused: nat)
    requires Logged(info, live, deleted, unused)
    ensures forall e | e in live :: 2 < e < unused && e in info
  {
  }

  lemma RefCounts(refs: map<nat, nat>, inCache: map<nat, bool>, held: map<nat, nat>, lru: seq<nat>, inUse: seq<nat>,
    lru': seq<nat>, inUse': seq<nat>, e: nat)
    requires Counted(refs, inCache, held, lru, inUse, 0) && e in refs && inCache[e] && Distinct(lru)
    requires if e in lru then e !in inUse && lru' == Drop(lru, e) && inUse' == inUse + [e]
      else lru' == lru && inUse' == inUse
    ensures Counted(refs[e := refs[e] + 1], inCache, held[e := held[e] + 1], lru', inUse', 0)
  {
    hide Drop;
    DropIs(lru, e);
    var refs', held' := refs[e := refs[e] + 1], held[e := held[e] + 1];
    forall x | x in refs'
      ensures CountOf(refs'[x], inCache[x], held'[x], x in lru', x in inUse', x == 0)
    {
      assert CountOf(refs[x], inCache[x], held[x], x in lru, x in inUse, x == 0);
    }
  }

  lemma TotalAdd(info: map<nat, Info>, c: seq<nat>, e: nat)
    ensures Total(info, c + [e]) == Total(info, c) + Charge(info, e)
  {
    TotalAppend(info, c, [e]);
    assert Total(info, [e]) == Charge(info, e) + Total(info, []);
  }

  lemma EmptyRings()
    ensures Rings(map[LRU := LRU, IN_USE := IN_USE], map[LRU := LRU, IN_USE := IN_USE], [], [])
  {
  }

  lemma ListsDistinct(next: map<nat, nat>, prev: map<nat, nat>, lru: seq<nat>, inUse: seq<nat>)
    requires Rings(next, prev, lru, inUse)
    ensures Distinct(lru) && Distinct(inUse)
    ensures forall e | e in lru :: e > 2 && e !in inUse
    ensures forall e | e in inUse :: e > 2
  {
  }

  lemma NotDropped(lru: seq<nat>, inUse: seq<nat>, e: nat)
    requires Distinct(lru) && Distinct(inUse)
    ensures e !in Drop(lru, e) && e !in Drop(inUse, e)
    ensures (e !in lru ==> Drop(lru, e) == lru) && (e !in inUse ==> Drop(inUse, e) == inUse)
  {
    DropIs(lru, e);
    DropIs(inUse, e);
  }

  // ----- Any sequence of operations -----

  /** A client call; Release names one of the handles the client still has by its place. */
  datatype Op =
    | InsertOp(key: Bytes, hash: nat, value: nat, charge: nat)
    | LookupOp(key: Bytes, hash: nat)
    | ReleaseOp(index: nat)
    | EraseOp(key: Bytes, hash: nat)
    | PruneOp

  /** The cache counts as references out exactly the handles the client has. */
  ghost predicate Client(held: map<nat, nat>, handles: seq<nat>) {
    forall e :: Out(held, e) == multiset(handles)[e]
  }

  lemma ClientTakes(held: map<nat, nat>, held': map<nat, nat>, handles: seq<nat>, e: nat)
    requires Client(held, handles) && Out(held', e) == Out(held, e) + 1
    requires forall x | x != e :: Out(held', x) == Out(held, x)
    ensures Client(held', handles + [e])
  {
  }

  lemma ClientGives(held: map<nat, nat>, held': map<nat, nat>, handles: seq<nat>, i: nat)
    requires Client(held, handles) && i < |handles| && Out(held', handles[i]) == Out(held, handles[i]) - 1
    requires forall x | x != handles[i] :: Out(held', x) == Out(held, x)
    ensures Client(held', handles[..i] + handles[i + 1..])
  {
    assert handles == handles[..i] + [handles[i]] + handles[i + 1..];
  }

  lemma ClientHas(held: map<nat, nat>, handles: seq<nat>, i: nat)
    requires Client(held, handles) && i < |handles|
    ensures handles[i] in held && held[handles[i]] > 0
  {
    assert handles[i] in multiset(handles);
  }

  /** The handle is of a cached entry under the key. */
  ghost predicate Under(info: map<nat, Info>, inCache: map<nat, bool>, e: nat, key: Bytes, hash: nat) {
    e in inCache && inCache[e] && Matches(info, e, key, hash)
  }

  /** What a call does to the handles the client has: Insert hands out one of the entry it makes, Lookup one of the cached
      entry under the key, if there is one, Release takes one back, and nothing is under an erased key, nor is anything
      unused after Prune. */
  ghost predicate Answers(op: Op, cached: map<nat, bool>, handles: seq<nat>, info: map<nat, Info>, inCache: map<nat, bool>,
                          lru: seq<nat>, handles': seq<nat>) {
    match op
    case InsertOp(key, hash, value, charge) =>
      handles' != [] && handles' == handles + [handles'[|handles'| - 1]] && handles'[|handles'| - 1] in info &&
      info[handles'[|handles'| - 1]] == Info(key, hash, value, charge)
    case LookupOp(key, hash) =>
      if handles' == handles then forall e :: !Under(info, cached, e, key, hash)
      else
        handles' != [] && handles' == handles + [handles'[|handles'| - 1]] &&
        Under(info, cached, handles'[|handles'| - 1], key, hash)
    case ReleaseOp(i) => handles' == if i < |handles| then handles[..i] + handles[i + 1..] else handles
    case EraseOp(key, hash) => handles' == handles && forall e :: !Under(info, inCache, e, key, hash)
    case PruneOp => handles' == handles && lru == []
  }

  method PerformInsert(cache: LRUCache, key: Bytes, hash: nat, value: nat, charge: nat, handles: seq<nat>)
    returns (handles': seq<nat>)
    requires cache.Ok() && Client(cache.held, handles)
    modifies cache, cache.table
    ensures cache.Ok() && Client(cache.held, handles') && cache.capacity == old(cache.capacity)
    ensures old(cache.deleted) <= cache.deleted && (cache.usage <= cache.capacity || cache.lru == [])
    ensures handles' != [] && handles'[..|handles'| - 1] == handles
    ensures handles'[|handles'| - 1] in cache.info && cache.info[handles'[|handles'| - 1]] == Info(key, hash, value, charge)
  {
    hide LRUCache.Ok, LRUCache.Core, Client, Calls, CallFor, Charge, Drop, Matches;
    ghost var held := cache.held;
    NewIsNotOut(cache);
    ghost var gone, n;
    var e, o;
    e, o, gone, n := cache.Insert(key, hash, value, charge);
    ClientTakes(held, cache.held, handles, e);
    handles' := handles + [e];
  }

  method PerformLookup(cache: LRUCache, key: Bytes, hash: nat, handles: seq<nat>) returns (handles': seq<nat>)
    requires cache.Ok() && Client(cache.held, handles)
    modifies cache
    ensures cache.Ok() && Client(cache.held, handles') && cache.capacity == old(cache.capacity)
    ensures cache.deleted == old(cache.deleted)
    ensures Answers(LookupOp(key, hash), old(cache.inCache), handles, cache.info, cache.inCache, cache.lru, handles')
  {
    hide LRUCache.Ok, LRUCache.Core, Client, Calls, CallFor, Charge, Drop, Matches, Under;
    handles' := handles;
    ghost var held := cache.held;
    cache.KeysAndLists();
    var e := cache.Lookup(key, hash);
    if e != 0 {
      ClientTakes(held, cache.held, handles, e);
      handles' := handles + [e];
      IsUnder(cache.info, cache.inCache, e, key, hash);
    } else {
      NothingUnder(cache.info, cache.inCache, key, hash);
    }
  }

  method Perform(cache: LRUCache, op: Op, handles: seq<nat>) returns (handles': seq<nat>)
    requires cache.Ok() && Client(cache.held, handles)
    modifies cache, cache.table
    ensures cache.Ok() && Client(cache.held, handles') && cache.capacity == old(cache.capacity)
    ensures old(cache.deleted) <= cache.deleted
    ensures op.InsertOp? ==> cache.usage <= cache.capacity || cache.lru == []
    ensures Answers(op, old(cache.inCache), handles, cache.info, cache.inCache, cache.lru, handles')
  {
    hide LRUCache.Ok, LRUCache.Core, Client, Calls, CallFor, Charge, Drop, Matches, Under;
    handles' := handles;
    ghost var held, cached := cache.held, cache.inCache;
    match op
    case InsertOp(key, hash, value, charge) =>
      handles' := PerformInsert(cache, key, hash, value, charge, handles);
    case LookupOp(key, hash) =>
      handles' := PerformLookup(cache, key, hash, handles);
    case ReleaseOp(i) =>
      if i < |handles| {
        ClientHas(held, handles, i);
        cache.Release(handles[i]);
        ClientGives(held, cache.held, handles, i);
        handles' := handles[..i] + handles[i + 1..];
      }
    case EraseOp(key, hash) =>
      var o := cache.Erase(key, hash);
      ClientSame(held, cache.held, handles);
      ErasedUnder(cache.info, cached, cache.inCache, key, hash, o);
    case PruneOp =>
      cache.Prune();
      ClientSame(held, cache.held, handles);
  }

  lemma IsUnder(info: map<nat, Info>, inCache: map<nat, bool>, e: nat, key: Bytes, hash: nat)
    requires e in inCache && inCache[e] && Matches(info, e, key, hash)
    ensures Under(info, inCache, e, key, hash)
  {
  }

  lemma NothingUnder(info: map<nat, Info>, inCache: map<nat, bool>, key: Bytes, hash: nat)
    requires 0 !in inCache && forall x | x in inCache && inCache[x] && Matches(info, x, key, hash) :: x == 0
    ensures forall e :: !Under(info, inCache, e, key, hash)
  {
  }

  lemma ErasedUnder(info: map<nat, Info>, cached: map<nat, bool>, inCache: map<nat, bool>, key: Bytes, hash: nat, o: nat)
    requires forall x | x in cached && cached[x] && Matches(info, x, key, hash) :: x == o
    requires forall x :: x in inCache && inCache[x] <==> x in cached && cached[x] && x != o
    ensures forall e :: !Under(info, inCache, e, key, hash)
  {
  }

  lemma ClientSame(held: map<nat, nat>, held': map<nat, nat>, handles: seq<nat>)
    requires Client(held, handles) && forall x :: Out(held', x) == Out(held, x)
    ensures Client(held', handles)
  {
  }

  lemma NewIsNotOut(cache: LRUCache)
    requires cache.Ok()
    ensures Out(cache.held, cache.unused) == 0
  {
    hide Rings, HandleTable.Ok;
  }

  /** What the cache shows between two calls. */
  datatype View = View(handles: seq<nat>, info: map<nat, Info>, inCache: map<nat, bool>, lru: seq<nat>)

  /** MAIN: after any sequence of calls, each of which answers as it should, the usage is the cached charges' sum, the table
      holds exactly the cached handles, lists follow the reference counts, and deleters have run once each, never for a
      handle still out. */
  method Drive(capacity: nat, ops: seq<Op>) returns (cache: LRUCache, handles: seq<nat>, ghost views: seq<View>)
    ensures cache.Ok() && Client(cache.held, handles)
    ensures forall i | 0 <= i < |cache.deleted| :: cache.deleted[i].handle !in handles
    ensures |views| == |ops| + 1 && views[0].handles == [] && views[|ops|].handles == handles
    ensures forall i | 0 <= i < |ops| ::
      Answers(ops[i], views[i].inCache, views[i].handles, views[i + 1].info, views[i + 1].inCache, views[i + 1].lru,
              views[i + 1].handles)
  {
    hide LRUCache.Ok, LRUCache.Core, Client, Answers;
    cache := new LRUCache(capacity);
    handles := [];
    views := [View([], cache.info, cache.inCache, cache.lru)];
    NobodyOut(cache.held);
    for i := 0 to |ops|
      invariant fresh(cache) && fresh(cache.table) && cache.Ok() && Client(cache.held, handles)
      invariant |views| == i + 1 && views[0].handles == []
      invariant views[i] == View(handles, cache.info, cache.inCache, cache.lru)
      invariant forall k | 0 <= k < i ::
        Answers(ops[k], views[k].inCache, views[k].handles, views[k + 1].info, views[k + 1].inCache, views[k + 1].lru,
                views[k + 1].handles)
    {
      handles := Perform(cache, ops[i], handles);
      views := views + [View(handles, cache.info, cache.inCache, cache.lru)];
    }
    DeletedIsNotOut(cache, handles);
  }

  lemma NobodyOut(held: map<nat, nat>)
    requires held == map[]
    ensures Client(held, [])
  {
  }

  lemma DeletedIsNotOut(cache: LRUCache, handles: seq<nat>)
    requires cache.Ok() && Client(cache.held, handles)
    ensures forall i | 0 <= i < |cache.deleted| :: cache.deleted[i].handle !in handles
  {
    hide Rings, HandleTable.Ok;
    forall i | 0 <= i < |cache.deleted|
      ensures cache.deleted[i].handle !in handles
    {
      assert Out(cache.held, cache.deleted[i].handle) == 0;
    }
  }
}
