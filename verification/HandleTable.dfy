/** The hash table of the LRU cache (util/cache.cc): buckets of handles chained through next_hash, doubled in size
    when there are more handles than buckets. Handles are numbers, and 0 is null. */
module HandleTables {
  import opened Entries
  import opened LinkedRings

  /** What a handle is made with. */
  datatype Info = Info(key: Bytes, hash: nat, value: nat, charge: nat)

  predicate Matches(info: map<nat, Info>, e: nat, key: Bytes, hash: nat) {
    e in info && info[e].hash == hash && info[e].key == key
  }

  /** The number of buckets changes only if a new handle makes more handles than buckets, and then no more than needed. */
  predicate Grows(before: nat, after: nat, handles: nat, replaced: nat) {
    if replaced == 0 && handles > before then after > 4 ==> after / 2 < handles else after == before
  }

  /** The lengths the table takes: 4, doubled any number of times. */
  ghost predicate Doubled(length: nat) {
    length == 4 || (length > 4 && length % 2 == 0 && Doubled(length / 2))
  }

  /** hash & (length - 1), for a power of two. */
  function Slot(hash: nat, length: nat): (r: nat)
    requires length > 0
    ensures r < length
  {
    hash % length
  }

  // ----- Chains -----

  function At(c: seq<nat>, j: nat): nat {
    if j < |c| then c[j] else 0
  }

  /** Following next from `head` visits exactly the handles of c. */
  ghost predicate IsChain(head: nat, next: map<nat, nat>, c: seq<nat>) {
    head == At(c, 0) && Distinct(c) && forall j | 0 <= j < |c| :: Leads(next, c, j)
  }

  ghost predicate Leads(next: map<nat, nat>, c: seq<nat>, j: nat)
    requires j < |c|
  {
    c[j] != 0 && c[j] in next && next[c[j]] == At(c, j + 1)
  }

  lemma ChainElsewhere(head: nat, next: map<nat, nat>, next': map<nat, nat>, c: seq<nat>)
    requires IsChain(head, next, c)
    requires forall e | e in c :: e in next' && e in next && next'[e] == next[e]
    ensures IsChain(head, next', c)
  {
    forall j | 0 <= j < |c|
      ensures Leads(next', c, j)
    {
      assert Leads(next, c, j);
    }
  }

  // ----- The table -----

  ghost predicate Linked(list: seq<nat>, next: map<nat, nat>, chains: seq<seq<nat>>) {
    |list| == |chains| > 0 && forall i | 0 <= i < |list| :: IsChain(list[i], next, chains[i])
  }

  /** Every member is in the chain of its bucket, and nothing else is; no two members have the same key. */
  ghost predicate Grouped(info: map<nat, Info>, chains: seq<seq<nat>>, members: set<nat>) {
    |chains| > 0 &&
    (forall e | e in members :: e in info && e in chains[Slot(info[e].hash, |chains|)]) &&
    (forall i, e | 0 <= i < |chains| && e in chains[i] :: e in members && Slot(info[e].hash, |chains|) == i) &&
    forall a, b | a in members && b in members && Matches(info, a, info[b].key, info[b].hash) :: a == b
  }

  ghost predicate IsTable(info: map<nat, Info>, list: seq<nat>, next: map<nat, nat>, chains: seq<seq<nat>>,
      members: set<nat>) {
    Linked(list, next, chains) && Grouped(info, chains, members)
  }

  lemma ChainPut(head: nat, next: map<nat, nat>, c: seq<nat>, j: nat, h: nat)
    requires IsChain(head, next, c) && j <= |c| && h !in c && h != 0
    ensures var next' := next[h := At(c, j + 1)];
      IsChain(if j == 0 then h else head, if j == 0 then next' else next'[c[j - 1] := h],
        if j == |c| then c + [h] else c[j := h])
  {
    var c' := if j == |c| then c + [h] else c[j := h];
    var next1 := next[h := At(c, j + 1)];
    var next' := if j == 0 then next1 else next1[c[j - 1] := h];
    forall k | 0 <= k < |c'|
      ensures Leads(next', c', k)
    {
      if k != j {
        assert Leads(next, c, k);
      }
    }
  }

  lemma ChainDrop(head: nat, next: map<nat, nat>, c: seq<nat>, j: nat)
    requires IsChain(head, next, c) && j < |c|
    ensures c[j] in next
    ensures IsChain(if j == 0 then next[c[j]] else head, if j == 0 then next else next[c[j - 1] := next[c[j]]],
      c[..j] + c[j + 1..])
  {
    var c' := c[..j] + c[j + 1..];
    assert Leads(next, c, j);
    var next' := if j == 0 then next else next[c[j - 1] := next[c[j]]];
    forall k | 0 <= k < |c'|
      ensures Leads(next', c', k)
    {
      assert Leads(next, c, if k < j then k else k + 1);
    }
  }

  lemma ChainPush(head: nat, next: map<nat, nat>, c: seq<nat>, h: nat)
    requires IsChain(head, next, c) && h !in c && h != 0
    ensures IsChain(h, next[h := head], [h] + c)
  {
    var c', next' := [h] + c, next[h := head];
    forall k | 0 <= k < |c'|
      ensures Leads(next', c', k)
    {
      if k > 0 {
        assert Leads(next, c, k - 1);
      }
    }
  }

  /** A store through the pointer. */
  function Stored(list: seq<nat>, next: map<nat, nat>, p: Pointer, e: nat): (seq<nat>, map<nat, nat>) {
    match p
    case Bucket(i) => (if i < |list| then list[i := e] else list, next)
    case NextOf(h) => (list, next[h := e])
  }

  /** Changing the links of one chain's own handles, or of strangers, leaves the other chains alone. */
  lemma Relinks(info: map<nat, Info>, list: seq<nat>, next: map<nat, nat>, chains: seq<seq<nat>>, members: set<nat>,
    i: nat, head': nat, next': map<nat, nat>, c': seq<nat>)
    requires IsTable(info, list, next, chains, members) && i < |list| && IsChain(head', next', c')
    requires forall e | e in next && e in members && e !in chains[i] :: e in next' && next'[e] == next[e]
    ensures Linked(list[i := head'], next', chains[i := c'])
  {
    hide Slot, Matches;
    var list', chains' := list[i := head'], chains[i := c'];
    forall k | 0 <= k < |list|
      ensures IsChain(list'[k], next', chains'[k])
    {
      if k != i {
        var c := chains[k];
        assert IsChain(list[k], next, c);
        forall e | e in c
          ensures e in next && e in next' && next'[e] == next[e]
        {
          var m :| 0 <= m < |c| && c[m] == e;
          assert Leads(next, c, m);
          assert e in members && Slot(info[e].hash, |chains|) == k;
        }
        ChainElsewhere(list[k], next, next', c);
      }
    }
  }

  lemma Inserts(info: map<nat, Info>, list: seq<nat>, next: map<nat, nat>, chains: seq<seq<nat>>, members: set<nat>,
    i: nat, j: nat, h: nat)
    requires IsTable(info, list, next, chains, members) && h != 0 && h in info && h !in members
    requires i == Slot(info[h].hash, |list|) && i < |chains| && j <= |chains[i]|
    requires j < |chains[i]| ==> Matches(info, chains[i][j], info[h].key, info[h].hash)
    requires j == |chains[i]| ==> forall e | e in members :: !Matches(info, e, info[h].key, info[h].hash)
    ensures var c, o := chains[i], At(chains[i], j);
      var n := next[h := if o == 0 then 0 else if o in next then next[o] else 0];
      var (list', next') := Stored(list, n, PointerTo(c, i, j), h);
      IsTable(info, list', next', chains[i := if j == |c| then c + [h] else c[j := h]], members - {o} + {h}) &&
      (o == 0 <==> j == |c|) && (o != 0 ==> o in members) && 0 !in members
  {
    hide Matches, Slot;
    var c, o := chains[i], At(chains[i], j);
    assert IsChain(list[i], next, c);
    assert j < |c| ==> Leads(next, c, j);
    NoNull(info, list, next, chains, members);
    assert h !in c;
    ChainPut(list[i], next, c, j, h);
    var c' := if j == |c| then c + [h] else c[j := h];
    var (list', next') := Stored(list, next[h := At(c, j + 1)], PointerTo(c, i, j), h);
    assert list' == list[i := if j == 0 then h else list[i]];
    Relinks(info, list, next, chains, members, i, list'[i], next', c');
    RegroupsPut(info, chains, members, i, j, h);
  }

  lemma NoNull(info: map<nat, Info>, list: seq<nat>, next: map<nat, nat>, chains: seq<seq<nat>>, members: set<nat>)
    requires IsTable(info, list, next, chains, members)
    ensures 0 !in members
  {
    hide Slot, Matches;
    forall e | e in members
      ensures e != 0
    {
      var i := Slot(info[e].hash, |chains|);
      assert IsChain(list[i], next, chains[i]);
      var m :| 0 <= m < |chains[i]| && chains[i][m] == e;
      assert Leads(next, chains[i], m);
    }
  }

  lemma RegroupsPut(info: map<nat, Info>, chains: seq<seq<nat>>, members: set<nat>, i: nat, j: nat, h: nat)
    requires Grouped(info, chains, members) && h in info && h !in members && 0 !in members
    requires i == Slot(info[h].hash, |chains|) && i < |chains| && j <= |chains[i]| && Distinct(chains[i])
    requires j < |chains[i]| ==> Matches(info, chains[i][j], info[h].key, info[h].hash)
    requires j == |chains[i]| ==> forall e | e in members :: !Matches(info, e, info[h].key, info[h].hash)
    ensures var c := chains[i];
      Grouped(info, chains[i := if j == |c| then c + [h] else c[j := h]], members - {At(c, j)} + {h})
  {
    hide Slot, Matches;
    var c, o := chains[i], At(chains[i], j);
    assert o in members <==> j < |c| by {
      assert j < |c| ==> o in c;
    }
    var c' := if j == |c| then c + [h] else c[j := h];
    var chains', members' := chains[i := c'], members - {o} + {h};
    forall e | e in members'
      ensures e in info && e in chains'[Slot(info[e].hash, |chains'|)]
    {
      if e == h {
        assert c'[j] == h;
      } else if Slot(info[e].hash, |chains|) == i {
        var k :| 0 <= k < |c| && c[k] == e;
        assert c'[k] == e;
      }
    }
    forall k, e | 0 <= k < |chains'| && e in chains'[k]
      ensures e in members' && Slot(info[e].hash, |chains'|) == k
    {
      if k == i && e != h {
        var m :| 0 <= m < |c'| && c'[m] == e;
        assert m != j && c[m] == e;
      }
    }
    PutDiffers(info, members, o, h);
  }

  lemma Exchanged(members: set<nat>, o: nat, h: nat)
    requires h !in members
    ensures o in members ==> |members - {o} + {h}| == |members|
    ensures o !in members ==> members - {o} + {h} == members + {h} && |members + {h}| == |members| + 1
  {
    if o in members {
      assert |members - {o}| == |members| - 1;
    }
  }

  lemma PutDiffers(info: map<nat, Info>, members: set<nat>, o: nat, h: nat)
    requires h in info && h !in members && forall e | e in members :: e in info
    requires forall a, b | a in members && b in members && Matches(info, a, info[b].key, info[b].hash) :: a == b
    requires o in members ==> Matches(info, o, info[h].key, info[h].hash)
    requires o !in members ==> forall e | e in members :: !Matches(info, e, info[h].key, info[h].hash)
    ensures forall a, b | a in members - {o} + {h} && b in members - {o} + {h} && Matches(info, a, info[b].key, info[b].hash) :: a == b
  {
  }

  lemma Removes(info: map<nat, Info>, list: seq<nat>, next: map<nat, nat>, chains: seq<seq<nat>>, members: set<nat>,
      i: nat, j: nat)
    requires IsTable(info, list, next, chains, members) && i < |chains| && j <= |chains[i]|
    ensures 0 !in members && (At(chains[i], j) == 0 <==> j == |chains[i]|)
    ensures j < |chains[i]| ==>
      var c := chains[i];
      c[j] in members && c[j] in next &&
      var (list', next') := Stored(list, next, PointerTo(c, i, j), next[c[j]]);
      IsTable(info, list', next', chains[i := c[..j] + c[j + 1..]], members - {c[j]})
  {
    hide Slot, Matches;
    var c := chains[i];
    assert IsChain(list[i], next, c);
    NoNull(info, list, next, chains, members);
    if j < |c| {
      assert Leads(next, c, j) && c[j] in c;
      ChainDrop(list[i], next, c, j);
      var c' := c[..j] + c[j + 1..];
      var (list', next') := Stored(list, next, PointerTo(c, i, j), next[c[j]]);
      assert list' == list[i := if j == 0 then next[c[j]] else list[i]];
      Relinks(info, list, next, chains, members, i, list'[i], next', c');
      RegroupsDrop(info, chains, members, i, j);
    }
  }

  lemma RegroupsDrop(info: map<nat, Info>, chains: seq<seq<nat>>, members: set<nat>, i: nat, j: nat)
    requires Grouped(info, chains, members) && i < |chains| && j < |chains[i]| && Distinct(chains[i])
    ensures var c := chains[i];
      Grouped(info, chains[i := c[..j] + c[j + 1..]], members - {c[j]})
  {
    hide Slot, Matches;
    var c := chains[i];
    var c' := c[..j] + c[j + 1..];
    var chains', members' := chains[i := c'], members - {c[j]};
    forall e | e in members'
      ensures e in info && e in chains'[Slot(info[e].hash, |chains'|)]
    {
      if Slot(info[e].hash, |chains|) == i {
        var k :| 0 <= k < |c| && c[k] == e;
        assert c'[if k < j then k else k - 1] == e;
      }
    }
    forall k, e | 0 <= k < |chains'| && e in chains'[k]
      ensures e in members' && Slot(info[e].hash, |chains'|) == k
    {
      if k == i {
        var m :| 0 <= m < |c'| && c'[m] == e;
        var n := if m < j then m else m + 1;
        assert e == c[n] && n != j;
        assert c[n] != c[j];
        assert e in c;
        assert e in chains[i];
        assert e in members;
        assert Slot(info[e].hash, |chains'|) == k;
      } else {
        assert c[j] in chains[i] && e in chains[k];
        assert e in members;
        assert e != c[j];
        assert Slot(info[e].hash, |chains'|) == k;
      }
    }
  }

  // ----- Resizing -----

  /** The chains from place k of chain i on are still linked by next, and none of their handles has moved. */
  ghost predicate Waiting(next: map<nat, nat>, chains: seq<seq<nat>>, moved: set<nat>, i: nat, k: nat) {
    (i < |chains| ==> k <= |chains[i]| && Unmoved(next, chains[i][k..], moved)) &&
    forall a | i < a < |chains| :: Unmoved(next, chains[a], moved)
  }

  ghost predicate Unmoved(next: map<nat, nat>, c: seq<nat>, moved: set<nat>) {
    IsChain(At(c, 0), next, c) && forall e | e in c :: e !in moved
  }

  /** Every member has moved or is still in the chains from place k of chain i on. */
  ghost predicate Underway(info: map<nat, Info>, chains: seq<seq<nat>>, members: set<nat>, moved: set<nat>, i: nat,
      k: nat) {
    Grouped(info, chains, members) && moved <= members &&
    forall e | e in members && e !in moved ::
      var s := Slot(info[e].hash, |chains|);
      s > i || (s == i && k <= |chains[i]| && e in chains[i][k..])
  }

  /** The next handle to move is not where it goes. */
  lemma MoveStep(info: map<nat, Info>, list: seq<nat>, next: map<nat, nat>, chains: seq<seq<nat>>, members: set<nat>,
    list': seq<nat>, chains': seq<seq<nat>>, moved: set<nat>, i: nat, k: nat)
    requires Underway(info, chains, members, moved, i, k) && Waiting(next, chains, moved, i, k)
    requires i < |chains| && k < |chains[i]| && IsTable(info, list', next, chains', moved)
    ensures var h := chains[i][k];
      h in info && h in next && h !in moved && h != 0 && next[h] == At(chains[i], k + 1) &&
      var s := Slot(info[h].hash, |list'|);
      s < |list'| && IsTable(info, list'[s := h], next[h := list'[s]], chains'[s := [h] + chains'[s]], moved + {h}) &&
      Underway(info, chains, members, moved + {h}, i, k + 1) &&
      Waiting(next[h := list'[s]], chains, moved + {h}, i, k + 1)
  {
    hide Matches, Slot, Grouped;
    var c := chains[i];
    var h := c[k];
    NextToMove(info, next, chains, members, moved, i, k);
    var s := Slot(info[h].hash, |list'|);
    NotThereYet(info, list', next, chains', moved, s, h);
    ChainPush(list'[s], next, chains'[s], h);
    Relinks(info, list', next, chains', moved, s, h, next[h := list'[s]], [h] + chains'[s]);
    MembersDiffer(info, chains, members);
    RegroupsPush(info, chains', moved, members, s, h);
    RestWaits(next, next[h := list'[s]], chains, moved, i, k);
    StillUnderway(info, chains, members, moved, i, k);
  }

  lemma NextToMove(info: map<nat, Info>, next: map<nat, nat>, chains: seq<seq<nat>>, members: set<nat>,
      moved: set<nat>, i: nat, k: nat)
    requires Underway(info, chains, members, moved, i, k) && Waiting(next, chains, moved, i, k)
    requires i < |chains| && k < |chains[i]|
    ensures var h := chains[i][k];
      h in info && h in members && h in next && h !in moved && h != 0 && next[h] == At(chains[i], k + 1)
    ensures forall a | i < a < |chains| :: chains[i][k] !in chains[a]
  {
    hide Slot, Matches;
    var c := chains[i];
    assert c[k..][0] == c[k] && c[k] in c[k..] && c[k] in c;
    assert Leads(next, c[k..], 0);
    assert k + 1 < |c| ==> c[k..][1] == c[k + 1];
  }

  lemma NotThereYet(info: map<nat, Info>, list: seq<nat>, next: map<nat, nat>, chains: seq<seq<nat>>, moved: set<nat>,
      s: nat, h: nat)
    requires IsTable(info, list, next, chains, moved) && s < |list| && h !in moved
    ensures IsChain(list[s], next, chains[s]) && h !in chains[s] && |list| == |chains|
  {
    hide Slot, Matches;
  }

  lemma MembersDiffer(info: map<nat, Info>, chains: seq<seq<nat>>, members: set<nat>)
    requires Grouped(info, chains, members)
    ensures forall e | e in members :: e in info
    ensures forall a, b | a in members && b in members && Matches(info, a, info[b].key, info[b].hash) :: a == b
  {
    hide Slot, Matches;
  }

  lemma RestWaits(next: map<nat, nat>, next': map<nat, nat>, chains: seq<seq<nat>>, moved: set<nat>, i: nat, k: nat)
    requires Waiting(next, chains, moved, i, k) && i < |chains| && k < |chains[i]|
    requires forall a | i < a < |chains| :: chains[i][k] !in chains[a]
    requires forall e | e in next && e != chains[i][k] :: e in next' && next'[e] == next[e]
    ensures Waiting(next', chains, moved + {chains[i][k]}, i, k + 1)
  {
    var c := chains[i];
    var h := c[k];
    RestStays(next, next', c, k, h);
    assert forall e | e in c[k + 1..] :: e in c[k..];
    forall a | i < a < |chains|
      ensures Unmoved(next', chains[a], moved + {h})
    {
      assert Unmoved(next, chains[a], moved);
      ChainKept(next, next', chains[a], h);
    }
  }

  lemma ChainKept(next: map<nat, nat>, next': map<nat, nat>, c: seq<nat>, h: nat)
    requires IsChain(At(c, 0), next, c) && h !in c
    requires forall e | e in next && e != h :: e in next' && next'[e] == next[e]
    ensures IsChain(At(c, 0), next', c)
  {
    forall j | 0 <= j < |c|
      ensures Leads(next', c, j)
    {
      assert Leads(next, c, j);
    }
  }

  lemma RestStays(next: map<nat, nat>, next': map<nat, nat>, c: seq<nat>, k: nat, h: nat)
    requires k < |c| && c[k] == h && IsChain(At(c[k..], 0), next, c[k..])
    requires forall e | e in next && e != h :: e in next' && next'[e] == next[e]
    ensures IsChain(At(c[k + 1..], 0), next', c[k + 1..]) && h !in c[k + 1..]
  {
    var r, r' := c[k..], c[k + 1..];
    assert r[0] == h && forall j | 0 <= j < |r'| :: r'[j] == r[j + 1];
    forall j | 0 <= j < |r'|
      ensures Leads(next', r', j)
    {
      assert Leads(next, r, j + 1);
    }
  }

  lemma StillUnderway(info: map<nat, Info>, chains: seq<seq<nat>>, members: set<nat>, moved: set<nat>, i: nat, k: nat)
    requires Underway(info, chains, members, moved, i, k) && i < |chains| && k < |chains[i]|
    ensures Underway(info, chains, members, moved + {chains[i][k]}, i, k + 1)
  {
    hide Matches, Slot;
    var c := chains[i];
    assert c[k] in c;
    forall e | e in members && e !in moved + {c[k]} && Slot(info[e].hash, |chains|) == i
      ensures e in c[k + 1..]
    {
      var m :| 0 <= m < |c[k..]| && c[k..][m] == e;
      assert c[k + 1..][m - 1] == e;
    }
  }

  lemma RegroupsPush(info: map<nat, Info>, chains: seq<seq<nat>>, moved: set<nat>, members: set<nat>, s: nat, h: nat)
    requires Grouped(info, chains, moved) && moved <= members && h in members && h in info && h !in moved
    requires forall a, b | a in members && b in members && a in info && b in info && Matches(info, a, info[b].key, info[b].hash) :: a == b
    requires s == Slot(info[h].hash, |chains|)
    ensures Grouped(info, chains[s := [h] + chains[s]], moved + {h})
  {
    hide Slot, Matches;
    var chains' := chains[s := [h] + chains[s]];
    forall e | e in moved + {h}
      ensures e in info && e in chains'[Slot(info[e].hash, |chains'|)]
    {
      if e == h {
        assert chains'[s][0] == h;
      } else if Slot(info[e].hash, |chains|) == s {
        var k :| 0 <= k < |chains[s]| && chains[s][k] == e;
        assert chains'[s][k + 1] == e;
      }
    }
  }

  datatype Pointer = Bucket(index: nat) | NextOf(handle: nat)

  /** Where the pointer to position j of chain i is stored. */
  function PointerTo(c: seq<nat>, i: nat, j: nat): Pointer
    requires j <= |c|
  {
    if j == 0 then Bucket(i) else NextOf(c[j - 1])
  }

  method EnoughBuckets(elems: nat) returns (length: nat)
    ensures Doubled(length) && elems <= length && length > 0
    ensures length > 4 ==> length / 2 < elems
  {
    length := 4;
    while length < elems
      invariant length > 0 && Doubled(length) && (length > 4 ==> length / 2 < elems)
    {
      length := length * 2;
    }
  }

  /** What stands at position j of chain i. */
  lemma Position(info: map<nat, Info>, list: seq<nat>, next: map<nat, nat>, chains: seq<seq<nat>>, members: set<nat>,
      i: nat, j: nat)
    requires IsTable(info, list, next, chains, members) && i < |list| && i < |chains| && j <= |chains[i]|
    ensures list[i] == At(chains[i], 0) && (At(chains[i], j) == 0 <==> j == |chains[i]|)
    ensures j < |chains[i]| ==> var e := chains[i][j]; e in members && e in next && next[e] == At(chains[i], j + 1)
  {
    hide Slot, Matches;
    assert IsChain(list[i], next, chains[i]);
    if j < |chains[i]| {
      assert Leads(next, chains[i], j) && chains[i][j] in chains[i];
    }
  }

  lemma NoMatch(info: map<nat, Info>, chains: seq<seq<nat>>, members: set<nat>, i: nat, key: Bytes, hash: nat)
    requires Grouped(info, chains, members) && i == Slot(hash, |chains|)
    requires forall a | 0 <= a < |chains[i]| :: !Matches(info, chains[i][a], key, hash)
    ensures forall e | e in members :: !Matches(info, e, key, hash)
  {
    hide Slot;
    forall e | e in members
      ensures !Matches(info, e, key, hash)
    {
      assert info[e].hash == hash ==> e in chains[i];
    }
  }

  lemma OnlyMatch(info: map<nat, Info>, chains: seq<seq<nat>>, members: set<nat>, e: nat, key: Bytes, hash: nat)
    requires Grouped(info, chains, members) && e in members && Matches(info, e, key, hash)
    ensures forall x | x in members && Matches(info, x, key, hash) :: x == e
  {
    hide Slot;
  }

  class HandleTable {
    var elems: nat
    var list: seq<nat>
    var nextHash: map<nat, nat>
    ghost var chains: seq<seq<nat>>
    ghost var members: set<nat>

    ghost predicate Ok(info: map<nat, Info>)
      reads this
    {
      IsTable(info, list, nextHash, chains, members) && elems == |members| <= |list| && Doubled(|list|)
    }

    constructor ()
      ensures forall info :: Ok(info)
      ensures members == {}
    {
      elems, list, nextHash := 0, [0, 0, 0, 0], map[];
      chains, members := [[], [], [], []], {};
    }

    function Deref(p: Pointer): nat
      reads this
    {
      match p
      case Bucket(i) => if i < |list| then list[i] else 0
      case NextOf(e) => if e in nextHash then nextHash[e] else 0
    }

    /** The pointer to the matching handle, or the last pointer of its chain. */
    method FindPointer(info: map<nat, Info>, key: Bytes, hash: nat) returns (p: Pointer, ghost i: nat, ghost j: nat)
      requires Ok(info)
      ensures i == Slot(hash, |list|) && i < |chains| && j <= |chains[i]| && p == PointerTo(chains[i], i, j)
      ensures Deref(p) == At(chains[i], j)
      ensures j < |chains[i]| ==> Matches(info, chains[i][j], key, hash)
      ensures j == |chains[i]| ==> forall e | e in members :: !Matches(info, e, key, hash)
      ensures j < |chains[i]| ==> forall e | e in members && Matches(info, e, key, hash) :: e == chains[i][j]
      ensures Deref(p) != 0 ==> Deref(p) in members && Matches(info, Deref(p), key, hash)
      ensures forall e | e in members && Matches(info, e, key, hash) :: e == Deref(p)
    {
      hide Matches, Grouped, Slot, IsChain;
      i, j := Slot(hash, |list|), 0;
      p := Bucket(Slot(hash, |list|));
      ghost var c := chains[i];
      Position(info, list, nextHash, chains, members, i, 0);
      while Deref(p) != 0 && !Matches(info, Deref(p), key, hash)
        invariant j <= |c| && p == PointerTo(c, i, j) && Deref(p) == At(c, j) && (At(c, j) == 0 <==> j == |c|)
        invariant forall a | 0 <= a < j :: !Matches(info, c[a], key, hash)
        decreases |c| - j
      {
        Position(info, list, nextHash, chains, members, i, j);
        Position(info, list, nextHash, chains, members, i, j + 1);
        p := NextOf(Deref(p));
        j := j + 1;
      }
      if j == |c| {
        NoMatch(info, chains, members, i, key, hash);
      } else {
        Position(info, list, nextHash, chains, members, i, j);
        OnlyMatch(info, chains, members, c[j], key, hash);
      }
    }

    method Store(p: Pointer, e: nat)
      requires p.Bucket? ==> p.index < |list|
      modifies `list, `nextHash
      ensures p.Bucket? ==> list == old(list)[p.index := e] && nextHash == old(nextHash)
      ensures p.NextOf? ==> list == old(list) && nextHash == old(nextHash)[p.handle := e]
    {
      match p
      case Bucket(i) => list := list[i := e];
      case NextOf(h) => nextHash := nextHash[h := e];
    }

    method Lookup(info: map<nat, Info>, key: Bytes, hash: nat) returns (e: nat)
      requires Ok(info)
      ensures e != 0 ==> e in members && Matches(info, e, key, hash)
      ensures forall x | x in members && Matches(info, x, key, hash) :: x == e
    {
      hide Matches, Grouped, Slot, IsChain, Linked;
      ghost var i, j;
      var p;
      p, i, j := FindPointer(info, key, hash);
      e := Deref(p);
      Position(info, list, nextHash, chains, members, i, j);
    }

    /** The new handle takes the place of one with the same key, which is handed back. */
    method Insert(info: map<nat, Info>, h: nat) returns (o: nat)
      requires Ok(info) && h != 0 && h in info && h !in members
      modifies this
      ensures Ok(info) && members == old(members) - {o} + {h}
      ensures Grows(old(|list|), |list|, |members|, o)
      ensures o != 0 ==> o in old(members) && Matches(info, o, info[h].key, info[h].hash)
      ensures o == 0 ==> 0 !in old(members)
      ensures forall x | x in old(members) && Matches(info, x, info[h].key, info[h].hash) :: x == o
    {
      hide IsTable, Matches, Slot;
      ghost var i, j;
      var p;
      p, i, j := FindPointer(info, info[h].key, info[h].hash);
      o := Deref(p);
      Inserts(info, list, nextHash, chains, members, i, j, h);
      Exchanged(members, o, h);
      nextHash := nextHash[h := if o == 0 then 0 else Deref(NextOf(o))];
      Store(p, h);
      ghost var c := chains[i];
      if o == 0 {
        chains, members := chains[i := c + [h]], members + {h};
        elems := elems + 1;
        if elems > |list| {
          Resize(info);
        }
      } else {
        chains, members := chains[i := c[j := h]], members - {o} + {h};
      }
    }

    /** All handles move to a new list of buckets, each to the front of its chain; there are enough for a bucket
        each. */
    method Resize(info: map<nat, Info>)
      requires IsTable(info, list, nextHash, chains, members) && elems == |members|
      modifies `list, `nextHash, `chains
      ensures Ok(info) && elems <= |list| && Doubled(|list|) && (|list| > 4 ==> |list| / 2 < elems)
    {
      hide IsTable, Waiting, Underway, Grouped, Linked, Doubled, Slot;
      var newLength := EnoughBuckets(elems);
      var newList: seq<nat> := seq(newLength, _ => 0);
      ghost var newChains: seq<seq<nat>> := seq(newLength, _ => []);
      ghost var moved: set<nat> := {};
      MoveStart(info, list, nextHash, chains, members, newList, newChains);
      var i := 0;
      while i < |list|
        modifies `nextHash
        invariant i <= |list| == |chains| && |newList| == |newChains| == newLength
        invariant IsTable(info, newList, nextHash, newChains, moved)
        invariant Underway(info, chains, members, moved, i, 0) && Waiting(nextHash, chains, moved, i, 0)
      {
        var h := list[i];
        ghost var k: nat := 0;
        HeadIs(list, old(nextHash), chains, i);
        while h != 0
          modifies `nextHash
          invariant k <= |chains[i]| && h == At(chains[i], k) && |newList| == |newChains| == newLength
          invariant IsTable(info, newList, nextHash, newChains, moved)
          invariant Underway(info, chains, members, moved, i, k) && Waiting(nextHash, chains, moved, i, k)
          decreases |chains[i]| - k
        {
          MoveStep(info, list, nextHash, chains, members, newList, newChains, moved, i, k);
          var next := nextHash[h];
          var slot := Slot(info[h].hash, |newList|);
          nextHash := nextHash[h := newList[slot]];
          newList, newChains, moved := newList[slot := h], newChains[slot := [h] + newChains[slot]], moved + {h};
          h := next;
          k := k + 1;
        }
        NextChain(info, list, nextHash, old(nextHash), chains, members, moved, i, k);
        i := i + 1;
      }
      AllMoved(info, chains, members, moved, i);
      list, chains := newList, newChains;
    }

    method Remove(info: map<nat, Info>, key: Bytes, hash: nat) returns (o: nat)
      requires Ok(info)
      modifies this
      ensures Ok(info) && members == old(members) - {o}
      ensures o != 0 ==> o in old(members) && Matches(info, o, key, hash)
      ensures o == 0 ==> 0 !in old(members)
      ensures forall x | x in old(members) && Matches(info, x, key, hash) :: x == o
    {
      hide IsTable;
      ghost var i, j;
      var p;
      p, i, j := FindPointer(info, key, hash);
      o := Deref(p);
      Removes(info, list, nextHash, chains, members, i, j);
      if o != 0 {
        Store(p, Deref(NextOf(o)));
        elems := elems - 1;
        ghost var c := chains[i];
        chains, members := chains[i := c[..j] + c[j + 1..]], members - {o};
      }
    }
  }

  lemma MoveStart(info: map<nat, Info>, list: seq<nat>, next: map<nat, nat>, chains: seq<seq<nat>>, members: set<nat>,
    list': seq<nat>, chains': seq<seq<nat>>)
    requires IsTable(info, list, next, chains, members) && |list'| == |chains'| > 0
    requires forall i | 0 <= i < |list'| :: list'[i] == 0 && chains'[i] == []
    ensures IsTable(info, list', next, chains', {}) && |list| == |chains| && Linked(list, next, chains)
    ensures Underway(info, chains, members, {}, 0, 0) && Waiting(next, chains, {}, 0, 0)
  {
    hide Slot, Matches;
    forall a | 0 <= a < |chains|
      ensures Unmoved(next, chains[a], {})
    {
      assert IsChain(list[a], next, chains[a]);
    }
    assert chains[0][0..] == chains[0];
  }

  lemma HeadIs(list: seq<nat>, next: map<nat, nat>, chains: seq<seq<nat>>, i: nat)
    requires Linked(list, next, chains) && i < |list|
    ensures list[i] == At(chains[i], 0)
  {
    assert IsChain(list[i], next, chains[i]);
  }

  /** Chain i has moved. */
  lemma NextChain(info: map<nat, Info>, list: seq<nat>, next: map<nat, nat>, before: map<nat, nat>,
      chains: seq<seq<nat>>,
    members: set<nat>, moved: set<nat>, i: nat, k: nat)
    requires Linked(list, before, chains) && i < |chains| && k <= |chains[i]| && At(chains[i], k) == 0
    requires Underway(info, chains, members, moved, i, k) && Waiting(next, chains, moved, i, k)
    ensures Underway(info, chains, members, moved, i + 1, 0) && Waiting(next, chains, moved, i + 1, 0)
  {
    hide Slot, Matches, Grouped;
    assert IsChain(list[i], before, chains[i]);
    assert k < |chains[i]| ==> Leads(before, chains[i], k);
    if i + 1 < |chains| {
      assert Unmoved(next, chains[i + 1], moved);
      assert chains[i + 1][0..] == chains[i + 1];
    }
    LaterChains(info, chains, members, moved, i);
  }

  lemma LaterChains(info: map<nat, Info>, chains: seq<seq<nat>>, members: set<nat>, moved: set<nat>, i: nat)
    requires i < |chains| && Underway(info, chains, members, moved, i, |chains[i]|)
    ensures Underway(info, chains, members, moved, i + 1, 0)
  {
    hide Slot, Matches;
    forall e | e in members && e !in moved
      ensures var s := Slot(info[e].hash, |chains|);
        s > i + 1 || (s == i + 1 && 0 <= |chains[i + 1]| && e in chains[i + 1][0..])
    {
      var s := Slot(info[e].hash, |chains|);
      assert s < |chains| && e in chains[s];
      if s == i + 1 {
        assert chains[i + 1][0..] == chains[i + 1];
      }
    }
  }

  lemma AllMoved(info: map<nat, Info>, chains: seq<seq<nat>>, members: set<nat>, moved: set<nat>, i: nat)
    requires Underway(info, chains, members, moved, i, 0) && i >= |chains|
    ensures moved == members
  {
    hide Matches;
  }
}
