/** The memtable's skip list (db/skiplist.h): one writer, readers without locks. Every atomic store of an insertion
    leaves each level a sorted sublist of the level below. */
module Skiplist {
  import opened Entries

  const MAX_HEIGHT: nat := 12

  /** A node and its links, one per level; pointers are numbers, and 0 is null. */
  datatype Node = Node(key: IKey, next: seq<nat>)

  /** The arena, with the head node first; it is never a successor. */
  datatype List = List(nodes: seq<Node>, maxHeight: nat)

  function Pointer(lv: seq<nat>, i: nat): nat {
    if i < |lv| then lv[i] else 0
  }

  /** The node is tall enough to be on level l. */
  predicate Reaches(t: List, x: nat, l: nat) {
    x < |t.nodes| && l < |t.nodes[x].next|
  }

  function Link(t: List, x: nat, l: nat): nat {
    if Reaches(t, x, l) then t.nodes[x].next[l] else 0
  }

  ghost predicate Ascends(t: List, lv: seq<nat>) {
    (forall i | 0 <= i < |lv| :: 0 < lv[i] < |t.nodes|) &&
    forall i, j | 0 <= i < j < |lv| :: Less(t.nodes[lv[i]].key, t.nodes[lv[j]].key)
  }

  ghost predicate Linked(t: List, lv: seq<nat>, l: nat) {
    Reaches(t, 0, l) && (forall i | 0 <= i < |lv| :: Reaches(t, lv[i], l)) &&
    Link(t, 0, l) == Pointer(lv, 0) && forall i | 0 <= i < |lv| :: Link(t, lv[i], l) == Pointer(lv, i + 1)
  }

  /** Following the links of level l from the head visits exactly lv, in key order. */
  ghost predicate Chain(t: List, lv: seq<nat>, l: nat) {
    Ascends(t, lv) && Linked(t, lv, l)
  }

  ghost predicate Sublist(upper: seq<nat>, lower: seq<nat>) {
    forall x | x in upper :: x in lower
  }

  ghost predicate Shaped(t: List, levels: seq<seq<nat>>) {
    |levels| == MAX_HEIGHT && 1 <= t.maxHeight <= MAX_HEIGHT &&
    (forall l | 0 <= l < MAX_HEIGHT :: Chain(t, levels[l], l)) &&
    (forall l | 1 <= l < MAX_HEIGHT :: Sublist(levels[l], levels[l - 1])) &&
    forall l | t.maxHeight <= l < MAX_HEIGHT :: levels[l] == []
  }

  /** Position i splits the level at the key. */
  ghost predicate Splits(t: List, lv: seq<nat>, key: IKey, i: nat) {
    i <= |lv| && (forall j | 0 <= j < |lv| :: lv[j] < |t.nodes|) &&
    (forall j | 0 <= j < i :: Less(t.nodes[lv[j]].key, key)) &&
    forall j | i <= j < |lv| :: !Less(t.nodes[lv[j]].key, key)
  }

  /** The node before position i, or the head. */
  function Before(lv: seq<nat>, i: nat): nat {
    if 0 < i <= |lv| then lv[i - 1] else 0
  }

  // ----- The writer's stores -----

  function SetNext(t: List, x: nat, l: nat, y: nat): (t': List)
    requires Reaches(t, x, l)
    ensures |t'.nodes| == |t.nodes| && t'.maxHeight == t.maxHeight
    ensures forall n | 0 <= n < |t.nodes| :: t'.nodes[n].key == t.nodes[n].key
    ensures forall n, k :: Reaches(t', n, k) <==> Reaches(t, n, k)
    ensures Link(t', x, l) == y
    ensures forall n, k | n != x || k != l :: Link(t', n, k) == Link(t, n, k)
  {
    t.(nodes := t.nodes[x := t.nodes[x].(next := t.nodes[x].next[l := y])])
  }

  /** max_height_.store. */
  lemma RaiseKeeps(t: List, levels: seq<seq<nat>>, height: nat)
    requires Shaped(t, levels) && t.maxHeight < height <= MAX_HEIGHT
    ensures Shaped(t.(maxHeight := height), levels)
  {
    forall l | 0 <= l < MAX_HEIGHT
      ensures Chain(t.(maxHeight := height), levels[l], l)
    {
      ChainElsewhere(t, t.(maxHeight := height), levels[l], l);
    }
  }

  /** NewNode: nobody points to it yet. */
  lemma AllocateKeeps(t: List, levels: seq<seq<nat>>, node: Node)
    requires Shaped(t, levels)
    ensures Shaped(t.(nodes := t.nodes + [node]), levels)
  {
    forall l | 0 <= l < MAX_HEIGHT
      ensures Chain(t.(nodes := t.nodes + [node]), levels[l], l)
    {
      ChainElsewhere(t, t.(nodes := t.nodes + [node]), levels[l], l);
    }
  }

  /** The store into a node that is not on the level. */
  lemma OwnLinkKeeps(t: List, levels: seq<seq<nat>>, x: nat, l: nat, y: nat)
    requires Shaped(t, levels) && 0 < x < |t.nodes| && Reaches(t, x, l) && l < MAX_HEIGHT && x !in levels[l]
    ensures Shaped(SetNext(t, x, l, y), levels)
  {
    forall k | 0 <= k < MAX_HEIGHT
      ensures Chain(SetNext(t, x, l, y), levels[k], k)
    {
      ChainElsewhere(t, SetNext(t, x, l, y), levels[k], k);
    }
  }

  function Inserted(lv: seq<nat>, i: nat, x: nat): (r: seq<nat>)
    requires i <= |lv|
    ensures |r| == |lv| + 1 && forall j | 0 <= j < |r| :: r[j] == if j < i then lv[j] else if j == i then x else lv[j - 1]
  {
    lv[..i] + [x] + lv[i..]
  }

  /** The key of x lies strictly between its neighbours'. */
  lemma InsertedAscends(t: List, lv: seq<nat>, i: nat, x: nat)
    requires Ascends(t, lv) && 0 < x < |t.nodes| && Splits(t, lv, t.nodes[x].key, i)
    requires forall j | 0 <= j < |lv| :: t.nodes[lv[j]].key != t.nodes[x].key
    ensures Ascends(t, Inserted(lv, i, x))
  {
    hide Less;
    forall j | i <= j < |lv|
      ensures Less(t.nodes[x].key, t.nodes[lv[j]].key)
    {
      LessIsTotalOrder(t.nodes[lv[j]].key, t.nodes[x].key, t.nodes[x].key);
    }
  }

  lemma PublishLinks(t: List, lv: seq<nat>, l: nat, i: nat, x: nat)
    requires Linked(t, lv, l) && Reaches(t, x, l) && 0 < x && x !in lv && i <= |lv| && Link(t, x, l) == Pointer(lv, i)
    requires forall a, b | 0 <= a < b < |lv| :: lv[a] != lv[b]
    requires forall a | 0 <= a < |lv| :: lv[a] != 0
    ensures Reaches(t, Before(lv, i), l)
    ensures Linked(SetNext(t, Before(lv, i), l, x), Inserted(lv, i, x), l)
  {
    hide SetNext, Link;
    var lv', t' := Inserted(lv, i, x), SetNext(t, Before(lv, i), l, x);
    forall j | 0 <= j < |lv'|
      ensures Reaches(t', lv'[j], l) && Link(t', lv'[j], l) == Pointer(lv', j + 1)
    {
      if j + 1 < i {
        assert lv'[j] == lv[j] != lv[i - 1] && Link(t, lv[j], l) == Pointer(lv, j + 1);
      } else if j + 1 == i {
        assert lv'[j] == Before(lv, i) && lv'[i] == x;
      } else if j == i {
        assert lv'[j] == x != Before(lv, i) && Pointer(lv', i + 1) == Pointer(lv, i);
      } else {
        assert lv'[j] == lv[j - 1] != Before(lv, i) && Link(t, lv[j - 1], l) == Pointer(lv, j) == Pointer(lv', j + 1);
      }
    }
  }

  /** The store that publishes the node on the level. */
  lemma PublishChain(t: List, lv: seq<nat>, l: nat, i: nat, x: nat)
    requires Chain(t, lv, l) && 0 < x < |t.nodes| && Reaches(t, x, l) && x !in lv
    requires Splits(t, lv, t.nodes[x].key, i) && (forall j | 0 <= j < |lv| :: t.nodes[lv[j]].key != t.nodes[x].key)
    requires Link(t, x, l) == Pointer(lv, i)
    ensures Reaches(t, Before(lv, i), l)
    ensures Chain(SetNext(t, Before(lv, i), l, x), Inserted(lv, i, x), l)
  {
    hide Less, Inserted, SetNext, Reaches, Link;
    DistinctNodes(t, lv, l);
    InsertedAscends(t, lv, i, x);
    PublishLinks(t, lv, l, i, x);
  }

  lemma DistinctNodes(t: List, lv: seq<nat>, l: nat)
    requires Chain(t, lv, l)
    ensures forall i, j | 0 <= i < j < |lv| :: lv[i] != lv[j]
  {
    forall i, j | 0 <= i < j < |lv|
      ensures lv[i] != lv[j]
    {
      LessIsTotalOrder(t.nodes[lv[i]].key, t.nodes[lv[j]].key, t.nodes[lv[i]].key);
    }
  }

  lemma ChainElsewhere(t: List, t': List, lv: seq<nat>, l: nat)
    requires Chain(t, lv, l) && |t'.nodes| >= |t.nodes|
    requires forall n | 0 <= n < |t.nodes| :: t'.nodes[n].key == t.nodes[n].key && (Reaches(t, n, l) ==> Reaches(t', n, l))
    requires forall n | n == 0 || n in lv :: Link(t', n, l) == Link(t, n, l)
    ensures Chain(t', lv, l)
  {
    hide Less, Link;
  }

  lemma PublishKeeps(t: List, levels: seq<seq<nat>>, l: nat, i: nat, x: nat)
    requires Shaped(t, levels) && l < t.maxHeight && 0 < x < |t.nodes| && Reaches(t, x, l) && x !in levels[l]
    requires Splits(t, levels[l], t.nodes[x].key, i)
    requires forall j | 0 <= j < |levels[l]| :: t.nodes[levels[l][j]].key != t.nodes[x].key
    requires Link(t, x, l) == Pointer(levels[l], i) && (l > 0 ==> x in levels[l - 1])
    ensures Reaches(t, Before(levels[l], i), l)
    ensures Shaped(SetNext(t, Before(levels[l], i), l, x), levels[l := Inserted(levels[l], i, x)])
  {
    hide Less, Chain, Inserted, SetNext, Link;
    assert Chain(t, levels[l], l);
    PublishChain(t, levels[l], l, i, x);
    var t', levels' := SetNext(t, Before(levels[l], i), l, x), levels[l := Inserted(levels[l], i, x)];
    forall k | 0 <= k < MAX_HEIGHT && k != l
      ensures Chain(t', levels'[k], k)
    {
      ChainElsewhere(t, t', levels[k], k);
    }
    InsertedMembers(levels[l], i, x);
    forall k | 1 <= k < MAX_HEIGHT
      ensures Sublist(levels'[k], levels'[k - 1])
    {
      assert Sublist(levels[k], levels[k - 1]);
    }
  }

  lemma InsertedMembers(lv: seq<nat>, i: nat, x: nat)
    requires i <= |lv|
    ensures forall y :: y in Inserted(lv, i, x) <==> y == x || y in lv
  {
    assert lv == lv[..i] + lv[i..];
  }

  // ----- What a writer passes through -----

  /** The stores of an insertion. */
  datatype Store = Raise(height: nat) | Allocate(node: Node) | Own(x: nat, l: nat, y: nat) | Publish(x: nat, l: nat, i: nat)

  ghost predicate Stores(t: List, levels: seq<seq<nat>>, t': List, levels': seq<seq<nat>>, store: Store) {
    match store
    case Raise(height) => t.maxHeight < height <= MAX_HEIGHT && t' == t.(maxHeight := height) && levels' == levels
    case Allocate(node) => t' == t.(nodes := t.nodes + [node]) && levels' == levels
    case Own(x, l, y) => OwnStore(t, levels, x, l) && t' == SetNext(t, x, l, y) && levels' == levels
    case Publish(x, l, i) =>
      PublishStore(t, levels, x, l, i) && t' == SetNext(t, Before(levels[l], i), l, x) &&
      levels' == levels[l := Inserted(levels[l], i, x)]
  }

  ghost predicate OwnStore(t: List, levels: seq<seq<nat>>, x: nat, l: nat) {
    |levels| == MAX_HEIGHT && 0 < x < |t.nodes| && l < MAX_HEIGHT && Reaches(t, x, l) && x !in levels[l]
  }

  ghost predicate PublishStore(t: List, levels: seq<seq<nat>>, x: nat, l: nat, i: nat) {
    |levels| == MAX_HEIGHT && l < MAX_HEIGHT && l < t.maxHeight && 0 < x < |t.nodes| && Reaches(t, x, l) && x !in levels[l] &&
    Splits(t, levels[l], t.nodes[x].key, i) && (forall j | 0 <= j < |levels[l]| :: t.nodes[levels[l][j]].key != t.nodes[x].key) &&
    Link(t, x, l) == Pointer(levels[l], i) && (l > 0 ==> x in levels[l - 1]) && Reaches(t, Before(levels[l], i), l)
  }

  /** The list as its links stand, with the nodes of each level. */
  datatype State = State(t: List, levels: seq<seq<nat>>)

  /** One store leads from the first state to the second. */
  ghost predicate Stored(s: State, s': State) {
    exists store :: Stores(s.t, s.levels, s'.t, s'.levels, store)
  }

  ghost predicate StoredAt(trace: seq<State>, i: nat) {
    i + 1 < |trace| && Stored(trace[i], trace[i + 1])
  }

  /** The states a writer passes through, store by store. */
  ghost predicate Trace(trace: seq<State>, from: State, to: State) {
    trace != [] && trace[0] == from && trace[|trace| - 1] == to && forall i | 0 <= i < |trace| - 1 :: StoredAt(trace, i)
  }

  /** Two traces that meet are one. */
  lemma TraceConcat(a: seq<State>, b: seq<State>, from: State, middle: State, to: State)
    requires Trace(a, from, middle) && Trace(b, middle, to)
    ensures Trace(a + b[1..], from, to)
  {
    hide Stored;
    var c := a + b[1..];
    assert c[|c| - 1] == to;
    forall i | 0 <= i < |c| - 1
      ensures StoredAt(c, i)
    {
      if i < |a| - 1 {
        assert StoredAt(a, i);
      } else {
        assert StoredAt(b, i - (|a| - 1));
      }
    }
  }

  lemma TraceStep(a: seq<State>, from: State, s: State, s': State)
    requires Trace(a, from, s) && Stored(s, s')
    ensures Trace(a + [s'], from, s')
  {
    hide Stored;
    assert StoredAt([s, s'], 0);
    TraceConcat(a, [s, s'], from, s, s');
  }

  // ----- Searching -----

  /** FindGreaterOrEqual in progress at node x, about to load its link on `level`; or done. */
  datatype Reader = Searching(target: IKey, x: nat, level: nat) | Found(target: IKey, x: nat)

  /** One load and what the loop does with it. */
  function Load(t: List, r: Reader): Reader
    requires r.Searching?
  {
    var next := Link(t, r.x, r.level);
    if next != 0 && next < |t.nodes| && Less(t.nodes[next].key, r.target) then r.(x := next)
    else if r.level == 0 then Found(r.target, next)
    else r.(level := r.level - 1)
  }

  ghost predicate LoadedAt(t: List, path: seq<Reader>, i: nat) {
    i + 1 < |path| && path[i].Searching? && path[i + 1] == Load(t, path[i])
  }

  /** The states of a reader that nobody interrupts, load by load. */
  ghost predicate Path(t: List, path: seq<Reader>, from: Reader, to: Reader) {
    path != [] && path[0] == from && path[|path| - 1] == to && forall i | 0 <= i < |path| - 1 :: LoadedAt(t, path, i)
  }

  lemma PathStep(t: List, path: seq<Reader>, from: Reader, r: Reader)
    requires Path(t, path, from, r) && r.Searching?
    ensures Path(t, path + [Load(t, r)], from, Load(t, r))
  {
    hide Load;
    var path' := path + [Load(t, r)];
    forall i | 0 <= i < |path'| - 1
      ensures LoadedAt(t, path', i)
    {
      if i < |path| - 1 {
        assert LoadedAt(t, path, i);
      }
    }
  }

  ghost predicate SearchPath(t: List, path: seq<Reader>, key: IKey, x: nat) {
    t.maxHeight > 0 && Path(t, path, Searching(key, 0, t.maxHeight - 1), Found(key, x))
  }

  /** The loads of a reader alone lead from the head to x. */
  ghost predicate Searched(t: List, key: IKey, x: nat) {
    exists path :: SearchPath(t, path, key, x)
  }

  /** A search for the key stands at the head or at a smaller node, before position i of its level. */
  ghost predicate Stands(t: List, lv: seq<nat>, key: IKey, x: nat, i: nat) {
    i <= |lv| && x == Before(lv, i) && (x != 0 ==> x < |t.nodes| && Less(t.nodes[x].key, key))
  }

  /** The next node on the level decides whether to go on or down. */
  lemma StandsDecides(t: List, lv: seq<nat>, l: nat, key: IKey, x: nat, i: nat)
    requires Chain(t, lv, l) && Stands(t, lv, key, x, i)
    ensures Link(t, x, l) == Pointer(lv, i) && (Link(t, x, l) != 0 <==> i < |lv|)
    ensures i < |lv| ==> lv[i] < |t.nodes| && (Less(t.nodes[lv[i]].key, key) ==> Stands(t, lv, key, lv[i], i + 1))
    ensures i == |lv| || !Less(t.nodes[lv[i]].key, key) ==> Splits(t, lv, key, i)
  {
    hide Link, Reaches;
    if i == |lv| || !Less(t.nodes[lv[i]].key, key) {
      forall j | 0 <= j < i
        ensures Less(t.nodes[lv[j]].key, key)
      {
        LessIsTotalOrder(t.nodes[lv[j]].key, t.nodes[x].key, key);
      }
      forall j | i <= j < |lv|
        ensures !Less(t.nodes[lv[j]].key, key)
      {
        LessIsTotalOrder(t.nodes[lv[i]].key, t.nodes[lv[j]].key, key);
      }
    }
  }

  /** Every node of a level is on the one below. */
  lemma StandsBelow(t: List, levels: seq<seq<nat>>, l: nat, key: IKey, x: nat, i: nat) returns (j: nat)
    requires Shaped(t, levels) && 0 < l < MAX_HEIGHT && Stands(t, levels[l], key, x, i)
    ensures Stands(t, levels[l - 1], key, x, j)
  {
    hide Chain;
    if x == 0 {
      j := 0;
      assert i > 0 ==> Chain(t, levels[l], l) && levels[l][i - 1] == 0;
    } else {
      assert Sublist(levels[l], levels[l - 1]) && x in levels[l];
      var k :| 0 <= k < |levels[l - 1]| && levels[l - 1][k] == x;
      j := k + 1;
    }
  }

  /** The answer: the first node at or after the target, or null if there is none. */
  ghost predicate IsFirst(t: List, lv: seq<nat>, target: IKey, x: nat) {
    exists i :: Splits(t, lv, target, i) && x == Pointer(lv, i)
  }

  /** The last node before the target, or the head if there is none. */
  ghost predicate IsLastBefore(t: List, lv: seq<nat>, target: IKey, x: nat) {
    exists i :: Splits(t, lv, target, i) && x == Before(lv, i)
  }

  class SkipList {
    var t: List
    ghost var levels: seq<seq<nat>>

    ghost predicate Ok()
      reads this
    {
      Shaped(t, levels)
    }

    /** The keys on the lowest level, in order. */
    ghost function Contents(): seq<IKey>
      requires Ok()
      reads this
    {
      Keys(t, levels[0])
    }

    constructor ()
      ensures Ok() && Contents() == [] && t.maxHeight == 1 && |t.nodes| == 1
    {
      t := List([Node(IKey(0.0, 0, Deletion), seq(MAX_HEIGHT, _ => 0))], 1);
      levels := seq(MAX_HEIGHT, _ => []);
    }

    /** The first node at or after the key, and the node before that place on every level in use. */
    method FindGreaterOrEqual(key: IKey) returns (x: nat, prev: seq<nat>, ghost at: seq<nat>)
      requires Ok()
      ensures |prev| == |at| == t.maxHeight
      ensures forall l | 0 <= l < t.maxHeight :: Splits(t, levels[l], key, at[l]) && prev[l] == Before(levels[l], at[l])
      ensures x == Pointer(levels[0], at[0]) && IsFirst(t, levels[0], key, x)
      ensures Searched(t, key, x)
    {
      hide Chain, Splits, Stands, Link, Path, Less;
      var p: nat, level: nat := 0, t.maxHeight - 1;
      ghost var i: nat := 0;
      prev, at := seq(t.maxHeight, _ => 0), seq(t.maxHeight, _ => 0);
      StandsAtHead(t, levels[level], key);
      ghost var start := Searching(key, 0, level);
      ghost var path := [start];
      PathStarts(t, start);
      while true
        invariant 0 <= level < t.maxHeight && |prev| == |at| == t.maxHeight && Stands(t, levels[level], key, p, i)
        invariant i <= |levels[level]| && Path(t, path, start, Searching(key, p, level))
        invariant forall l | level < l < t.maxHeight :: Splits(t, levels[l], key, at[l]) && prev[l] == Before(levels[l], at[l])
        decreases level, |levels[level]| - i
      {
        assert Chain(t, levels[level], level);
        StandsDecides(t, levels[level], level, key, p, i);
        var next := Link(t, p, level);
        PathStep(t, path, start, Searching(key, p, level));
        path := path + [Load(t, Searching(key, p, level))];
        if next != 0 && Less(t.nodes[next].key, key) {
          p, i := next, i + 1;
        } else {
          StandsIs(t, levels[level], key, p, i);
          prev, at := prev[level := p], at[level := i];
          if level == 0 {
            assert SearchPath(t, path, key, next);
            return next, prev, at;
          }
          i := StandsBelow(t, levels, level, key, p, i);
          level := level - 1;
          StandsIs(t, levels[level], key, p, i);
        }
      }
    }

    /** The last node before the key, or the head. */
    method FindLessThan(key: IKey) returns (x: nat, ghost at: nat)
      requires Ok()
      ensures Splits(t, levels[0], key, at) && x == Before(levels[0], at) && IsLastBefore(t, levels[0], key, x)
    {
      hide Chain, Splits, Stands, Link;
      var level: nat := t.maxHeight - 1;
      x, at := 0, 0;
      StandsAtHead(t, levels[level], key);
      while true
        invariant 0 <= level < t.maxHeight && Stands(t, levels[level], key, x, at) && at <= |levels[level]|
        decreases level, |levels[level]| - at
      {
        assert Chain(t, levels[level], level);
        StandsDecides(t, levels[level], level, key, x, at);
        StandsIs(t, levels[level], key, x, at);
        var next := Link(t, x, level);
        if next == 0 || !Less(t.nodes[next].key, key) {
          if level == 0 {
            return;
          }
          at := StandsBelow(t, levels, level, key, x, at);
          level := level - 1;
          StandsIs(t, levels[level], key, x, at);
        } else {
          x, at := next, at + 1;
        }
      }
    }

    /** The last node, or the head. */
    method FindLast() returns (x: nat)
      requires Ok()
      ensures x == Before(levels[0], |levels[0]|)
    {
      hide Chain, Link;
      var level: nat := t.maxHeight - 1;
      ghost var i: nat := 0;
      x := 0;
      while true
        invariant 0 <= level < t.maxHeight && i <= |levels[level]| && x == Before(levels[level], i)
        decreases level, |levels[level]| - i
      {
        assert Chain(t, levels[level], level);
        BeforeLinks(t, levels[level], level, i);
        var next := Link(t, x, level);
        if next == 0 {
          if level == 0 {
            return;
          }
          i := LastBelow(t, levels, level, x);
          level := level - 1;
        } else {
          x, i := next, i + 1;
        }
      }
    }

    method Contains(key: IKey) returns (r: bool)
      requires Ok()
      ensures r == (key in Contents())
    {
      var x, prev, at := FindGreaterOrEqual(key);
      assert Chain(t, levels[0], 0);
      r := x != 0 && t.nodes[x].key == key;
      SplitFinds(t, levels[0], key, at[0]);
    }

    /** MAIN: the key is added in its place and nothing else changes; on the way there, the list passes through the
        states of a trace, one for each store. */
    method Insert(key: IKey, height: nat) returns (ghost at0: nat, ghost trace: seq<State>)
      requires Ok() && 1 <= height <= MAX_HEIGHT && key !in Contents()
      modifies this
      ensures Ok() && at0 <= |old(Contents())|
      ensures Contents() == old(Contents())[..at0] + [key] + old(Contents())[at0..]
      ensures |t.nodes| == |old(t.nodes)| + 1 && t.nodes[|old(t.nodes)|].key == key
      ensures forall n | 0 <= n < |old(t.nodes)| :: t.nodes[n].key == old(t.nodes)[n].key
      ensures Trace(trace, State(old(t), old(levels)), State(t, levels))
    {
      hide Shaped, Chain, Link, SetNext, Linking, Splits, Stored, Trace, Keys, Searched, IsFirst, Less, Inserted;
      Heights(t, levels);
      var x, prev, at := FindGreaterOrEqual(key);
      at0 := at[0];
      ghost var s0 := State(t, levels);
      trace := [s0];
      TraceStarts(s0);
      if height > t.maxHeight {
        RaiseStores(t, levels, key, height, prev, at);
        prev := prev + seq(height - t.maxHeight, _ => 0);
        at := at + seq(height - t.maxHeight, _ => 0);
        t := t.(maxHeight := height);
        TraceStep(trace, s0, s0, State(t, levels));
        trace := trace + [State(t, levels)];
      }
      var node := Node(key, seq(height, _ => 0));
      AllocateStores(s0, State(t, levels), node, prev, at);
      x := |t.nodes|;
      TraceStep(trace, s0, State(t, levels), State(t.(nodes := t.nodes + [node]), levels));
      t := t.(nodes := t.nodes + [node]);
      trace := trace + [State(t, levels)];
      for i := 0 to height
        invariant Linking(s0, State(t, levels), key, x, i, height, at, prev) && Trace(trace, s0, State(t, levels))
      {
        LinkStores(s0, State(t, levels), key, x, i, height, at, prev);
        TraceStep(trace, s0, State(t, levels), State(SetNext(t, x, i, Link(t, prev[i], i)), levels));
        t := SetNext(t, x, i, Link(t, prev[i], i));
        trace := trace + [State(t, levels)];
        ghost var levels' := levels[i := Inserted(levels[i], at[i], x)];
        TraceStep(trace, s0, State(t, levels), State(SetNext(t, prev[i], i, x), levels'));
        t, levels := SetNext(t, prev[i], i, x), levels';
        trace := trace + [State(t, levels)];
      }
      LinkedAll(s0, State(t, levels), key, x, height, at, prev);
    }
  }

  lemma TraceStarts(s: State)
    ensures Trace([s], s, s)
  {
  }

  /** Insert has linked the new node x on the levels below i; nothing else has changed. */
  ghost predicate Linking(s0: State, s: State, key: IKey, x: nat, i: nat, height: nat, at: seq<nat>, prev: seq<nat>) {
    Shaped(s0.t, s0.levels) && Shaped(s.t, s.levels) && Pending(s.t, s.levels, s0.levels, x, i, height, at, prev) &&
    x == |s0.t.nodes| && |s.t.nodes| == x + 1 && s.t.nodes[x].key == key &&
    (forall n | 0 <= n < x :: s.t.nodes[n].key == s0.t.nodes[n].key) && 0 < height && at[0] <= |s0.levels[0]| &&
    s.levels[0] == if i == 0 then s0.levels[0] else Inserted(s0.levels[0], at[0], x)
  }

  /** The store of a greater height; the key goes first on the levels not in use yet. */
  lemma RaiseStores(t: List, levels: seq<seq<nat>>, key: IKey, height: nat, prev: seq<nat>, at: seq<nat>)
    requires Shaped(t, levels) && t.maxHeight < height <= MAX_HEIGHT && |prev| == |at| == t.maxHeight
    requires forall l | 0 <= l < t.maxHeight :: Splits(t, levels[l], key, at[l]) && prev[l] == Before(levels[l], at[l])
    ensures var t' := t.(maxHeight := height);
      Stored(State(t, levels), State(t', levels)) && Shaped(t', levels) &&
      forall l | 0 <= l < height ::
        Splits(t', levels[l], key, (at + seq(height - t.maxHeight, _ => 0))[l]) &&
        (prev + seq(height - t.maxHeight, _ => 0))[l] == Before(levels[l], (at + seq(height - t.maxHeight, _ => 0))[l])
  {
    hide Chain, Less;
    RaiseKeeps(t, levels, height);
    var t' := t.(maxHeight := height);
    assert Stores(t, levels, t', levels, Raise(height));
    EmptyAbove(t, levels, key);
    forall l | 0 <= l < height
      ensures Splits(t', levels[l], key, (at + seq(height - t.maxHeight, _ => 0))[l])
    {
      assert Splits(t, levels[l], key, if l < t.maxHeight then at[l] else 0);
    }
  }

  /** The new node is there, and nothing points to it. */
  lemma AllocateStores(s0: State, s: State, node: Node, prev: seq<nat>, at: seq<nat>)
    requires Shaped(s0.t, s0.levels) && s0.levels == s.levels && s0.t.nodes == s.t.nodes && Shaped(s.t, s.levels)
    requires 1 <= |node.next| <= s.t.maxHeight && |node.next| <= |prev| && |node.next| <= |at|
    requires forall l | 0 <= l < |node.next| :: Splits(s.t, s.levels[l], node.key, at[l]) && prev[l] == Before(s.levels[l], at[l])
    requires node.key !in Keys(s0.t, s0.levels[0])
    ensures var s' := State(s.t.(nodes := s.t.nodes + [node]), s.levels);
      Stored(s, s') && Linking(s0, s', node.key, |s.t.nodes|, 0, |node.next|, at, prev)
  {
    hide Shaped, Chain, Less, Pending;
    AllocateKeeps(s.t, s.levels, node);
    assert Stores(s.t, s.levels, s.t.(nodes := s.t.nodes + [node]), s.levels, Allocate(node));
    Heights(s.t, s.levels);
    NotAmong(s.t, s.levels[0], node.key);
    Unlinked(s.t, s.levels, node, prev, at);
  }

  /** The two stores that link the node on level i. */
  lemma LinkStores(s0: State, s: State, key: IKey, x: nat, i: nat, height: nat, at: seq<nat>, prev: seq<nat>)
    requires Linking(s0, s, key, x, i, height, at, prev) && i < height
    ensures |s.levels| == MAX_HEIGHT && i < MAX_HEIGHT && i < |prev| && i < |at| && at[i] <= |s.levels[i]| && Reaches(s.t, x, i)
    ensures var t1 := SetNext(s.t, x, i, Link(s.t, prev[i], i));
      Stored(s, State(t1, s.levels)) && Reaches(t1, prev[i], i) &&
      var s2 := State(SetNext(t1, prev[i], i, x), s.levels[i := Inserted(s.levels[i], at[i], x)]);
      Stored(State(t1, s.levels), s2) && Linking(s0, s2, key, x, i + 1, height, at, prev)
  {
    hide Shaped, Chain, Link, SetNext, Less, Inserted;
    PendingStep(s.t, s.levels, s0.levels, x, i, height, at, prev);
    var t1 := SetNext(s.t, x, i, Link(s.t, prev[i], i));
    assert Stores(s.t, s.levels, t1, s.levels, Own(x, i, Link(s.t, prev[i], i)));
    var levels' := s.levels[i := Inserted(s.levels[i], at[i], x)];
    assert Stores(t1, s.levels, SetNext(t1, prev[i], i, x), levels', Publish(x, i, at[i]));
  }

  lemma LinkedAll(s0: State, s: State, key: IKey, x: nat, height: nat, at: seq<nat>, prev: seq<nat>)
    requires Linking(s0, s, key, x, height, height, at, prev)
    ensures Shaped(s0.t, s0.levels) && Shaped(s.t, s.levels) && x == |s0.t.nodes| && |s.t.nodes| == x + 1
    ensures s.t.nodes[x].key == key && forall n | 0 <= n < x :: s.t.nodes[n].key == s0.t.nodes[n].key
    ensures |at| > 0 && at[0] <= |Keys(s0.t, s0.levels[0])|
    ensures Keys(s.t, s.levels[0]) == Keys(s0.t, s0.levels[0])[..at[0]] + [key] + Keys(s0.t, s0.levels[0])[at[0]..]
  {
    hide Shaped, Less, Pending, Inserted;
    Heights(s0.t, s0.levels);
    Heights(s.t, s.levels);
    assert height <= |at| by {
      PendingHas(s.t, s.levels, s0.levels, x, height, height, at, prev);
    }
    InsertedKeys(s0.t, s.t, s0.levels[0], at[0], x);
  }

  /** The new node x is linked on the levels below i and goes to the places found on the others. */
  ghost predicate Pending(t: List, levels: seq<seq<nat>>, lv0: seq<seq<nat>>, x: nat, i: nat, height: nat,
                          at: seq<nat>, prev: seq<nat>) {
    |levels| == |lv0| == MAX_HEIGHT && i <= height <= MAX_HEIGHT && height <= |at| && height <= |prev| && height <= t.maxHeight &&
    0 < x < |t.nodes| && (forall k | 0 <= k < height :: Reaches(t, x, k)) &&
    (forall k | 0 <= k < i :: x in levels[k]) &&
    (forall k | i <= k < MAX_HEIGHT :: levels[k] == lv0[k] && x !in lv0[k]) &&
    forall k | i <= k < height ::
      Splits(t, lv0[k], t.nodes[x].key, at[k]) && prev[k] == Before(lv0[k], at[k]) &&
      forall j | 0 <= j < |lv0[k]| :: t.nodes[lv0[k][j]].key != t.nodes[x].key
  }

  /** One turn of the loop of Insert: both stores keep the shape. */
  lemma PendingStep(t: List, levels: seq<seq<nat>>, lv0: seq<seq<nat>>, x: nat, i: nat, height: nat, at: seq<nat>,
      prev: seq<nat>)
    requires Shaped(t, levels) && Pending(t, levels, lv0, x, i, height, at, prev) && i < height
    ensures Reaches(t, x, i) && Shaped(SetNext(t, x, i, Link(t, prev[i], i)), levels)
    ensures var t1 := SetNext(t, x, i, Link(t, prev[i], i));
      Reaches(t1, prev[i], i) && Shaped(SetNext(t1, prev[i], i, x), levels[i := Inserted(levels[i], at[i], x)]) &&
      Pending(SetNext(t1, prev[i], i, x), levels[i := Inserted(levels[i], at[i], x)], lv0, x, i + 1, height, at, prev)
    ensures levels[i] == lv0[i]
    ensures OwnStore(t, levels, x, i)
    ensures PublishStore(SetNext(t, x, i, Link(t, prev[i], i)), levels, x, i, at[i]) && prev[i] == Before(levels[i], at[i])
  {
    hide Shaped, Chain, Less, Inserted;
    var lv, next := levels[i], Link(t, prev[i], i);
    LevelChain(t, levels, i);
    BeforeLinks(t, lv, i, at[i]);
    OwnLinkKeeps(t, levels, x, i, next);
    var t1 := SetNext(t, x, i, next);
    PublishKeeps(t1, levels, i, at[i], x);
    InsertedMembers(lv, at[i], x);
  }

  lemma PendingHas(t: List, levels: seq<seq<nat>>, lv0: seq<seq<nat>>, x: nat, i: nat, height: nat, at: seq<nat>, prev: seq<nat>)
    requires Pending(t, levels, lv0, x, i, height, at, prev)
    ensures height <= |at| && height <= |prev|
  {
  }

  lemma LevelChain(t: List, levels: seq<seq<nat>>, l: nat)
    requires Shaped(t, levels) && l < MAX_HEIGHT
    ensures |levels| == MAX_HEIGHT && Chain(t, levels[l], l)
  {
  }

  /** The node before a place links to the node behind it. */
  lemma BeforeLinks(t: List, lv: seq<nat>, l: nat, i: nat)
    requires Chain(t, lv, l) && i <= |lv|
    ensures Link(t, Before(lv, i), l) == Pointer(lv, i) && (Pointer(lv, i) != 0 <==> i < |lv|)
  {
    hide Link, Less;
  }

  lemma Heights(t: List, levels: seq<seq<nat>>)
    requires Shaped(t, levels)
    ensures 1 <= t.maxHeight <= MAX_HEIGHT == |levels| && Chain(t, levels[0], 0)
  {
  }

  /** On a level not in use yet, every key goes first. */
  lemma EmptyAbove(t: List, levels: seq<seq<nat>>, key: IKey)
    requires Shaped(t, levels)
    ensures forall l | t.maxHeight <= l < MAX_HEIGHT :: Splits(t, levels[l], key, 0) && Before(levels[l], 0) == 0
  {
  }

  lemma {:induction false} OnBottom(t: List, levels: seq<seq<nat>>, l: nat, x: nat)
    requires Shaped(t, levels) && l < MAX_HEIGHT && x in levels[l]
    ensures x in levels[0]
  {
    hide Chain;
    if l > 0 {
      assert Sublist(levels[l], levels[l - 1]);
      OnBottom(t, levels, l - 1, x);
    }
  }

  /** A fresh node with a new key is about to be linked. */
  lemma Unlinked(t: List, levels: seq<seq<nat>>, node: Node, prev: seq<nat>, at: seq<nat>)
    requires Shaped(t, levels) && 1 <= |node.next| <= t.maxHeight && |node.next| <= |prev| && |node.next| <= |at|
    requires forall j | 0 <= j < |levels[0]| :: levels[0][j] < |t.nodes| && t.nodes[levels[0][j]].key != node.key
    requires forall l | 0 <= l < |node.next| :: Splits(t, levels[l], node.key, at[l]) && prev[l] == Before(levels[l], at[l])
    ensures Pending(t.(nodes := t.nodes + [node]), levels, levels, |t.nodes|, 0, |node.next|, at, prev)
  {
    hide Less, Shaped;
    FreshNode(t, levels, node.key);
    assert |levels| == MAX_HEIGHT && t.maxHeight <= MAX_HEIGHT && |t.nodes| > 0;
    forall l | 0 <= l < |node.next|
      ensures Splits(t.(nodes := t.nodes + [node]), levels[l], node.key, at[l])
    {
      assert Splits(t, levels[l], node.key, at[l]);
    }
  }

  /** A number not in use is on no level, and a key that is not at the bottom is nowhere. */
  lemma FreshNode(t: List, levels: seq<seq<nat>>, key: IKey)
    requires Shaped(t, levels) && forall j | 0 <= j < |levels[0]| :: levels[0][j] < |t.nodes| && t.nodes[levels[0][j]].key != key
    ensures |levels| == MAX_HEIGHT && t.maxHeight <= MAX_HEIGHT && |t.nodes| > 0
    ensures forall k | 0 <= k < MAX_HEIGHT :: |t.nodes| !in levels[k]
    ensures forall k, j | 0 <= k < MAX_HEIGHT && 0 <= j < |levels[k]| ::
      levels[k][j] < |t.nodes| && t.nodes[levels[k][j]].key != key
  {
    hide Less;
    assert Chain(t, levels[0], 0);
    forall k, j | 0 <= k < MAX_HEIGHT && 0 <= j < |levels[k]|
      ensures levels[k][j] < |t.nodes| && t.nodes[levels[k][j]].key != key
    {
      OnBottom(t, levels, k, levels[k][j]);
    }
  }

  lemma InsertedKeys(t0: List, t: List, lv: seq<nat>, i: nat, x: nat)
    requires i <= |lv| && x < |t.nodes| && (forall j | 0 <= j < |lv| :: lv[j] < |t0.nodes|) && |t0.nodes| <= |t.nodes|
    requires forall n | 0 <= n < |t0.nodes| :: t.nodes[n].key == t0.nodes[n].key
    ensures Keys(t, Inserted(lv, i, x)) == Keys(t0, lv)[..i] + [t.nodes[x].key] + Keys(t0, lv)[i..]
  {
  }

  lemma NotAmong(t: List, lv: seq<nat>, key: IKey)
    requires (forall i | 0 <= i < |lv| :: lv[i] < |t.nodes|) && key !in Keys(t, lv)
    ensures forall j | 0 <= j < |lv| :: t.nodes[lv[j]].key != key
  {
    forall j | 0 <= j < |lv|
      ensures t.nodes[lv[j]].key != key
    {
      assert Keys(t, lv)[j] == t.nodes[lv[j]].key;
    }
  }

  /** A place splits the keys, so a key that is there is found right behind it. */
  lemma SplitFinds(t: List, lv: seq<nat>, key: IKey, i: nat)
    requires Ascends(t, lv) && Splits(t, lv, key, i)
    ensures key in Keys(t, lv) <==> i < |lv| && t.nodes[lv[i]].key == key
  {
    if key in Keys(t, lv) {
      var j :| 0 <= j < |lv| && Keys(t, lv)[j] == key;
      LessIsTotalOrder(key, key, key);
    }
    if i < |lv| && t.nodes[lv[i]].key == key {
      assert Keys(t, lv)[i] == key;
    }
  }

  lemma LastBelow(t: List, levels: seq<seq<nat>>, l: nat, x: nat) returns (j: nat)
    requires Shaped(t, levels) && 0 < l < MAX_HEIGHT && (x == 0 || x in levels[l])
    ensures j <= |levels[l - 1]| && x == Before(levels[l - 1], j)
  {
    hide Chain;
    if x == 0 {
      j := 0;
    } else {
      assert Sublist(levels[l], levels[l - 1]);
      var k :| 0 <= k < |levels[l - 1]| && levels[l - 1][k] == x;
      j := k + 1;
    }
  }

  function Keys(t: List, lv: seq<nat>): seq<IKey>
    requires forall i | 0 <= i < |lv| :: lv[i] < |t.nodes|
  {
    seq(|lv|, i requires 0 <= i < |lv| => t.nodes[lv[i]].key)
  }

  lemma PathStarts(t: List, r: Reader)
    ensures Path(t, [r], r, r)
  {
  }

  lemma StandsAtHead(t: List, lv: seq<nat>, key: IKey)
    ensures Stands(t, lv, key, 0, 0)
  {
  }

  lemma StandsIs(t: List, lv: seq<nat>, key: IKey, x: nat, i: nat)
    requires Stands(t, lv, key, x, i)
    ensures i <= |lv| && x == Before(lv, i)
  {
  }

  // ----- Readers between the stores of an insertion -----

  ghost predicate OnCourse(t: List, levels: seq<seq<nat>>, r: Reader) {
    r.Searching? ==>
      r.level < |levels| && (r.x == 0 || (r.x in levels[r.level] && r.x < |t.nodes| && Less(t.nodes[r.x].key, r.target)))
  }

  /** Nodes stay where they are, and levels only grow. */
  ghost predicate Grows(t: List, levels: seq<seq<nat>>, t': List, levels': seq<seq<nat>>) {
    |t.nodes| <= |t'.nodes| && (forall n | 0 <= n < |t.nodes| :: t'.nodes[n].key == t.nodes[n].key) &&
    |levels| == |levels'| && forall l | 0 <= l < |levels| :: Sublist(levels[l], levels'[l])
  }

  lemma StoreKeeps(t: List, levels: seq<seq<nat>>, t': List, levels': seq<seq<nat>>, store: Store)
    requires Shaped(t, levels) && Stores(t, levels, t', levels', store)
    ensures Shaped(t', levels') && Grows(t, levels, t', levels')
  {
    hide Shaped, Link, Reaches;
    match store {
      case Raise(height) => RaiseKeeps(t, levels, height);
      case Allocate(node) => AllocateKeeps(t, levels, node);
      case Own(x, l, y) => OwnLinkKeeps(t, levels, x, l, y);
      case Publish(x, l, i) =>
        PublishKeeps(t, levels, l, i, x);
        InsertedMembers(levels[l], i, x);
    }
  }

  /** The writer cannot lead a reader astray. */
  lemma StoreKeepsCourse(t: List, levels: seq<seq<nat>>, t': List, levels': seq<seq<nat>>, r: Reader)
    requires Grows(t, levels, t', levels') && OnCourse(t, levels, r)
    ensures OnCourse(t', levels', r)
  {
    if r.Searching? {
      assert Sublist(levels[r.level], levels'[r.level]);
    }
  }

  lemma LoadKeepsCourse(t: List, levels: seq<seq<nat>>, r: Reader)
    requires Shaped(t, levels) && OnCourse(t, levels, r) && r.Searching?
    ensures OnCourse(t, levels, Load(t, r))
    ensures Load(t, r).Found? ==> IsFirst(t, levels[0], r.target, Load(t, r).x)
  {
    hide Link, Reaches, Splits;
    var lv, l := levels[r.level], r.level;
    LevelChain(t, levels, l);
    var i: nat := 0;
    if r.x != 0 {
      var k :| 0 <= k < |lv| && lv[k] == r.x;
      i := k + 1;
    }
    StandsDecides(t, lv, l, r.target, r.x, i);
    if l > 0 {
      var j := StandsBelow(t, levels, l, r.target, r.x, i);
    }
  }

  /** How many of the writer's stores are done, and where a reader is. */
  datatype System = System(stores: nat, reader: Reader)

  /** A store of the writer, or a load of the reader. */
  ghost predicate Turn(trace: seq<State>, s: System, s': System) {
    s.stores < |trace| &&
    ((s' == s.(stores := s.stores + 1) && s'.stores < |trace|) ||
     (s.reader.Searching? && s' == s.(reader := Load(trace[s.stores].t, s.reader))))
  }

  ghost predicate TurnAt(trace: seq<State>, run: seq<System>, i: nat) {
    i + 1 < |run| && Turn(trace, run[i], run[i + 1])
  }

  /** The stores of a trace and the loads of a reader in any order, from the moment the reader starts at the head. */
  ghost predicate Interleaved(trace: seq<State>, from: State, to: State, run: seq<System>) {
    Trace(trace, from, to) && Shaped(from.t, from.levels) && run != [] && run[0].stores < |trace| &&
    run[0].reader.Searching? && run[0].reader.x == 0 && run[0].reader.level < MAX_HEIGHT &&
    forall i | 0 <= i < |run| - 1 :: TurnAt(trace, run, i)
  }

  lemma {:induction false} TraceKeeps(trace: seq<State>, from: State, to: State, n: nat)
    requires Trace(trace, from, to) && Shaped(from.t, from.levels) && n < |trace|
    ensures Shaped(trace[n].t, trace[n].levels)
  {
    hide Shaped, Stores;
    if n > 0 {
      TraceKeeps(trace, from, to, n - 1);
      assert StoredAt(trace, n - 1);
      StoredKeeps(trace[n - 1], trace[n]);
    }
  }

  lemma StoredKeeps(s: State, s': State)
    requires Stored(s, s') && Shaped(s.t, s.levels)
    ensures Shaped(s'.t, s'.levels) && Grows(s.t, s.levels, s'.t, s'.levels)
  {
    hide Shaped, Stores, Grows;
    var store :| Stores(s.t, s.levels, s'.t, s'.levels, store);
    StoreKeeps(s.t, s.levels, s'.t, s'.levels, store);
  }

  lemma {:induction false} InterleavedKeeps(trace: seq<State>, from: State, to: State, run: seq<System>, i: nat)
    requires Interleaved(trace, from, to, run) && i < |run|
    ensures run[i].stores < |trace| && OnCourse(trace[run[i].stores].t, trace[run[i].stores].levels, run[i].reader)
    ensures Shaped(trace[run[i].stores].t, trace[run[i].stores].levels)
  {
    hide Shaped, Stored, OnCourse, Load;
    if i == 0 {
      TraceKeeps(trace, from, to, run[0].stores);
      CourseStarts(trace[run[0].stores], run[0].reader);
    } else {
      InterleavedKeeps(trace, from, to, run, i - 1);
      assert TurnAt(trace, run, i - 1);
      var s, s' := run[i - 1], run[i];
      TraceKeeps(trace, from, to, s'.stores);
      if s' == s.(stores := s.stores + 1) && s'.stores < |trace| {
        assert StoredAt(trace, s.stores);
        StoredKeeps(trace[s.stores], trace[s'.stores]);
        StoreKeepsCourse(trace[s.stores].t, trace[s.stores].levels, trace[s'.stores].t, trace[s'.stores].levels, s.reader);
      } else {
        LoadKeepsCourse(trace[s.stores].t, trace[s.stores].levels, s.reader);
      }
    }
  }

  lemma CourseStarts(s: State, r: Reader)
    requires Shaped(s.t, s.levels) && r.Searching? && r.x == 0 && r.level < MAX_HEIGHT
    ensures OnCourse(s.t, s.levels, r)
  {
  }

  /** MAIN: however the loads of a reader fall between the stores of a writer, when the last load ends the search, the
      answer is the first node at or after the target in the list of that moment. */
  lemma ReaderFindsFirst(trace: seq<State>, from: State, to: State, run: seq<System>, i: nat)
    requires Interleaved(trace, from, to, run) && i + 1 < |run| && run[i].reader.Searching? && run[i + 1].reader.Found?
    ensures run[i].stores < |trace| && Shaped(trace[run[i].stores].t, trace[run[i].stores].levels)
    ensures IsFirst(trace[run[i].stores].t, trace[run[i].stores].levels[0], run[i].reader.target, run[i + 1].reader.x)
  {
    hide Stored, OnCourse, IsFirst, Chain;
    InterleavedKeeps(trace, from, to, run, i);
    assert TurnAt(trace, run, i);
    LoadKeepsCourse(trace[run[i].stores].t, trace[run[i].stores].levels, run[i].reader);
  }

  /** MAIN: each level is a sorted sublist of the one below after every store of a trace. */
  lemma EveryStoreKeepsShape(trace: seq<State>, from: State, to: State, n: nat)
    requires Trace(trace, from, to) && Shaped(from.t, from.levels) && n < |trace|
    ensures |trace[n].levels| == MAX_HEIGHT
    ensures forall l | 0 <= l < MAX_HEIGHT :: Chain(trace[n].t, trace[n].levels[l], l)
    ensures forall l | 1 <= l < MAX_HEIGHT :: Sublist(trace[n].levels[l], trace[n].levels[l - 1])
  {
    hide Chain;
    TraceKeeps(trace, from, to, n);
  }
}
