/** The merging iterator (table/merger.cc): one cursor over the sorted union of several runs. */
module Merger {
  import opened Entries
  import opened Iterators

  // ----- The sorted union -----

  function MergeTwo(a: seq<Entry>, b: seq<Entry>): seq<Entry> {
    if a == [] then b
    else if b == [] then a
    else if Less(a[0].key, b[0].key) then [a[0]] + MergeTwo(a[1..], b)
    else [b[0]] + MergeTwo(a, b[1..])
  }

  function Merge(runs: seq<seq<Entry>>): seq<Entry> {
    if runs == [] then [] else MergeTwo(Merge(runs[..|runs| - 1]), runs[|runs| - 1])
  }

  ghost predicate Apart(a: seq<Entry>, b: seq<Entry>) {
    forall i, j | 0 <= i < |a| && 0 <= j < |b| :: a[i].key != b[j].key
  }

  /** Sorted runs without a key in common. */
  ghost predicate Mergeable(runs: seq<seq<Entry>>) {
    (forall i | 0 <= i < |runs| :: Sorted(runs[i])) && forall i, j | 0 <= i < j < |runs| :: Apart(runs[i], runs[j])
  }

  lemma {:induction false} MergeTwoIs(a: seq<Entry>, b: seq<Entry>)
    requires Sorted(a) && Sorted(b) && Apart(a, b)
    ensures Sorted(MergeTwo(a, b))
    ensures forall e :: e in MergeTwo(a, b) <==> e in a || e in b
    ensures |MergeTwo(a, b)| == |a| + |b|
  {
    if a != [] && b != [] {
      if Less(a[0].key, b[0].key) {
        MergeTwoIs(a[1..], b);
        HeadMerges(a[0], a[1..], b);
      } else {
        MergeTwoIs(a, b[1..]);
        LessIsTotalOrder(a[0].key, b[0].key, a[0].key);
        HeadMerges(b[0], b[1..], a);
      }
    }
  }

  lemma HeadMerges(x: Entry, rest: seq<Entry>, other: seq<Entry>)
    requires Sorted([x] + rest) && Sorted(other) && other != [] && Less(x.key, other[0].key)
    ensures forall e | e in rest || e in other :: Less(x.key, e.key)
    ensures forall e :: e in [x] + rest <==> e == x || e in rest
  {
    forall e | e in rest || e in other
      ensures Less(x.key, e.key)
    {
      if e in rest {
        var i :| 0 <= i < |rest| && rest[i] == e;
        assert Less(([x] + rest)[0].key, ([x] + rest)[i + 1].key);
      } else {
        var i :| 0 <= i < |other| && other[i] == e;
        assert i > 0 ==> Less(other[0].key, other[i].key);
        LessIsTotalOrder(x.key, other[0].key, e.key);
      }
    }
  }

  ghost predicate InSome(runs: seq<seq<Entry>>, e: Entry) {
    exists i :: 0 <= i < |runs| && e in runs[i]
  }

  /** The union is sorted and holds exactly the entries of the runs. */
  lemma {:induction false} MergeIs(runs: seq<seq<Entry>>)
    requires Mergeable(runs)
    ensures Sorted(Merge(runs)) && forall e :: e in Merge(runs) <==> InSome(runs, e)
  {
    if runs != [] {
      var init, last := runs[..|runs| - 1], runs[|runs| - 1];
      MergeIs(init);
      forall i, j | 0 <= i < |Merge(init)| && 0 <= j < |last|
        ensures Merge(init)[i].key != last[j].key
      {
        assert Merge(init)[i] in Merge(init);
        var r :| 0 <= r < |init| && Merge(init)[i] in init[r];
        assert Apart(runs[r], last);
      }
      MergeTwoIs(Merge(init), last);
      forall e
        ensures e in Merge(runs) <==> InSome(runs, e)
      {
        if e in Merge(init) {
          var r :| 0 <= r < |init| && e in init[r];
          assert e in runs[r];
        }
        if InSome(runs, e) && e !in last {
          var r :| 0 <= r < |runs| && e in runs[r];
          assert e in init[r];
        }
      }
    }
  }

  // ----- Where the children stand -----

  /** Key k lies before position n of the union. */
  predicate Below(union: seq<Entry>, n: nat, k: IKey) {
    n >= |union| || Less(k, union[n].key)
  }

  /** The child stands at its first entry from position n of the union on. */
  ghost predicate Ahead(union: seq<Entry>, n: nat, es: seq<Entry>, at: Option<nat>) {
    (at.Some? ==> at.value < |es|) &&
    forall j | 0 <= j < |es| :: Below(union, n, es[j].key) <==> at.None? || j < at.value
  }

  /** The child stands at its last entry before position n of the union. */
  ghost predicate Behind(union: seq<Entry>, n: nat, es: seq<Entry>, at: Option<nat>) {
    (at.Some? ==> at.value < |es|) &&
    forall j | 0 <= j < |es| :: Below(union, n, es[j].key) <==> at.Some? && j <= at.value
  }

  /** A child's entry found at position n of the union. */
  ghost predicate Holds(union: seq<Entry>, n: nat, es: seq<Entry>, at: Option<nat>) {
    n < |union| && at.Some? && at.value < |es| && es[at.value] == union[n]
  }

  ghost predicate Within(union: seq<Entry>, es: seq<Entry>) {
    Sorted(union) && Sorted(es) && forall e | e in es :: e in union
  }

  lemma BelowNext(union: seq<Entry>, n: nat, e: Entry)
    requires Sorted(union) && n < |union| && e in union
    ensures Below(union, n + 1, e.key) <==> Below(union, n, e.key) || e == union[n]
  {
    var i :| 0 <= i < |union| && union[i] == e;
    assert n < i ==> Less(union[n].key, union[i].key);
    assert n + 1 < i ==> Less(union[n + 1].key, union[i].key);
    assert i < n ==> Less(union[i].key, union[n].key);
    assert i < n + 1 < |union| ==> Less(union[i].key, union[n + 1].key);
    if n + 1 < |union| {
      LessIsTotalOrder(e.key, union[n + 1].key, e.key);
    }
    LessIsTotalOrder(e.key, union[n].key, e.key);
  }

  /** The child that holds position n moves past it. */
  lemma AheadAfterNext(union: seq<Entry>, n: nat, es: seq<Entry>, at: Option<nat>)
    requires Within(union, es) && Holds(union, n, es, at)
    ensures Ahead(union, n + 1, es, if at.value + 1 < |es| then Some(at.value + 1) else None)
  {
    forall j | 0 <= j < |es|
      ensures Below(union, n + 1, es[j].key) <==> j < at.value + 1
    {
      assert es[j] in es;
      BelowNext(union, n, es[j]);
      OrderTells(es, j, at.value);
    }
  }

  lemma OrderTells(es: seq<Entry>, i: nat, j: nat)
    requires Sorted(es) && i < |es| && j < |es|
    ensures i < j <==> Less(es[i].key, es[j].key)
    ensures es[i].key == es[j].key <==> i == j
  {
    LessIsTotalOrder(es[i].key, es[j].key, es[i].key);
  }

  lemma BehindAfterPrev(union: seq<Entry>, n: nat, es: seq<Entry>, at: Option<nat>)
    requires Within(union, es) && Holds(union, n, es, at)
    ensures Behind(union, n, es, if at.value > 0 then Some(at.value - 1) else None)
  {
    forall j | 0 <= j < |es|
      ensures Below(union, n, es[j].key) <==> j < at.value
    {
      OrderTells(es, j, at.value);
    }
  }

  /** A child without the entry at position n stands alike before and after it. */
  lemma AheadWithout(union: seq<Entry>, n: nat, es: seq<Entry>, at: Option<nat>)
    requires Within(union, es) && n < |union| && union[n] !in es
    ensures Ahead(union, n, es, at) <==> Ahead(union, n + 1, es, at)
    ensures Behind(union, n, es, at) <==> Behind(union, n + 1, es, at)
  {
    forall j | 0 <= j < |es|
      ensures Below(union, n, es[j].key) <==> Below(union, n + 1, es[j].key)
    {
      assert es[j] in es;
      BelowNext(union, n, es[j]);
    }
  }

  /** Standing at the first entry from n on and holding n say the same of the child that has it. */
  lemma AheadHolds(union: seq<Entry>, n: nat, es: seq<Entry>, at: Option<nat>)
    requires Within(union, es) && n < |union| && union[n] in es
    ensures Ahead(union, n, es, at) <==> Holds(union, n, es, at)
    ensures Behind(union, n + 1, es, at) <==> Holds(union, n, es, at)
  {
    var i :| 0 <= i < |es| && es[i] == union[n];
    LessIsTotalOrder(es[i].key, union[n].key, es[i].key);
    forall j | 0 <= j < |es|
      ensures Below(union, n, es[j].key) <==> j < i
      ensures Below(union, n + 1, es[j].key) <==> j <= i
    {
      assert es[j] in es;
      BelowNext(union, n, es[j]);
      OrderTells(es, j, i);
    }
    if at.Some? && at.value < |es| {
      OrderTells(es, at.value, i);
    }
  }

  ghost predicate AllAhead(runs: seq<seq<Entry>>, n: nat, ats: seq<Option<nat>>) {
    |runs| == |ats| && forall i | 0 <= i < |runs| :: Ahead(Merge(runs), n, runs[i], ats[i])
  }

  ghost predicate AllBehind(runs: seq<seq<Entry>>, n: nat, ats: seq<Option<nat>>) {
    |runs| == |ats| && forall i | 0 <= i < |runs| :: Behind(Merge(runs), n, runs[i], ats[i])
  }

  lemma RunWithin(runs: seq<seq<Entry>>, i: nat)
    requires Mergeable(runs) && i < |runs|
    ensures Within(Merge(runs), runs[i])
  {
    MergeIs(runs);
    assert forall e | e in runs[i] :: InSome(runs, e);
  }

  lemma OwnerOf(runs: seq<seq<Entry>>, n: nat) returns (r: nat)
    requires Mergeable(runs) && n < |Merge(runs)|
    ensures r < |runs| && Merge(runs)[n] in runs[r]
    ensures forall i | 0 <= i < |runs| && i != r :: Merge(runs)[n] !in runs[i]
  {
    MergeIs(runs);
    var e := Merge(runs)[n];
    assert InSome(runs, e);
    r :| 0 <= r < |runs| && e in runs[r];
    forall i | 0 <= i < |runs| && i != r
      ensures e !in runs[i]
    {
      assert Apart(runs[if i < r then i else r], runs[if i < r then r else i]);
    }
  }

  /** The child with the smallest current key is the one that holds position n. */
  lemma SmallestHolds(runs: seq<seq<Entry>>, n: nat, ats: seq<Option<nat>>, m: Option<nat>)
    requires Mergeable(runs) && n <= |Merge(runs)| && AllAhead(runs, n, ats)
    requires m.Some? ==> m.value < |ats| && ats[m.value].Some?
    requires m.None? ==> forall i | 0 <= i < |runs| :: ats[i].None?
    requires m.Some? ==> forall i | 0 <= i < |runs| && ats[i].Some? ::
      !Less(runs[i][ats[i].value].key, runs[m.value][ats[m.value].value].key)
    ensures m.Some? <==> n < |Merge(runs)|
    ensures m.Some? ==> Holds(Merge(runs), n, runs[m.value], ats[m.value])
  {
    if n < |Merge(runs)| {
      var r := OwnerOf(runs, n);
      RunWithin(runs, r);
      AheadHolds(Merge(runs), n, runs[r], ats[r]);
      SameKeySameEntry(runs, n, m.value, runs[m.value][ats[m.value].value]);
    }
  }

  lemma SameKeySameEntry(runs: seq<seq<Entry>>, n: nat, i: nat, e: Entry)
    requires Mergeable(runs) && n < |Merge(runs)| && i < |runs| && e in runs[i]
    ensures !Less(e.key, Merge(runs)[n].key) && !Less(Merge(runs)[n].key, e.key) ==> e == Merge(runs)[n]
  {
    RunWithin(runs, i);
    var j :| 0 <= j < |Merge(runs)| && Merge(runs)[j] == e;
    OrderTells(Merge(runs), j, n);
    LessIsTotalOrder(e.key, Merge(runs)[n].key, e.key);
  }

  lemma LargestHolds(runs: seq<seq<Entry>>, n: nat, ats: seq<Option<nat>>, m: Option<nat>)
    requires Mergeable(runs) && n <= |Merge(runs)| && AllBehind(runs, n, ats)
    requires m.Some? ==> m.value < |ats| && ats[m.value].Some?
    requires m.None? ==> forall i | 0 <= i < |runs| :: ats[i].None?
    requires m.Some? ==> forall i | 0 <= i < |runs| && ats[i].Some? ::
      !Less(runs[m.value][ats[m.value].value].key, runs[i][ats[i].value].key)
    ensures m.Some? <==> n > 0
    ensures m.Some? ==> Holds(Merge(runs), n - 1, runs[m.value], ats[m.value])
  {
    MergeIs(runs);
    var u := Merge(runs);
    if m.Some? {
      var e := runs[m.value][ats[m.value].value];
      RunWithin(runs, m.value);
      assert Below(u, n, e.key) && e in runs[m.value] && e in u;
      var j :| 0 <= j < |u| && u[j] == e;
      if n < |u| {
        OrderTells(u, j, n);
      }
      var r := OwnerOf(runs, n - 1);
      RunWithin(runs, r);
      AheadHolds(u, n - 1, runs[r], ats[r]);
      OrderTells(u, n - 1, j);
      SameKeySameEntry(runs, n - 1, m.value, e);
    } else if n > 0 {
      var r := OwnerOf(runs, n - 1);
      RunWithin(runs, r);
      AheadHolds(u, n - 1, runs[r], ats[r]);
      assert false;
    }
  }

  /** The position a seek asks for. */
  lemma {:induction false} CutAt(union: seq<Entry>, target: IKey) returns (n: nat)
    requires Sorted(union)
    ensures n <= |union| && forall j | 0 <= j < |union| :: j < n <==> Less(union[j].key, target)
  {
    n := 0;
    while n < |union| && Less(union[n].key, target)
      invariant n <= |union| && forall j | 0 <= j < n :: Less(union[j].key, target)
    {
      n := n + 1;
    }
    forall j | n < j < |union|
      ensures !Less(union[j].key, target)
    {
      LessIsTotalOrder(union[n].key, union[j].key, target);
    }
  }

  lemma CutSplits(union: seq<Entry>, target: IKey, n: nat, e: Entry)
    requires Sorted(union) && n <= |union| && forall j | 0 <= j < |union| :: j < n <==> Less(union[j].key, target)
    requires e in union
    ensures Below(union, n, e.key) <==> Less(e.key, target)
  {
    var i :| 0 <= i < |union| && union[i] == e;
    if n < |union| {
      OrderTells(union, i, n);
    }
  }

  lemma StartIsAhead(runs: seq<seq<Entry>>, i: nat)
    requires Mergeable(runs) && i < |runs|
    ensures forall j | 0 <= j < |runs[i]| :: !Below(Merge(runs), 0, runs[i][j].key)
  {
    RunWithin(runs, i);
    var u := Merge(runs);
    forall j | 0 <= j < |runs[i]|
      ensures !Below(u, 0, runs[i][j].key)
    {
      assert runs[i][j] in u;
      var m :| 0 <= m < |u| && u[m] == runs[i][j];
      OrderTells(u, m, 0);
    }
  }

  /** A child that sought the target stands ahead of the target's position. */
  lemma SeekIsAhead(runs: seq<seq<Entry>>, i: nat, target: IKey, n: nat, at: Option<nat>)
    requires Mergeable(runs) && i < |runs| && n <= |Merge(runs)| && (at.Some? ==> at.value < |runs[i]|)
    requires forall j | 0 <= j < |Merge(runs)| :: j < n <==> Less(Merge(runs)[j].key, target)
    requires forall j | 0 <= j < (if at.Some? then at.value else |runs[i]|) :: Less(runs[i][j].key, target)
    requires at.Some? ==> !Less(runs[i][at.value].key, target)
    ensures Ahead(Merge(runs), n, runs[i], at)
  {
    RunWithin(runs, i);
    forall j | 0 <= j < |runs[i]|
      ensures Below(Merge(runs), n, runs[i][j].key) <==> at.None? || j < at.value
    {
      assert runs[i][j] in runs[i];
      CutSplits(Merge(runs), target, n, runs[i][j]);
      if at.Some? && at.value < j {
        OrderTells(runs[i], at.value, j);
        LessIsTotalOrder(runs[i][at.value].key, runs[i][j].key, target);
      }
    }
  }

  /** Stepping over an equal key after the seek leaves the child past it. */
  lemma SeekPast(runs: seq<seq<Entry>>, i: nat, n: nat, at: Option<nat>)
    requires Mergeable(runs) && i < |runs| && n < |Merge(runs)| && Ahead(Merge(runs), n, runs[i], at)
    ensures var es := runs[i];
      Ahead(Merge(runs), n + 1, es,
            if at.Some? && es[at.value].key == Merge(runs)[n].key then
              if at.value + 1 < |es| then Some(at.value + 1) else None
            else at)
  {
    var u, es := Merge(runs), runs[i];
    RunWithin(runs, i);
    forall j | 0 <= j < |es|
      ensures Below(u, n + 1, es[j].key) <==> Below(u, n, es[j].key) || es[j].key == u[n].key
    {
      assert es[j] in es;
      BelowNext(u, n, es[j]);
      SameKeySameEntry(runs, n, i, es[j]);
      LessIsTotalOrder(es[j].key, u[n].key, es[j].key);
    }
    if at.Some? {
      forall j | 0 <= j < |es|
        ensures es[j].key == es[at.value].key <==> j == at.value
      {
        OrderTells(es, j, at.value);
      }
      forall j | 0 <= j < |es| && es[j].key == u[n].key
        ensures j == at.value
      {
        OrderTells(es, at.value, j);
        LessIsTotalOrder(es[at.value].key, u[n].key, es[j].key);
      }
    }
  }

  /** Stepping back after the seek leaves the child before the key. */
  lemma SeekBefore(runs: seq<seq<Entry>>, i: nat, n: nat, at: Option<nat>)
    requires Mergeable(runs) && i < |runs| && n < |Merge(runs)| && Ahead(Merge(runs), n, runs[i], at)
    ensures var es := runs[i];
      Behind(Merge(runs), n, es,
             if at.Some? then if at.value > 0 then Some(at.value - 1) else None
             else if es != [] then Some(|es| - 1) else None)
  {
  }

  /** What the position of the current entry means for a seek to its key. */
  lemma CutAtEntry(union: seq<Entry>, n: nat)
    requires Sorted(union) && n < |union|
    ensures forall j | 0 <= j < |union| :: j < n <==> Less(union[j].key, union[n].key)
  {
    forall j | 0 <= j < |union|
      ensures j < n <==> Less(union[j].key, union[n].key)
    {
      OrderTells(union, j, n);
    }
  }

  /** The children that do not hold position n stand past it. */
  lemma OthersAhead(runs: seq<seq<Entry>>, n: nat, c: nat, ats: seq<Option<nat>>)
    requires Mergeable(runs) && c < |runs| == |ats| && Holds(Merge(runs), n, runs[c], ats[c]) && AllAhead(runs, n, ats)
    ensures forall k | 0 <= k < |runs| && k != c :: Ahead(Merge(runs), n + 1, runs[k], ats[k])
  {
    hide Merge, Mergeable, Ahead, Behind, Within;
    assert runs[c][ats[c].value] in runs[c];
    var r := OwnerOf(runs, n);
    forall k | 0 <= k < |runs| && k != c
      ensures Ahead(Merge(runs), n + 1, runs[k], ats[k])
    {
      RunWithin(runs, k);
      AheadWithout(Merge(runs), n, runs[k], ats[k]);
    }
  }

  lemma OthersBehind(runs: seq<seq<Entry>>, n: nat, c: nat, ats: seq<Option<nat>>)
    requires Mergeable(runs) && c < |runs| == |ats| && Holds(Merge(runs), n, runs[c], ats[c]) && AllBehind(runs, n + 1, ats)
    ensures forall k | 0 <= k < |runs| && k != c :: Behind(Merge(runs), n, runs[k], ats[k])
  {
    hide Merge, Mergeable, Ahead, Behind, Within;
    assert runs[c][ats[c].value] in runs[c];
    var r := OwnerOf(runs, n);
    forall k | 0 <= k < |runs| && k != c
      ensures Behind(Merge(runs), n, runs[k], ats[k])
    {
      RunWithin(runs, k);
      AheadWithout(Merge(runs), n, runs[k], ats[k]);
    }
  }

  // ----- The iterator -----

  datatype Direction = Forward | Reverse

  class MergingIterator {
    const children: seq<RunIterator>
    var current: Option<nat>
    var direction: Direction
    ghost var cursor: nat

    ghost function Runs(): seq<seq<Entry>> {
      seq(|children|, i requires 0 <= i < |children| => children[i].entries)
    }

    ghost function Union(): seq<Entry> {
      Merge(Runs())
    }

    ghost function Ats(): seq<Option<nat>>
      reads children
    {
      seq(|children|, i requires 0 <= i < |children| reads children => children[i].at)
    }

    ghost predicate Shape()
      reads children
    {
      Mergeable(Runs()) && (forall i, j | 0 <= i < j < |children| :: children[i] != children[j]) &&
      forall i | 0 <= i < |children| :: children[i].Ok()
    }

    ghost predicate Ok()
      reads this, children
    {
      Shape() &&
      (current.Some? ==>
         StandsOn(cursor) &&
         match direction
         case Forward => AllAhead(Runs(), cursor, Ats())
         case Reverse => AllBehind(Runs(), cursor + 1, Ats()))
    }

    /** The current child's entry is position n of the union. */
    ghost predicate StandsOn(n: nat)
      reads this, children
    {
      current.Some? && current.value < |children| &&
      Holds(Union(), n, children[current.value].entries, children[current.value].at)
    }

    constructor (runs: seq<RunIterator>)
      requires forall i | 0 <= i < |runs| :: runs[i].Ok()
      requires forall i, j | 0 <= i < j < |runs| :: runs[i] != runs[j] && Apart(runs[i].entries, runs[j].entries)
      ensures Ok() && children == runs && current == None
    {
      children, current, direction := runs, None, Forward;
    }

    method FindSmallest(ghost n: nat)
      requires Shape() && n <= |Union()| && AllAhead(Runs(), n, Ats())
      modifies `current, `cursor
      ensures current.Some? == (n < |Union()|) && (current.Some? ==> cursor == n && StandsOn(n))
    {
      var smallest: Option<nat> := None;
      for i := 0 to |children|
        invariant smallest.None? ==> forall k | 0 <= k < i :: children[k].at.None?
        invariant smallest.Some? ==> smallest.value < i && children[smallest.value].at.Some?
        invariant smallest.Some? ==> forall k | 0 <= k < i && children[k].at.Some? ::
          !Less(children[k].Current().key, children[smallest.value].Current().key)
      {
        var child := children[i];
        if child.Valid() {
          if smallest.None? {
            LessIsTotalOrder(child.Current().key, child.Current().key, child.Current().key);
            smallest := Some(i);
          } else if Less(child.Current().key, children[smallest.value].Current().key) {
            forall k | 0 <= k <= i && children[k].at.Some?
              ensures !Less(children[k].Current().key, child.Current().key)
            {
              LessIsTotalOrder(children[k].Current().key, child.Current().key, children[smallest.value].Current().key);
            }
            smallest := Some(i);
          }
        }
      }
      SmallestHolds(Runs(), n, Ats(), smallest);
      current, cursor := smallest, n;
    }

    method FindLargest(ghost n: nat)
      requires Shape() && n <= |Union()| && AllBehind(Runs(), n, Ats())
      modifies `current, `cursor
      ensures current.Some? == (n > 0) && (current.Some? ==> cursor == n - 1 && StandsOn(n - 1))
    {
      var largest: Option<nat> := None;
      for i := |children| downto 0
        invariant largest.None? ==> forall k | i <= k < |children| :: children[k].at.None?
        invariant largest.Some? ==> i <= largest.value < |children| && children[largest.value].at.Some?
        invariant largest.Some? ==> forall k | i <= k < |children| && children[k].at.Some? ::
          !Less(children[largest.value].Current().key, children[k].Current().key)
      {
        var child := children[i];
        if child.Valid() {
          if largest.None? {
            LessIsTotalOrder(child.Current().key, child.Current().key, child.Current().key);
            largest := Some(i);
          } else if Less(children[largest.value].Current().key, child.Current().key) {
            forall k | i <= k < |children| && children[k].at.Some?
              ensures !Less(child.Current().key, children[k].Current().key)
            {
              LessIsTotalOrder(children[largest.value].Current().key, child.Current().key, children[k].Current().key);
            }
            largest := Some(i);
          }
        }
      }
      LargestHolds(Runs(), n, Ats(), largest);
      current := largest;
      cursor := if n > 0 then n - 1 else 0;
    }

    method SeekToFirst()
      requires Ok()
      modifies this, children
      ensures Ok() && current.Some? == (Union() != []) && (current.Some? ==> cursor == 0)
    {
      hide Mergeable, Merge;
      for i := 0 to |children|
        invariant Shape() && forall k | 0 <= k < i :: Ahead(Union(), 0, children[k].entries, children[k].at)
      {
        RunWithin(Runs(), i);
        children[i].SeekToFirst();
        StartIsAhead(Runs(), i);
      }
      FindSmallest(0);
      direction := Forward;
    }

    method SeekToLast()
      requires Ok()
      modifies this, children
      ensures Ok() && current.Some? == (Union() != []) && (current.Some? ==> cursor == |Union()| - 1)
    {
      hide Mergeable, Merge;
      for i := 0 to |children|
        invariant Shape() && forall k | 0 <= k < i :: Behind(Union(), |Union()|, children[k].entries, children[k].at)
      {
        children[i].SeekToLast();
      }
      FindLargest(|Union()|);
      direction := Reverse;
    }

    method Seek(target: IKey)
      requires Ok()
      modifies this, children
      ensures Ok() && (current.Some? ==> cursor < |Union()| && !Less(Union()[cursor].key, target))
      ensures forall j | 0 <= j < |Union()| && (current.Some? ==> j < cursor) :: Less(Union()[j].key, target)
    {
      hide Mergeable, Merge, Ahead;
      MergeIs(Runs());
      ghost var n := CutAt(Union(), target);
      for i := 0 to |children|
        invariant Shape() && forall k | 0 <= k < i :: Ahead(Union(), n, children[k].entries, children[k].at)
      {
        children[i].Seek(target);
        SeekIsAhead(Runs(), i, target, n, children[i].at);
      }
      FindSmallest(n);
      direction := Forward;
    }

    /** MAIN: key() and value() are those of the union at the cursor. */
    function Current(): (e: Entry)
      requires Ok() && current.Some?
      reads this, children
      ensures cursor < |Union()| && e == Union()[cursor]
    {
      children[current.value].Current()
    }

    /** Children other than the current one stand past the cursor. */
    ghost predicate OthersPast()
      reads this, children
    {
      forall k | 0 <= k < |children| && Some(k) != current ::
        Ahead(Union(), cursor + 1, children[k].entries, children[k].at)
    }

    ghost predicate OthersBefore()
      reads this, children
    {
      forall k | 0 <= k < |children| && Some(k) != current :: Behind(Union(), cursor, children[k].entries, children[k].at)
    }

    /** One child's share of the direction switch of Next. */
    method StepPast(i: nat, key: IKey, ghost n: nat)
      requires Shape() && i < |children| && n < |Union()| && key == Union()[n].key
      modifies children[i]
      ensures children[i].Ok() && Ahead(Union(), n + 1, children[i].entries, children[i].at)
    {
      hide Mergeable, Ahead, Merge;
      ghost var runs := Runs();
      MergeIs(runs);
      CutAtEntry(Union(), n);
      var child := children[i];
      child.Seek(key);
      SeekIsAhead(runs, i, key, n, child.at);
      SeekPast(runs, i, n, child.at);
      if child.Valid() && child.Current().key == key {
        child.Next();
      }
    }

    method TurnForward()
      requires Ok() && current.Some?
      modifies children
      ensures Shape() && StandsOn(cursor) && OthersPast()
    {
      hide Mergeable, Ahead, Behind, Merge;
      ghost var c := current.value;
      var key := Current().key;
      for i := 0 to |children|
        invariant Shape() && StandsOn(cursor)
        invariant forall k | 0 <= k < i && k != c :: Ahead(Union(), cursor + 1, children[k].entries, children[k].at)
      {
        if i != current.value {
          StepPast(i, key, cursor);
        }
      }
    }

    /** Going forward, the other children are past the cursor already. */
    lemma AlreadyPast()
      requires Ok() && current.Some? && direction == Forward
      ensures OthersPast()
    {
      hide Merge, Mergeable, Ahead, Behind, Holds;
      OthersAhead(Runs(), cursor, current.value, Ats());
      assert forall k | 0 <= k < |children| :: Runs()[k] == children[k].entries && Ats()[k] == children[k].at;
    }

    /** The current child joins the others past the cursor. */
    method Advance()
      requires Shape() && StandsOn(cursor) && OthersPast()
      modifies children[current.value]
      ensures Shape() && AllAhead(Runs(), cursor + 1, Ats())
    {
      hide Merge, Mergeable, Ahead, Behind;
      RunWithin(Runs(), current.value);
      AheadAfterNext(Union(), cursor, children[current.value].entries, children[current.value].at);
      children[current.value].Next();
    }

    /** MAIN: the cursor moves one entry on in the union, whichever way it was moving before. */
    method Next()
      requires Ok() && current.Some?
      modifies this, children
      ensures Ok() && current.Some? == (old(cursor) + 1 < |Union()|) && (current.Some? ==> cursor == old(cursor) + 1)
    {
      hide Merge, Mergeable, Ahead, Behind, AllBehind;
      if direction != Forward {
        TurnForward();
        direction := Forward;
      } else {
        AlreadyPast();
      }
      Advance();
      FindSmallest(cursor + 1);
    }

    /** One child's share of the direction switch of Prev. */
    method StepBefore(i: nat, key: IKey, ghost n: nat)
      requires Shape() && i < |children| && n < |Union()| && key == Union()[n].key
      modifies children[i]
      ensures children[i].Ok() && Behind(Union(), n, children[i].entries, children[i].at)
    {
      hide Mergeable, Ahead, Behind, Merge;
      ghost var runs := Runs();
      MergeIs(runs);
      CutAtEntry(Union(), n);
      var child := children[i];
      child.Seek(key);
      SeekIsAhead(runs, i, key, n, child.at);
      SeekBefore(runs, i, n, child.at);
      if child.Valid() {
        child.Prev();
      } else {
        child.SeekToLast();
      }
    }

    method TurnBack()
      requires Ok() && current.Some?
      modifies children
      ensures Shape() && StandsOn(cursor) && OthersBefore()
    {
      hide Mergeable, Ahead, Behind, Merge;
      ghost var c := current.value;
      var key := Current().key;
      for i := 0 to |children|
        invariant Shape() && StandsOn(cursor)
        invariant forall k | 0 <= k < i && k != c :: Behind(Union(), cursor, children[k].entries, children[k].at)
      {
        if i != current.value {
          StepBefore(i, key, cursor);
        }
      }
    }

    lemma AlreadyBefore()
      requires Ok() && current.Some? && direction == Reverse
      ensures OthersBefore()
    {
      hide Merge, Mergeable, Ahead, Behind, Holds;
      OthersBehind(Runs(), cursor, current.value, Ats());
      assert forall k | 0 <= k < |children| :: Runs()[k] == children[k].entries && Ats()[k] == children[k].at;
    }

    /** The current child joins the others before the cursor. */
    method Retreat()
      requires Shape() && StandsOn(cursor) && OthersBefore()
      modifies children[current.value]
      ensures Shape() && AllBehind(Runs(), cursor, Ats())
    {
      hide Merge, Mergeable, Ahead, Behind;
      RunWithin(Runs(), current.value);
      BehindAfterPrev(Union(), cursor, children[current.value].entries, children[current.value].at);
      children[current.value].Prev();
    }

    /** MAIN: the cursor moves one entry back in the union. */
    method Prev()
      requires Ok() && current.Some?
      modifies this, children
      ensures Ok() && current.Some? == (old(cursor) > 0) && (current.Some? ==> cursor == old(cursor) - 1)
    {
      hide Merge, Mergeable, Ahead, Behind, AllAhead;
      if direction != Reverse {
        TurnBack();
        direction := Reverse;
      } else {
        AlreadyBefore();
      }
      Retreat();
      FindLargest(cursor);
    }

    ghost function Standing(): Option<nat>
      reads this
    {
      if current.Some? then Some(cursor) else None
    }

    method Perform(call: Call<IKey>)
      requires Ok()
      modifies this, children
      ensures Ok() && CursorMoves(Union(), old(Standing()), call, Standing())
    {
      hide Merge, Mergeable, Ahead, Behind, AllAhead, AllBehind, Less;
      match call {
        case First => SeekToFirst();
        case Last => SeekToLast();
        case To(target) => Seek(target);
        case Forth => if current.Some? { Next(); }
        case Back => if current.Some? { Prev(); }
      }
      if current.Some? {
        ghost var e := Current();
      }
    }
  }

  // ----- Whole runs -----

  /** MAIN: under every sequence of calls, in both directions, a merging iterator shows what the reference cursor in the
      union of its children shows. */
  method Drive(runs: seq<RunIterator>, calls: seq<Call<IKey>>)
    returns (seen: seq<Option<Entry>>, ghost path: seq<Option<nat>>)
    requires forall i | 0 <= i < |runs| :: runs[i].Ok()
    requires forall i, j | 0 <= i < j < |runs| :: runs[i] != runs[j] && Apart(runs[i].entries, runs[j].entries)
    modifies runs
    ensures |seen| == |calls| && |path| == |calls| + 1 && path[0] == None
    ensures var union := Merge(seq(|runs|, i requires 0 <= i < |runs| => runs[i].entries));
      forall i | 0 <= i < |calls| ::
        CursorMoves(union, path[i], calls[i], path[i + 1]) && seen[i] == EntryAt(union, path[i + 1])
  {
    hide Merge, CursorMoves, Mergeable, Ahead, Behind, AllAhead, AllBehind;
    var it := new MergingIterator(runs);
    ghost var union := it.Union();
    seen, path := [], [None];
    for n := 0 to |calls|
      invariant it.Ok() && it.children == runs && fresh(it)
      invariant |seen| == n && |path| == n + 1 && path[0] == None
      invariant path[n] == it.Standing()
      invariant forall i | 0 <= i < n :: CursorMoves(union, path[i], calls[i], path[i + 1]) && seen[i] == EntryAt(union, path[i + 1])
    {
      it.Perform(calls[n]);
      path := path + [it.Standing()];
      if it.current.Some? {
        var e := it.Current();
        seen := seen + [Some(e)];
      } else {
        seen := seen + [None];
      }
    }
    assert it.Runs() == seq(|runs|, i requires 0 <= i < |runs| => runs[i].entries);
  }
}
