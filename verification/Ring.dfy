/** Circular doubly linked lists with a head of their own (util/cache.cc, db/snapshot.h). Nodes are numbers. */
module LinkedRings {
  ghost predicate Distinct(c: seq<nat>) {
    forall i, j | 0 <= i < j < |c| :: c[i] != c[j]
  }

  /** Position j of the ring; the head is before the first and behind the last. */
  function Around(head: nat, c: seq<nat>, j: int): nat {
    if 0 <= j < |c| then c[j] else head
  }

  ghost predicate Tied(next: map<nat, nat>, prev: map<nat, nat>, head: nat, c: seq<nat>, j: int) {
    var a, b := Around(head, c, j), Around(head, c, j + 1);
    a in next && next[a] == b && b in prev && prev[b] == a
  }

  /** From the head, next visits exactly c, and prev goes back. */
  ghost predicate Ring(next: map<nat, nat>, prev: map<nat, nat>, head: nat, c: seq<nat>) {
    Distinct(c) && head !in c && forall j | -1 <= j < |c| :: Tied(next, prev, head, c, j)
  }

  function Without(c: seq<nat>, p: nat): seq<nat>
    requires p < |c|
  {
    c[..p] + c[p + 1..]
  }

  lemma RingEnds(next: map<nat, nat>, prev: map<nat, nat>, head: nat, c: seq<nat>)
    requires Ring(next, prev, head, c)
    ensures head in next && next[head] == Around(head, c, 0) && head in prev && prev[head] == Around(head, c, |c| - 1)
    ensures next[head] == head <==> c == []
  {
    assert Tied(next, prev, head, c, -1) && Tied(next, prev, head, c, |c| - 1);
  }

  lemma RingAt(next: map<nat, nat>, prev: map<nat, nat>, head: nat, c: seq<nat>, p: nat)
    requires Ring(next, prev, head, c) && p < |c|
    ensures c[p] in next && c[p] in prev && prev[c[p]] == Around(head, c, p - 1) && next[c[p]] == Around(head, c, p + 1)
    ensures prev[c[p]] in next && next[c[p]] in prev
  {
    assert Tied(next, prev, head, c, p - 1) && Tied(next, prev, head, c, p);
  }

  lemma RingUnlink(next: map<nat, nat>, prev: map<nat, nat>, head: nat, c: seq<nat>, p: nat)
    requires Ring(next, prev, head, c) && p < |c|
    ensures c[p] in next && c[p] in prev
    ensures Ring(next[prev[c[p]] := next[c[p]]], prev[next[c[p]] := prev[c[p]]], head, Without(c, p))
  {
    RingAt(next, prev, head, c, p);
    var c', next', prev' := Without(c, p), next[prev[c[p]] := next[c[p]]], prev[next[c[p]] := prev[c[p]]];
    forall j | -1 <= j < |c'|
      ensures Tied(next', prev', head, c', j)
    {
      assert Tied(next, prev, head, c, if j < p then j else j + 1);
      assert Tied(next, prev, head, c, j + 1);
    }
  }

  /** Behind the last handle. */
  lemma RingLink(next: map<nat, nat>, prev: map<nat, nat>, head: nat, c: seq<nat>, e: nat)
    requires Ring(next, prev, head, c) && e !in c && e != head
    ensures head in prev
    ensures Ring(next[e := head][prev[head] := e], prev[e := prev[head]][head := e], head, c + [e])
  {
    RingEnds(next, prev, head, c);
    var c', next', prev' := c + [e], next[e := head][prev[head] := e], prev[e := prev[head]][head := e];
    forall j | -1 <= j < |c'|
      ensures Tied(next', prev', head, c', j)
    {
      if j < |c| {
        assert Tied(next, prev, head, c, j);
      }
    }
  }

  lemma RingKept(next: map<nat, nat>, prev: map<nat, nat>, next': map<nat, nat>, prev': map<nat, nat>, head: nat,
      c: seq<nat>)
    requires Ring(next, prev, head, c)
    requires forall e | e == head || e in c ::
      e in next && e in next' && next'[e] == next[e] && e in prev && e in prev' && prev'[e] == prev[e]
    ensures Ring(next', prev', head, c)
  {
    forall j | -1 <= j < |c|
      ensures Tied(next', prev', head, c, j)
    {
      assert Tied(next, prev, head, c, j);
      assert Around(head, c, j) == head || Around(head, c, j) in c;
      assert Around(head, c, j + 1) == head || Around(head, c, j + 1) in c;
    }
  }

  lemma RingCells(next: map<nat, nat>, prev: map<nat, nat>, head: nat, c: seq<nat>, e: nat)
    requires Ring(next, prev, head, c) && (e == head || e in c)
    ensures e in next && e in prev && (next[e] == head || next[e] in c) && (prev[e] == head || prev[e] in c)
    ensures prev[e] in next && next[e] in prev
  {
    if e == head {
      RingEnds(next, prev, head, c);
      assert Tied(next, prev, head, c, -1) && Tied(next, prev, head, c, |c| - 1);
    } else {
      var p :| 0 <= p < |c| && c[p] == e;
      RingAt(next, prev, head, c, p);
    }
  }

  /** The list without the handle, if it is on it. */
  function Drop(c: seq<nat>, e: nat): (r: seq<nat>)
    ensures e !in c ==> r == c
    ensures forall x | x in r :: x in c
  {
    if e in c then Without(c, IndexOf(c, e)) else c
  }

  function IndexOf(c: seq<nat>, e: nat): (i: nat)
    requires e in c
    ensures i < |c| && c[i] == e
  {
    if c[0] == e then 0 else 1 + IndexOf(c[1..], e)
  }

  lemma DropIs(c: seq<nat>, e: nat)
    requires Distinct(c)
    ensures forall x :: x in Drop(c, e) <==> x in c && x != e
    ensures Distinct(Drop(c, e))
  {
    if e in c {
      var i := IndexOf(c, e);
      var d := Without(c, i);
      forall x | x in c && x != e
        ensures x in d
      {
        var k :| 0 <= k < |c| && c[k] == x;
        assert d[if k < i then k else k - 1] == x;
      }
      forall k | 0 <= k < |d|
        ensures d[k] != e
      {
        var m := if k < i then k else k + 1;
        assert d[k] == c[m] && m != i;
      }
    }
  }
}
