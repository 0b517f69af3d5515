/** The list of snapshots (db/snapshot.h); its oldest one is the smallest snapshot compactions must preserve. */
module Snapshots {
  import opened LinkedRings

  /** Snapshots are numbers from 1 on; the head of the list is 0. */
  const HEAD: nat := 0

  predicate Ascending(numbers: seq<nat>) {
    forall i, j | 0 <= i < j < |numbers| :: numbers[i] <= numbers[j]
  }

  ghost function NumbersOf(list: seq<nat>, numberOf: map<nat, nat>): (r: seq<nat>)
    ensures |r| == |list|
  {
    seq(|list|, i requires 0 <= i < |list| => if list[i] in numberOf then numberOf[list[i]] else 0)
  }

  /** Without one snapshot the others still ascend. */
  lemma DropAscends(list: seq<nat>, numberOf: map<nat, nat>, s: nat)
    requires s in list && Distinct(list) && Ascending(NumbersOf(list, numberOf))
    ensures Ascending(NumbersOf(Drop(list, s), numberOf - {s}))
    ensures forall x | x in Drop(list, s) :: x in list && x != s
  {
    DropIs(list, s);
    var i, d := IndexOf(list, s), Drop(list, s);
    var before, after := NumbersOf(list, numberOf), NumbersOf(d, numberOf - {s});
    forall k | 0 <= k < |d|
      ensures after[k] == before[if k < i then k else k + 1]
    {
      assert d[k] == list[if k < i then k else k + 1];
    }
  }

  class SnapshotList {
    var next: map<nat, nat>
    var prev: map<nat, nat>
    var sequenceNumber: map<nat, nat>
    var unused: nat
    ghost var list: seq<nat>

    ghost predicate Ok()
      reads this
    {
      Ring(next, prev, HEAD, list) && unused > 0 &&
      (forall s | s in list :: s in sequenceNumber && 0 < s < unused) && Ascending(Numbers())
    }

    /** The sequence numbers in the order of the list. */
    ghost function Numbers(): (r: seq<nat>)
      reads this
      ensures |r| == |list|
    {
      NumbersOf(list, sequenceNumber)
    }

    constructor ()
      ensures Ok() && list == []
    {
      next, prev, sequenceNumber, unused, list := map[HEAD := HEAD], map[HEAD := HEAD], map[], 1, [];
    }

    method Empty() returns (r: bool)
      requires Ok()
      ensures r == (list == [])
    {
      RingEnds(next, prev, HEAD, list);
      r := next[HEAD] == HEAD;
    }

    /** MAIN: the oldest snapshot has the smallest sequence number of all. */
    method Oldest() returns (s: nat)
      requires Ok() && list != []
      ensures s == list[0] && s in sequenceNumber
      ensures forall n | n in Numbers() :: sequenceNumber[s] <= n
    {
      RingEnds(next, prev, HEAD, list);
      s := next[HEAD];
      assert Numbers()[0] == sequenceNumber[s];
    }

    method Newest() returns (s: nat)
      requires Ok() && list != []
      ensures s == list[|list| - 1] && s in sequenceNumber
      ensures forall n | n in Numbers() :: n <= sequenceNumber[s]
    {
      RingEnds(next, prev, HEAD, list);
      s := prev[HEAD];
      assert Numbers()[|list| - 1] == sequenceNumber[s];
    }

    /** New, at the last sequence number, which never falls. */
    method New(number: nat) returns (s: nat)
      requires Ok() && forall n | n in Numbers() :: n <= number
      modifies this
      ensures Ok() && list == old(list) + [s] && s !in old(list)
      ensures s in sequenceNumber && sequenceNumber[s] == number && Numbers() == old(Numbers()) + [number]
    {
      s := unused;
      RingLink(next, prev, HEAD, list, s);
      RingEnds(next, prev, HEAD, list);
      ghost var numbers := Numbers();
      assert forall i | 0 <= i < |list| :: numbers[i] in numbers;
      unused := unused + 1;
      sequenceNumber := sequenceNumber[s := number];
      next := next[s := HEAD];
      prev := prev[s := prev[HEAD]];
      next := next[prev[s] := s];
      prev := prev[next[s] := s];
      list := list + [s];
      assert Numbers() == numbers + [number];
    }

    method Delete(s: nat)
      requires Ok() && s in list
      modifies this
      ensures Ok() && list == Drop(old(list), s)
      ensures forall x | x in list :: x in old(sequenceNumber) && sequenceNumber[x] == old(sequenceNumber)[x]
    {
      hide NumbersOf, Without;
      ghost var i := IndexOf(list, s);
      RingAt(next, prev, HEAD, list, i);
      RingUnlink(next, prev, HEAD, list, i);
      DropAscends(list, sequenceNumber, s);
      assert Drop(list, s) == Without(list, i);
      next := next[prev[s] := next[s]];
      prev := prev[next[s] := prev[s]];
      sequenceNumber := sequenceNumber - {s};
      list := Drop(list, s);
    }
  }
}
