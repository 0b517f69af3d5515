/** The iterator interface every layer implements (include/leveldb/iterator.h), over one sorted run. There is a
    single invalid state: an exhausted iterator does not know at which end it fell off. */
module Iterators {
  import opened Entries
  import Reads

  /** The calls of a client. */
  datatype Call<K> = First | Last | To(target: K) | Forth | Back

  class RunIterator {
    const entries: seq<Entry>
    var at: Option<nat>

    ghost predicate Ok()
      reads this
    {
      Sorted(entries) && (at.Some? ==> at.value < |entries|)
    }

    predicate Valid()
      reads this
    {
      at.Some?
    }

    function Current(): Entry
      requires Ok() && Valid()
      reads this
    {
      entries[at.value]
    }

    constructor (es: seq<Entry>)
      requires Sorted(es)
      ensures Ok() && entries == es && !Valid()
    {
      entries, at := es, None;
    }

    method Next()
      requires Ok() && Valid()
      modifies this
      ensures Ok() && at == if old(at).value + 1 < |entries| then Some(old(at).value + 1) else None
    {
      at := if at.value + 1 < |entries| then Some(at.value + 1) else None;
    }

    method Prev()
      requires Ok() && Valid()
      modifies this
      ensures Ok() && at == if old(at).value > 0 then Some(old(at).value - 1) else None
    {
      at := if at.value > 0 then Some(at.value - 1) else None;
    }

    method SeekToFirst()
      requires Ok()
      modifies this
      ensures Ok() && at == if entries != [] then Some(0) else None
    {
      at := if entries != [] then Some(0) else None;
    }

    method SeekToLast()
      requires Ok()
      modifies this
      ensures Ok() && at == if entries != [] then Some(|entries| - 1) else None
    {
      at := if entries != [] then Some(|entries| - 1) else None;
    }

    /** Lands on the first entry at or after the target. */
    method Seek(target: IKey)
      requires Ok()
      modifies this
      ensures Ok()
      ensures forall j | 0 <= j < (if Valid() then at.value else |entries|) :: Less(entries[j].key, target)
      ensures Valid() ==> !Less(Current().key, target)
    {
      var i := Reads.Seek(entries, target);
      at := if i < |entries| then Some(i) else None;
    }
  }

  // ----- The reference -----

  /** A cursor in a sorted run. Forth and Back are only called on a valid iterator. */
  predicate CursorMoves(es: seq<Entry>, from: Option<nat>, call: Call<IKey>, to: Option<nat>) {
    (to.Some? ==> to.value < |es|) &&
    match call
    case First => to == if es == [] then None else Some(0)
    case Last => to == if es == [] then None else Some(|es| - 1)
    case To(target) =>
      (to.Some? ==> !Less(es[to.value].key, target)) &&
      forall c | 0 <= c < |es| && (to.Some? ==> c < to.value) :: Less(es[c].key, target)
    case Forth => to == if from.Some? && from.value + 1 < |es| then Some(from.value + 1) else None
    case Back => to == if from.Some? && from.value > 0 then Some(from.value - 1) else None
  }

  function EntryAt(es: seq<Entry>, at: Option<nat>): Option<Entry> {
    if at.Some? && at.value < |es| then Some(es[at.value]) else None
  }
}
