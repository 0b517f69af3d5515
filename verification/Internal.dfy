/** The internal iterator of a database (DBImpl::NewInternalIterator): the memtables and the tables as one sorted run of
    internal entries. */
module InternalIterators {
  import opened Entries
  import opened Iterators
  import opened Merger

  class InternalIterator {
    const merged: MergingIterator
    ghost const entries: seq<Entry>
    ghost var at: Option<nat>

    ghost function Footprint(): set<object> {
      {this, merged} + set c | c in merged.children
    }

    /** The position is the cursor of the merging iterator. */
    ghost predicate Tracks()
      reads Footprint()
    {
      merged.Ok() && merged.Union() == entries && at == merged.Standing()
    }

    ghost predicate Ok()
      reads Footprint()
    {
      Sorted(entries) && (at.Some? ==> at.value < |entries|) && Tracks()
    }

    constructor (children: seq<RunIterator>)
      requires forall i | 0 <= i < |children| :: children[i].Ok()
      requires forall i, j | 0 <= i < j < |children| ::
        children[i] != children[j] && Apart(children[i].entries, children[j].entries)
      ensures Ok() && at == None && merged.children == children && fresh(merged)
      ensures entries == Merge(RunsOf(children))
    {
      merged := new MergingIterator(children);
      entries := Merge(RunsOf(children));
      at := None;
      new;
      assert merged.Runs() == RunsOf(children);
      MergeIs(merged.Runs());
    }

    predicate Valid()
      requires Ok()
      reads Footprint()
      ensures Valid() == at.Some?
    {
      merged.current.Some?
    }

    function Current(): (e: Entry)
      requires Ok() && Valid()
      reads Footprint()
      ensures e == entries[at.value]
    {
      merged.Current()
    }

    method Next()
      requires Ok() && Valid()
      modifies Footprint()
      ensures Ok() && at == if old(at).value + 1 < |entries| then Some(old(at).value + 1) else None
    {
      hide MergingIterator.Ok, Merge, Sorted;
      merged.Next();
      at := merged.Standing();
    }

    method Prev()
      requires Ok() && Valid()
      modifies Footprint()
      ensures Ok() && at == if old(at).value > 0 then Some(old(at).value - 1) else None
    {
      hide MergingIterator.Ok, Merge, Sorted;
      merged.Prev();
      at := merged.Standing();
    }

    method SeekToFirst()
      requires Ok()
      modifies Footprint()
      ensures Ok() && at == if entries != [] then Some(0) else None
    {
      hide MergingIterator.Ok, Merge, Sorted;
      merged.SeekToFirst();
      at := merged.Standing();
    }

    method SeekToLast()
      requires Ok()
      modifies Footprint()
      ensures Ok() && at == if entries != [] then Some(|entries| - 1) else None
    {
      hide MergingIterator.Ok, Merge, Sorted;
      merged.SeekToLast();
      at := merged.Standing();
    }

    /** Lands on the first entry at or after the target. */
    method Seek(target: IKey)
      requires Ok()
      modifies Footprint()
      ensures Ok()
      ensures forall j | 0 <= j < (if at.Some? then at.value else |entries|) :: Less(entries[j].key, target)
      ensures at.Some? ==> !Less(entries[at.value].key, target)
    {
      hide MergingIterator.Ok, Merge, Sorted, Less;
      merged.Seek(target);
      at := merged.Standing();
    }
  }

  function RunsOf(children: seq<RunIterator>): (r: seq<seq<Entry>>)
    ensures |r| == |children|
  {
    seq(|children|, i requires 0 <= i < |children| => children[i].entries)
  }
}
