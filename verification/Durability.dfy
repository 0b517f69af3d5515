/** What a crash leaves of a log file, from write groups down to bytes and back (DBImpl::Write and DBImpl::RecoverLogFile
    in db/db_impl.cc): the records of WriteQueue, as the bytes of WriteBatches, through Log, into a MemTable. */
module Durability {
  import opened Entries
  import D = Database
  import Q = WriteQueue
  import W = WriteBatches
  import M = MemTables
  import KeyOrder
  import Skiplist
  import Log
  import LogReader
  import Crc

  // ----- Groups as bytes -----

  /** What one log record says. */
  datatype Group = Group(sequence: nat, updates: seq<W.Update>)

  function OpFrom(u: W.Update): D.Op {
    match u
    case Put(key, value) => D.Op.Put(KeyOrder.Rank(key), value)
    case Delete(key) => D.Op.Delete(KeyOrder.Rank(key))
  }

  function BatchFrom(g: Group): D.Batch {
    D.Batch(g.sequence, seq(|g.updates|, i requires 0 <= i < |g.updates| => OpFrom(g.updates[i])))
  }

  function Batches(gs: seq<Group>): (r: seq<D.Batch>)
    ensures |r| == |gs|
  {
    seq(|gs|, i requires 0 <= i < |gs| => BatchFrom(gs[i]))
  }

  function Records(gs: seq<Group>): (r: seq<Bytes>)
    ensures |r| == |gs|
  {
    seq(|gs|, i requires 0 <= i < |gs| => W.BatchBytes(gs[i].sequence, gs[i].updates))
  }

  /** Every update, with its own sequence number. */
  function Added(gs: seq<Group>): seq<M.Added> {
    if gs == [] then [] else Added(gs[..|gs| - 1]) + W.AllAdded(gs[|gs| - 1].sequence, gs[|gs| - 1].updates)
  }

  /** Keys, values and numbers fit their fields; the count is a signed 32-bit integer. */
  predicate Storable(g: Group) {
    1 <= g.sequence <= MAX_SEQUENCE && |g.updates| < 0x8000_0000 &&
    forall a | a in W.AllAdded(g.sequence, g.updates) :: M.Short(a)
  }

  predicate Ascend(gs: seq<Group>) {
    forall i, j | 0 <= i < j < |gs| :: gs[i].sequence + |gs[i].updates| <= gs[j].sequence
  }

  /** The additions of an update are the entry of its operation. */
  lemma AddedIsEntry(sequence: nat, u: W.Update)
    ensures M.EntryOf(W.AddedFor(sequence, u)) == D.EntryOf(OpFrom(u), sequence)
  {
    hide KeyOrder.Rank;
  }

  lemma GroupAdds(g: Group)
    ensures M.EntriesOf(W.AllAdded(g.sequence, g.updates)) == D.BatchEntries(BatchFrom(g))
  {
    hide M.EntryOf, W.AddedFor, D.EntryOf, OpFrom;
    var added, b := W.AllAdded(g.sequence, g.updates), BatchFrom(g);
    forall i | 0 <= i < |g.updates|
      ensures M.EntryOf(added[i]) == D.EntryOf(b.ops[i], b.sequence + i)
    {
      AddedIsEntry(g.sequence + i, g.updates[i]);
    }
    forall e | e in M.EntriesOf(added)
      ensures e in D.BatchEntries(b)
    {
      var i :| 0 <= i < |added| && e == M.EntryOf(added[i]);
      assert e == D.EntryOf(b.ops[i], b.sequence + i);
    }
    forall e | e in D.BatchEntries(b)
      ensures e in M.EntriesOf(added)
    {
      var i :| 0 <= i < |b.ops| && e == D.EntryOf(b.ops[i], b.sequence + i);
      assert e == M.EntryOf(added[i]);
    }
  }

  lemma EntriesConcat(a: seq<M.Added>, b: seq<M.Added>)
    ensures M.EntriesOf(a + b) == M.EntriesOf(a) + M.EntriesOf(b)
  {
    hide M.EntryOf;
    forall i | 0 <= i < |b|
      ensures M.EntryOf(b[i]) in M.EntriesOf(a + b)
    {
      assert (a + b)[|a| + i] == b[i];
    }
    forall i | 0 <= i < |a|
      ensures M.EntryOf(a[i]) in M.EntriesOf(a + b)
    {
      assert (a + b)[i] == a[i];
    }
  }

  lemma BatchesConcat(a: seq<D.Batch>, b: D.Batch)
    ensures D.EntriesOf(a + [b]) == D.EntriesOf(a) + D.BatchEntries(b)
  {
    hide D.BatchEntries;
    assert b in a + [b];
  }

  /** The memtable replayed from the groups holds the entries of their batches. */
  lemma {:induction false} AddedAreEntries(gs: seq<Group>)
    ensures M.EntriesOf(Added(gs)) == D.EntriesOf(Batches(gs))
  {
    hide M.EntriesOf, D.BatchEntries, D.EntriesOf, BatchFrom;
    if gs == [] {
      NothingAdded();
    } else {
      var front, g := gs[..|gs| - 1], gs[|gs| - 1];
      AddedAreEntries(front);
      GroupAdds(g);
      EntriesConcat(Added(front), W.AllAdded(g.sequence, g.updates));
      BatchesConcat(Batches(front), BatchFrom(g));
      assert Batches(gs) == Batches(front) + [BatchFrom(g)];
    }
  }

  lemma NothingAdded()
    ensures M.EntriesOf([]) == {} && D.EntriesOf([]) == {}
  {
  }

  // ----- Replaying a log -----

  ghost predicate Drawn(heights: seq<nat>, updates: seq<W.Update>) {
    |heights| == |updates| && forall h | h in heights :: 1 <= h <= Skiplist.MAX_HEIGHT
  }

  /** The loop of RecoverLogFile, as long as the memtable is not full: every record of the log goes into it, and the last
      sequence number is raised. `heights` are those the skip list draws. */
  method RecoverLogFile(records: seq<Bytes>, mem: M.MemTable, low: nat, heights: seq<seq<nat>>, ghost gs: seq<Group>)
    returns (last: nat)
    requires records == Records(gs) && Ascend(gs) && forall g | g in gs :: Storable(g)
    requires |gs| <= |heights| && forall i | 0 <= i < |gs| :: Drawn(heights[i], gs[i].updates)
    requires mem.Ok() && mem.added == []
    modifies mem, mem.table
    ensures mem.Ok() && mem.added == Added(gs)
    ensures last == D.MaxEnd(Batches(gs), low)
  {
    hide M.MemTable.Ok, W.BatchBytes, W.WriteBatch.Ok, M.Short, W.AllAdded, D.MaxEnd, Added, D.End;
    last := low;
    Replayed(gs, 0, low);
    for i := 0 to |records|
      invariant mem.Ok() && mem.added == Added(gs[..i])
      invariant last == D.MaxEnd(Batches(gs[..i]), low)
    {
      ghost var g := gs[i];
      assert g in gs && Storable(g);
      var batch := new W.WriteBatch();
      batch.SetContents(records[i], g.sequence, g.updates);
      AddedBefore(gs, i, g.sequence);
      var ok := W.InsertInto(batch, mem, heights[i]);
      Replayed(gs, i + 1, low);
      var end := batch.Sequence() + batch.Count() - 1;
      if end > last {
        last := end;
      }
    }
    assert gs[..|records|] == gs;
  }

  /** One more group. */
  lemma Replayed(gs: seq<Group>, i: nat, low: nat)
    requires i <= |gs|
    ensures i == 0 ==> Added(gs[..i]) == [] && D.MaxEnd(Batches(gs[..i]), low) == low
    ensures i > 0 ==>
      Added(gs[..i]) == Added(gs[..i - 1]) + W.AllAdded(gs[i - 1].sequence, gs[i - 1].updates) &&
      var end, before := gs[i - 1].sequence + |gs[i - 1].updates| - 1, D.MaxEnd(Batches(gs[..i - 1]), low);
      D.MaxEnd(Batches(gs[..i]), low) == if end > before then end else before
  {
    hide W.AllAdded, OpFrom;
    if i > 0 {
      var front := gs[..i];
      assert front[..|front| - 1] == gs[..i - 1];
      assert Batches(front)[..|front| - 1] == Batches(gs[..i - 1]);
    }
  }

  /** The sequence numbers of the groups before lie below that of the next. */
  lemma {:induction false} AddedBefore(gs: seq<Group>, i: nat, n: nat)
    requires i <= |gs| && forall j | 0 <= j < i :: gs[j].sequence + |gs[j].updates| <= n
    ensures W.Older(Added(gs[..i]), n)
  {
    if i > 0 {
      AddedBefore(gs, i - 1, n);
      Replayed(gs, i, 0);
      var g := gs[i - 1];
      assert W.Older(W.AllAdded(g.sequence, g.updates), n);
    }
  }

  // ----- What survives -----

  /** The groups are those of the log records from `from` on: one log file. */
  ghost predicate InFile(s: Q.State, from: nat, gs: seq<Group>) {
    from + |gs| <= |s.log| && (forall g | g in gs :: Storable(g)) &&
    forall i | 0 <= i < |gs| :: BatchFrom(gs[i]) == s.log[from + i].batch
  }

  /** Where record i of the file ends. */
  ghost function EndOfRecord(t: Crc.Tables, gs: seq<Group>, i: nat): nat
    requires i < |gs|
  {
    |Log.LogBytes(t, 0, Records(gs[..i + 1]))|
  }

  /** A crash may cut the file anywhere behind its last synced record. */
  ghost predicate KeepsSynced(t: Crc.Tables, s: Q.State, from: nat, gs: seq<Group>, cut: nat)
    requires from + |gs| <= |s.log|
  {
    forall i | 0 <= i < |gs| && s.log[from + i].synced :: EndOfRecord(t, gs, i) <= cut
  }

  /** Arrival k was told OK, asked for a sync, and is in log record i. */
  ghost predicate SyncedWrite(s: Q.State, k: nat, i: nat) {
    i < |s.log| && s.log[i].from <= k < s.log[i].upto <= |s.arrived| && k < |s.outcomes| && s.outcomes[k] &&
    s.arrived[k].sync && s.arrived[k].batch.Some?
  }

  /** Every update of arrival k is there, with the sequence number it was given in record i. */
  ghost predicate HoldsWrite(s: Q.State, k: nat, i: nat, entries: set<Entry>)
    requires i < |s.log| && s.log[i].from <= k < s.log[i].upto <= |s.arrived|
  {
    forall x | 0 <= x < |Q.OpsOf(s.arrived[k])| ::
      D.EntryOf(Q.OpsOf(s.arrived[k])[x], Q.SequenceOf(s.arrived, s.log[i], k) + x) in entries
  }

  lemma {:induction false} LogGrows(t: Crc.Tables, records: seq<Bytes>, a: nat, b: nat)
    requires a <= b <= |records|
    ensures |Log.LogBytes(t, 0, records[..a])| <= |Log.LogBytes(t, 0, records[..b])|
  {
    hide Log.LogBytes, Log.RecordBytes;
    if a < b {
      LogGrows(t, records, a, b - 1);
      assert records[..b] == records[..b - 1] + [records[b - 1]];
      Log.LogAppend(t, 0, records[..b - 1], records[b - 1]);
    }
  }

  /** A synced record is among those read back. */
  lemma SyncedIsComplete(t: Crc.Tables, s: Q.State, from: nat, gs: seq<Group>, cut: nat, i: nat)
    requires from + |gs| <= |s.log| && KeepsSynced(t, s, from, gs, cut) && i < |gs| && s.log[from + i].synced
    ensures i < Log.Complete(t, 0, Records(gs), cut)
  {
    hide Log.LogBytes, Log.Complete;
    assert EndOfRecord(t, gs, i) <= cut;
    var m := Log.Complete(t, 0, Records(gs), cut);
    Log.CompleteIs(t, 0, Records(gs), cut);
    assert Records(gs[..i + 1]) == Records(gs)[..i + 1];
    if m <= i {
      LogGrows(t, Records(gs), m + 1, i + 1);
    }
  }

  /** MAIN: in any run of the write queue, and wherever a crash cuts the log file behind its last synced record, the
      records that are read back hold every write that asked for a sync and was told OK, whole and with its own sequence
      numbers. */
  lemma SyncedWritesSurvive(t: Crc.Tables, states: seq<Q.State>, steps: seq<Q.Step>, n: nat, from: nat, gs: seq<Group>,
                            cut: nat, k: nat, i: nat)
    requires Q.Run(states, steps) && n < |states| && InFile(states[n], from, gs)
    requires KeepsSynced(t, states[n], from, gs, cut)
    requires SyncedWrite(states[n], k, i) && from <= i < from + |gs|
    ensures HoldsWrite(states[n], k, i, D.EntriesOf(Batches(gs[..Log.Complete(t, 0, Records(gs), cut)])))
  {
    hide Log.Complete, Log.LogBytes, Q.Merged, Q.Init, Q.Next, D.BatchEntries, Storable;
    var s := states[n];
    var j := Q.OkIsCommitted(states, steps, n, k);
    Q.LoggedOnceInOrder(states, steps, n, i, j, k, k);
    SyncedIsComplete(t, s, from, gs, cut, i - from);
    var kept := Batches(gs[..Log.Complete(t, 0, Records(gs), cut)]);
    assert kept[i - from] == s.log[i].batch;
    assert s.log[i].batch in kept;
  }

  /** The records of a run follow one another. */
  lemma GroupsAscend(states: seq<Q.State>, steps: seq<Q.Step>, n: nat, from: nat, gs: seq<Group>)
    requires Q.Run(states, steps) && n < |states| && InFile(states[n], from, gs)
    ensures Ascend(gs)
  {
    hide Q.Merged, Q.Init, Q.Next, Storable, OpFrom;
    Q.RunKeeps(states, steps, n);
    forall i, j | 0 <= i < j < |gs|
      ensures gs[i].sequence + |gs[i].updates| <= gs[j].sequence
    {
      assert D.End(BatchFrom(gs[i])) <= BatchFrom(gs[j]).sequence;
    }
  }

  /** MAIN: from a run of the write queue through the bytes of a log file, a crash and RecoverLogFile: the memtable holds
      the first m records and nothing of the others, nothing is reported as corrupt, and every write that asked for a sync
      and was told OK is there. */
  method CrashAndRecover(t: Crc.Tables, ghost states: seq<Q.State>, ghost steps: seq<Q.Step>, ghost n: nat, ghost from: nat,
                         gs: seq<Group>, cut: nat, low: nat, heights: seq<seq<nat>>)
    returns (mem: M.MemTable, last: nat, drops: nat, ghost m: nat)
    requires Q.Run(states, steps) && n < |states| && InFile(states[n], from, gs)
    requires KeepsSynced(t, states[n], from, gs, cut)
    requires |gs| <= |heights| && forall i | 0 <= i < |gs| :: Drawn(heights[i], gs[i].updates)
    ensures m == Log.Complete(t, 0, Records(gs), cut) && fresh(mem) && mem.Ok() && drops == 0
    ensures M.EntriesOf(mem.added) == D.EntriesOf(Batches(gs[..m])) && last == D.MaxEnd(Batches(gs[..m]), low)
    ensures forall k, i | from <= i < from + |gs| && SyncedWrite(states[n], k, i) ::
      HoldsWrite(states[n], k, i, M.EntriesOf(mem.added))
  {
    hide Q.Run, Log.Complete, Log.LogBytes, M.MemTable.Ok, Storable, HoldsWrite, KeepsSynced, D.MaxEnd,
      D.EntriesOf, M.EntriesOf, Added, Drawn, W.BatchBytes;
    var records;
    records, drops := LogReader.WriteCrashRead(t, Records(gs), cut);
    m := |records|;
    assert records == Records(gs[..m]);
    GroupsAscend(states, steps, n, from, gs);
    mem := new M.MemTable();
    last := RecoverLogFile(records, mem, low, heights, gs[..m]);
    AddedAreEntries(gs[..m]);
    forall k, i | from <= i < from + |gs| && SyncedWrite(states[n], k, i)
      ensures HoldsWrite(states[n], k, i, M.EntriesOf(mem.added))
    {
      SyncedWritesSurvive(t, states, steps, n, from, gs, cut, k, i);
    }
  }
}
