/** Every foreground step keeps the invariant. */
module DatabaseSteps {
  import opened Entries
  import opened Files
  import opened Reads
  import opened Inputs
  import opened Compactions
  import opened Manifest
  import opened Installs
  import opened Database
  import opened DatabaseState

  /** The tables a version or a job needs are untouched. */
  ghost predicate TablesKept(disk: Disk, disk': Disk, e: Engine) {
    forall n | n in LiveTables(e) && n in disk.tables :: n in disk'.tables && disk'.tables[n] == disk.tables[n]
  }

  lemma BackgroundFrame(disk: Disk, disk': Disk, e: Engine, e': Engine)
    requires BackgroundInv(disk, e) && disk'.manifest == disk.manifest && TablesKept(disk, disk', e)
    requires e'.background == e.background && e'.version == e.version && e'.nextFile >= e.nextFile
    requires SmallestSnapshot(e') >= SmallestSnapshot(e)
    requires e.background.Flushing? && e.imm.Some? ==> e'.imm == e.imm
    ensures BackgroundInv(disk', e')
  {
    hide WellChosen, NothingExposed, Kept, Sorted, ValidFile, ValidFiles, FitsLevel, Concat;
  }

  lemma VersionFrame(disk: Disk, disk': Disk, e: Engine)
    requires VersionInv(disk, e.version) && disk'.manifest == disk.manifest && TablesKept(disk, disk', e)
    ensures VersionInv(disk', e.version)
  {
    hide ManifestInv, ReadableLevels, NumbersDistinct;
    forall l, f | 0 <= l < |e.version| && f in e.version[l]
      ensures f.number in disk'.tables && disk'.tables[f.number] == f.entries
    {
      assert e.version[l] in e.version;
      assert f.number in LiveTables(e);
    }
  }

  /** The live records of a running database, log by log. */
  lemma RunningRecords(disk: Disk, e: Engine)
    requires MemInv(disk, e)
    ensures LiveRecords(disk) == Records(disk.logs, e.logNumber, e.logFile) + disk.logs[e.logFile]
    ensures EntriesOf(LiveRecords(disk)) == ImmEntries(e) + e.mem + Pending(e.write)
  {
    LiveRecordsAre(disk, e.logFile);
    EntriesOfConcat(Records(disk.logs, e.logNumber, e.logFile), disk.logs[e.logFile]);
  }

  // ----- Commit -----

  lemma LogGroupKeeps(s: State, s': State, ops: seq<Op>)
    requires Inv(s) && LogGroup(s, s', ops)
    ensures Inv(s')
  {
    hide VersionInv, BackgroundInv, ReadsPreserved, SnapshotInv, CounterInv, MemInv, LogInv;
    var e, e' := s.engine.value, s'.engine.value;
    LoggedRecords(s, s', ops);
    LoggedCounters(s, s', ops);
    VersionFrame(s.disk, s'.disk, e);
    SnapshotSame(e, e');
    BackgroundFrame(s.disk, s'.disk, e, e');
  }

  lemma LoggedCounters(s: State, s': State, ops: seq<Op>)
    requires Inv(s) && LogGroup(s, s', ops)
    requires LiveRecords(s'.disk) == LiveRecords(s.disk) + [s'.engine.value.write.batch]
    ensures CounterInv(s'.disk, s'.engine.value, s'.history)
    ensures LogInv(s'.disk, s.engine.value.version, s'.history)
    ensures Settled(s'.disk, s'.history) == Settled(s.disk, s.history)
  {
    hide VersionInv, BackgroundInv, ReadsPreserved, SnapshotInv, MemInv, LogInv, LiveRecords, Unique;
    var e, b := s.engine.value, s'.engine.value.write.batch;
    MaxEndAppend(LiveRecords(s.disk), b, LastHeader(s.disk.manifest).value.lastSequence);
    LoggedLog(s.disk, s'.disk, e.version, s.history, e.lastSequence, b);
  }

  lemma SnapshotSame(e: Engine, e': Engine)
    requires SnapshotInv(e) && e'.snapshots == e.snapshots && e'.lastSequence >= e.lastSequence
    ensures SnapshotInv(e') && SmallestSnapshot(e') >= SmallestSnapshot(e)
  {
  }

  lemma LoggedRecords(s: State, s': State, ops: seq<Op>)
    requires LogGroup(s, s', ops) && MemInv(s.disk, s.engine.value)
    ensures MemInv(s'.disk, s'.engine.value)
    ensures LiveRecords(s'.disk) == LiveRecords(s.disk) + [s'.engine.value.write.batch]
    ensures EntriesOf(LiveRecords(s'.disk)) == EntriesOf(LiveRecords(s.disk)) + BatchEntries(s'.engine.value.write.batch)
  {
    var e, b := s.engine.value, s'.engine.value.write.batch;
    RunningRecords(s.disk, e);
    RecordsFrame(s.disk.logs, s'.disk.logs, e.logNumber, e.logFile);
    LiveRecordsAre(s'.disk, e.logFile);
    EntriesOfConcat(s.disk.logs[e.logFile], [b]);
    EntriesOfConcat(LiveRecords(s.disk), [b]);
    EntriesOfOne(b);
  }

  lemma LoggedLog(disk: Disk, disk': Disk, v: Levels, history: set<Entry>, lastSequence: nat, b: Batch)
    requires LogInv(disk, v, history) && disk'.manifest == disk.manifest
    requires LiveRecords(disk') == LiveRecords(disk) + [b] && b.sequence == lastSequence + 1
    requires forall r | r in LiveRecords(disk) :: End(r) <= b.sequence
    requires forall x | x in history :: x.key.sequence <= lastSequence
    ensures LogInv(disk', v, history + BatchEntries(b))
    ensures Settled(disk', history + BatchEntries(b)) == Settled(disk, history)
  {
    hide LiveRecords, Ascending;
    var records := LiveRecords(disk);
    EntriesOfConcat(records, [b]);
    EntriesOfOne(b);
    MaxEndAppend(records, b, LastHeader(disk.manifest).value.lastSequence);
    AppendUnique(history, b, lastSequence);
    AppendAscending(records, b);
    assert forall r | r in records + [b] :: r in records || r == b;
  }

  lemma AppendAscending(records: seq<Batch>, b: Batch)
    requires Ascending(records) && forall r | r in records :: End(r) <= b.sequence
    ensures Ascending(records + [b])
  {
    assert forall i | 0 <= i < |records| :: records[i] in records;
  }

  lemma AppendUnique(history: set<Entry>, b: Batch, lastSequence: nat)
    requires Unique(history) && b.sequence == lastSequence + 1 && forall x | x in history :: x.key.sequence <= lastSequence
    ensures Unique(history + BatchEntries(b))
    ensures forall x | x in BatchEntries(b) :: lastSequence < x.key.sequence < End(b)
  {
    forall x | x in BatchEntries(b)
      ensures lastSequence < x.key.sequence < End(b)
    {
      BatchBounds(b, x);
    }
    BatchUnique(b);
  }

  lemma ApplyGroupKeeps(s: State, s': State)
    requires Inv(s) && ApplyGroup(s, s')
    ensures Inv(s')
  {
    hide VersionInv, BackgroundInv, ReadsPreserved, SnapshotInv, LogInv;
    var e, e' := s.engine.value, s'.engine.value;
    SnapshotSame(e, e');
    BackgroundFrame(s.disk, s'.disk, e, e');
  }

  lemma CommitGroupKeeps(s: State, s': State)
    requires Inv(s) && CommitGroup(s, s')
    ensures Inv(s')
  {
    hide VersionInv, BackgroundInv, ReadsPreserved, LogInv, CounterInv, LiveRecords;
    var e, e' := s.engine.value, s'.engine.value;
    SnapshotSame(e, e');
    BackgroundFrame(s.disk, s'.disk, e, e');
    PreservedLater(Settled(s.disk, s.history), LevelEntries(e.version), SmallestSnapshot(e), SmallestSnapshot(e'));
    WriteIsLive(s.disk, e, s.history);
    CommittedCounters(s.disk, e, e', s.history);
  }

  lemma WriteIsLive(disk: Disk, e: Engine, history: set<Entry>)
    requires MemInv(disk, e) && CounterInv(disk, e, history) && e.write != NoWrite
    ensures e.write.batch in LiveRecords(disk)
  {
    hide LiveRecords;
    RunningRecords(disk, e);
  }

  lemma CommittedCounters(disk: Disk, e: Engine, e': Engine, history: set<Entry>)
    requires CounterInv(disk, e, history) && e.write.Applied? && e.write.batch in LiveRecords(disk)
    requires e' == e.(lastSequence := e.lastSequence + |e.write.batch.ops|, write := NoWrite)
    ensures CounterInv(disk, e', history)
  {
    hide LiveRecords;
    MaxEndBounds(LiveRecords(disk), LastHeader(disk.manifest).value.lastSequence);
    forall x | x in history
      ensures x.key.sequence <= e'.lastSequence
    {
      if x in BatchEntries(e.write.batch) {
        BatchBounds(e.write.batch, x);
      }
    }
  }

  lemma SwitchKeeps(s: State, s': State)
    requires Inv(s) && SwitchMemTable(s, s')
    ensures Inv(s')
  {
    hide VersionInv, BackgroundInv, ReadsPreserved;
    var e, e' := s.engine.value, s'.engine.value;
    SwitchedRecords(s, s');
    SnapshotSame(e, e');
    BackgroundFrame(s.disk, s'.disk, e, e');
    VersionFrame(s.disk, s'.disk, e);
  }

  lemma SwitchedRecords(s: State, s': State)
    requires SwitchMemTable(s, s') && MemInv(s.disk, s.engine.value) && CounterInv(s.disk, s.engine.value, s.history)
    ensures MemInv(s'.disk, s'.engine.value)
    ensures LiveRecords(s'.disk) == LiveRecords(s.disk)
  {
    hide LiveRecords, LastStored, BatchEntries, End;
    var e, e' := s.engine.value, s'.engine.value;
    var logs' := s'.disk.logs;
    RunningRecords(s.disk, e);
    LiveRecordsAre(s'.disk, e'.logFile);
    RecordsSplit(logs', e.logNumber, e.logFile + 1, e'.logFile);
    RecordsSkip(logs', e.logFile + 1, e.logFile + 1, e'.logFile);
    RecordsFrame(s.disk.logs, logs', e.logNumber, e.logFile);
    assert Records(logs', e.logNumber, e.logFile + 1) == Records(logs', e.logNumber, e.logFile) + logs'[e.logFile];
  }

  // ----- Snapshots -----

  lemma TakeSnapshotKeeps(s: State, s': State)
    requires Inv(s) && TakeSnapshot(s, s')
    ensures Inv(s')
  {
    hide VersionInv, BackgroundInv, ReadsPreserved, LogInv, MemInv;
    var e, e' := s.engine.value, s'.engine.value;
    BackgroundFrame(s.disk, s'.disk, e, e');
    assert MemInv(s'.disk, e') by {
      MemFrame(s.disk, e, e');
    }
  }

  lemma MemFrame(disk: Disk, e: Engine, e': Engine)
    requires MemInv(disk, e) && e'.mem == e.mem && e'.imm == e.imm && e'.write == e.write
    requires e'.logFile == e.logFile && e'.logNumber == e.logNumber
    ensures MemInv(disk, e')
  {
  }

  lemma ReleaseSnapshotKeeps(s: State, s': State, i: nat)
    requires Inv(s) && ReleaseSnapshot(s, s', i)
    ensures Inv(s')
  {
    hide VersionInv, BackgroundInv, ReadsPreserved, LogInv, MemInv;
    var e, e' := s.engine.value, s'.engine.value;
    assert MemInv(s'.disk, e') by {
      MemFrame(s.disk, e, e');
    }
    forall a | 0 <= a < |e'.snapshots|
      ensures e'.snapshots[a] == if a < i then e.snapshots[a] else e.snapshots[a + 1]
    {
    }
    BackgroundFrame(s.disk, s'.disk, e, e');
    PreservedLater(Settled(s.disk, s.history), LevelEntries(e.version), SmallestSnapshot(e), SmallestSnapshot(e'));
  }

  // ----- Files that are no longer needed -----

  lemma RemoveKeeps(s: State, s': State, tables: set<nat>, logs: set<nat>)
    requires Inv(s) && RemoveObsolete(s, s', tables, logs)
    ensures Inv(s')
  {
    hide VersionInv, BackgroundInv, ReadsPreserved;
    var e := s.engine.value;
    RemovedRecords(s, s', tables, logs);
    BackgroundFrame(s.disk, s'.disk, e, e);
    VersionFrame(s.disk, s'.disk, e);
  }

  lemma RemovedRecords(s: State, s': State, tables: set<nat>, logs: set<nat>)
    requires RemoveObsolete(s, s', tables, logs) && MemInv(s.disk, s.engine.value)
    ensures MemInv(s'.disk, s'.engine.value)
    ensures LiveRecords(s'.disk) == LiveRecords(s.disk)
  {
    var e := s.engine.value;
    RunningRecords(s.disk, e);
    LiveRecordsAre(s'.disk, e.logFile);
    RecordsFrame(s.disk.logs, s'.disk.logs, e.logNumber, e.logFile);
  }

  // ----- Crash -----

  /** Fronts of logs hold some of the records, in the same order. */
  lemma {:induction false} FrontRecords(left: map<nat, seq<Batch>>, logs: map<nat, seq<Batch>>, from: nat, to: nat)
    requires Fronts(left, logs) && Ascending(Records(logs, from, to))
    ensures Ascending(Records(left, from, to))
    ensures forall b | b in Records(left, from, to) :: b in Records(logs, from, to)
  {
    if from < to {
      var older := Records(logs, from, to - 1);
      var top := if to - 1 in logs then logs[to - 1] else [];
      SuffixFollows(older, top);
      FrontRecords(left, logs, from, to - 1);
      var older', top' := Records(left, from, to - 1), if to - 1 in logs then left[to - 1] else [];
      assert top' == top[..|top'|];
      FrontsAscend(older, top, older', top');
    }
  }

  lemma FrontsAscend(a: seq<Batch>, b: seq<Batch>, a': seq<Batch>, b': seq<Batch>)
    requires Ascending(a') && Ascending(b) && b' <= b && (forall x | x in a' :: x in a)
    requires forall x, y | x in a && y in b :: End(x) <= y.sequence
    ensures Ascending(a' + b') && forall x | x in b' :: x in b
  {
    var c := a' + b';
    forall i, j | 0 <= i < j < |c|
      ensures End(c[i]) <= c[j].sequence
    {
      if i < |a'| <= j {
        assert c[i] in a' && c[j] == b[j - |a'|];
      }
    }
  }

  /** What was settled stays; of the records, some. */
  lemma CrashedLog(disk: Disk, v: Levels, history: set<Entry>, left: map<nat, seq<Batch>>)
    requires LogInv(disk, v, history) && Fronts(left, disk.logs)
    ensures var disk', history' := disk.(logs := left), history - Lost(disk, left);
      LogInv(disk', v, history') && Settled(disk', history') == Settled(disk, history) &&
      EntriesOf(LiveRecords(disk')) <= EntriesOf(LiveRecords(disk))
  {
    hide Records, Ascending, Unique;
    var disk', history' := disk.(logs := left), history - Lost(disk, left);
    var header := LastHeader(disk.manifest).value;
    FrontRecords(left, disk.logs, header.logNumber, LogEnd(disk.logs.Keys));
    var records := LiveRecords(disk');
    assert forall b | b in records :: b in LiveRecords(disk);
    assert EntriesOf(records) <= EntriesOf(LiveRecords(disk));
    assert Settled(disk', history') == Settled(disk, history);
    SmallerUnique(history', history);
    MaxEndBounds(records, header.lastSequence);
    forall e | e in history'
      ensures e.key.sequence <= LastStored(disk')
    {
      if e in EntriesOf(records) {
        var b :| b in records && e in BatchEntries(b);
        BatchBounds(b, e);
      }
    }
  }

  /** A version serves the settled entries, whatever is left of the logs. */
  lemma CrashedStore(disk: Disk, v: Levels, history: set<Entry>, oldest: nat, left: map<nat, seq<Batch>>)
    requires StoredInv(disk, v, history, oldest) && Fronts(left, disk.logs)
    ensures var disk', history' := disk.(logs := left), history - Lost(disk, left);
      StoredInv(disk', v, history', LastStored(disk'))
  {
    hide ReadableLevels, NumbersDistinct, ReadsPreserved, Unique, LiveRecords, LogInv, IsVersionOf, NumberFixesFile;
    var disk', history' := disk.(logs := left), history - Lost(disk, left);
    CrashedLog(disk, v, history, left);
    SettledIsOld(disk, v, history);
    var settled, last := Settled(disk, history), LastHeader(disk.manifest).value.lastSequence;
    AllVisible(settled, LevelEntries(v), last, oldest);
    MaxEndBounds(LiveRecords(disk'), last);
    PreservedLater(settled, LevelEntries(v), last, LastStored(disk'));
  }

  lemma SettledIsOld(disk: Disk, v: Levels, history: set<Entry>)
    requires LogInv(disk, v, history)
    ensures var settled := Settled(disk, history);
      LevelEntries(v) <= settled && Unique(settled) &&
      forall e | e in settled :: e.key.sequence <= LastHeader(disk.manifest).value.lastSequence
  {
    hide LiveRecords;
  }

  lemma CrashKeeps(s: State, s': State, left: map<nat, seq<Batch>>)
    requires Inv(s) && Crash(s, s', left)
    ensures Inv(s')
  {
    hide VersionInv, ReadsPreserved, LogInv, LiveRecords, EngineInv;
    match s.engine
    case Some(e) =>
      CrashedStore(s.disk, e.version, s.history, SmallestSnapshot(e), left);
    case None =>
      var v :| StoredInv(s.disk, v, s.history, LastStored(s.disk));
      CrashedStore(s.disk, v, s.history, LastStored(s.disk), left);
  }
}
