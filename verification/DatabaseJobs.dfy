/** Every background step keeps the invariant: flushes, compactions and trivial moves. */
module DatabaseJobs {
  import opened Entries
  import opened Files
  import opened Reads
  import opened Inputs
  import opened Compactions
  import opened Manifest
  import opened Installs
  import opened Database
  import opened DatabaseState
  import opened DatabaseSteps

  // ----- Starting a job: new tables under fresh numbers -----

  /** A number at or above the recorded counter is no live table's. */
  lemma FreshIsNotLive(disk: Disk, e: Engine, n: nat)
    requires ManifestInv(disk.manifest, e.version) && e.background == Resting
    requires LastHeader(disk.manifest).value.nextFile <= n
    ensures n !in LiveTables(e)
  {
    hide ManifestInv;
    assert |e.version| == NUM_LEVELS by {
      VersionShape(disk.manifest, e.version);
    }
    if n in LiveTables(e) {
      var fs, f :| fs in e.version && f in fs && f.number == n;
      var l :| 0 <= l < NUM_LEVELS && e.version[l] == fs;
      VersionIsNamed(disk.manifest, e.version, l, f);
    }
  }

  lemma VersionShape(manifest: seq<Record>, v: Levels)
    requires ManifestInv(manifest, v)
    ensures |v| == NUM_LEVELS && forall l | 0 <= l < NUM_LEVELS :: Ordered(v[l])
  {
  }

  lemma StartFlushKeeps(s: State, s': State, es: seq<Entry>, size: nat, target: nat)
    requires Inv(s) && StartFlush(s, s', es, size, target)
    ensures Inv(s')
  {
    hide ManifestInv, ReadableLevels, NumbersDistinct, LogInv, ReadsPreserved, MemInv, CounterInv, BackgroundInv, FitsLevel;
    var e, e' := s.engine.value, s'.engine.value;
    CounterHas(s.disk, e, s.history);
    FlushStarts(s, s', es, size, target);
    FreshIsNotLive(s.disk, e, e.nextFile);
    VersionFrame(s.disk, s'.disk, e);
    MemFrameDisk(s.disk, s'.disk, e, e');
    LogFrame(s.disk, s'.disk, e.version, s.history);
    CounterFrame(s.disk, s'.disk, e, e', s.history);
  }

  lemma FlushStarts(s: State, s': State, es: seq<Entry>, size: nat, target: nat)
    requires StartFlush(s, s', es, size, target) && BackgroundInv(s.disk, s.engine.value)
    requires LastHeader(s.disk.manifest).value.nextFile <= s.engine.value.nextFile
    ensures BackgroundInv(s'.disk, s'.engine.value)
  {
    hide FitsLevel, Less;
    assert es == [] ==> s.engine.value.imm.value == {};
  }

  lemma CounterHas(disk: Disk, e: Engine, history: set<Entry>)
    requires CounterInv(disk, e, history)
    ensures LastHeader(disk.manifest).Some? && LastHeader(disk.manifest).value.nextFile <= e.nextFile
  {
  }

  lemma CounterFrame(disk: Disk, disk': Disk, e: Engine, e': Engine, history: set<Entry>)
    requires CounterInv(disk, e, history) && disk'.manifest == disk.manifest && disk'.logs == disk.logs
    requires e'.write == e.write && e'.logFile == e.logFile && e'.lastSequence == e.lastSequence && e.nextFile <= e'.nextFile
    ensures CounterInv(disk', e', history)
  {
  }

  lemma MemFrameDisk(disk: Disk, disk': Disk, e: Engine, e': Engine)
    requires MemInv(disk, e) && disk'.manifest == disk.manifest && disk'.logs == disk.logs
    requires e'.mem == e.mem && e'.imm == e.imm && e'.write == e.write
    requires e'.logFile == e.logFile && e'.logNumber == e.logNumber
    ensures MemInv(disk', e')
  {
  }

  lemma LogFrame(disk: Disk, disk': Disk, v: Levels, history: set<Entry>)
    requires LogInv(disk, v, history) && disk'.manifest == disk.manifest && disk'.logs == disk.logs
    ensures LogInv(disk', v, history) && LiveRecords(disk') == LiveRecords(disk)
  {
  }

  lemma {:induction false} WithTablesKeeps(tables: map<nat, seq<Entry>>, files: seq<File>)
    ensures forall n | n in tables && (forall f | f in files :: f.number != n) ::
      n in WithTables(tables, files) && WithTables(tables, files)[n] == tables[n]
  {
    if files != [] {
      WithTablesKeeps(tables, files[..|files| - 1]);
    }
  }

  lemma {:induction false} WithTablesAdds(tables: map<nat, seq<Entry>>, files: seq<File>)
    requires forall i, j | 0 <= i < j < |files| :: files[i].number != files[j].number
    ensures forall f | f in files :: f.number in WithTables(tables, files) && WithTables(tables, files)[f.number] == f.entries
  {
    if files != [] {
      var init, last := files[..|files| - 1], files[|files| - 1];
      LastIsNew(files);
      WithTablesAdds(tables, init);
      assert files == init + [last];
    }
  }

  lemma WithTablesAre(tables: map<nat, seq<Entry>>, files: seq<File>)
    ensures forall n | n in tables && (forall f | f in files :: f.number != n) ::
      n in WithTables(tables, files) && WithTables(tables, files)[n] == tables[n]
    ensures (forall i, j | 0 <= i < j < |files| :: files[i].number != files[j].number) ==>
      forall f | f in files :: f.number in WithTables(tables, files) && WithTables(tables, files)[f.number] == f.entries
  {
    hide WithTables;
    WithTablesKeeps(tables, files);
    if forall i, j | 0 <= i < j < |files| :: files[i].number != files[j].number {
      WithTablesAdds(tables, files);
    }
  }

  lemma LastIsNew(files: seq<File>)
    requires files != [] && forall i, j | 0 <= i < j < |files| :: files[i].number != files[j].number
    ensures var init := files[..|files| - 1];
      (forall f | f in init :: f.number != files[|files| - 1].number) &&
      forall i, j | 0 <= i < j < |init| :: init[i].number != init[j].number
  {
  }

  lemma StartCompactionKeeps(s: State, s': State, level: nat, c: CompactionInputs, input: seq<Entry>,
      outputs: seq<File>)
    requires Inv(s) && StartCompaction(s, s', level, c, input, outputs)
    ensures Inv(s')
  {
    hide ManifestInv, ReadableLevels, NumbersDistinct, LogInv, ReadsPreserved, MemInv, WellChosen, NothingExposed,
      Kept, Sorted, ValidFiles, WithTables;
    var e, e' := s.engine.value, s'.engine.value;
    WithTablesAre(s.disk.tables, outputs);
    forall f | f in outputs
      ensures FreshTable(s'.disk, e', f) && f.number !in LiveTables(e)
    {
      FreshIsNotLive(s.disk, e, f.number);
    }
    VersionFrame(s.disk, s'.disk, e);
    MemFrameDisk(s.disk, s'.disk, e, e');
    LogFrame(s.disk, s'.disk, e.version, s.history);
  }

  // ----- Installing a flush -----

  lemma UnchangedLevel(fs: seq<File>, fs': seq<File>)
    requires Ordered(fs) && Ordered(fs') && FileSet(fs') == FileSet(fs)
    ensures fs' == fs
  {
    OrderedIsUnique(fs, fs');
  }

  lemma FlushedLevels(v: Levels, v': Levels, f: File, target: nat)
    requires Applies(FlushEdit(Some(f), target), v, v') && target < NUM_LEVELS
    requires forall l | 0 <= l < NUM_LEVELS :: Ordered(v[l])
    ensures forall l | 0 <= l < NUM_LEVELS && l != target :: v'[l] == v[l]
    ensures Edited(v[target], v'[target], {}, {f})
  {
    hide Ordered;
    var edit := FlushEdit(Some(f), target);
    assert edit.added[0] == (target, f);
    forall l | 0 <= l < NUM_LEVELS
      ensures FileSet(v'[l]) == FileSet(v[l]) + if l == target then {f} else {}
    {
      OneEdit(edit, l);
      assert DeletedAt(edit, l) == {};
      assert AddedAt(edit, l) == if l == target then {f} else {};
    }
    forall l | 0 <= l < NUM_LEVELS && l != target
      ensures v'[l] == v[l]
    {
      UnchangedLevel(v[l], v'[l]);
    }
  }

  lemma NothingFlushed(v: Levels, v': Levels, target: nat)
    requires Applies(FlushEdit(None, target), v, v') && forall l | 0 <= l < NUM_LEVELS :: Ordered(v[l])
    ensures v' == v
  {
    hide Ordered;
    var edit := FlushEdit(None, target);
    forall l | 0 <= l < NUM_LEVELS
      ensures v'[l] == v[l]
    {
      OneEdit(edit, l);
      assert DeletedAt(edit, l) == {} && AddedAt(edit, l) == {};
      UnchangedLevel(v[l], v'[l]);
    }
  }

  /** One more file under a number no other file has. */
  lemma OneMoreNumber(v: Levels, v': Levels, f: File, target: nat)
    requires |v| == |v'| == NUM_LEVELS && target < NUM_LEVELS && NumbersDistinct(v)
    requires forall l | 0 <= l < NUM_LEVELS && l != target :: v'[l] == v[l]
    requires Edited(v[target], v'[target], {}, {f})
    requires forall l, g | 0 <= l < NUM_LEVELS && g in v[l] :: g.number != f.number
    ensures NumbersDistinct(v')
    ensures forall l, g | 0 <= l < NUM_LEVELS && g in v'[l] :: g in v[l] || (l == target && g == f)
  {
    hide Ordered;
    forall l, g | 0 <= l < NUM_LEVELS && g in v'[l]
      ensures g in v[l] || (l == target && g == f)
    {
      assert g in FileSet(v'[l]);
    }
  }

  lemma DistinctNumbers(v: Levels, l: nat)
    requires l < |v| && NumbersDistinct(v) && Ordered(v[l])
    ensures forall i, j | 0 <= i < j < |v[l]| :: v[l][i].number != v[l][j].number
  {
    hide Before;
    forall i, j | 0 <= i < j < |v[l]|
      ensures v[l][i].number != v[l][j].number
    {
      BeforeIsOrder(v[l][i], v[l][i], v[l][i]);
      assert v[l][i] in v[l] && v[l][j] in v[l];
    }
  }

  /** The version after a flush, and what it holds. */
  lemma FlushedVersion(disk: Disk, e: Engine, f: File, target: nat, v': Levels, upper: set<Entry>)
    requires VersionInv(disk, e.version) && Applies(FlushEdit(Some(f), target), e.version, v')
    requires ValidFile(f) && FreshTable(disk, e, f) && FitsLevel(e.version, target, f) && target < NUM_LEVELS
    requires Elements(f.entries) == upper && NewerThan(upper, LevelEntries(e.version))
    requires LastHeader(disk.manifest).value.nextFile <= e.nextFile
    ensures ReadableLevels(v') && NumbersDistinct(v') && Intact(v', disk.tables)
    ensures LevelEntries(v') == LevelEntries(e.version) + upper
  {
    hide ManifestInv, ReadableLevels, Ordered, ValidFile, FitsLevel, NewerThan;
    VersionShape(disk.manifest, e.version);
    FlushedLevels(e.version, v', f, target);
    forall l, g | 0 <= l < NUM_LEVELS && g in e.version[l]
      ensures g.number < f.number
    {
      VersionIsNamed(disk.manifest, e.version, l, g);
    }
    OneMoreNumber(e.version, v', f, target);
    DistinctNumbers(v', 0);
    FlushKeepsReadable(e.version, v', target, f);
  }

  lemma FlushedManifest(disk: Disk, e: Engine, file: Option<File>, target: nat, v': Levels)
    requires ManifestInv(disk.manifest, e.version) && Applies(FlushEdit(file, target), e.version, v') && target < NUM_LEVELS
    requires file.Some? ==> FreshTable(disk, e, file.value)
    requires LastHeader(disk.manifest).value.nextFile <= e.nextFile && e.logFile < e.nextFile
    ensures var r := RecordNow(e, FlushEdit(file, target), e.logFile);
      ManifestInv(disk.manifest + [r], v') && LastHeader(disk.manifest + [r]) == r.header
  {
    hide Ordered, IsVersionOf, Applies;
    var edit := FlushEdit(file, target);
    assert NamedBy(edit) == if file.Some? then {file.value} else {} by {
      assert file.Some? ==> edit.added[0] == (target, file.value);
    }
    AppendRecord(disk.manifest, e.version, v', RecordNow(e, edit, e.logFile));
  }

  lemma InstallFlushKeeps(s: State, s': State, v': Levels)
    requires Inv(s) && InstallFlush(s, s', v')
    ensures Inv(s')
  {
    hide VersionInv, ReadsPreserved, SnapshotInv, CounterInv, MemInv, LogInv, ReadableLevels, ManifestInv,
      LiveRecords, ValidFile, FitsLevel, NewerThan;
    var e, e' := s.engine.value, s'.engine.value;
    FlushInputs(s.disk, e, s.history);
    FlushedDisk(s, s', v');
    FlushedLogs(s, s', v');
    SnapshotSame(e, e');
    FlushedReads(s, s', v');
  }

  /** What memory holds is newer than the version. */
  lemma FlushInputs(disk: Disk, e: Engine, history: set<Entry>)
    requires LogInv(disk, e.version, history) && MemInv(disk, e)
    ensures NewerThan(ImmEntries(e), LevelEntries(e.version)) && NewerThan(e.mem, LevelEntries(e.version))
    ensures NewerThan(EntriesOf(LiveRecords(disk)), LevelEntries(e.version))
  {
    hide LiveRecords, Unique, Ascending;
    RunningRecords(disk, e);
    forall x, y | x in EntriesOf(LiveRecords(disk)) && y in LevelEntries(e.version)
      ensures x.key.sequence > y.key.sequence
    {
      var b :| b in LiveRecords(disk) && x in BatchEntries(b);
      BatchBounds(b, x);
    }
  }

  lemma FlushedDisk(s: State, s': State, v': Levels)
    requires Inv(s) && InstallFlush(s, s', v')
    ensures VersionInv(s'.disk, v') && LevelEntries(v') == LevelEntries(s.engine.value.version) + ImmEntries(s.engine.value)
    ensures LastHeader(s'.disk.manifest) == Some(Header(s.engine.value.logFile, s.engine.value.nextFile, s.engine.value.lastSequence))
  {
    hide ReadsPreserved, SnapshotInv, MemInv, LogInv, ReadableLevels, ManifestInv, LiveRecords, ValidFile, FitsLevel, NewerThan;
    var e := s.engine.value;
    var file, target := e.background.file, e.background.target;
    FlushInputs(s.disk, e, s.history);
    FlushedManifest(s.disk, e, file, target, v');
    if file.Some? {
      FlushedVersion(s.disk, e, file.value, target, v', ImmEntries(e));
    } else {
      VersionShape(s.disk.manifest, e.version);
      NothingFlushed(e.version, v', target);
    }
  }

  lemma FlushedRecords(s: State, s': State, v': Levels)
    requires InstallFlush(s, s', v') && MemInv(s.disk, s.engine.value)
    requires LastHeader(s'.disk.manifest).Some? && LastHeader(s'.disk.manifest).value.logNumber == s.engine.value.logFile
    ensures LiveRecords(s'.disk) == s.disk.logs[s.engine.value.logFile]
    ensures LiveRecords(s.disk) == Records(s.disk.logs, s.engine.value.logNumber, s.engine.value.logFile) + LiveRecords(s'.disk)
    ensures MemInv(s'.disk, s'.engine.value)
  {
    var e := s.engine.value;
    RunningRecords(s.disk, e);
    LiveRecordsAre(s'.disk, e.logFile);
  }

  /** What moves from the live logs to the version settles. */
  lemma MovesOver(history: set<Entry>, settled: set<Entry>, moved: seq<Batch>, left: seq<Batch>)
    requires Unique(history) && Ascending(moved + left) && EntriesOf(moved + left) <= history
    requires settled == history - EntriesOf(moved + left)
    requires forall b, e | b in moved + left && e in settled :: e.key.sequence < b.sequence
    ensures history - EntriesOf(left) == settled + EntriesOf(moved) && Unique(settled + EntriesOf(moved))
    ensures forall b, e | b in EntriesOf(moved) && e in settled :: e.key.sequence < b.key.sequence
    ensures forall b, e | b in left && e in settled + EntriesOf(moved) :: e.key.sequence < b.sequence
  {
    hide Ascending, BatchEntries;
    SuffixFollows(moved, left);
    EntriesOfConcat(moved, left);
    forall b, e | b in EntriesOf(moved) && e in settled
      ensures e.key.sequence < b.key.sequence
    {
      var r :| r in moved && b in BatchEntries(r);
      BatchBounds(r, b);
    }
    forall e | e in EntriesOf(moved)
      ensures e !in EntriesOf(left)
    {
      if e in EntriesOf(left) {
        var r :| r in left && e in BatchEntries(r);
        BatchBounds(r, e);
      }
    }
  }

  lemma FlushedReads(s: State, s': State, v': Levels)
    requires Inv(s) && InstallFlush(s, s', v')
    requires LastHeader(s'.disk.manifest).Some? && LastHeader(s'.disk.manifest).value.logNumber == s.engine.value.logFile
    requires LevelEntries(v') == LevelEntries(s.engine.value.version) + ImmEntries(s.engine.value)
    ensures ReadsPreserved(Settled(s'.disk, s'.history), LevelEntries(v'), SmallestSnapshot(s.engine.value))
  {
    hide VersionInv, ReadsPreserved, SnapshotInv, CounterInv, LiveRecords, Unique, Ascending, BackgroundInv, BatchEntries;
    var e, settled := s.engine.value, Settled(s.disk, s.history);
    FlushedRecords(s, s', v');
    MovesOver(s.history, settled, Records(s.disk.logs, e.logNumber, e.logFile), LiveRecords(s'.disk));
    AddNewer(settled, LevelEntries(e.version), ImmEntries(e), SmallestSnapshot(e));
  }

  lemma FlushedLogs(s: State, s': State, v': Levels)
    requires Inv(s) && InstallFlush(s, s', v')
    requires LastHeader(s'.disk.manifest) == Some(Header(s.engine.value.logFile, s.engine.value.nextFile, s.engine.value.lastSequence))
    requires LevelEntries(v') == LevelEntries(s.engine.value.version) + ImmEntries(s.engine.value)
    ensures LogInv(s'.disk, v', s'.history) && CounterInv(s'.disk, s'.engine.value, s'.history)
    ensures MemInv(s'.disk, s'.engine.value)
  {
    hide VersionInv, ReadsPreserved, SnapshotInv, LiveRecords, LogInv, CounterInv;
    FlushedRecords(s, s', v');
    FlushedOrderOfLogs(s, s', v');
    FlushedCounters(s, s', v');
  }

  lemma FlushedOrderOfLogs(s: State, s': State, v': Levels)
    requires Inv(s) && InstallFlush(s, s', v') && LastHeader(s'.disk.manifest).Some?
    requires LastHeader(s'.disk.manifest).value.lastSequence == s.engine.value.lastSequence
    requires LevelEntries(v') == LevelEntries(s.engine.value.version) + ImmEntries(s.engine.value)
    requires LiveRecords(s'.disk) == s.disk.logs[s.engine.value.logFile]
    ensures LogInv(s'.disk, v', s'.history)
  {
    hide VersionInv, ReadsPreserved, SnapshotInv, LiveRecords, Unique, Ascending, BackgroundInv, BatchEntries;
    var e := s.engine.value;
    RunningRecords(s.disk, e);
    var older, current := Records(s.disk.logs, e.logNumber, e.logFile), LiveRecords(s'.disk);
    EntriesOfConcat(older, current);
    SuffixFollows(older, current);
    MovesOver(s.history, Settled(s.disk, s.history), older, current);
    FlushedIsCommitted(s.disk, e, s.history, older, current);
    FlushedEnd(s.history, e, current);
  }

  /** What leaves the live logs was committed. */
  lemma FlushedIsCommitted(disk: Disk, e: Engine, history: set<Entry>, older: seq<Batch>, current: seq<Batch>)
    requires CounterInv(disk, e, history) && EntriesOf(older) <= history && Ascending(older + current)
    requires e.write != NoWrite ==> e.write.batch in current
    ensures forall x | x in EntriesOf(older) :: x.key.sequence <= e.lastSequence
  {
    hide LiveRecords, Ascending, BatchEntries, LastStored;
    SuffixFollows(older, current);
    forall x | x in EntriesOf(older) && e.write != NoWrite && x in BatchEntries(e.write.batch)
      ensures false
    {
      BatchBounds(e.write.batch, x);
    }
  }

  /** Nothing is newer than the current log and the last sequence number. */
  lemma FlushedEnd(history: set<Entry>, e: Engine, current: seq<Batch>)
    requires e.write != NoWrite ==> e.write.batch in current
    requires forall x | x in history :: x.key.sequence <= e.lastSequence || (e.write != NoWrite && x in BatchEntries(e.write.batch))
    ensures forall x | x in history :: x.key.sequence <= MaxEnd(current, e.lastSequence)
  {
    MaxEndBounds(current, e.lastSequence);
    forall x | x in history
      ensures x.key.sequence <= MaxEnd(current, e.lastSequence)
    {
      if e.write != NoWrite && x in BatchEntries(e.write.batch) {
        BatchBounds(e.write.batch, x);
      }
    }
  }

  lemma FlushedCounters(s: State, s': State, v': Levels)
    requires Inv(s) && InstallFlush(s, s', v')
    requires LastHeader(s'.disk.manifest) == Some(Header(s.engine.value.logFile, s.engine.value.nextFile, s.engine.value.lastSequence))
    requires LiveRecords(s'.disk) == s.disk.logs[s.engine.value.logFile]
    requires LiveRecords(s.disk) == Records(s.disk.logs, s.engine.value.logNumber, s.engine.value.logFile) + LiveRecords(s'.disk)
    ensures CounterInv(s'.disk, s'.engine.value, s'.history)
  {
    hide VersionInv, ReadsPreserved, SnapshotInv, LiveRecords, BackgroundInv, Unique, Applies, BatchEntries, EntriesOf, LevelEntries,
      RecordNow, FlushEdit;
    MaxEndBounds(LiveRecords(s'.disk), s.engine.value.lastSequence);
    SuffixFollows(Records(s.disk.logs, s.engine.value.logNumber, s.engine.value.logFile), LiveRecords(s'.disk));
  }

  // ----- Installing a compaction -----

  lemma CompactionEditParts(level: nat, c: CompactionInputs, outputs: seq<File>, l: nat)
    ensures var edit := CompactionEditOf(level, c, outputs);
      DeletedAt(edit, l) == (if l == level then set f | f in c.inputs0 :: f.number
                             else if l == level + 1 then set f | f in c.inputs1 :: f.number else {}) &&
      AddedAt(edit, l) == (if l == level + 1 then FileSet(outputs) else {}) &&
      NumbersAt(edit, l) == (if l == level + 1 then set f | f in outputs :: f.number else {}) &&
      NamedBy(edit) == FileSet(outputs)
  {
    var edit := CompactionEditOf(level, c, outputs);
    assert forall i | 0 <= i < |outputs| :: edit.added[i] == (level + 1, outputs[i]);
    forall f | f in outputs
      ensures f in NamedBy(edit) && f in AddedAt(edit, level + 1) && f.number in NumbersAt(edit, level + 1)
    {
      var i :| 0 <= i < |outputs| && outputs[i] == f;
      assert edit.added[i] == (level + 1, f);
    }
    forall f | f in c.inputs0
      ensures f.number in DeletedAt(edit, level)
    {
      assert (level, f.number) in edit.deleted;
    }
    forall f | f in c.inputs1
      ensures f.number in DeletedAt(edit, level + 1)
    {
      assert (level + 1, f.number) in edit.deleted;
    }
    forall n | n in DeletedAt(edit, level)
      ensures exists f :: f in c.inputs0 && f.number == n
    {
      assert (level, n) in edit.deleted;
    }
    var next := level + 1;
    forall n | n in DeletedAt(edit, next)
      ensures exists f :: f in c.inputs1 && f.number == n
    {
      assert (next, n) in edit.deleted;
    }
  }

  /** Numbers single out the inputs, so the edit removes them and nothing else. */
  lemma CompactedLevels(v: Levels, v': Levels, level: nat, c: CompactionInputs, outputs: seq<File>)
    requires Applies(CompactionEditOf(level, c, outputs), v, v') && level + 1 < NUM_LEVELS
    requires NumbersDistinct(v) && forall l | 0 <= l < NUM_LEVELS :: Ordered(v[l])
    requires (forall f | f in c.inputs0 :: f in v[level]) && forall f | f in c.inputs1 :: f in v[level + 1]
    requires forall o, g | o in outputs && g in v[level + 1] :: o.number != g.number
    ensures CompactionEdit(v, v', level, c, outputs)
  {
    hide Ordered;
    var edit := CompactionEditOf(level, c, outputs);
    forall l | 0 <= l < NUM_LEVELS && l != level && l != level + 1
      ensures v'[l] == v[l]
    {
      OneEdit(edit, l);
      CompactionEditParts(level, c, outputs, l);
      UnchangedLevel(v[l], v'[l]);
    }
    RemovedByNumber(v, v', level, c, outputs);
    ReplacedByNumber(v, v', level, c, outputs);
  }

  lemma RemovedByNumber(v: Levels, v': Levels, level: nat, c: CompactionInputs, outputs: seq<File>)
    requires Applies(CompactionEditOf(level, c, outputs), v, v') && level + 1 < NUM_LEVELS
    requires NumbersDistinct(v) && forall f | f in c.inputs0 :: f in v[level]
    ensures FileSet(v'[level]) == FileSet(v[level]) - FileSet(c.inputs0)
  {
    hide Ordered;
    OneEdit(CompactionEditOf(level, c, outputs), level);
    CompactionEditParts(level, c, outputs, level);
    forall f | f in FileSet(v[level])
      ensures f.number in (set g | g in c.inputs0 :: g.number) <==> f in FileSet(c.inputs0)
    {
      if g :| g in c.inputs0 && g.number == f.number {
        assert g == f;
      }
    }
  }

  lemma ReplacedByNumber(v: Levels, v': Levels, level: nat, c: CompactionInputs, outputs: seq<File>)
    requires Applies(CompactionEditOf(level, c, outputs), v, v') && level + 1 < NUM_LEVELS
    requires NumbersDistinct(v) && forall f | f in c.inputs1 :: f in v[level + 1]
    requires forall o, g | o in outputs && g in v[level + 1] :: o.number != g.number
    ensures FileSet(v'[level + 1]) == FileSet(v[level + 1]) - FileSet(c.inputs1) + FileSet(outputs)
  {
    hide Ordered;
    OneEdit(CompactionEditOf(level, c, outputs), level + 1);
    CompactionEditParts(level, c, outputs, level + 1);
    var gone := set g | g in c.inputs1 :: g.number;
    var come := set o | o in outputs :: o.number;
    forall f | f in FileSet(v[level + 1])
      ensures f.number in gone - come <==> f in FileSet(c.inputs1)
    {
      if g :| g in c.inputs1 && g.number == f.number {
        assert g == f;
      }
    }
    forall f | f in FileSet(outputs)
      ensures f.number !in gone - come
    {
    }
  }

  lemma CompactedNumbers(v: Levels, v': Levels, level: nat, c: CompactionInputs, outputs: seq<File>)
    requires CompactionEdit(v, v', level, c, outputs) && NumbersDistinct(v)
    requires forall f, g | f in outputs && g in outputs && f.number == g.number :: f == g
    requires forall o, l, g | o in outputs && 0 <= l < NUM_LEVELS && g in v[l] && o.number == g.number ::
      l == level && g in c.inputs0
    ensures NumbersDistinct(v')
    ensures forall l, f | 0 <= l < NUM_LEVELS && f in v'[l] :: f in v[l] || f in outputs
  {
    hide Ordered;
    forall l, f | 0 <= l < NUM_LEVELS && f in v'[l]
      ensures (f in v[l] && !(l == level && f in c.inputs0)) || (l == level + 1 && f in outputs)
    {
      assert f in FileSet(v'[l]);
    }
  }

  /** What installing outputs under fresh numbers, or moving one file down, does to the version. */
  lemma CompactedVersion(disk: Disk, v: Levels, v': Levels, level: nat, c: CompactionInputs, outputs: seq<File>,
      r: Record)
    requires VersionInv(disk, v) && Unique(LevelEntries(v)) && level + 1 < NUM_LEVELS && WellChosen(v, level, c)
    requires r.edit == CompactionEditOf(level, c, outputs) && Applies(r.edit, v, v')
    requires OutputsFrom(c, outputs) && r.header.Some? && LastHeader(disk.manifest).value.nextFile <= r.header.value.nextFile
    requires r.header.value.logNumber < r.header.value.nextFile
    requires forall f | f in outputs :: f.number < r.header.value.nextFile && f.number in disk.tables && disk.tables[f.number] == f.entries
    requires forall f, g | f in outputs && g in outputs && f.number == g.number :: f == g
    requires (forall f | f in outputs :: f.number >= LastHeader(disk.manifest).value.nextFile) || outputs == c.inputs0
    ensures VersionInv(disk.(manifest := disk.manifest + [r]), v') && LastHeader(disk.manifest + [r]) == r.header
    ensures CompactionEdit(v, v', level, c, outputs)
  {
    hide ReadableLevels, NumbersDistinct, WellChosen, OutputsFrom, Ordered, CompactionEdit, Unique, LevelEntries,
      CompactionEditOf, Applies, ManifestInv, Intact;
    VersionShape(disk.manifest, v);
    ReadableShape(v);
    Inputs1InLevel(v, level, c);
    OutputNumbers(disk, v, level, c, outputs);
    CompactedLevels(v, v', level, c, outputs);
    CompactionKeepsReadable(v, v', level, c, outputs);
    CompactedNumbers(v, v', level, c, outputs);
    CompactedManifest(disk, v, v', level, c, outputs, r);
    CompactedIntact(disk.tables, v, v', outputs);
  }

  lemma CompactedIntact(tables: map<nat, seq<Entry>>, v: Levels, v': Levels, outputs: seq<File>)
    requires Intact(v, tables) && |v| == NUM_LEVELS && ReadableLevels(v')
    requires forall f | f in outputs :: f.number in tables && tables[f.number] == f.entries
    requires forall l, f | 0 <= l < NUM_LEVELS && f in v'[l] :: f in v[l] || f in outputs
    ensures Intact(v', tables)
  {
  }

  lemma OutputNumbers(disk: Disk, v: Levels, level: nat, c: CompactionInputs, outputs: seq<File>)
    requires VersionInv(disk, v) && level + 1 < NUM_LEVELS && forall f | f in c.inputs0 :: f in v[level]
    requires (forall f | f in outputs :: f.number >= LastHeader(disk.manifest).value.nextFile) || outputs == c.inputs0
    ensures forall o, l, g | o in outputs && 0 <= l < NUM_LEVELS && g in v[l] && o.number == g.number ::
      l == level && g in c.inputs0
  {
    hide ReadableLevels, ManifestInv;
    VersionShape(disk.manifest, v);
    forall o, l, g | o in outputs && 0 <= l < NUM_LEVELS && g in v[l] && o.number == g.number
      ensures l == level && g in c.inputs0
    {
      VersionIsNamed(disk.manifest, v, l, g);
      assert outputs == c.inputs0;
      assert o in v[level];
    }
  }

  lemma CompactedManifest(disk: Disk, v: Levels, v': Levels, level: nat, c: CompactionInputs, outputs: seq<File>,
      r: Record)
    requires ManifestInv(disk.manifest, v) && level + 1 < NUM_LEVELS && (forall f | f in c.inputs0 :: f in v[level])
    requires r.edit == CompactionEditOf(level, c, outputs) && Applies(r.edit, v, v')
    requires r.header.Some? && LastHeader(disk.manifest).value.nextFile <= r.header.value.nextFile
    requires r.header.value.logNumber < r.header.value.nextFile
    requires forall f | f in outputs :: f.number < r.header.value.nextFile
    requires forall f, g | f in outputs && g in outputs && f.number == g.number :: f == g
    requires (forall f | f in outputs :: f.number >= LastHeader(disk.manifest).value.nextFile) || outputs == c.inputs0
    ensures ManifestInv(disk.manifest + [r], v') && LastHeader(disk.manifest + [r]) == r.header
  {
    hide Ordered, IsVersionOf, Applies;
    CompactionEditParts(level, c, outputs, level);
    assert WellFormed(r.edit);
    if outputs == c.inputs0 {
      forall f | f in outputs
        ensures f in Named(Edits(disk.manifest))
      {
        VersionIsNamed(disk.manifest, v, level, f);
      }
    }
    AppendRecord(disk.manifest, v, v', r);
  }

  lemma InstallCompactionKeeps(s: State, s': State, v': Levels)
    requires Inv(s) && InstallCompaction(s, s', v')
    ensures Inv(s')
  {
    hide VersionInv, ReadsPreserved, SnapshotInv, MemInv, LogInv, ReadableLevels, ManifestInv, WellChosen, NothingExposed,
      LiveRecords, Kept, Sorted, OutputsFrom, CompactionEdit, CompactionEditOf, CounterInv, Unique;
    var e, e' := s.engine.value, s'.engine.value;
    var b := e.background;
    CompactionOutputs(e, b);
    var r := RecordNow(e, CompactionEditOf(b.level, b.inputs, b.outputs), e.logNumber);
    InstallReady(s.disk, e, s.history);
    DistinctOutputs(b.outputs);
    CompactedVersion(s.disk, e.version, v', b.level, b.inputs, b.outputs, r);
    CompactedReads(s, s', v', b.level, b.inputs, b.outputs);
    SnapshotSame(e, e');
    NothingAbove(e.version, v', b.inputs);
    InstallPreservesReadsIff(e.version, v', b.level, b.inputs, b.input, b.outputs, b.snapshot, {});
    PreservedTransitive(Settled(s.disk, s.history), LevelEntries(e.version), LevelEntries(v'), SmallestSnapshot(e), b.snapshot);
  }

  lemma NothingAbove(v: Levels, v': Levels, c: CompactionInputs)
    ensures {} + LevelEntries(v) == LevelEntries(v) && {} + LevelEntries(v') == LevelEntries(v')
    ensures {} + LeftBehind(v, c) == LeftBehind(v, c)
  {
  }

  lemma DistinctOutputs(outputs: seq<File>)
    requires forall i, j | 0 <= i < j < |outputs| :: outputs[i].number < outputs[j].number
    ensures forall f, g | f in outputs && g in outputs && f.number == g.number :: f == g
  {
  }

  lemma CompactionOutputs(e: Engine, b: Background)
    requires b.Compacting? && Sorted(b.input) && Elements(b.input) == InputEntries(b.inputs)
    requires Concat(b.outputs) == Kept(b.input, |b.input|, b.snapshot, e.version, b.level) && ValidFiles(b.outputs)
    ensures OutputsFrom(b.inputs, b.outputs)
  {
    hide Kept, Less;
    KeptSorted(b.input, |b.input|, b.snapshot, e.version, b.level);
    KeptSubset(b.input, b.snapshot, e.version, b.level);
    SortedConcat(b.outputs);
    ConcatElements(b.outputs);
  }

  lemma InstallReady(disk: Disk, e: Engine, history: set<Entry>)
    requires VersionInv(disk, e.version) && LogInv(disk, e.version, history) && MemInv(disk, e) && CounterInv(disk, e, history)
    ensures Unique(LevelEntries(e.version)) && Unique(EntriesOf(LiveRecords(disk)) + LevelEntries(e.version))
    ensures NewerThan(EntriesOf(LiveRecords(disk)), LevelEntries(e.version)) && ReadableLevels(e.version)
    ensures |e.version| == NUM_LEVELS && LastHeader(disk.manifest).Some?
    ensures LastHeader(disk.manifest).value.nextFile <= e.nextFile && LastHeader(disk.manifest).value.lastSequence <= e.lastSequence
    ensures e.logNumber == LastHeader(disk.manifest).value.logNumber && e.logNumber < e.nextFile
  {
    hide ManifestInv, LiveRecords, Ascending;
    FlushInputs(disk, e, history);
    ReadableShape(e.version);
  }

  /** Everything but the version is as before: the logs, the memtables, the counters. */
  lemma CompactedReads(s: State, s': State, v': Levels, level: nat, c: CompactionInputs, outputs: seq<File>)
    requires Inv(s) && s.engine.Some? && s'.engine.Some? && s'.history == s.history && s'.disk.logs == s.disk.logs
    requires LastHeader(s'.disk.manifest) == Some(Header(s.engine.value.logNumber, s.engine.value.nextFile, s.engine.value.lastSequence))
    requires s'.engine.value == s.engine.value.(version := v', background := Resting)
    requires ReadableLevels(s.engine.value.version) && level + 1 < |s.engine.value.version|
    requires WellChosen(s.engine.value.version, level, c)
    requires OutputsFrom(c, outputs) && CompactionEdit(s.engine.value.version, v', level, c, outputs)
    ensures LiveRecords(s'.disk) == LiveRecords(s.disk)
    ensures MemInv(s'.disk, s'.engine.value) && CounterInv(s'.disk, s'.engine.value, s'.history)
    ensures LogInv(s'.disk, v', s'.history)
  {
    hide VersionInv, ReadsPreserved, SnapshotInv, ReadableLevels, WellChosen, OutputsFrom, CompactionEdit, BackgroundInv,
      Unique, Ascending, LiveRecords;
    var e := s.engine.value;
    CompactedFewer(e.version, v', level, c, outputs);
    RunningRecords(s.disk, e);
    LiveRecordsAre(s'.disk, e.logFile);
    EndIsEnough(s.history, e, LiveRecords(s.disk));
  }

  lemma EndIsEnough(history: set<Entry>, e: Engine, records: seq<Batch>)
    requires e.write != NoWrite ==> e.write.batch in records
    requires forall x | x in history :: x.key.sequence <= e.lastSequence || (e.write != NoWrite && x in BatchEntries(e.write.batch))
    ensures e.lastSequence <= MaxEnd(records, e.lastSequence)
    ensures forall x | x in history :: x.key.sequence <= MaxEnd(records, e.lastSequence)
  {
    MaxEndBounds(records, e.lastSequence);
    FlushedEnd(history, e, records);
  }

  lemma CompactedFewer(v: Levels, v': Levels, level: nat, c: CompactionInputs, outputs: seq<File>)
    requires ReadableLevels(v) && level + 1 < |v| && WellChosen(v, level, c)
    requires OutputsFrom(c, outputs) && CompactionEdit(v, v', level, c, outputs)
    ensures LevelEntries(v') <= LevelEntries(v)
  {
    hide ReadableLevels, WellChosen, CompactionEdit;
    CompactedEntries(v, v', level, c, outputs);
    ReadableShape(v);
    forall x | x in FileEntries(outputs)
      ensures x in LevelEntries(v)
    {
      InputsInLevels(v, level, c, x);
    }
  }

  // ----- The trivial move -----

  lemma MoveFileKeeps(s: State, s': State, level: nat, c: CompactionInputs, v': Levels)
    requires Inv(s) && MoveFile(s, s', level, c, v')
    ensures Inv(s')
  {
    hide ReadsPreserved, SnapshotInv, MemInv, LogInv, ReadableLevels, ManifestInv, WellChosen, NumbersDistinct,
      LiveRecords, OutputsFrom, CompactionEdit, CompactionEditOf, CounterInv, Unique;
    var e, e' := s.engine.value, s'.engine.value;
    var r := RecordNow(e, CompactionEditOf(level, c, c.inputs0), e.logNumber);
    InstallReady(s.disk, e, s.history);
    MovedOutputs(s.disk, e.version, level, c);
    CompactedVersion(s.disk, e.version, v', level, c, c.inputs0, r);
    CompactedReads(s, s', v', level, c, c.inputs0);
    SnapshotSame(e, e');
    CompactedEntries(e.version, v', level, c, c.inputs0);
    ReadableShape(e.version);
    Inputs1InLevel(e.version, level, c);
    LevelWithin(e.version, level);
    assert InputEntries(c) == FileEntries(c.inputs0);
    assert LevelEntries(v') == LevelEntries(e.version);
  }

  lemma LevelWithin(v: Levels, l: nat)
    requires l < |v|
    ensures FileEntries(v[l]) <= LevelEntries(v)
  {
    assert v[l] in v;
  }

  lemma MovedOutputs(disk: Disk, v: Levels, level: nat, c: CompactionInputs)
    requires VersionInv(disk, v) && level + 1 < NUM_LEVELS && WellChosen(v, level, c) && |c.inputs0| == 1
    ensures OutputsFrom(c, c.inputs0)
    ensures forall f | f in c.inputs0 ::
      f.number < LastHeader(disk.manifest).value.nextFile && f.number in disk.tables && disk.tables[f.number] == f.entries
  {
    hide ManifestInv, WellChosen, NumbersDistinct, ReadableLevels;
    ReadableShape(v);
    Inputs1InLevel(v, level, c);
    var f := c.inputs0[0];
    ValidMember(v[level], f);
    VersionIsNamed(disk.manifest, v, level, f);
  }
}
