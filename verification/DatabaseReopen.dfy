/** Recovery is always possible: from every state a run can crash into, DB::Open has a way to succeed. */
module DatabaseReopen {
  import opened Entries
  import opened Files
  import opened Compactions
  import opened Manifest
  import opened Reads
  import opened Database
  import opened DatabaseState
  import opened DatabaseOpen
  import opened DatabaseRuns

  // ----- A table for a set of entries -----

  /** No two entries have the same internal key. */
  ghost predicate KeysDiffer(S: set<Entry>) {
    forall a, b | a in S && b in S && a.key == b.key :: a == b
  }

  /** A set of entries in key order: what a memtable's iterator yields. */
  lemma {:induction false} InOrder(S: set<Entry>) returns (es: seq<Entry>)
    requires KeysDiffer(S)
    ensures Sorted(es) && Elements(es) == S
  {
    es := [];
    if S != {} {
      var e :| e in S;
      var rest := InOrder(S - {e});
      es := EntryInserted(rest, e);
    }
  }

  lemma EntryInserted(es: seq<Entry>, e: Entry) returns (r: seq<Entry>)
    requires Sorted(es) && forall x | x in es :: x.key != e.key
    ensures Sorted(r) && Elements(r) == Elements(es) + {e}
  {
    hide Less;
    var at := 0;
    while at < |es| && Less(es[at].key, e.key)
      invariant at <= |es| && forall i | 0 <= i < at :: Less(es[i].key, e.key)
    {
      at := at + 1;
    }
    r := es[..at] + [e] + es[at..];
    forall i | at <= i < |es|
      ensures Less(e.key, es[i].key)
    {
      LessIsTotalOrder(e.key, es[at].key, es[i].key);
      LessIsTotalOrder(es[at].key, e.key, es[i].key);
      assert es[at] in es;
    }
    assert es == es[..at] + es[at..];
  }

  lemma UniqueKeysDiffer(S: set<Entry>)
    requires Unique(S)
    ensures KeysDiffer(S)
  {
  }

  // ----- A level with one more file -----

  lemma FileInserted(fs: seq<File>, f: File) returns (r: seq<File>)
    requires Ordered(fs) && forall g | g in fs :: g.number != f.number
    ensures Ordered(r) && FileSet(r) == FileSet(fs) + {f}
  {
    hide Before;
    var at := 0;
    while at < |fs| && Before(fs[at], f)
      invariant at <= |fs| && forall i | 0 <= i < at :: Before(fs[i], f)
    {
      at := at + 1;
    }
    if at < |fs| {
      BeforeIsOrder(fs[at], f, f);
    }
    InsertOrdered(fs, f, at);
    r := fs[..at] + [f] + fs[at..];
  }

  lemma {:induction false} FilesInOrder(S: set<File>) returns (fs: seq<File>)
    requires NumberFixesFile(S)
    ensures Ordered(fs) && FileSet(fs) == S
  {
    hide Ordered;
    fs := [];
    if S == {} {
      NothingIsOrdered();
    } else {
      var f :| f in S;
      var rest := FilesInOrder(S - {f});
      assert forall g | g in rest :: g in FileSet(rest);
      fs := FileInserted(rest, f);
    }
  }

  lemma NothingIsOrdered()
    ensures Ordered([]) && FileSet([]) == {}
  {
  }

  /** An edit always leads to a version. */
  lemma VersionUnder(v: Levels, edit: Edit) returns (v': Levels)
    requires |v| == NUM_LEVELS && forall l | 0 <= l < NUM_LEVELS :: NumberFixesFile(FileSet(v[l]) + AddedAt(edit, l))
    ensures Applies(edit, v, v')
  {
    hide Ordered;
    v' := [];
    for n := 0 to NUM_LEVELS
      invariant |v'| == n
      invariant forall l | 0 <= l < n :: Ordered(v'[l]) && FileSet(v'[l]) == Built(FileSet(v[l]), [edit], l)
    {
      OneEdit(edit, n);
      var level := FilesInOrder(Built(FileSet(v[n]), [edit], n));
      v' := v' + [level];
    }
  }

  /** New files have new numbers. */
  lemma NewNumbers(v: Levels, edit: Edit, low: nat)
    requires NumbersDistinct(v) && |v| == NUM_LEVELS && forall l, f | 0 <= l < NUM_LEVELS && f in v[l] :: f.number < low
    requires forall i | 0 <= i < |edit.added| :: low <= edit.added[i].1.number
    requires forall i, j | 0 <= i < j < |edit.added| :: edit.added[i].1.number != edit.added[j].1.number
    ensures forall l | 0 <= l < NUM_LEVELS :: NumberFixesFile(FileSet(v[l]) + AddedAt(edit, l))
  {
  }

  // ----- Reopening -----

  lemma OneTable(us: seq<Batch>, es: seq<Entry>, first: nat)
    requires Sorted(es) && es != [] && Elements(es) == EntriesOf(us)
    ensures RecoveredTables([us], [File(first, 0, es[0].key, es[|es| - 1].key, es)], first)
    ensures Flatten([us]) == us
  {
    hide Sorted, Less, EntriesOf;
    assert [us][..0] == [] && Flatten([]) == [];
  }

  lemma NoTables(first: nat)
    ensures Flatten([]) == [] && RecoveredTables([], [], first)
  {
  }

  /** One table with all the records that hold anything, and no table if there are none. */
  lemma TablesFor(records: seq<Batch>, first: nat) returns (groups: seq<seq<Batch>>, files: seq<File>)
    requires Unique(EntriesOf(records))
    ensures Flatten(groups) == Updates(records) && RecoveredTables(groups, files, first)
    ensures |files| <= 1 && forall f | f in files :: f.number == first
  {
    hide Sorted, Less, Unique, Updates, EntriesOf, Flatten, RecoveredTables, KeysDiffer;
    var us := Updates(records);
    if us == [] {
      NoTables(first);
      return [], [];
    }
    UpdatesKeepEntries(records);
    UniqueKeysDiffer(EntriesOf(records));
    var es := InOrder(EntriesOf(us));
    UpdatesHoldEntries(records, us[0]);
    FirstEntry(us);
    assert es != [];
    OneTable(us, es, first);
    groups, files := [us], [File(first, 0, es[0].key, es[|es| - 1].key, es)];
  }

  lemma FirstEntry(batches: seq<Batch>)
    requires batches != [] && batches[0].ops != []
    ensures EntryOf(batches[0].ops[0], batches[0].sequence) in EntriesOf(batches)
  {
    var b := batches[0];
    assert EntryOf(b.ops[0], b.sequence + 0) in BatchEntries(b);
    assert b in batches;
  }

  lemma {:induction false} UpdatesHoldEntries(records: seq<Batch>, b: Batch)
    requires b in Updates(records)
    ensures b.ops != []
  {
    if b in Updates(records[..|records| - 1]) {
      UpdatesHoldEntries(records[..|records| - 1], b);
    }
  }

  /** The last log is one that recovery reads. */
  ghost predicate HasLiveLog(disk: Disk) {
    LastHeader(disk.manifest).Some? && exists n | n in disk.logs :: n >= LastHeader(disk.manifest).value.logNumber
  }

  /** What recovery flushes, and what it leaves in the last log if that is reused. */
  lemma LastLogApart(disk: Disk, reuse: bool) returns (flushed: seq<Batch>, rest: seq<Batch>)
    requires LastHeader(disk.manifest).Some? && (reuse ==> HasLiveLog(disk))
    ensures var top := LogEnd(disk.logs.Keys) - 1; reuse ==>
      top in disk.logs && top >= LastHeader(disk.manifest).value.logNumber && rest == Updates(disk.logs[top])
    ensures !reuse ==> rest == []
    ensures Updates(flushed) + rest == Updates(LiveRecords(disk)) && EntriesOf(flushed) <= EntriesOf(LiveRecords(disk))
  {
    hide Updates;
    flushed, rest := LiveRecords(disk), [];
    assert Updates(flushed) + [] == Updates(flushed);
    if reuse {
      var n :| n in disk.logs && n >= LastHeader(disk.manifest).value.logNumber;
      var top := LogEnd(disk.logs.Keys) - 1;
      assert n in disk.logs.Keys && top in disk.logs.Keys;
      LiveRecordsAre(disk, top);
      flushed := Records(disk.logs, LastHeader(disk.manifest).value.logNumber, top);
      rest := Updates(disk.logs[top]);
      UpdatesAppend(flushed, disk.logs[top]);
    }
  }

  /** The database can be opened, with the last log reused or not. */
  lemma OpenExists(s: State, reuse: bool) returns (s': State, v: Levels, o: Opening)
    requires Inv(s) && s.engine == None && (reuse ==> HasLiveLog(s.disk))
    ensures Open(s, s', v, o) && s'.engine.Some? && o.reuse == reuse
  {
    hide VersionInv, ReadsPreserved, LiveRecords, Applies, NumbersDistinct, RecoveredTables, Ordered, Updates, Flatten, Load,
      AllPresent, IsVersionOf, EntriesOf, Ascending, Unique, HasLiveLog;
    v :| StoredInv(s.disk, v, s.history, LastStored(s.disk));
    DownVersion(s.disk, v);
    var h, records := LastHeader(s.disk.manifest).value, LiveRecords(s.disk);
    var top := LogEnd(s.disk.logs.Keys);
    var first := if top > h.nextFile then top else h.nextFile;
    var flushed, rest := LastLogApart(s.disk, reuse);
    SmallerUnique(EntriesOf(flushed), s.history);
    var groups, files := TablesFor(flushed, first);
    NewNumbers(v, Edit({}, OnLevel(0, files)), h.nextFile);
    var v' := VersionUnder(v, Edit({}, OnLevel(0, files)));
    var log := if reuse then top - 1 else first + 1;
    o := Opening(groups, files, rest, reuse, true, true, log, first + 2, v');
    RecoveredLower(groups, files, first, h.nextFile);
    var last := MaxEnd(records, h.lastSequence);
    var record := Record(Edit({}, OnLevel(0, files)), Some(Header(log, first + 2, last)));
    s' := s.(disk := Disk([Record(SnapshotEdit(v), None), record], WithTables(s.disk.tables, files),
                          if reuse then s.disk.logs else s.disk.logs[log := []]),
             engine := Some(Engine(EntriesOf(rest), None, v', log, log, first + 2, last, [], NoWrite, Resting)));
  }

  lemma DownVersion(disk: Disk, v: Levels)
    requires VersionInv(disk, v)
    ensures LastHeader(disk.manifest).Some? && IsVersionOf(v, Edits(disk.manifest)) && |v| == NUM_LEVELS
    ensures forall l | 0 <= l < NUM_LEVELS :: Ordered(v[l])
    ensures Load(v, disk.tables) == v && AllPresent(v, disk.tables)
    ensures forall l, g | 0 <= l < NUM_LEVELS && g in v[l] :: g.number < LastHeader(disk.manifest).value.nextFile
    ensures NumbersDistinct(v)
  {
    hide ReadableLevels, NumbersDistinct, Ordered;
    RecordedVersion(disk, v);
    SameAsStored(disk, v, v);
    forall l, g | 0 <= l < NUM_LEVELS && g in v[l]
      ensures g.number < LastHeader(disk.manifest).value.nextFile
    {
      VersionIsNamed(disk.manifest, v, l, g);
    }
  }

  lemma RecoveredLower(groups: seq<seq<Batch>>, files: seq<File>, first: nat, low: nat)
    requires RecoveredTables(groups, files, first) && low <= first
    ensures RecoveredTables(groups, files, low)
  {
    hide ValidFile;
  }

  /** MAIN: every state a run reaches with the database down can be opened. */
  lemma RecoverySucceeds(states: seq<State>, steps: seq<Step>, i: nat) returns (s': State, v: Levels, o: Opening)
    requires Run(states, steps) && i < |states| && states[i].engine == None
    ensures Next(states[i], s', OpenStep(v, o)) && s'.engine.Some?
  {
    hide Inv, Run, Open, LogGroup, StartFlush, StartCompaction, InstallCompaction, MoveFile, RemoveObsolete, FailedOpen;
    RunsKeepInv(states, steps, i);
    s', v, o := OpenExists(states[i], false);
  }

  /** MAIN: the MANIFEST of every state of every run can be replayed: it has counters, and a number fixes its file. */
  lemma ManifestIsConsistent(states: seq<State>, steps: seq<Step>, i: nat)
    requires Run(states, steps) && i < |states|
    ensures LastHeader(states[i].disk.manifest).Some? && Consistent(Edits(states[i].disk.manifest))
  {
    hide Run, LogInv, ReadsPreserved, EngineInv, ManifestInv, ReadableLevels, NumbersDistinct, Consistent, LiveRecords;
    RunsKeepInv(states, steps, i);
    var s := states[i];
    var w: Levels;
    if s.engine.Some? {
      w := s.engine.value.version;
    } else {
      w :| StoredInv(s.disk, w, s.history, LastStored(s.disk));
    }
    NamedIsConsistent(s.disk.manifest, w);
  }

  lemma NamedIsConsistent(manifest: seq<Record>, v: Levels)
    requires ManifestInv(manifest, v)
    ensures LastHeader(manifest).Some? && Consistent(Edits(manifest))
  {
    hide IsVersionOf, WellFormed, Named, Added;
    forall l | 0 <= l < NUM_LEVELS
      ensures NumberFixesFile(Added(Edits(manifest), l))
    {
      AddedIsNamed(Edits(manifest), l);
    }
  }
}
