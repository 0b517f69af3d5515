/** Opening an existing database keeps the invariant: recovery loses nothing and invents nothing. */
module DatabaseOpen {
  import opened Entries
  import opened Files
  import opened Reads
  import opened Inputs
  import opened Compactions
  import opened Manifest
  import opened Installs
  import opened Database
  import opened DatabaseState
  import opened DatabaseSteps
  import opened DatabaseJobs

  // ----- Records -----

  lemma UpdatesOne(batches: seq<Batch>, b: Batch)
    ensures Updates(batches + [b]) == Updates(batches) + if b.ops != [] then [b] else []
  {
    assert (batches + [b])[..|batches|] == batches;
  }

  lemma Associates(a: seq<Batch>, b: seq<Batch>, c: seq<Batch>)
    ensures a + b + c == a + (b + c)
  {
  }

  lemma {:induction false} UpdatesAppend(a: seq<Batch>, b: seq<Batch>)
    ensures Updates(a + b) == Updates(a) + Updates(b)
  {
    if b == [] {
      assert a + b == a;
    } else {
      hide Updates;
      var init, last := b[..|b| - 1], b[|b| - 1];
      UpdatesAppend(a, init);
      UpdatesOne(a + init, last);
      UpdatesOne(init, last);
      Associates(a, init, [last]);
      Associates(Updates(a), Updates(init), if last.ops != [] then [last] else []);
      assert b == init + [last];
    }
  }

  lemma {:induction false} UpdatesKeepEntries(batches: seq<Batch>)
    ensures EntriesOf(Updates(batches)) == EntriesOf(batches)
    ensures forall b | b in Updates(batches) :: b in batches
  {
    if batches != [] {
      var init, last := batches[..|batches| - 1], batches[|batches| - 1];
      UpdatesKeepEntries(init);
      assert batches == init + [last];
      EntriesOfConcat(init, [last]);
      EntriesOfConcat(Updates(init), [last]);
      EntriesOfOne(last);
      assert last.ops == [] ==> BatchEntries(last) == {};
    }
  }

  lemma {:induction false} UpdatesAscend(batches: seq<Batch>)
    requires Ascending(batches)
    ensures Ascending(Updates(batches))
  {
    if batches != [] {
      var init, last := batches[..|batches| - 1], batches[|batches| - 1];
      UpdatesAscend(init);
      UpdatesKeepEntries(init);
      forall b | b in Updates(init)
        ensures End(b) <= last.sequence
      {
        var i :| 0 <= i < |init| && init[i] == b;
      }
    }
  }

  lemma {:induction false} FlattenEntries(groups: seq<seq<Batch>>)
    ensures forall e :: e in EntriesOf(Flatten(groups)) <==> exists i :: 0 <= i < |groups| && e in EntriesOf(groups[i])
    ensures forall i, b | 0 <= i < |groups| && b in groups[i] :: b in Flatten(groups)
  {
    if groups != [] {
      var init, last := groups[..|groups| - 1], groups[|groups| - 1];
      FlattenEntries(init);
      EntriesOfConcat(Flatten(init), last);
      forall e
        ensures e in EntriesOf(Flatten(groups)) <==> exists i :: 0 <= i < |groups| && e in EntriesOf(groups[i])
      {
        assert e in EntriesOf(Flatten(init)) <==> exists i :: 0 <= i < |init| && e in EntriesOf(init[i]);
        assert forall i | 0 <= i < |init| :: init[i] == groups[i];
        assert groups[|init|] == last;
      }
    }
  }

  /** Later groups hold later records. */
  lemma {:induction false} GroupsAscend(groups: seq<seq<Batch>>, i: nat, j: nat, b: Batch, b': Batch)
    requires Ascending(Flatten(groups)) && i < j < |groups| && b in groups[i] && b' in groups[j]
    ensures End(b) <= b'.sequence
  {
    var init, last := groups[..|groups| - 1], groups[|groups| - 1];
    SuffixFollows(Flatten(init), last);
    if j < |init| {
      GroupsAscend(init, i, j, b, b');
    } else {
      FlattenEntries(init);
      assert init[i] == groups[i];
      assert b in Flatten(init);
    }
  }

  /** An empty log above all others changes nothing. */
  lemma EmptyTopLog(disk: Disk, disk': Disk, n: nat)
    requires LastHeader(disk.manifest).Some? && disk'.manifest == disk.manifest
    requires disk'.logs == disk.logs[n := []] && forall m | m in disk.logs :: m < n
    ensures LiveRecords(disk') == LiveRecords(disk)
  {
    var from := LastHeader(disk.manifest).value.logNumber;
    var end := LogEnd(disk.logs.Keys);
    assert n in disk'.logs.Keys;
    assert LogEnd(disk'.logs.Keys) == n + 1;
    RecordsFrame(disk.logs, disk'.logs, from, n);
    RecordsSkip(disk.logs, from, end, n);
  }

  // ----- The version read back -----

  /** The table files bring back exactly the entries the version had. */
  lemma LoadsBack(v: Levels, tables: map<nat, seq<Entry>>)
    requires Intact(v, tables)
    ensures Load(v, tables) == v && AllPresent(v, tables)
  {
    forall l | 0 <= l < |v|
      ensures LoadLevel(v[l], tables) == v[l]
    {
      forall i | 0 <= i < |v[l]|
        ensures LoadFile(v[l][i], tables) == v[l][i]
      {
        assert v[l][i] in v[l];
      }
    }
    forall fs, f | fs in v && f in fs
      ensures f.number in tables
    {
      var l :| 0 <= l < |v| && v[l] == fs;
    }
  }

  // ----- The version after recovery -----

  /** The records flushed during recovery, as new level-0 files of a version they are all newer than. */
  ghost predicate Recoverable(v: Levels, groups: seq<seq<Batch>>, files: seq<File>, first: nat) {
    ReadableLevels(v) && NumbersDistinct(v) && Ascending(Flatten(groups)) && RecoveredTables(groups, files, first) &&
    (forall l, g | 0 <= l < |v| && g in v[l] :: g.number < first) &&
    NewerThan(EntriesOf(Flatten(groups)), LevelEntries(v))
  }

  lemma RecoveredLevels(v: Levels, v': Levels, files: seq<File>)
    requires Applies(Edit({}, OnLevel(0, files)), v, v') && forall l | 0 <= l < NUM_LEVELS :: Ordered(v[l])
    ensures forall l | 1 <= l < NUM_LEVELS :: v'[l] == v[l]
    ensures Ordered(v'[0]) && forall f :: f in v'[0] <==> f in v[0] || f in files
  {
    hide Ordered;
    var edit := Edit({}, OnLevel(0, files));
    AddLevel([], 0, files);
    assert [] + OnLevel(0, files) == OnLevel(0, files);
    forall l | 0 <= l < NUM_LEVELS
      ensures FileSet(v'[l]) == FileSet(v[l]) + if l == 0 then FileSet(files) else {}
    {
      OneEdit(edit, l);
      assert DeletedAt(edit, l) == {};
      assert l > 0 ==> AddedAt(edit, l) == {};
    }
    forall l | 1 <= l < NUM_LEVELS
      ensures v'[l] == v[l]
    {
      UnchangedLevel(v[l], v'[l]);
    }
    forall f
      ensures f in v'[0] <==> f in v[0] || f in files
    {
      assert f in v'[0] <==> f in FileSet(v'[0]);
    }
  }

  /** Of two recovered or older files, the higher numbered one is newer. */
  lemma RecoveredOrder(v: Levels, groups: seq<seq<Batch>>, files: seq<File>, first: nat, f: File, g: File)
    requires Recoverable(v, groups, files, first) && |v| == NUM_LEVELS
    requires (f in v[0] || f in files) && (g in v[0] || g in files) && f.number > g.number
    ensures NewerThan(Elements(f.entries), Elements(g.entries))
  {
    hide ValidLevels, ShallowerIsNewer, ValidFile, Ascending, NumbersDistinct;
    if f in files {
      var j :| 0 <= j < |files| && files[j] == f;
      if g in files {
        var i :| 0 <= i < |files| && files[i] == g;
        forall x, y | x in f.entries && y in g.entries
          ensures x.key.sequence > y.key.sequence
        {
          assert x in Elements(f.entries) && y in Elements(g.entries);
          var b :| b in groups[i] && y in BatchEntries(b);
          var b' :| b' in groups[j] && x in BatchEntries(b');
          GroupsAscend(groups, i, j, b, b');
          BatchBounds(b, y);
          BatchBounds(b', x);
        }
      } else {
        FlattenEntries(groups);
        assert Elements(f.entries) == EntriesOf(groups[j]);
        forall y | y in g.entries
          ensures y in LevelEntries(v)
        {
          assert v[0] in v;
        }
      }
    }
  }

  lemma RecoveredNumbers(v: Levels, v': Levels, groups: seq<seq<Batch>>, files: seq<File>, first: nat)
    requires Recoverable(v, groups, files, first) && |v| == |v'| == NUM_LEVELS
    requires forall l | 1 <= l < NUM_LEVELS :: v'[l] == v[l]
    requires forall f :: f in v'[0] <==> f in v[0] || f in files
    ensures NumbersDistinct(v')
    ensures forall f, g | f in files && g in files && f.number == g.number :: f == g
  {
    hide ReadableLevels, Ascending, NewerThan, ValidFile;
    forall f, g | f in files && g in files && f.number == g.number
      ensures f == g
    {
      var i :| 0 <= i < |files| && files[i] == f;
      var j :| 0 <= j < |files| && files[j] == g;
    }
    forall l, f | 0 <= l < NUM_LEVELS && f in v'[l]
      ensures f in v[l] || (l == 0 && f in files && first <= f.number)
    {
    }
  }

  lemma RecoveredEntries(v: Levels, v': Levels, groups: seq<seq<Batch>>, files: seq<File>, first: nat)
    requires RecoveredTables(groups, files, first) && |v| == |v'| == NUM_LEVELS
    requires forall l | 1 <= l < NUM_LEVELS :: v'[l] == v[l]
    requires forall f :: f in v'[0] <==> f in v[0] || f in files
    ensures FileEntries(v'[0]) == FileEntries(v[0]) + EntriesOf(Flatten(groups))
    ensures LevelEntries(v') == LevelEntries(v) + EntriesOf(Flatten(groups))
  {
    hide ValidFile, EntriesOf, Flatten;
    FlattenEntries(groups);
    forall e
      ensures e in FileEntries(v'[0]) <==> e in FileEntries(v[0]) + EntriesOf(Flatten(groups))
    {
      if i :| 0 <= i < |groups| && e in EntriesOf(groups[i]) {
        assert e in Elements(files[i].entries) && files[i] in v'[0];
      }
      if e in FileEntries(v'[0]) && e !in FileEntries(v[0]) {
        var f :| f in v'[0] && e in f.entries;
        var i :| 0 <= i < |files| && files[i] == f;
        assert e in Elements(f.entries);
      }
    }
    forall e
      ensures e in LevelEntries(v') <==> e in LevelEntries(v) + EntriesOf(Flatten(groups))
    {
      InSomeLevel(v, e);
      InSomeLevel(v', e);
      assert e in FileEntries(v'[0]) <==> e in FileEntries(v[0]) || e in EntriesOf(Flatten(groups));
    }
  }

  lemma RecoveredReadable(v: Levels, v': Levels, groups: seq<seq<Batch>>, files: seq<File>, first: nat)
    requires Recoverable(v, groups, files, first) && (forall l | 0 <= l < |v| :: Ordered(v[l]))
    requires Applies(Edit({}, OnLevel(0, files)), v, v')
    ensures ReadableLevels(v') && NumbersDistinct(v')
    ensures LevelEntries(v') == LevelEntries(v) + EntriesOf(Flatten(groups))
    ensures forall l | 1 <= l < NUM_LEVELS :: v'[l] == v[l]
    ensures forall f :: f in v'[0] <==> f in v[0] || f in files
    ensures forall f, g | f in files && g in files && f.number == g.number :: f == g
  {
    hide Ordered, ValidFile, NewerThan, Ascending, EntriesOf, Flatten, ValidFiles, SortedFiles, Before, NumbersDistinct,
      FileEntries, LevelEntries;
    ReadableShape(v);
    RecoveredLevels(v, v', files);
    RecoveredNumbers(v, v', groups, files, first);
    RecoveredEntries(v, v', groups, files, first);
    RecoveredValid(v, v', groups, files, first);
    DistinctNumbers(v', 0);
    forall f, g | f in v'[0] && g in v'[0] && f.number > g.number
      ensures NewerThan(Elements(f.entries), Elements(g.entries))
    {
      RecoveredOrder(v, groups, files, first, f, g);
    }
    forall a, b | 0 <= a < b < |v'|
      ensures NewerThan(FileEntries(v'[a]), FileEntries(v'[b]))
    {
      RecoveredAbove(v, v', groups, a, b);
    }
  }

  lemma RecoveredValid(v: Levels, v': Levels, groups: seq<seq<Batch>>, files: seq<File>, first: nat)
    requires RecoveredTables(groups, files, first) && ValidLevels(v) && |v'| == NUM_LEVELS
    requires forall l | 1 <= l < NUM_LEVELS :: v'[l] == v[l]
    requires forall f :: f in v'[0] <==> f in v[0] || f in files
    ensures ValidLevels(v')
  {
    hide ValidFile, SortedFiles, EntriesOf;
    forall i | 0 <= i < |v'[0]|
      ensures ValidFile(v'[0][i])
    {
      assert v'[0][i] in v'[0];
      if v'[0][i] in v[0] {
        ValidMember(v[0], v'[0][i]);
      }
    }
  }

  lemma RecoveredAbove(v: Levels, v': Levels, groups: seq<seq<Batch>>, a: nat, b: nat)
    requires |v| == |v'| == NUM_LEVELS && a < b < NUM_LEVELS && ShallowerIsNewer(v)
    requires forall l | 1 <= l < NUM_LEVELS :: v'[l] == v[l]
    requires FileEntries(v'[0]) == FileEntries(v[0]) + EntriesOf(Flatten(groups))
    requires NewerThan(EntriesOf(Flatten(groups)), LevelEntries(v))
    ensures NewerThan(FileEntries(v'[a]), FileEntries(v'[b]))
  {
    hide FileEntries, EntriesOf, Flatten;
    assert NewerThan(FileEntries(v[a]), FileEntries(v[b]));
    if a == 0 {
      forall y | y in FileEntries(v[b])
        ensures y in LevelEntries(v)
      {
        InLevel(v, b, y);
      }
    }
  }

  // ----- The logs after recovery -----

  /** What a successful open looks like from the invariant's side. */
  ghost predicate Opens(s: State, s': State, v: Levels, o: Opening) {
    Open(s, s', v, o) && StoredInv(s.disk, v, s.history, LastStored(s.disk)) && Load(v, s.disk.tables) == v
  }

  /** The records not flushed are those of the log that is reused, if any. */
  lemma RestIsLastLog(s: State, s': State, v: Levels, o: Opening)
    requires Opens(s, s', v, o)
    ensures Flatten(o.groups) == Updates(Flushed(s.disk, o))
    ensures LiveRecords(s.disk) == Flushed(s.disk, o) + KeptInLog(s.disk, o)
    ensures EntriesOf(o.rest) == EntriesOf(KeptInLog(s.disk, o))
  {
    hide StoredInv;
    var h := LastHeader(s.disk.manifest).value;
    UpdatesAppend(Flushed(s.disk, o), KeptInLog(s.disk, o));
    if o.reuse {
      LiveRecordsAre(s.disk, o.logFile);
      UpdatesKeepEntries(s.disk.logs[o.logFile]);
      var a, b := Flatten(o.groups), Updates(Flushed(s.disk, o));
      assert a == (a + o.rest)[..|a|] && b == (b + o.rest)[..|b|];
    } else {
      assert LiveRecords(s.disk) + [] == LiveRecords(s.disk);
    }
  }

  /** The records that go to level-0 tables. */
  ghost function Flushed(disk: Disk, o: Opening): seq<Batch>
    requires LastHeader(disk.manifest).Some?
  {
    if o.reuse then Records(disk.logs, LastHeader(disk.manifest).value.logNumber, o.logFile) else LiveRecords(disk)
  }

  /** The records that stay in a log. */
  ghost function KeptInLog(disk: Disk, o: Opening): seq<Batch> {
    if o.reuse && o.logFile in disk.logs then disk.logs[o.logFile] else []
  }

  lemma HeaderBound(disk: Disk, v: Levels)
    requires VersionInv(disk, v)
    ensures LastHeader(disk.manifest).Some?
    ensures LastHeader(disk.manifest).value.logNumber < LastHeader(disk.manifest).value.nextFile
  {
  }

  lemma OpenedHeader(s: State, s': State, v: Levels, o: Opening)
    requires Opens(s, s', v, o)
    ensures LastHeader(s'.disk.manifest).Some?
    ensures o.save ==> LastHeader(s'.disk.manifest) == Some(Header(o.logFile, o.nextFile, LastStored(s.disk)))
    ensures !o.save ==> s'.disk.manifest == s.disk.manifest && o.files == [] && o.groups == []
  {
    hide StoredInv, LiveRecords, Applies;
    if o.save {
      EditsAppend(if o.newManifest then [Record(SnapshotEdit(v), None)] else s.disk.manifest,
                  Record(Edit({}, OnLevel(0, o.files)), Some(Header(o.logFile, o.nextFile, LastStored(s.disk)))));
      assert [Record(SnapshotEdit(v), None), s'.disk.manifest[|s'.disk.manifest| - 1]] ==
        [Record(SnapshotEdit(v), None)] + [s'.disk.manifest[|s'.disk.manifest| - 1]];
    }
  }

  lemma OpenedRecords(s: State, s': State, v: Levels, o: Opening)
    requires Opens(s, s', v, o)
    ensures LastHeader(s'.disk.manifest).Some?
    ensures LiveRecords(s'.disk) == if o.save then KeptInLog(s.disk, o) else LiveRecords(s.disk)
    ensures MemInv(s'.disk, s'.engine.value)
  {
    hide Applies, RecoveredTables, VersionInv, LogInv, ReadsPreserved, LiveRecords;
    assert LastHeader(s.disk.manifest).value.logNumber < LastHeader(s.disk.manifest).value.nextFile by {
      HeaderBound(s.disk, v);
    }
    OpenedHeader(s, s', v, o);
    RestIsLastLog(s, s', v, o);
    assert o.logFile in s'.disk.logs.Keys;
    LiveRecordsAre(s'.disk, o.logFile);
    if !o.save {
      KeptRecords(s, s', v, o);
    }
  }

  /** With nothing to save, every live record was empty or stays in the reused log. */
  lemma KeptRecords(s: State, s': State, v: Levels, o: Opening)
    requires Opens(s, s', v, o) && !o.save
    requires LastHeader(s.disk.manifest).Some? && s'.disk.manifest == s.disk.manifest
    requires Updates(Flushed(s.disk, o)) == []
    requires o.reuse ==> o.logFile in s.disk.logs && s'.disk.logs == s.disk.logs
    requires !o.reuse ==> LastHeader(s.disk.manifest).value.logNumber < o.logFile
    ensures LiveRecords(s'.disk) == LiveRecords(s.disk)
    ensures EntriesOf(Records(s'.disk.logs, s'.engine.value.logNumber, o.logFile)) == {}
  {
    hide Applies, RecoveredTables, VersionInv, LogInv, ReadsPreserved;
    UpdatesKeepEntries(Flushed(s.disk, o));
    if !o.reuse {
      EmptyTopLog(s.disk, s'.disk, o.logFile);
      LiveRecordsAre(s'.disk, o.logFile);
      EntriesOfConcat(Records(s'.disk.logs, s'.engine.value.logNumber, o.logFile), []);
    }
  }

  // ----- The disk after recovery -----

  lemma {:induction false} SnapshotNames(v: Levels, n: nat)
    requires n <= |v|
    ensures forall f | f in NamedBy(Edit({}, SnapshotAdded(v, n))) :: exists l :: 0 <= l < n && f in v[l]
  {
    if n > 0 {
      SnapshotNames(v, n - 1);
      var init, last := SnapshotAdded(v, n - 1), OnLevel(n - 1, v[n - 1]);
      forall f | f in NamedBy(Edit({}, SnapshotAdded(v, n)))
        ensures exists l :: 0 <= l < n && f in v[l]
      {
        var all: seq<(nat, File)> := init + last;
        var i :| 0 <= i < |all| && all[i].1 == f;
        if i < |init| {
          assert f in NamedBy(Edit({}, init));
        } else {
          assert f == v[n - 1][i - |init|];
        }
      }
    }
  }

  lemma RecoveredNames(files: seq<File>)
    ensures NamedBy(Edit({}, OnLevel(0, files))) == FileSet(files) && WellFormed(Edit({}, OnLevel(0, files)))
  {
    var edit := Edit({}, OnLevel(0, files));
    forall f | f in files
      ensures f in NamedBy(edit)
    {
      var i :| 0 <= i < |files| && files[i] == f;
      assert edit.added[i] == (0, f);
    }
  }

  /** Both ways of saving: a record behind the old ones, or a new MANIFEST that starts with a snapshot. */
  lemma OpenedManifest(s: State, s': State, v: Levels, o: Opening)
    requires Opens(s, s', v, o) && o.save
    requires forall f, g | f in o.files && g in o.files && f.number == g.number :: f == g
    ensures ManifestInv(s'.disk.manifest, o.version)
  {
    hide ReadableLevels, NumbersDistinct, Intact, LogInv, ReadsPreserved, LiveRecords, Ordered, IsVersionOf, Applies,
      LastStored;
    var before := s.disk.manifest;
    var r := s'.disk.manifest[|s'.disk.manifest| - 1];
    RecoveredNames(o.files);
    assert forall f | f in o.files :: LastHeader(before).value.nextFile <= f.number < o.nextFile;
    VersionShape(before, v);
    forall l, f | 0 <= l < NUM_LEVELS && f in v[l]
      ensures f in Named(Edits(before)) && f.number < LastHeader(before).value.nextFile
    {
      VersionIsNamed(before, v, l, f);
    }
    if o.newManifest {
      FreshManifest(v, o.version, r, LastHeader(before).value.nextFile, Named(Edits(before)));
    } else {
      AppendRecord(before, v, o.version, r);
    }
  }

  lemma FreshManifest(v: Levels, v': Levels, r: Record, bound: nat, named: set<File>)
    requires |v| == NUM_LEVELS && forall l | 0 <= l < NUM_LEVELS :: Ordered(v[l])
    requires forall l, f | 0 <= l < NUM_LEVELS && f in v[l] :: f in named && f.number < bound
    requires NumberFixesFile(named) && WellFormed(r.edit) && Applies(r.edit, v, v')
    requires r.header.Some? && bound <= r.header.value.nextFile && r.header.value.logNumber < r.header.value.nextFile
    requires NumberFixesFile(NamedBy(r.edit))
    requires forall f | f in NamedBy(r.edit) :: bound <= f.number < r.header.value.nextFile
    ensures ManifestInv([Record(SnapshotEdit(v), None), r], v')
  {
    hide Ordered;
    var snap := SnapshotEdit(v);
    SnapshotRebuilds(v);
    SnapshotNames(v, |v|);
    var manifest := [Record(snap, None), r];
    assert manifest == [Record(snap, None)] + [r];
    EditsAppend([Record(snap, None)], r);
    assert Edits([Record(snap, None)]) == [snap] && [snap] == [] + [snap];
    NamedAppend([], snap);
    NamedAppend([snap], r.edit);
    assert ([snap] + [r.edit])[..1] == [snap];
    forall l | 0 <= l < NUM_LEVELS
      ensures FileSet(v'[l]) == Stepped({}, [snap] + [r.edit], l)
    {
      assert Stepped({}, [snap], l) == FileSet(v[l]);
    }
  }

  lemma OpenedVersion(s: State, s': State, v: Levels, o: Opening)
    requires Opens(s, s', v, o)
    ensures VersionInv(s'.disk, o.version)
    ensures LevelEntries(o.version) == LevelEntries(v) + EntriesOf(Flatten(o.groups))
  {
    hide ReadableLevels, NumbersDistinct, ReadsPreserved, LiveRecords, Ordered, IsVersionOf, Applies, Ascending,
      ValidFile, EntriesOf, Flatten, ManifestInv, NewerThan;
    var first := LastHeader(s.disk.manifest).value.nextFile;
    VersionShape(s.disk.manifest, v);
    OpenedRecoverable(s, s', v, o);
    RecoveredReadable(v, o.version, o.groups, o.files, first);
    ReadableShape(o.version);
    forall l, g | 0 <= l < |v| && g in v[l]
      ensures g.number < first
    {
      VersionIsNamed(s.disk.manifest, v, l, g);
    }
    RecoveredIntact(s.disk.tables, v, o.version, o.files, first);
    OpenedHeader(s, s', v, o);
    if o.save {
      OpenedManifest(s, s', v, o);
    } else {
      OpenedUnsaved(v, o.version);
    }
  }

  lemma RecoveredIntact(tables: map<nat, seq<Entry>>, v: Levels, v': Levels, files: seq<File>, first: nat)
    requires Intact(v, tables) && |v| == |v'| == NUM_LEVELS
    requires forall l | 1 <= l < NUM_LEVELS :: v'[l] == v[l]
    requires forall f :: f in v'[0] <==> f in v[0] || f in files
    requires forall l, g | 0 <= l < |v| && g in v[l] :: g.number < first
    requires forall i | 0 <= i < |files| :: first <= files[i].number && forall j | 0 <= j < i :: files[j].number < files[i].number
    ensures Intact(v', WithTables(tables, files))
  {
    hide WithTables;
    WithTablesAre(tables, files);
    assert forall i, j | 0 <= i < j < |files| :: files[i].number != files[j].number;
    forall l, f | 0 <= l < NUM_LEVELS && f in v'[l]
      ensures f.number in WithTables(tables, files) && WithTables(tables, files)[f.number] == f.entries
    {
      if f in v[l] {
        assert forall g | g in files :: g.number != f.number;
      }
    }
  }

  lemma OpenedUnsaved(v: Levels, v': Levels)
    requires Applies(Edit({}, OnLevel(0, [])), v, v') && forall l | 0 <= l < NUM_LEVELS :: Ordered(v[l])
    ensures v' == v
  {
    hide Ordered;
    assert OnLevel(0, []) == [];
    NothingFlushed(v, v', 0);
  }

  lemma OpenedRecoverable(s: State, s': State, v: Levels, o: Opening)
    requires Opens(s, s', v, o)
    ensures Recoverable(v, o.groups, o.files, LastHeader(s.disk.manifest).value.nextFile)
  {
    hide ReadsPreserved, LiveRecords, Ordered, IsVersionOf, Applies, ValidFile, ReadableLevels, NumbersDistinct;
    var records := LiveRecords(s.disk);
    RestIsLastLog(s, s', v, o);
    VersionShape(s.disk.manifest, v);
    SuffixFollows(Flushed(s.disk, o), KeptInLog(s.disk, o));
    UpdatesAscend(Flushed(s.disk, o));
    UpdatesKeepEntries(Flushed(s.disk, o));
    forall x, y | x in EntriesOf(Flatten(o.groups)) && y in LevelEntries(v)
      ensures x.key.sequence > y.key.sequence
    {
      var b :| b in Flushed(s.disk, o) && x in BatchEntries(b);
      assert b in Flushed(s.disk, o) + KeptInLog(s.disk, o);
      BatchBounds(b, x);
    }
    forall l, g | 0 <= l < |v| && g in v[l]
      ensures g.number < LastHeader(s.disk.manifest).value.nextFile
    {
      VersionIsNamed(s.disk.manifest, v, l, g);
    }
  }

  /** What was stored stays stored: flushed records in the version, the others in the reused log. */
  lemma OpenedStore(s: State, s': State, v: Levels, o: Opening)
    requires Opens(s, s', v, o)
    requires LevelEntries(o.version) == LevelEntries(v) + EntriesOf(Flatten(o.groups))
    ensures LastHeader(s'.disk.manifest).Some? && Stored(s'.disk, o.version) == Stored(s.disk, v)
  {
    hide ReadsPreserved, LiveRecords, VersionInv, LogInv, Applies, RecoveredTables, MemInv, Flatten;
    OpenedHeader(s, s', v, o);
    OpenedRecords(s, s', v, o);
    RestIsLastLog(s, s', v, o);
    EntriesOfConcat(Flushed(s.disk, o), KeptInLog(s.disk, o));
    UpdatesKeepEntries(Flushed(s.disk, o));
    if !o.save {
      NoGroups(o.groups);
    }
  }

  /** What was flushed is settled now, and the version has it. */
  lemma OpenedReads(s: State, s': State, v: Levels, o: Opening)
    requires Opens(s, s', v, o)
    requires LevelEntries(o.version) == LevelEntries(v) + EntriesOf(Flatten(o.groups))
    ensures LastHeader(s'.disk.manifest).Some?
    ensures ReadsPreserved(Settled(s'.disk, s'.history), LevelEntries(o.version), LastStored(s.disk))
  {
    hide ReadsPreserved, LiveRecords, VersionInv, Applies, RecoveredTables, MemInv, Flatten, Flushed, KeptInLog, EntriesOf,
      Ascending, Unique;
    OpenedHeader(s, s', v, o);
    OpenedRecords(s, s', v, o);
    RestIsLastLog(s, s', v, o);
    UpdatesKeepEntries(Flushed(s.disk, o));
    if o.save {
      var settled := Settled(s.disk, s.history);
      MovesOver(s.history, settled, Flushed(s.disk, o), KeptInLog(s.disk, o));
      AddNewer(settled, LevelEntries(v), EntriesOf(Flushed(s.disk, o)), LastStored(s.disk));
    } else {
      NoGroups(o.groups);
      assert LevelEntries(o.version) == LevelEntries(v);
      assert Settled(s'.disk, s'.history) == Settled(s.disk, s.history);
    }
  }

  /** The records that stay follow everything that was flushed. */
  lemma KeptFollows(disk: Disk, v: Levels, o: Opening, history: set<Entry>)
    requires LogInv(disk, v, history) && LiveRecords(disk) == Flushed(disk, o) + KeptInLog(disk, o)
    ensures Ascending(KeptInLog(disk, o)) && forall r | r in KeptInLog(disk, o) :: r in LiveRecords(disk)
    ensures forall r, x | r in KeptInLog(disk, o) && x in EntriesOf(Flushed(disk, o)) :: x.key.sequence < r.sequence
  {
    hide LiveRecords, Unique, Flushed, KeptInLog;
    SuffixFollows(Flushed(disk, o), KeptInLog(disk, o));
  }

  lemma OpenedLogs(s: State, s': State, v: Levels, o: Opening)
    requires Opens(s, s', v, o)
    requires LevelEntries(o.version) == LevelEntries(v) + EntriesOf(Flatten(o.groups))
    ensures LogInv(s'.disk, o.version, s'.history)
  {
    hide ReadsPreserved, LiveRecords, VersionInv, Applies, RecoveredTables, Unique, MemInv, Flatten, Flushed, KeptInLog, EntriesOf,
      LogInv, Ascending;
    OpenedHeader(s, s', v, o);
    OpenedRecords(s, s', v, o);
    RestIsLastLog(s, s', v, o);
    UpdatesKeepEntries(Flushed(s.disk, o));
    SameHistory(s, s', v, o);
    if o.save {
      SettledLog(s.disk, s'.disk, v, o.version, s.history, Flushed(s.disk, o));
    } else {
      NoGroups(o.groups);
      assert LevelEntries(o.version) == LevelEntries(v);
      SameLog(s.disk, s'.disk, v, o.version, s.history);
    }
  }

  lemma SameHistory(s: State, s': State, v: Levels, o: Opening)
    requires Opens(s, s', v, o)
    ensures s'.history == s.history
  {
    hide LiveRecords, Applies, RecoveredTables, StoredInv, Updates;
  }

  lemma SameLog(disk: Disk, disk': Disk, v: Levels, v': Levels, history: set<Entry>)
    requires LogInv(disk, v, history) && LevelEntries(v') == LevelEntries(v)
    requires disk'.manifest == disk.manifest && LiveRecords(disk') == LiveRecords(disk)
    ensures LogInv(disk', v', history)
  {
    hide LiveRecords, EntriesOf, Ascending, Unique;
  }

  /** Records leave the live logs for the version, in front of those that stay. */
  lemma SettledLog(disk: Disk, disk': Disk, v: Levels, v': Levels, history: set<Entry>, moved: seq<Batch>)
    requires LogInv(disk, v, history) && LevelEntries(v') == LevelEntries(v) + EntriesOf(moved)
    requires LastHeader(disk'.manifest).Some? && LastHeader(disk'.manifest).value.lastSequence == LastStored(disk)
    requires LiveRecords(disk) == moved + LiveRecords(disk')
    ensures LogInv(disk', v', history)
  {
    hide LiveRecords, EntriesOf, Ascending, Unique;
    MovesOver(history, Settled(disk, history), moved, LiveRecords(disk'));
    SuffixFollows(moved, LiveRecords(disk'));
    EntriesOfConcat(moved, LiveRecords(disk'));
    MaxEndBounds(LiveRecords(disk'), LastStored(disk));
  }

  lemma OpenedCounters(s: State, s': State, v: Levels, o: Opening)
    requires Opens(s, s', v, o)
    ensures CounterInv(s'.disk, s'.engine.value, s'.history)
  {
    hide ReadsPreserved, LiveRecords, VersionInv, Applies, RecoveredTables, MemInv, Flatten, Flushed, KeptInLog,
      EntriesOf, Ascending, Unique;
    OpenedHeader(s, s', v, o);
    OpenedRecords(s, s', v, o);
    RestIsLastLog(s, s', v, o);
    KeptFollows(s.disk, v, o, s.history);
    MaxEndBounds(LiveRecords(s.disk), LastHeader(s.disk.manifest).value.lastSequence);
    MaxEndBounds(LiveRecords(s'.disk), LastHeader(s'.disk.manifest).value.lastSequence);
  }

  lemma NoGroups(groups: seq<seq<Batch>>)
    requires groups == []
    ensures Flatten(groups) == [] && EntriesOf([]) == {}
  {
  }

  lemma OpenKeeps(s: State, s': State, v: Levels, o: Opening)
    requires Inv(s) && Open(s, s', v, o)
    ensures Inv(s')
  {
    hide VersionInv, LogInv, ReadsPreserved, MemInv, CounterInv, Stored, LiveRecords, RecoveredTables, Updates, Flatten,
      EntriesOf, Ordered, Built, WithTables, Load, AllPresent, SnapshotEdit;
    var w :| StoredInv(s.disk, w, s.history, LastStored(s.disk));
    SameAsStored(s.disk, w, v);
    OpenedVersion(s, s', v, o);
    OpenedRecords(s, s', v, o);
    OpenedLogs(s, s', v, o);
    OpenedReads(s, s', v, o);
    OpenedCounters(s, s', v, o);
  }

  lemma SameAsStored(disk: Disk, w: Levels, v: Levels)
    requires VersionInv(disk, w) && LastHeader(disk.manifest).Some? && IsVersionOf(v, Edits(disk.manifest))
    ensures v == w && Load(v, disk.tables) == v && AllPresent(v, disk.tables)
  {
    hide ReadableLevels, NumbersDistinct;
    VersionIsUnique(v, w, Edits(disk.manifest));
    LoadsBack(w, disk.tables);
  }

  lemma FailedOpenKeeps(s: State, s': State, files: seq<File>, log: Option<nat>)
    requires Inv(s) && FailedOpen(s, s', files, log)
    ensures Inv(s')
  {
    hide ReadableLevels, NumbersDistinct, ReadsPreserved, LiveRecords, ManifestInv, WithTables;
    var v: Levels :| StoredInv(s.disk, v, s.history, LastStored(s.disk));
    WithTablesAre(s.disk.tables, files);
    forall l, f | 0 <= l < |v| && f in v[l]
      ensures f.number in s'.disk.tables && s'.disk.tables[f.number] == f.entries
    {
      VersionShape(s.disk.manifest, v);
      VersionIsNamed(s.disk.manifest, v, l, f);
      assert forall g | g in files :: g.number != f.number;
    }
    if log.Some? {
      EmptyTopLog(s.disk, s'.disk, log.value);
    } else {
      LogFrame(s.disk, s'.disk, v, s.history);
    }
    assert StoredInv(s'.disk, v, s'.history, LastStored(s'.disk));
  }
}
