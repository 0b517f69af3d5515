/** The MANIFEST of the database state machine as bytes: in every state of every run there are records that hold it, and
    Recover reads them back. */
module ManifestBytes {
  import opened Entries
  import opened Encodings
  import opened Files
  import opened Reads
  import opened Inputs
  import opened Compactions
  import opened Manifest
  import opened Installs
  import opened V = VersionEdits
  import opened Recovery
  import opened DatabaseState
  import opened DatabaseJobs
  import opened DatabaseOpen
  import opened DatabaseRuns
  import DatabaseReopen
  import D = Database
  import KeyOrder

  // ----- Keys and files -----

  /** The key of a byte string that is not too long. */
  ghost predicate IsStored(k: IKey) {
    exists b: KeyOrder.StoredKey :: KeyOrder.KeyOf(b) == k && k.sequence <= MAX_SEQUENCE && |b.user| + 8 < MAX32
  }

  ghost function StoredOf(k: IKey): (r: Bytes)
    requires IsStored(k)
    ensures KeyFrom(r) == k && KeyFits(r)
  {
    var b: KeyOrder.StoredKey :| KeyOrder.KeyOf(b) == k && k.sequence <= MAX_SEQUENCE && |b.user| + 8 < MAX32;
    KeyRoundTrip(b);
    KeyOrder.Encoded(b)
  }

  /** What the MANIFEST says of a file fits its record. */
  ghost predicate Describable(f: File) {
    IsStored(f.smallest) && IsStored(f.largest) && f.number < MAX64 && f.size < MAX64
  }

  ghost function MetaOf(f: File): Meta
    requires Describable(f)
  {
    Meta(f.number, f.size, StoredOf(f.smallest), StoredOf(f.largest))
  }

  ghost predicate TableOf(tables: map<nat, seq<Entry>>, f: File) {
    f.number in tables && tables[f.number] == f.entries
  }

  lemma MetaIsFile(f: File, tables: map<nat, seq<Entry>>)
    requires Describable(f) && TableOf(tables, f)
    ensures FileFrom(MetaOf(f), tables) == f
  {
  }

  /** All tables ever named, under their numbers. */
  lemma {:induction false} AllTables(files: set<File>) returns (tables: map<nat, seq<Entry>>)
    requires NumberFixesFile(files)
    ensures forall f | f in files :: TableOf(tables, f)
  {
    tables := map[];
    if files != {} {
      var f :| f in files;
      var rest := AllTables(files - {f});
      tables := rest[f.number := f.entries];
      forall g | g in files
        ensures TableOf(tables, g)
      {
        if g != f {
          assert g in files - {f} && g.number != f.number;
        }
      }
    }
  }

  /** A set of deleted files as it is stored. */
  lemma {:induction false} InAscendingOrder(S: set<(nat, nat)>) returns (ds: seq<(nat, nat)>)
    ensures V.Ascending(ds) && forall d :: d in ds <==> d in S
  {
    ds := [];
    if S != {} {
      var d :| d in S;
      var rest := InAscendingOrder(S - {d});
      InsertedIs(rest, d);
      ds := Inserted(rest, d);
    }
  }

  // ----- Records -----

  /** The numbers of a record fit in 64 bits. */
  ghost predicate InRange(r: D.Record) {
    WellFormed(r.edit) && (forall d | d in r.edit.deleted :: d.1 < MAX64) &&
    (forall i | 0 <= i < |r.edit.added| :: Describable(r.edit.added[i].1)) &&
    (r.header.Some? ==>
       r.header.value.logNumber < MAX64 && r.header.value.nextFile < MAX64 && r.header.value.lastSequence < MAX64)
  }

  ghost function MetasOf(added: seq<(nat, File)>): (r: seq<(nat, Meta)>)
    requires forall i | 0 <= i < |added| :: Describable(added[i].1)
    ensures |r| == |added|
  {
    seq(|added|, i requires 0 <= i < |added| => (added[i].0, MetaOf(added[i].1)))
  }

  ghost function EditOf(r: D.Record, ds: seq<(nat, nat)>): StoredEdit
    requires InRange(r)
  {
    V.EMPTY.(logNumber := if r.header.Some? then Some(r.header.value.logNumber) else None,
           nextFileNumber := if r.header.Some? then Some(r.header.value.nextFile) else None,
           lastSequence := if r.header.Some? then Some(r.header.value.lastSequence) else None,
           deletedFiles := ds, newFiles := MetasOf(r.edit.added))
  }

  lemma EditMeans(r: D.Record, ds: seq<(nat, nat)>, tables: map<nat, seq<Entry>>)
    requires InRange(r) && forall d :: d in ds <==> d in r.edit.deleted
    requires forall i | 0 <= i < |r.edit.added| :: TableOf(tables, r.edit.added[i].1)
    ensures Meaning(EditOf(r, ds), tables) == r.edit && Carries(EditOf(r, ds), r.header)
  {
    hide Describable, MetaOf, FileFrom, TableOf;
    var e := EditOf(r, ds);
    forall i | 0 <= i < |r.edit.added|
      ensures FilesFrom(e.newFiles, tables)[i] == r.edit.added[i]
    {
      MetaIsFile(r.edit.added[i].1, tables);
    }
    assert FilesFrom(e.newFiles, tables) == r.edit.added;
    assert (set d | d in ds) == r.edit.deleted;
  }

  lemma EditIsStorable(r: D.Record, ds: seq<(nat, nat)>)
    requires InRange(r) && V.Ascending(ds) && forall d :: d in ds <==> d in r.edit.deleted
    ensures Storable(EditOf(r, ds))
  {
    hide V.Ascending, MetaOf, Describable, IsStored, KeyFits;
    var e := EditOf(r, ds);
    forall x | x in Numbers(e)
      ensures Fits(x)
    {
    }
    forall i | 0 <= i < |ds|
      ensures Fits(Deletions(ds)[i])
    {
      assert ds[i] in ds;
    }
    forall i | 0 <= i < |e.newFiles|
      ensures Fits(Additions(e.newFiles)[i])
    {
      MetaFits(r.edit.added[i].1);
    }
    assert forall x | x in Records(e) :: x in Numbers(e) || x in Deletions(ds) || x in Additions(e.newFiles);
  }

  lemma MetaFits(f: File)
    requires Describable(f)
    ensures var m := MetaOf(f); m.number < MAX64 && m.size < MAX64 && KeyFits(m.smallest) && KeyFits(m.largest)
  {
  }

  /** Edits that can be stored and hold the MANIFEST. */
  lemma {:induction false} EditsFor(manifest: seq<D.Record>, tables: map<nat, seq<Entry>>) returns (es: seq<StoredEdit>)
    requires forall i | 0 <= i < |manifest| :: InRange(manifest[i])
    requires forall f | f in Named(D.Edits(manifest)) :: TableOf(tables, f)
    ensures Holds(es, tables, manifest) && forall i | 0 <= i < |es| :: Storable(es[i])
  {
    hide InRange, EditOf, Meaning, Storable, TableOf, NamedBy;
    es := [];
    if manifest != [] {
      var init, r := manifest[..|manifest| - 1], manifest[|manifest| - 1];
      assert manifest == init + [r];
      EditsAppend(init, r);
      NamedAppend(D.Edits(init), r.edit);
      es := EditsFor(init, tables);
      var ds := InAscendingOrder(r.edit.deleted);
      AddedIsNamedBy(r.edit, tables);
      EditMeans(r, ds, tables);
      EditIsStorable(r, ds);
      es := es + [EditOf(r, ds)];
      assert Meanings(es, tables) == Meanings(es[..|es| - 1], tables) + [r.edit];
    }
  }

  lemma AddedIsNamedBy(e: Edit, tables: map<nat, seq<Entry>>)
    requires forall f | f in NamedBy(e) :: TableOf(tables, f)
    ensures forall i | 0 <= i < |e.added| :: TableOf(tables, e.added[i].1)
  {
    forall i | 0 <= i < |e.added|
      ensures TableOf(tables, e.added[i].1)
    {
      assert e.added[i].1 in NamedBy(e);
    }
  }

  // ----- Files hold what was written -----

  /** Every entry written up to state i. */
  ghost function Ever(states: seq<D.State>, i: nat): set<Entry>
    requires i < |states|
  {
    if i == 0 then states[0].history else Ever(states, i - 1) + states[i].history
  }

  /** Every file the MANIFEST ever named is made of entries that were written. */
  ghost predicate NamesAreWritten(s: D.State, ever: set<Entry>) {
    s.history <= ever && forall f | f in Named(D.Edits(s.disk.manifest)) :: ValidFile(f) && Elements(f.entries) <= ever
  }

  lemma KeysAreWritten(f: File, history: set<Entry>)
    requires ValidFile(f) && Elements(f.entries) <= history && forall e | e in history :: IsStored(e.key)
    ensures IsStored(f.smallest) && IsStored(f.largest)
  {
    assert f.entries[0] in Elements(f.entries) && f.entries[|f.entries| - 1] in Elements(f.entries);
  }

  lemma NamesAppend(s: D.State, s': D.State, r: D.Record, ever: set<Entry>)
    requires NamesAreWritten(s, ever) && s'.disk.manifest == s.disk.manifest + [r] && s'.history <= ever
    requires forall f | f in NamedBy(r.edit) ::
      f in Named(D.Edits(s.disk.manifest)) || (ValidFile(f) && Elements(f.entries) <= ever)
    ensures NamesAreWritten(s', ever)
  {
    hide ValidFile, NamedBy;
    EditsAppend(s.disk.manifest, r);
    NamedAppend(D.Edits(s.disk.manifest), r.edit);
  }

  lemma FlushNames(s: D.State, s': D.State, v: Levels, ever: set<Entry>)
    requires Inv(s) && D.InstallFlush(s, s', v) && NamesAreWritten(s, ever) && s'.history <= ever
    ensures NamesAreWritten(s', ever)
  {
    hide VersionInv, LogInv, ReadsPreserved, MemInv, CounterInv, SnapshotInv, ValidFile, NamesAreWritten, D.Applies;
    var e := s.engine.value;
    ContentsInHistory(s);
    var edit := D.FlushEdit(e.background.file, e.background.target);
    assert forall f | f in NamedBy(edit) :: e.background.file == Some(f);
    NamesAppend(s, s', D.RecordNow(e, edit, e.logFile), ever);
  }

  lemma CompactionNames(s: D.State, s': D.State, v: Levels, ever: set<Entry>)
    requires Inv(s) && D.InstallCompaction(s, s', v) && NamesAreWritten(s, ever) && s'.history <= ever
    ensures NamesAreWritten(s', ever)
  {
    hide VersionInv, LogInv, ReadsPreserved, MemInv, CounterInv, SnapshotInv, ValidFile, NamesAreWritten, D.Applies, Kept,
      WellChosen, NothingExposed, Sorted, D.CompactionEditOf, ReadableLevels, Unique;
    var e, b := s.engine.value, s.engine.value.background;
    LayersOrdered(s);
    ReadableShape(e.version);
    CompactionOutputs(e, b);
    CompactionNamesOutputs(b.level, b.inputs, b.outputs);
    assert LevelEntries(e.version) <= s.history;
    forall f | f in b.outputs
      ensures ValidFile(f) && Elements(f.entries) <= s.history
    {
      OutputEntries(e, b, f);
    }
    NamesAppend(s, s', D.RecordNow(e, D.CompactionEditOf(b.level, b.inputs, b.outputs), e.logNumber), ever);
  }

  lemma CompactionNamesOutputs(level: nat, c: CompactionInputs, outputs: seq<File>)
    ensures NamedBy(D.CompactionEditOf(level, c, outputs)) == FileSet(outputs)
  {
    var added := D.CompactionEditOf(level, c, outputs).added;
    assert |added| == |outputs| && forall i | 0 <= i < |outputs| :: added[i].1 == outputs[i];
    forall f | f in outputs
      ensures f in NamedBy(D.CompactionEditOf(level, c, outputs))
    {
      var i :| 0 <= i < |outputs| && outputs[i] == f;
      assert added[i].1 == f;
    }
  }

  lemma OutputEntries(e: D.Engine, b: D.Background, f: File)
    requires b.Compacting? && |e.version| == NUM_LEVELS && b.level + 1 < NUM_LEVELS && ValidLevels(e.version)
    requires WellChosen(e.version, b.level, b.inputs) && OutputsFrom(b.inputs, b.outputs) && f in b.outputs
    ensures ValidFile(f) && Elements(f.entries) <= LevelEntries(e.version)
  {
    hide WellChosen, Less;
    ValidMember(b.outputs, f);
    forall x | x in f.entries
      ensures x in LevelEntries(e.version)
    {
      assert x in FileEntries(b.outputs);
      InputsInLevels(e.version, b.level, b.inputs, x);
    }
  }

  lemma MoveNames(s: D.State, s': D.State, level: nat, c: CompactionInputs, v: Levels, ever: set<Entry>)
    requires Inv(s) && D.MoveFile(s, s', level, c, v) && NamesAreWritten(s, ever) && s'.history <= ever
    ensures NamesAreWritten(s', ever)
  {
    hide LogInv, ReadsPreserved, MemInv, CounterInv, SnapshotInv, BackgroundInv, ValidFile, NamesAreWritten, D.Applies, WellChosen,
      D.CompactionEditOf, ReadableLevels, NumbersDistinct, ManifestInv;
    var e := s.engine.value;
    CompactionNamesOutputs(level, c, c.inputs0);
    ReadableShape(e.version);
    forall f | f in c.inputs0
      ensures f in Named(D.Edits(s.disk.manifest))
    {
      MovedIsInLevel(e.version, level, c, f);
      VersionIsNamed(s.disk.manifest, e.version, level, f);
    }
    NamesAppend(s, s', D.RecordNow(e, D.CompactionEditOf(level, c, c.inputs0), e.logNumber), ever);
  }

  lemma MovedIsInLevel(v: Levels, level: nat, c: CompactionInputs, f: File)
    requires |v| == NUM_LEVELS && level + 1 < NUM_LEVELS && WellChosen(v, level, c) && f in c.inputs0
    ensures f in v[level]
  {
    hide OlderStaysIn;
    StartableInLevel(v, level, c.inputs0);
  }

  lemma OpenNames(s: D.State, s': D.State, v: Levels, o: D.Opening, ever: set<Entry>)
    requires Inv(s) && D.Open(s, s', v, o) && NamesAreWritten(s, ever) && s'.history <= ever
    ensures NamesAreWritten(s', ever)
  {
    hide ReadsPreserved, ValidFile, NamesAreWritten, D.Applies, ReadableLevels, NumbersDistinct, ManifestInv, IsVersionOf,
      D.LiveRecords, D.Updates, D.Flatten, D.EntriesOf, Unique, DatabaseState.Ascending, D.WithTables;
    var w :| StoredInv(s.disk, w, s.history, LastStored(s.disk));
    SameAsStored(s.disk, w, v);
    RecoveredWritten(s, s', v, o);
    RecoveredNames(o.files);
    VersionShape(s.disk.manifest, v);
    if o.save {
      var r := s'.disk.manifest[|s'.disk.manifest| - 1];
      if o.newManifest {
        SnapshotNames(v, |v|);
        forall f | f in NamedBy(SnapshotEdit(v))
          ensures f in Named(D.Edits(s.disk.manifest))
        {
          var l :| 0 <= l < |v| && f in v[l];
          VersionIsNamed(s.disk.manifest, v, l, f);
        }
        FreshNames(s, s', SnapshotEdit(v), r, ever);
      } else {
        NamesAppend(s, s', r, ever);
      }
    } else {
      assert s'.disk.manifest == s.disk.manifest;
      SameNames(s, s', ever);
    }
  }

  lemma SameNames(s: D.State, s': D.State, ever: set<Entry>)
    requires NamesAreWritten(s, ever) && s'.disk.manifest == s.disk.manifest && s'.history <= ever
    ensures NamesAreWritten(s', ever)
  {
    hide ValidFile;
  }

  lemma FreshNames(s: D.State, s': D.State, snap: Edit, r: D.Record, ever: set<Entry>)
    requires NamesAreWritten(s, ever) && s'.disk.manifest == [D.Record(snap, None), r] && s'.history <= ever
    requires forall f | f in NamedBy(snap) :: f in Named(D.Edits(s.disk.manifest))
    requires forall f | f in NamedBy(r.edit) :: ValidFile(f) && Elements(f.entries) <= ever
    ensures NamesAreWritten(s', ever)
  {
    hide ValidFile, NamedBy;
    assert D.Edits(s'.disk.manifest) == [snap] + [r.edit] && [snap] == [] + [snap];
    NamedAppend([], snap);
    NamedAppend([snap], r.edit);
  }

  /** Tables made during recovery hold entries of the logs. */
  lemma RecoveredWritten(s: D.State, s': D.State, v: Levels, o: D.Opening)
    requires D.Open(s, s', v, o) && StoredInv(s.disk, v, s.history, LastStored(s.disk))
    ensures forall f | f in o.files :: ValidFile(f) && Elements(f.entries) <= s.history
  {
    hide ReadsPreserved, ValidFile, D.Applies, VersionInv, IsVersionOf, D.LiveRecords, D.Updates, D.Flatten, D.EntriesOf, Unique,
      DatabaseState.Ascending, D.WithTables, D.Load, D.AllPresent;
    var records := D.LiveRecords(s.disk);
    UpdatesKeepEntries(records);
    FlattenEntries(o.groups);
    EntriesOfConcat(D.Flatten(o.groups), o.rest);
    forall f | f in o.files
      ensures ValidFile(f) && Elements(f.entries) <= s.history
    {
      var i :| 0 <= i < |o.files| && o.files[i] == f;
      assert D.EntriesOf(o.groups[i]) <= D.EntriesOf(D.Flatten(o.groups));
    }
  }

  lemma NextKeepsNames(s: D.State, s': D.State, step: D.Step, ever: set<Entry>)
    requires Inv(s) && D.Next(s, s', step) && NamesAreWritten(s, ever) && s'.history <= ever
    ensures NamesAreWritten(s', ever)
  {
    hide Inv, NamesAreWritten, D.Applies, WellChosen, NothingExposed, D.Open, D.InstallFlush, D.InstallCompaction, D.MoveFile, Sorted;
    match step
    case InstallFlushStep(v) => FlushNames(s, s', v, ever);
    case InstallCompactionStep(v) => CompactionNames(s, s', v, ever);
    case MoveStep(level, c, v) => MoveNames(s, s', level, c, v, ever);
    case OpenStep(v, o) => OpenNames(s, s', v, o, ever);
    case _ => SameNames(s, s', ever);
  }

  lemma {:induction false} RunsKeepNames(states: seq<D.State>, steps: seq<D.Step>, i: nat)
    requires Run(states, steps) && i < |states|
    ensures NamesAreWritten(states[i], Ever(states, i))
  {
    hide Inv, D.Next, NamesAreWritten;
    if i == 0 {
      NoNames(states[0]);
    } else {
      RunsKeepNames(states, steps, i - 1);
      RunsKeepInv(states, steps, i - 1);
      NamesStay(states[i - 1], Ever(states, i - 1), Ever(states, i));
      NextKeepsNames(states[i - 1], states[i], steps[i - 1], Ever(states, i));
    }
  }

  lemma NamesStay(s: D.State, ever: set<Entry>, more: set<Entry>)
    requires NamesAreWritten(s, ever) && ever <= more
    ensures NamesAreWritten(s, more)
  {
    hide ValidFile;
  }

  lemma NoNames(s: D.State)
    requires D.Init(s)
    ensures NamesAreWritten(s, s.history)
  {
    OneEditIsEmpty();
    assert D.Edits(s.disk.manifest) == [Edit({}, [])];
  }

  // ----- Every reachable MANIFEST can be stored -----

  /** The numbers and sizes in the MANIFEST fit in 64 bits. */
  ghost predicate NumbersFit(manifest: seq<D.Record>) {
    forall i | 0 <= i < |manifest| ::
      (forall d | d in manifest[i].edit.deleted :: d.1 < MAX64) &&
      (forall j | 0 <= j < |manifest[i].edit.added| ::
         manifest[i].edit.added[j].1.number < MAX64 && manifest[i].edit.added[j].1.size < MAX64) &&
      match manifest[i].header
      case None => true
      case Some(h) => h.logNumber < MAX64 && h.nextFile < MAX64 && h.lastSequence < MAX64
  }

  lemma {:induction false} AddedIsAmongNamed(manifest: seq<D.Record>, i: nat, j: nat)
    requires i < |manifest| && j < |manifest[i].edit.added|
    ensures manifest[i].edit.added[j].1 in Named(D.Edits(manifest))
  {
    var init := manifest[..|manifest| - 1];
    assert manifest == init + [manifest[|manifest| - 1]];
    EditsAppend(init, manifest[|manifest| - 1]);
    NamedAppend(D.Edits(init), manifest[|manifest| - 1].edit);
    if i < |init| {
      AddedIsAmongNamed(init, i, j);
    }
  }

  /** MAIN: if the keys written are byte strings and the numbers fit, then for the MANIFEST of every state of every run
      there are edits that can be stored and hold it, and Recover accepts their bytes. */
  lemma ReachableIsStorable(states: seq<D.State>, steps: seq<D.Step>, i: nat)
      returns (es: seq<StoredEdit>, tables: map<nat, seq<Entry>>)
    requires Run(states, steps) && i < |states| && NumbersFit(states[i].disk.manifest)
    requires forall e | e in Ever(states, i) :: IsStored(e.key)
    ensures Holds(es, tables, states[i].disk.manifest)
    ensures Written(seq(|es|, j requires 0 <= j < |es| => AllBytes(Records(es[j]))), es)
    ensures Consistent(Meanings(es, tables)) && D.LastHeader(states[i].disk.manifest).Some?
  {
    hide Run, Storable, Records, AllBytes, Consistent, Holds, IsStored, NamesAreWritten;
    var manifest := states[i].disk.manifest;
    RunsKeepNames(states, steps, i);
    ManifestOf(states, steps, i);
    forall k | 0 <= k < |manifest|
      ensures InRange(manifest[k])
    {
      RecordInRange(states[i], k, Ever(states, i));
    }
    tables := AllTables(Named(D.Edits(manifest)));
    es := EditsFor(manifest, tables);
    HoldsMeans(es, tables, manifest);
  }

  lemma HoldsMeans(es: seq<StoredEdit>, tables: map<nat, seq<Entry>>, manifest: seq<D.Record>)
    requires Holds(es, tables, manifest)
    ensures Meanings(es, tables) == D.Edits(manifest)
  {
  }

  lemma RecordInRange(s: D.State, k: nat, ever: set<Entry>)
    requires NamesAreWritten(s, ever) && NumbersFit(s.disk.manifest) && k < |s.disk.manifest|
    requires WellFormed(s.disk.manifest[k].edit) && forall e | e in ever :: IsStored(e.key)
    ensures InRange(s.disk.manifest[k])
  {
    hide IsStored, ValidFile, Named;
    forall j | 0 <= j < |s.disk.manifest[k].edit.added|
      ensures Describable(s.disk.manifest[k].edit.added[j].1)
    {
      AddedIsAmongNamed(s.disk.manifest, k, j);
      KeysAreWritten(s.disk.manifest[k].edit.added[j].1, ever);
    }
  }

  lemma ManifestOf(states: seq<D.State>, steps: seq<D.Step>, i: nat)
    requires Run(states, steps) && i < |states|
    ensures var manifest := states[i].disk.manifest;
      D.LastHeader(manifest).Some? && Consistent(D.Edits(manifest)) && NumberFixesFile(Named(D.Edits(manifest))) &&
      forall k | 0 <= k < |manifest| :: WellFormed(manifest[k].edit)
  {
    hide Run, LogInv, ReadsPreserved, EngineInv, ManifestInv, ReadableLevels, NumbersDistinct, Consistent, D.LiveRecords;
    RunsKeepInv(states, steps, i);
    var s := states[i];
    var w: Levels;
    if s.engine.Some? {
      w := s.engine.value.version;
    } else {
      w :| StoredInv(s.disk, w, s.history, LastStored(s.disk));
    }
    DatabaseReopen.NamedIsConsistent(s.disk.manifest, w);
    ManifestParts(s.disk.manifest, w);
  }

  lemma ManifestParts(manifest: seq<D.Record>, v: Levels)
    requires ManifestInv(manifest, v)
    ensures NumberFixesFile(Named(D.Edits(manifest))) && forall k | 0 <= k < |manifest| :: WellFormed(manifest[k].edit)
  {
    hide IsVersionOf, NumberFixesFile;
  }
}
