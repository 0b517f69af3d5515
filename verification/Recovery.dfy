/** From the bytes of a MANIFEST back to a version (VersionSet::Recover and WriteSnapshot in db/version_set.cc): the
    records of VersionEdits, decoded one by one, go through the builder of Manifest. */
module Recovery {
  import opened Entries
  import opened Files
  import opened Manifest
  import opened VersionEdits
  import Database
  import KeyOrder

  // ----- What a stored edit means -----

  /** The internal key behind its bytes. */
  function KeyFrom(k: Bytes): IKey {
    var tag := KeyOrder.TagOf(k);
    IKey(KeyOrder.Rank(KeyOrder.UserOf(k)), tag / 256, if tag % 256 == 1 then Value else Deletion)
  }

  lemma KeyRoundTrip(k: KeyOrder.StoredKey)
    requires k.sequence <= MAX_SEQUENCE
    ensures KeyFrom(KeyOrder.Encoded(k)) == KeyOrder.KeyOf(k)
  {
    KeyOrder.EncodedParts(k);
  }

  /** The file a record describes, with the entries of the table of its number. */
  function FileFrom(m: Meta, tables: map<nat, seq<Entry>>): File {
    File(m.number, m.size, KeyFrom(m.smallest), KeyFrom(m.largest), if m.number in tables then tables[m.number] else [])
  }

  function FilesFrom(fs: seq<(nat, Meta)>, tables: map<nat, seq<Entry>>): (r: seq<(nat, File)>)
    ensures |r| == |fs|
  {
    seq(|fs|, i requires 0 <= i < |fs| => (fs[i].0, FileFrom(fs[i].1, tables)))
  }

  function Meaning(e: StoredEdit, tables: map<nat, seq<Entry>>): Edit {
    Edit((set d | d in e.deletedFiles), FilesFrom(e.newFiles, tables))
  }

  function Meanings(es: seq<StoredEdit>, tables: map<nat, seq<Entry>>): (r: seq<Edit>)
    ensures |r| == |es|
  {
    seq(|es|, i requires 0 <= i < |es| => Meaning(es[i], tables))
  }

  // ----- Recovery -----

  /** The counters found in a MANIFEST. */
  datatype Counters = Counters(
    logNumber: Option<nat>, prevLogNumber: Option<nat>, nextFile: Option<nat>, lastSequence: Option<nat>)

  const NO_COUNTERS: Counters := Counters(None, None, None, None)

  function Latest(before: Option<nat>, now: Option<nat>): Option<nat> {
    if now.Some? then now else before
  }

  function Update(c: Counters, e: StoredEdit): Counters {
    Counters(Latest(c.logNumber, e.logNumber), Latest(c.prevLogNumber, e.prevLogNumber),
             Latest(c.nextFile, e.nextFileNumber), Latest(c.lastSequence, e.lastSequence))
  }

  function CountersOf(es: seq<StoredEdit>): Counters {
    if es == [] then NO_COUNTERS else Update(CountersOf(es[..|es| - 1]), es[|es| - 1])
  }

  /** The last edit that sets a number decides it. */
  ghost predicate LastSets(numbers: seq<Option<nat>>, r: Option<nat>) {
    (r == None <==> forall i | 0 <= i < |numbers| :: numbers[i] == None) &&
    (r.Some? ==> exists i :: 0 <= i < |numbers| && numbers[i] == r && forall j | i < j < |numbers| :: numbers[j] == None)
  }

  function LogNumbers(es: seq<StoredEdit>): seq<Option<nat>> {
    seq(|es|, i requires 0 <= i < |es| => es[i].logNumber)
  }

  function NextFileNumbers(es: seq<StoredEdit>): seq<Option<nat>> {
    seq(|es|, i requires 0 <= i < |es| => es[i].nextFileNumber)
  }

  function LastSequences(es: seq<StoredEdit>): seq<Option<nat>> {
    seq(|es|, i requires 0 <= i < |es| => es[i].lastSequence)
  }

  lemma LastSetsStep(numbers: seq<Option<nat>>, r: Option<nat>, n: Option<nat>)
    requires LastSets(numbers, r)
    ensures LastSets(numbers + [n], Latest(r, n))
  {
    var all := numbers + [n];
    if n.Some? {
      assert all[|numbers|] == n;
    } else if r.Some? {
      var i :| 0 <= i < |numbers| && numbers[i] == r && forall j | i < j < |numbers| :: numbers[j] == None;
      assert all[i] == r;
    }
    assert forall i | 0 <= i < |numbers| :: all[i] == numbers[i];
  }

  lemma {:induction false} CountersAreLast(es: seq<StoredEdit>)
    ensures LastSets(LogNumbers(es), CountersOf(es).logNumber)
    ensures LastSets(NextFileNumbers(es), CountersOf(es).nextFile)
    ensures LastSets(LastSequences(es), CountersOf(es).lastSequence)
  {
    hide LastSets;
    if es == [] {
      NoneSets();
      assert LogNumbers(es) == NextFileNumbers(es) == LastSequences(es) == [];
    } else {
      var init, e := es[..|es| - 1], es[|es| - 1];
      CountersAreLast(init);
      LastSetsStep(LogNumbers(init), CountersOf(init).logNumber, e.logNumber);
      LastSetsStep(NextFileNumbers(init), CountersOf(init).nextFile, e.nextFileNumber);
      LastSetsStep(LastSequences(init), CountersOf(init).lastSequence, e.lastSequence);
      assert LogNumbers(es) == LogNumbers(init) + [e.logNumber];
      assert NextFileNumbers(es) == NextFileNumbers(init) + [e.nextFileNumber];
      assert LastSequences(es) == LastSequences(init) + [e.lastSequence];
    }
  }

  lemma NoneSets()
    ensures LastSets([], None)
  {
  }

  datatype Result =
    | Recovered(version: Levels, manifestFileNumber: nat, nextFileNumber: nat, lastSequence: nat, logNumber: nat,
                prevLogNumber: nat)
    | Corruption
    | InvalidArgument

  /** The edit a record holds, whatever its bytes; None if it does not decode. */
  function EditOf(record: Bytes): Option<StoredEdit> {
    var rs := ReadRecords(record, 0);
    if rs.Some? then Some(ApplyAll(EMPTY, rs.value)) else None
  }

  /** The edits of the records up to the first that does not decode. */
  ghost predicate Decodes(records: seq<Bytes>, es: seq<StoredEdit>) {
    |es| <= |records| && (forall i | 0 <= i < |es| :: EditOf(records[i]) == Some(es[i])) &&
    (|es| < |records| ==> EditOf(records[|es|]) == None)
  }

  /** The records hold the edits. */
  ghost predicate Written(records: seq<Bytes>, es: seq<StoredEdit>) {
    |records| == |es| && forall i | 0 <= i < |es| :: Storable(es[i]) && records[i] == AllBytes(Records(es[i]))
  }

  ghost predicate Foreign(e: StoredEdit, comparator: Bytes) {
    e.comparator.Some? && e.comparator.value != comparator
  }

  /** A record that was written decodes to its edit. */
  lemma WrittenDecodes(records: seq<Bytes>, es: seq<StoredEdit>)
    requires Written(records, es)
    ensures Decodes(records, es)
  {
    forall i | 0 <= i < |es|
      ensures EditOf(records[i]) == Some(es[i])
    {
      RecordHolds(records[i], es[i]);
    }
  }

  lemma RecordHolds(record: Bytes, e: StoredEdit)
    requires Storable(e) && record == AllBytes(Records(e))
    ensures EditOf(record) == Some(e)
  {
    hide AllBytes, Records, Fits, ApplyAll;
    AllLeft(record, Records(e));
    RecordsRead(record, 0, Records(e));
    RecordsApply(e, []);
    assert [] + e.compactPointers == e.compactPointers;
  }

  /** What Recover returns for a MANIFEST that holds the edits, in front of a malformed record if it is `cut`. */
  ghost predicate Recovers(r: Result, comparator: Bytes, es: seq<StoredEdit>, tables: map<nat, seq<Entry>>, cut: bool) {
    var c := CountersOf(es);
    (r.InvalidArgument? <==> exists e | e in es :: Foreign(e, comparator)) &&
    (!r.InvalidArgument? ==>
      (r.Corruption? <==> cut || c.nextFile == None || c.logNumber == None || c.lastSequence == None)) &&
    (r.Recovered? ==>
      IsVersionOf(r.version, Meanings(es, tables)) && c.nextFile == Some(r.manifestFileNumber) &&
      r.nextFileNumber == r.manifestFileNumber + 1 && c.logNumber == Some(r.logNumber) &&
      c.lastSequence == Some(r.lastSequence) && r.prevLogNumber == if c.prevLogNumber.Some? then c.prevLogNumber.value else 0)
  }

  /** One record, decoded into a new edit. */
  method DecodeRecord(record: Bytes) returns (r: Option<StoredEdit>)
    ensures r == EditOf(record)
  {
    hide ReadRecords, ApplyAll;
    var edit := new VersionEdit();
    var ok := edit.DecodeFrom(record);
    r := if ok then Some(edit.Contents()) else None;
  }

  /** MAIN: VersionSet::Recover, from any bytes. It reads back exactly the version that the edits made one after the other,
      and the last value written of each counter, and reports the first record that is malformed or foreign. */
  method Recover(comparator: Bytes, records: seq<Bytes>, tables: map<nat, seq<Entry>>, ghost es: seq<StoredEdit>)
    returns (r: Result)
    requires Decodes(records, es) && Consistent(Meanings(es, tables))
    ensures Recovers(r, comparator, es, tables, |es| < |records|)
  {
    hide EditOf, Consistent, IsVersionOf, Ordered, NumberFixesFile, Meaning, Built, Builder.Valid;
    NothingOrdered();
    var builder := new Builder(seq(NUM_LEVELS, _ => []));
    var c := NO_COUNTERS;
    ghost var edits := Meanings(es, tables);
    for i := 0 to |records|
      invariant i <= |es|
      invariant fresh(builder) && builder.Valid() && builder.edits == edits[..i] && c == CountersOf(es[..i])
      invariant builder.base == seq(NUM_LEVELS, _ => [])
      invariant forall k | 0 <= k < i :: !Foreign(es[k], comparator)
    {
      var decoded := DecodeRecord(records[i]);
      if decoded.None? {
        return Corruption;
      }
      var edit := decoded.value;
      if edit.comparator.Some? && edit.comparator.value != comparator {
        assert Foreign(es[i], comparator);
        return InvalidArgument;
      }
      assert es[..i + 1][..i] == es[..i];
      MayApply(edits, i);
      builder.Apply(Meaning(edit, tables));
      c := Update(c, edit);
    }
    assert es[..|es|] == es && edits[..|edits|] == edits;
    if c.nextFile.None? || c.logNumber.None? || c.lastSequence.None? {
      return Corruption;
    }
    MaySave(edits);
    var v := builder.SaveTo();
    SavedIsVersion(v, edits);
    r := Recovered(v, c.nextFile.value, c.nextFile.value + 1, c.lastSequence.value, c.logNumber.value,
                   if c.prevLogNumber.Some? then c.prevLogNumber.value else 0);
  }

  lemma NothingOrdered()
    ensures Ordered([])
  {
  }

  lemma MaySave(edits: seq<Edit>)
    requires Consistent(edits)
    ensures forall l | 0 <= l < NUM_LEVELS ::
      NumberFixesFile(FileSet([]) + Added(edits, l)) && FileSet([]) !! Added(edits, l)
  {
    hide NumberFixesFile;
    assert forall l :: FileSet([]) + Added(edits, l) == Added(edits, l);
  }

  // ----- The MANIFEST of the database state machine -----

  /** The counters of an edit are those of the record: all of them or none. */
  ghost predicate Carries(e: StoredEdit, header: Option<Database.Header>) {
    match header
    case None => e.logNumber == None && e.nextFileNumber == None && e.lastSequence == None
    case Some(h) =>
      e.logNumber == Some(h.logNumber) && e.nextFileNumber == Some(h.nextFile) && e.lastSequence == Some(h.lastSequence)
  }

  /** The bytes on disk hold the MANIFEST of the state machine. */
  ghost predicate Holds(es: seq<StoredEdit>, tables: map<nat, seq<Entry>>, manifest: seq<Database.Record>) {
    |es| == |manifest| && Meanings(es, tables) == Database.Edits(manifest) &&
    forall i | 0 <= i < |es| :: Carries(es[i], manifest[i].header)
  }

  lemma {:induction false} CountersAreHeader(es: seq<StoredEdit>, manifest: seq<Database.Record>)
    requires |es| == |manifest| && forall i | 0 <= i < |es| :: Carries(es[i], manifest[i].header)
    ensures match Database.LastHeader(manifest)
      case None => CountersOf(es).logNumber == CountersOf(es).nextFile == CountersOf(es).lastSequence == None
      case Some(h) =>
        CountersOf(es).logNumber == Some(h.logNumber) && CountersOf(es).nextFile == Some(h.nextFile) &&
        CountersOf(es).lastSequence == Some(h.lastSequence)
  {
    if es != [] {
      CountersAreHeader(es[..|es| - 1], manifest[..|es| - 1]);
    }
  }

  /** MAIN: what Recover reads from those bytes is the version and the counters with which the state machine opens the
      database; it fails only for a foreign comparator or a MANIFEST without counters. */
  lemma RecoversForOpen(r: Result, comparator: Bytes, es: seq<StoredEdit>, tables: map<nat, seq<Entry>>,
      manifest: seq<Database.Record>)
    requires Recovers(r, comparator, es, tables, false) && Holds(es, tables, manifest)
    requires forall e | e in es :: !Foreign(e, comparator)
    ensures r.Recovered? <==> Database.LastHeader(manifest).Some?
    ensures r.Recovered? ==>
      (IsVersionOf(r.version, Database.Edits(manifest)) &&
       Database.LastHeader(manifest) == Some(Database.Header(r.logNumber, r.manifestFileNumber, r.lastSequence)))
  {
    CountersAreHeader(es, manifest);
  }

  // ----- The snapshot at the head of a new MANIFEST -----

  /** A version as the MANIFEST describes it, with the table of each number. */
  function VersionFrom(levels: seq<seq<Meta>>, tables: map<nat, seq<Entry>>): (v: Levels)
    ensures |v| == |levels|
  {
    seq(|levels|, l requires 0 <= l < |levels| => LevelFrom(levels[l], tables))
  }

  function LevelFrom(level: seq<Meta>, tables: map<nat, seq<Entry>>): (r: seq<File>)
    ensures |r| == |level|
  {
    seq(|level|, i requires 0 <= i < |level| => FileFrom(level[i], tables))
  }

  /** The compaction pointers that are set, level by level. */
  function PointersSet(pointers: seq<Bytes>, n: nat): seq<(nat, Bytes)>
    requires n <= |pointers|
  {
    if n == 0 then []
    else PointersSet(pointers, n - 1) + if pointers[n - 1] != [] then [(n - 1, pointers[n - 1])] else []
  }

  /** The files of the first n levels, as AddFile lists them. */
  function AllFiles(levels: seq<seq<Meta>>, n: nat): seq<(nat, Meta)>
    requires n <= |levels|
  {
    if n == 0 then [] else AllFiles(levels, n - 1) + Listed(n - 1, levels[n - 1])
  }

  function Listed(level: nat, files: seq<Meta>): seq<(nat, Meta)> {
    seq(|files|, i requires 0 <= i < |files| => (level, files[i]))
  }

  function SnapshotOf(comparator: Bytes, pointers: seq<Bytes>, levels: seq<seq<Meta>>): StoredEdit {
    EMPTY.(comparator := Some(comparator), compactPointers := PointersSet(pointers, |pointers|),
           newFiles := AllFiles(levels, |levels|))
  }

  /** VersionSet::WriteSnapshot: the record, and what it holds. */
  method WriteSnapshot(comparator: Bytes, pointers: seq<Bytes>, levels: seq<seq<Meta>>) returns (record: Bytes)
    requires |pointers| == |levels| == NUM_LEVELS
    ensures record == AllBytes(Records(SnapshotOf(comparator, pointers, levels)))
  {
    hide AllBytes, Records;
    var edit := new VersionEdit();
    edit.comparator := Some(comparator);
    for level := 0 to NUM_LEVELS
      invariant edit.Contents() == EMPTY.(comparator := Some(comparator), compactPointers := PointersSet(pointers, level))
    {
      if pointers[level] != [] {
        edit.compactPointers := edit.compactPointers + [(level, pointers[level])];
      }
    }
    ghost var before := edit.Contents();
    for level := 0 to NUM_LEVELS
      invariant edit.Contents() == before.(newFiles := AllFiles(levels, level))
    {
      for i := 0 to |levels[level]|
        invariant edit.Contents() == before.(newFiles := AllFiles(levels, level) + Listed(level, levels[level])[..i])
      {
        edit.newFiles := edit.newFiles + [(level, levels[level][i])];
      }
      assert Listed(level, levels[level])[..|levels[level]|] == Listed(level, levels[level]);
    }
    record := edit.EncodeTo([]);
    assert [] + AllBytes(Records(edit.Contents())) == AllBytes(Records(edit.Contents()));
  }

  lemma FilesConcat(a: seq<(nat, Meta)>, b: seq<(nat, Meta)>, tables: map<nat, seq<Entry>>)
    ensures FilesFrom(a + b, tables) == FilesFrom(a, tables) + FilesFrom(b, tables)
  {
    hide FileFrom;
  }

  lemma ListedMeans(level: nat, files: seq<Meta>, tables: map<nat, seq<Entry>>)
    ensures FilesFrom(Listed(level, files), tables) == OnLevel(level, LevelFrom(files, tables))
  {
    hide FileFrom;
  }

  lemma {:induction false} SnapshotFiles(levels: seq<seq<Meta>>, n: nat, tables: map<nat, seq<Entry>>)
    requires n <= |levels|
    ensures FilesFrom(AllFiles(levels, n), tables) == SnapshotAdded(VersionFrom(levels, tables), n)
  {
    hide FileFrom, FilesFrom, Listed, OnLevel, LevelFrom;
    if n == 0 {
      NoFiles(tables);
    } else {
      SnapshotFiles(levels, n - 1, tables);
      FilesConcat(AllFiles(levels, n - 1), Listed(n - 1, levels[n - 1]), tables);
      ListedMeans(n - 1, levels[n - 1], tables);
    }
  }

  lemma NoFiles(tables: map<nat, seq<Entry>>)
    ensures FilesFrom([], tables) == []
  {
  }

  /** The record means the snapshot edit of the version it was written for. */
  lemma SnapshotMeans(comparator: Bytes, pointers: seq<Bytes>, levels: seq<seq<Meta>>, tables: map<nat, seq<Entry>>)
    ensures Meaning(SnapshotOf(comparator, pointers, levels), tables) == SnapshotEdit(VersionFrom(levels, tables))
  {
    SnapshotFiles(levels, |levels|, tables);
  }

  /** MAIN: the record of WriteSnapshot, decoded and replayed, gives back the version it was written for. */
  method SnapshotRestores(comparator: Bytes, pointers: seq<Bytes>, levels: seq<seq<Meta>>, tables: map<nat, seq<Entry>>)
    returns (v: Levels)
    requires |pointers| == |levels| == NUM_LEVELS && Storable(SnapshotOf(comparator, pointers, levels))
    requires forall l | 0 <= l < NUM_LEVELS ::
      Ordered(VersionFrom(levels, tables)[l]) && NumberFixesFile(FileSet(VersionFrom(levels, tables)[l]))
    ensures v == VersionFrom(levels, tables)
  {
    hide AllBytes, Records, Storable, Ordered, NumberFixesFile, SnapshotOf;
    ghost var w := VersionFrom(levels, tables);
    var record := WriteSnapshot(comparator, pointers, levels);
    RecordHolds(record, SnapshotOf(comparator, pointers, levels));
    var decoded := DecodeRecord(record);
    SnapshotMeans(comparator, pointers, levels, tables);
    SnapshotRebuilds(w);
    SnapshotIsConsistent(w);
    v := Replay([Meaning(decoded.value, tables)]);
    VersionIsUnique(v, w, [SnapshotEdit(w)]);
  }

  lemma SnapshotIsConsistent(v: Levels)
    requires |v| == NUM_LEVELS
    requires forall l | 0 <= l < NUM_LEVELS :: Ordered(v[l]) && NumberFixesFile(FileSet(v[l]))
    ensures Consistent([SnapshotEdit(v)])
  {
    hide Ordered, NumberFixesFile;
    SnapshotRebuilds(v);
    forall l | 0 <= l < NUM_LEVELS
      ensures NumberFixesFile(Added([SnapshotEdit(v)], l))
    {
      OneEdit(SnapshotEdit(v), l);
    }
  }
}
