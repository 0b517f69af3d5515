/** The invariant of the database state machine and the facts its proof rests on. */
module DatabaseState {
  import opened Entries
  import opened Files
  import opened Reads
  import opened Inputs
  import opened Compactions
  import opened Manifest
  import opened Installs
  import opened Database

  // ----- MANIFEST, version and tables -----

  function NamedBy(e: Edit): set<File> {
    set i | 0 <= i < |e.added| :: e.added[i].1
  }

  /** Every file a MANIFEST ever mentions. */
  function Named(edits: seq<Edit>): set<File> {
    if edits == [] then {} else Named(edits[..|edits| - 1]) + NamedBy(edits[|edits| - 1])
  }

  ghost predicate NumbersDistinct(v: Levels) {
    forall a, b, f, g | 0 <= a < |v| && 0 <= b < |v| && f in v[a] && g in v[b] && f.number == g.number :: a == b && f == g
  }

  /** Every file of the version is on disk with the right entries. */
  ghost predicate Intact(v: Levels, tables: map<nat, seq<Entry>>) {
    forall l, f | 0 <= l < |v| && f in v[l] :: f.number in tables && tables[f.number] == f.entries
  }

  ghost predicate ManifestInv(manifest: seq<Record>, v: Levels) {
    LastHeader(manifest).Some? && IsVersionOf(v, Edits(manifest)) &&
    (forall i | 0 <= i < |manifest| :: WellFormed(manifest[i].edit)) &&
    NumberFixesFile(Named(Edits(manifest))) &&
    LastHeader(manifest).value.logNumber < LastHeader(manifest).value.nextFile &&
    forall f | f in Named(Edits(manifest)) :: f.number < LastHeader(manifest).value.nextFile
  }

  ghost predicate VersionInv(disk: Disk, v: Levels) {
    ManifestInv(disk.manifest, v) && ReadableLevels(v) && NumbersDistinct(v) && Intact(v, disk.tables)
  }

  // ----- Logs -----

  ghost predicate Ascending(batches: seq<Batch>) {
    forall i, j | 0 <= i < j < |batches| :: End(batches[i]) <= batches[j].sequence
  }

  /** What does not depend on the live logs any more: it was flushed. */
  ghost function Settled(disk: Disk, history: set<Entry>): set<Entry>
    requires LastHeader(disk.manifest).Some?
  {
    history - EntriesOf(LiveRecords(disk))
  }

  /** The live log records follow everything settled in sequence order, and nothing of the history is newer. */
  ghost predicate LogInv(disk: Disk, v: Levels, history: set<Entry>) {
    LastHeader(disk.manifest).Some? &&
    var records := LiveRecords(disk);
    var settled := Settled(disk, history);
    Ascending(records) && Unique(history) && EntriesOf(records) <= history && LevelEntries(v) <= settled &&
    (forall b, e | b in records && e in settled :: e.key.sequence < b.sequence) &&
    (forall e | e in settled :: e.key.sequence <= LastHeader(disk.manifest).value.lastSequence) &&
    forall e | e in history :: e.key.sequence <= LastStored(disk)
  }

  /** The last sequence number recovery would arrive at. */
  ghost function LastStored(disk: Disk): nat
    requires LastHeader(disk.manifest).Some?
  {
    MaxEnd(LiveRecords(disk), LastHeader(disk.manifest).value.lastSequence)
  }

  // ----- Memory -----

  function Pending(w: Write): set<Entry> {
    if w.Logged? then BatchEntries(w.batch) else {}
  }

  /** The current log holds the memtable (and the group not yet applied); older live logs the immutable one. */
  ghost predicate MemInv(disk: Disk, e: Engine) {
    LastHeader(disk.manifest).Some? && e.logNumber == LastHeader(disk.manifest).value.logNumber &&
    e.logNumber <= e.logFile && e.logFile in disk.logs && (forall n | n in disk.logs :: n <= e.logFile) &&
    ImmEntries(e) == EntriesOf(Records(disk.logs, e.logNumber, e.logFile)) &&
    e.mem + Pending(e.write) == EntriesOf(disk.logs[e.logFile])
  }

  ghost predicate CounterInv(disk: Disk, e: Engine, history: set<Entry>) {
    LastHeader(disk.manifest).Some? &&
    LastHeader(disk.manifest).value.nextFile <= e.nextFile && e.logFile < e.nextFile &&
    LastHeader(disk.manifest).value.lastSequence <= e.lastSequence <= LastStored(disk) &&
    (e.write != NoWrite ==>
      e.logFile in disk.logs && e.write.batch in disk.logs[e.logFile] && e.write.batch.sequence == e.lastSequence + 1) &&
    (forall b | b in LiveRecords(disk) :: End(b) <= e.lastSequence + 1 || (e.write != NoWrite && b == e.write.batch)) &&
    forall x | x in history :: x.key.sequence <= e.lastSequence || (e.write != NoWrite && x in BatchEntries(e.write.batch))
  }

  ghost predicate SnapshotInv(e: Engine) {
    (forall i | 0 <= i < |e.snapshots| :: e.snapshots[i] <= e.lastSequence) &&
    forall i, j | 0 <= i < j < |e.snapshots| :: e.snapshots[i] <= e.snapshots[j]
  }

  ghost predicate FreshTable(disk: Disk, e: Engine, f: File)
    requires LastHeader(disk.manifest).Some?
  {
    LastHeader(disk.manifest).value.nextFile <= f.number < e.nextFile &&
    f.number in disk.tables && disk.tables[f.number] == f.entries
  }

  ghost predicate BackgroundInv(disk: Disk, e: Engine) {
    LastHeader(disk.manifest).Some? && |e.version| == NUM_LEVELS &&
    match e.background
    case Resting => true
    case Flushing(file, target) =>
      e.imm.Some? && target <= MAX_MEM_COMPACT_LEVEL &&
      if file.None? then e.imm.value == {}
      else
        ValidFile(file.value) && Elements(file.value.entries) == e.imm.value &&
        FreshTable(disk, e, file.value) && FitsLevel(e.version, target, file.value)
    case Compacting(level, c, input, outputs, snapshot) =>
      level + 1 < NUM_LEVELS && WellChosen(e.version, level, c) &&
      NothingExposed(e.version, level, input, snapshot, LeftBehind(e.version, c)) &&
      Sorted(input) && Elements(input) == InputEntries(c) && snapshot <= SmallestSnapshot(e) &&
      Concat(outputs) == Kept(input, |input|, snapshot, e.version, level) && ValidFiles(outputs) &&
      (forall i, j | 0 <= i < j < |outputs| :: outputs[i].number < outputs[j].number) &&
      forall f | f in outputs :: FreshTable(disk, e, f)
  }

  ghost predicate EngineInv(disk: Disk, e: Engine, history: set<Entry>) {
    MemInv(disk, e) && CounterInv(disk, e, history) && SnapshotInv(e) && BackgroundInv(disk, e)
  }

  /** INVARIANT. Up or down, the version answers every read at a snapshot still in use as all that is settled would; the
      live logs come on top of both. */
  ghost predicate StoredInv(disk: Disk, v: Levels, history: set<Entry>, oldest: nat) {
    VersionInv(disk, v) && LogInv(disk, v, history) && ReadsPreserved(Settled(disk, history), LevelEntries(v), oldest)
  }

  ghost predicate Inv(s: State) {
    match s.engine
    case None => LastHeader(s.disk.manifest).Some? && exists v :: StoredInv(s.disk, v, s.history, LastStored(s.disk))
    case Some(e) => StoredInv(s.disk, e.version, s.history, SmallestSnapshot(e)) && EngineInv(s.disk, e, s.history)
  }

  // ----- Facts about records -----

  lemma {:induction false} RecordsSkip(logs: map<nat, seq<Batch>>, from: nat, to: nat, to': nat)
    requires to <= to' && forall n | n in logs :: n < to || to' <= n
    ensures Records(logs, from, to') == Records(logs, from, to)
  {
    if to < to' {
      RecordsSkip(logs, from, to, to' - 1);
    }
  }

  lemma {:induction false} RecordsFrame(logs: map<nat, seq<Batch>>, logs': map<nat, seq<Batch>>, from: nat, to: nat)
    requires forall n | from <= n < to :: (n in logs <==> n in logs') && (n in logs ==> logs[n] == logs'[n])
    ensures Records(logs', from, to) == Records(logs, from, to)
  {
    if from < to {
      RecordsFrame(logs, logs', from, to - 1);
    }
  }

  lemma {:induction false} RecordsSplit(logs: map<nat, seq<Batch>>, from: nat, mid: nat, to: nat)
    requires from <= mid <= to
    ensures Records(logs, from, to) == Records(logs, from, mid) + Records(logs, mid, to)
  {
    if mid < to {
      RecordsSplit(logs, from, mid, to - 1);
    }
  }

  /** With the highest log current, the live records are the older live logs', then the current one's. */
  lemma LiveRecordsAre(disk: Disk, top: nat)
    requires LastHeader(disk.manifest).Some? && LastHeader(disk.manifest).value.logNumber <= top && top in disk.logs
    requires forall n | n in disk.logs :: n <= top
    ensures LiveRecords(disk) == Records(disk.logs, LastHeader(disk.manifest).value.logNumber, top) + disk.logs[top]
    ensures LogEnd(disk.logs.Keys) == top + 1
  {
    TopIsEnd(disk.logs.Keys, top);
  }

  lemma TopIsEnd(numbers: set<nat>, top: nat)
    requires top in numbers && forall n | n in numbers :: n <= top
    ensures LogEnd(numbers) == top + 1
  {
  }

  lemma {:induction false} EntriesOfConcat(a: seq<Batch>, b: seq<Batch>)
    ensures EntriesOf(a + b) == EntriesOf(a) + EntriesOf(b)
  {
    assert forall x :: x in a + b <==> x in a || x in b;
  }

  lemma EntriesOfOne(b: Batch)
    ensures EntriesOf([b]) == BatchEntries(b)
  {
    assert b in [b];
  }

  lemma BatchBounds(b: Batch, e: Entry)
    requires e in BatchEntries(b)
    ensures b.sequence <= e.key.sequence < End(b)
  {
  }

  lemma BatchUnique(b: Batch)
    ensures Unique(BatchEntries(b))
  {
  }

  /** Later records are newer than everything earlier ones hold. */
  lemma SuffixFollows(a: seq<Batch>, b: seq<Batch>)
    requires Ascending(a + b)
    ensures Ascending(a) && Ascending(b) && forall x, y | x in a && y in b :: End(x) <= y.sequence
    ensures forall r, e | r in b && e in EntriesOf(a) :: e.key.sequence < r.sequence
    ensures forall r | r in b :: r in a + b
  {
    var c := a + b;
    assert forall i | 0 <= i < |a| :: c[i] == a[i];
    assert forall i | 0 <= i < |b| :: c[|a| + i] == b[i];
    forall r, e | r in b && e in EntriesOf(a)
      ensures e.key.sequence < r.sequence
    {
      var q :| q in a && e in BatchEntries(q);
      BatchBounds(q, e);
    }
  }

  lemma {:induction false} MaxEndAppend(batches: seq<Batch>, b: Batch, low: nat)
    ensures MaxEnd(batches + [b], low) == if End(b) - 1 > MaxEnd(batches, low) then End(b) - 1 else MaxEnd(batches, low)
  {
    assert (batches + [b])[..|batches|] == batches;
  }

  lemma {:induction false} MaxEndBounds(batches: seq<Batch>, low: nat)
    ensures low <= MaxEnd(batches, low)
    ensures forall b | b in batches :: End(b) - 1 <= MaxEnd(batches, low)
  {
    if batches != [] {
      MaxEndBounds(batches[..|batches| - 1], low);
      assert batches == batches[..|batches| - 1] + [batches[|batches| - 1]];
    }
  }

  lemma {:induction false} MaxEndWithin(batches: seq<Batch>, low: nat, high: nat)
    requires low <= high && forall b | b in batches :: End(b) <= high + 1
    ensures MaxEnd(batches, low) <= high
  {
    if batches != [] {
      MaxEndWithin(batches[..|batches| - 1], low, high);
    }
  }

  // ----- Facts about reads -----

  lemma IgnoreInvisible(S: set<Entry>, T: set<Entry>, k: UserKey, s: nat)
    requires Unique(S + T) && forall e | e in T :: !Visible(e, k, s)
    ensures Read(S + T, k, s) == Read(S, k, s)
  {
    assert Unique(S);
    SameRead(S + T, S, k, s);
  }

  /** Adding the same newer entries on both sides keeps reads equal. */
  lemma AddNewer(S: set<Entry>, T: set<Entry>, B: set<Entry>, oldest: nat)
    requires ReadsPreserved(S, T, oldest) && T <= S && Unique(S + B) && NewerThan(B, S)
    ensures ReadsPreserved(S + B, T + B, oldest)
  {
    forall k, s: nat | s >= oldest
      ensures Read(S + B, k, s) == Read(T + B, k, s)
    {
      assert Unique(T + B);
      if b :| b in B && Visible(b, k, s) {
        var n := NewestExists(S + B, k, s, b);
        assert n in B;
        ReadIs(S + B, k, s, n);
        ReadIs(T + B, k, s, n);
      } else {
        IgnoreInvisible(S, B, k, s);
        IgnoreInvisible(T, B, k, s);
      }
    }
  }

  /** The version plus the live logs read as the full history. */
  lemma StoredReads(disk: Disk, v: Levels, history: set<Entry>, oldest: nat)
    requires StoredInv(disk, v, history, oldest)
    ensures ReadsPreserved(history, Stored(disk, v), oldest) && Stored(disk, v) <= history
  {
    hide VersionInv, ReadsPreserved, LiveRecords, Ascending;
    var settled, live := Settled(disk, history), EntriesOf(LiveRecords(disk));
    forall b, e | b in live && e in settled
      ensures e.key.sequence < b.key.sequence
    {
      var r :| r in LiveRecords(disk) && b in BatchEntries(r);
      BatchBounds(r, b);
    }
    assert settled + live == history;
    AddNewer(settled, LevelEntries(v), live, oldest);
  }

  /** Once everything is visible, earlier reads are no different. */
  lemma AllVisible(S: set<Entry>, T: set<Entry>, last: nat, oldest: nat)
    requires ReadsPreserved(S, T, oldest) && T <= S && Unique(S) && forall e | e in S :: e.key.sequence <= last
    ensures ReadsPreserved(S, T, last)
  {
    hide Read, Unique;
    assert Unique(T) by {
      SmallerUnique(T, S);
    }
    forall k, s: nat | s >= last
      ensures Read(S, k, s) == Read(T, k, s)
    {
      SeesAll(S, k, s, s + oldest);
      SeesAll(T, k, s, s + oldest);
    }
  }

  lemma SmallerUnique(S: set<Entry>, T: set<Entry>)
    requires S <= T && Unique(T)
    ensures Unique(S)
  {
  }

  lemma SeesAll(S: set<Entry>, k: UserKey, s: nat, t: nat)
    requires Unique(S) && s <= t && forall e | e in S :: e.key.sequence <= s
    ensures Read(S, k, s) == Read(S, k, t)
  {
    forall e
      ensures IsNewest(S, k, s, e) <==> IsNewest(S, k, t, e)
    {
      assert forall x | x in S :: Visible(x, k, s) <==> Visible(x, k, t);
    }
    if e :| IsNewest(S, k, s, e) {
      ReadIs(S, k, s, e);
      ReadIs(S, k, t, e);
    }
  }

  lemma PreservedTransitive(S: set<Entry>, T: set<Entry>, U: set<Entry>, a: nat, b: nat)
    requires ReadsPreserved(S, T, a) && ReadsPreserved(T, U, b) && b <= a
    ensures ReadsPreserved(S, U, a)
  {
  }

  lemma PreservedLater(S: set<Entry>, T: set<Entry>, a: nat, b: nat)
    requires ReadsPreserved(S, T, a) && a <= b
    ensures ReadsPreserved(S, T, b)
  {
  }

  // ----- Facts about the MANIFEST -----

  lemma EditsAppend(manifest: seq<Record>, r: Record)
    ensures Edits(manifest + [r]) == Edits(manifest) + [r.edit]
    ensures r.header.Some? ==> LastHeader(manifest + [r]) == r.header
  {
  }

  lemma NamedAppend(edits: seq<Edit>, e: Edit)
    ensures Named(edits + [e]) == Named(edits) + NamedBy(e)
  {
    assert (edits + [e])[..|edits|] == edits;
  }

  lemma {:induction false} AddedIsNamed(edits: seq<Edit>, level: nat)
    ensures Added(edits, level) <= Named(edits)
  {
    if edits != [] {
      AddedIsNamed(edits[..|edits| - 1], level);
    }
  }

  /** The version's files are named in the MANIFEST, so their numbers lie below the recorded counter. */
  lemma VersionIsNamed(manifest: seq<Record>, v: Levels, l: nat, f: File)
    requires ManifestInv(manifest, v) && l < NUM_LEVELS && f in v[l]
    ensures f in Named(Edits(manifest)) && f.number < LastHeader(manifest).value.nextFile
  {
    SteppedWithinAdded(Edits(manifest), l);
    AddedIsNamed(Edits(manifest), l);
    assert f in FileSet(v[l]);
  }

  lemma AppendRecord(manifest: seq<Record>, v: Levels, v': Levels, r: Record)
    requires ManifestInv(manifest, v) && Applies(r.edit, v, v') && WellFormed(r.edit)
    requires r.header.Some? && LastHeader(manifest).value.nextFile <= r.header.value.nextFile
    requires r.header.value.logNumber < r.header.value.nextFile
    requires NumberFixesFile(Named(Edits(manifest)) + NamedBy(r.edit))
    requires forall f | f in NamedBy(r.edit) :: f.number < r.header.value.nextFile
    ensures ManifestInv(manifest + [r], v') && LastHeader(manifest + [r]) == r.header
  {
    hide NumberFixesFile, Ordered, Built, Named, NamedBy, WellFormed;
    EditsAppend(manifest, r);
    NamedAppend(Edits(manifest), r.edit);
    var edits := Edits(manifest);
    assert (edits + [r.edit])[..|edits|] == edits;
    forall l | 0 <= l < NUM_LEVELS
      ensures FileSet(v'[l]) == Stepped({}, edits + [r.edit], l)
    {
    }
  }
}
