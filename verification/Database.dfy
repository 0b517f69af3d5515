/** The database as a state machine (db/db_impl.cc): group commits, memtable switches, background flushes
    and compactions, removal of obsolete files, crashes and recovery, in any order.

    Tables and MANIFEST records are synced before they are used; what is appended to a log may be lost from any record
    on. CURRENT is switched atomically. Background jobs start and finish in separate steps, so commits, switches and
    snapshots may happen in between. */
module Database {
  import opened Entries
  import opened Files
  import opened Reads
  import opened Inputs
  import opened Compactions
  import opened Manifest
  import opened Installs

  // ----- What is on disk -----

  datatype Op = Put(key: UserKey, value: Bytes) | Delete(key: UserKey)

  /** A log record: the merged batch of one write group and the sequence number of its first update. */
  datatype Batch = Batch(sequence: nat, ops: seq<Op>)

  function EntryOf(op: Op, sequence: nat): Entry {
    match op
    case Put(k, v) => Entry(IKey(k, sequence, Value), v)
    case Delete(k) => Entry(IKey(k, sequence, Deletion), [])
  }

  /** The entries WriteBatchInternal::InsertInto adds to a memtable. */
  function BatchEntries(b: Batch): set<Entry> {
    set i | 0 <= i < |b.ops| :: EntryOf(b.ops[i], b.sequence + i)
  }

  function End(b: Batch): nat {
    b.sequence + |b.ops|
  }

  /** The counters a MANIFEST record carries besides its edit. */
  datatype Header = Header(logNumber: nat, nextFile: nat, lastSequence: nat)

  datatype Record = Record(edit: Edit, header: Option<Header>)

  /** MANIFEST records, table files and log files. The entries of a file named in a MANIFEST record are
      never looked at: recovery takes them from the table file of that number. */
  datatype Disk = Disk(manifest: seq<Record>, tables: map<nat, seq<Entry>>, logs: map<nat, seq<Batch>>)

  function Edits(manifest: seq<Record>): seq<Edit> {
    seq(|manifest|, i requires 0 <= i < |manifest| => manifest[i].edit)
  }

  /** VersionSet::Recover keeps the last counters it reads. */
  function LastHeader(manifest: seq<Record>): Option<Header> {
    if manifest == [] then None
    else if manifest[|manifest| - 1].header.Some? then manifest[|manifest| - 1].header
    else LastHeader(manifest[..|manifest| - 1])
  }

  /** The records of all logs numbered in [from, to), in log order: what recovery replays. */
  function Records(logs: map<nat, seq<Batch>>, from: nat, to: nat): seq<Batch> {
    if to <= from then []
    else Records(logs, from, to - 1) + if to - 1 in logs then logs[to - 1] else []
  }

  function EntriesOf(batches: seq<Batch>): set<Entry> {
    set b, e | b in batches && e in BatchEntries(b) :: e
  }

  /** One past the highest log number. */
  ghost function LogEnd(numbers: set<nat>): (r: nat)
    ensures forall n | n in numbers :: n < r
    ensures r == 0 || r - 1 in numbers
  {
    if numbers == {} then 0
    else
      var n :| n in numbers;
      var r := LogEnd(numbers - {n});
      assert forall m | m in numbers :: m == n || m in numbers - {n};
      if n < r then r else n + 1
  }

  /** The records of the logs numbered at or above the recorded log number. */
  ghost function LiveRecords(disk: Disk): seq<Batch>
    requires LastHeader(disk.manifest).Some?
  {
    Records(disk.logs, LastHeader(disk.manifest).value.logNumber, LogEnd(disk.logs.Keys))
  }

  /** What the MANIFEST version and the live logs hold together. */
  ghost function Stored(disk: Disk, version: Levels): set<Entry>
    requires LastHeader(disk.manifest).Some?
  {
    LevelEntries(version) + EntriesOf(LiveRecords(disk))
  }

  // ----- What is in memory -----

  /** The write group in flight: appended to the log, then also in the memtable, then committed. */
  datatype Write = NoWrite | Logged(batch: Batch) | Applied(batch: Batch)

  datatype Background =
    | Resting
    | Flushing(file: Option<File>, target: nat)
    | Compacting(level: nat, inputs: CompactionInputs, input: seq<Entry>, outputs: seq<File>, snapshot: nat)

  datatype Engine = Engine(
    mem: set<Entry>, imm: Option<set<Entry>>, version: Levels,
    logFile: nat, logNumber: nat, nextFile: nat, lastSequence: nat,
    snapshots: seq<nat>, write: Write, background: Background)

  /** `history` is every entry ever appended to a log and not lost in a crash; no step of the code reads it. */
  datatype State = State(disk: Disk, engine: Option<Engine>, history: set<Entry>)

  function ImmEntries(e: Engine): set<Entry> {
    if e.imm.Some? then e.imm.value else {}
  }

  /** What the memtables hold. */
  function Memory(e: Engine): set<Entry> {
    e.mem + ImmEntries(e)
  }

  /** What a reader of the open database searches. */
  ghost function Contents(e: Engine): set<Entry> {
    Memory(e) + LevelEntries(e.version)
  }

  /** smallest_snapshot: the oldest snapshot, or the last sequence number if there is none. */
  function SmallestSnapshot(e: Engine): nat {
    if e.snapshots == [] then e.lastSequence else e.snapshots[0]
  }

  // ----- Steps -----

  /** VersionSet::LogAndApply: the new version is the current one under one edit. */
  ghost predicate Applies(edit: Edit, v: Levels, v': Levels) {
    |v| == |v'| == NUM_LEVELS &&
    forall l | 0 <= l < NUM_LEVELS :: Ordered(v'[l]) && FileSet(v'[l]) == Built(FileSet(v[l]), [edit], l)
  }

  function RecordNow(e: Engine, edit: Edit, logNumber: nat): Record {
    Record(edit, Some(Header(logNumber, e.nextFile, e.lastSequence)))
  }

  /** DBImpl::Write, first half: the leader appends the merged batch to the log. */
  ghost predicate LogGroup(s: State, s': State, ops: seq<Op>) {
    s.engine.Some? &&
    var e := s.engine.value;
    var b := Batch(e.lastSequence + 1, ops);
    e.write == NoWrite && e.logFile in s.disk.logs &&
    s' == State(s.disk.(logs := s.disk.logs[e.logFile := s.disk.logs[e.logFile] + [b]]),
                Some(e.(write := Logged(b))), s.history + BatchEntries(b))
  }

  /** InsertInto: the logged group enters the memtable. */
  ghost predicate ApplyGroup(s: State, s': State) {
    s.engine.Some? &&
    var e := s.engine.value;
    e.write.Logged? &&
    s' == s.(engine := Some(e.(mem := e.mem + BatchEntries(e.write.batch), write := Applied(e.write.batch))))
  }

  /** SetLastSequence: the group becomes visible. */
  ghost predicate CommitGroup(s: State, s': State) {
    s.engine.Some? &&
    var e := s.engine.value;
    e.write.Applied? &&
    s' == s.(engine := Some(e.(lastSequence := e.lastSequence + |e.write.batch.ops|, write := NoWrite)))
  }

  /** MakeRoomForWrite: a new log and memtable; only the leader does this, before it builds its group. */
  ghost predicate SwitchMemTable(s: State, s': State) {
    s.engine.Some? &&
    var e := s.engine.value;
    e.write == NoWrite && e.imm == None &&
    s' == s.(disk := s.disk.(logs := s.disk.logs[e.nextFile := []]),
             engine := Some(e.(imm := Some(e.mem), mem := {}, logFile := e.nextFile, nextFile := e.nextFile + 1)))
  }

  /** WriteLevel0Table: the immutable memtable, in order, becomes a table file; an empty one none. */
  ghost predicate StartFlush(s: State, s': State, es: seq<Entry>, size: nat, target: nat) {
    s.engine.Some? &&
    var e := s.engine.value;
    e.background == Resting && e.imm.Some? && Sorted(es) && Elements(es) == e.imm.value &&
    if es == [] then
      s' == s.(engine := Some(e.(background := Flushing(None, 0), nextFile := e.nextFile + 1)))
    else
      var f := File(e.nextFile, size, es[0].key, es[|es| - 1].key, es);
      target <= MAX_MEM_COMPACT_LEVEL && FitsLevel(e.version, target, f) &&
      s' == s.(disk := s.disk.(tables := s.disk.tables[f.number := es]),
               engine := Some(e.(background := Flushing(Some(f), target), nextFile := e.nextFile + 1)))
  }

  function FlushEdit(file: Option<File>, target: nat): Edit {
    Edit({}, if file.Some? then [(target, file.value)] else [])
  }

  /** CompactMemTable, second half: earlier logs are no longer needed. */
  ghost predicate InstallFlush(s: State, s': State, v': Levels) {
    s.engine.Some? &&
    var e := s.engine.value;
    e.background.Flushing? &&
    var edit := FlushEdit(e.background.file, e.background.target);
    Applies(edit, e.version, v') &&
    s' == s.(disk := s.disk.(manifest := s.disk.manifest + [RecordNow(e, edit, e.logFile)]),
             engine := Some(e.(imm := None, version := v', logNumber := e.logFile, background := Resting)))
  }

  function WithTables(tables: map<nat, seq<Entry>>, files: seq<File>): map<nat, seq<Entry>> {
    if files == [] then tables
    else WithTables(tables, files[..|files| - 1])[files[|files| - 1].number := files[|files| - 1].entries]
  }

  /** DoCompactionWork on inputs chosen by SetupOtherInputs. That nothing is exposed is the proviso of
      Installs.InstallPreservesReadsIff for the version alone; a clear next level is enough for it. */
  ghost predicate StartCompaction(s: State, s': State, level: nat, c: CompactionInputs, input: seq<Entry>,
      outputs: seq<File>) {
    s.engine.Some? &&
    var e := s.engine.value;
    e.background == Resting && |e.version| == NUM_LEVELS && level + 1 < NUM_LEVELS &&
    WellChosen(e.version, level, c) && Sorted(input) && Elements(input) == InputEntries(c) &&
    NothingExposed(e.version, level, input, SmallestSnapshot(e), LeftBehind(e.version, c)) &&
    Concat(outputs) == Kept(input, |input|, SmallestSnapshot(e), e.version, level) && ValidFiles(outputs) &&
    (forall i | 0 <= i < |outputs| :: outputs[i].number == e.nextFile + i) &&
    s' == s.(disk := s.disk.(tables := WithTables(s.disk.tables, outputs)),
             engine := Some(e.(background := Compacting(level, c, input, outputs, SmallestSnapshot(e)),
                               nextFile := e.nextFile + |outputs|)))
  }

  /** AddInputDeletions and the additions of InstallCompactionResults. */
  function CompactionEditOf(level: nat, c: CompactionInputs, outputs: seq<File>): Edit {
    Edit((set f | f in c.inputs0 :: (level, f.number)) + (set f | f in c.inputs1 :: (level + 1, f.number)),
         OnLevel(level + 1, outputs))
  }

  ghost predicate InstallCompaction(s: State, s': State, v': Levels) {
    s.engine.Some? &&
    var e := s.engine.value;
    e.background.Compacting? &&
    var edit := CompactionEditOf(e.background.level, e.background.inputs, e.background.outputs);
    Applies(edit, e.version, v') &&
    s' == s.(disk := s.disk.(manifest := s.disk.manifest + [RecordNow(e, edit, e.logNumber)]),
             engine := Some(e.(version := v', background := Resting)))
  }

  /** The trivial move of BackgroundCompaction: one file goes down a level as it is. */
  ghost predicate MoveFile(s: State, s': State, level: nat, c: CompactionInputs, v': Levels) {
    s.engine.Some? &&
    var e := s.engine.value;
    e.background == Resting && |e.version| == NUM_LEVELS && level + 1 < NUM_LEVELS &&
    WellChosen(e.version, level, c) && |c.inputs0| == 1 && c.inputs1 == [] &&
    var edit := CompactionEditOf(level, c, c.inputs0);
    Applies(edit, e.version, v') &&
    s' == s.(disk := s.disk.(manifest := s.disk.manifest + [RecordNow(e, edit, e.logNumber)]),
             engine := Some(e.(version := v')))
  }

  ghost predicate TakeSnapshot(s: State, s': State) {
    s.engine.Some? &&
    var e := s.engine.value;
    s' == s.(engine := Some(e.(snapshots := e.snapshots + [e.lastSequence])))
  }

  ghost predicate ReleaseSnapshot(s: State, s': State, i: nat) {
    s.engine.Some? &&
    var e := s.engine.value;
    i < |e.snapshots| &&
    s' == s.(engine := Some(e.(snapshots := e.snapshots[..i] + e.snapshots[i + 1..])))
  }

  /** The table files RemoveObsoleteFiles keeps: those of the version and of running jobs. */
  ghost function LiveTables(e: Engine): set<nat> {
    (set fs, f | fs in e.version && f in fs :: f.number) +
    match e.background
    case Resting => {}
    case Flushing(file, _) => if file.Some? then {file.value.number} else {}
    case Compacting(_, _, _, outputs, _) => set f | f in outputs :: f.number
  }

  /** RemoveObsoleteFiles: any of the files it does not keep may be gone. */
  ghost predicate RemoveObsolete(s: State, s': State, tables: set<nat>, logs: set<nat>) {
    s.engine.Some? &&
    var e := s.engine.value;
    tables !! LiveTables(e) && (forall n | n in logs :: n < e.logNumber) &&
    s' == s.(disk := s.disk.(tables := s.disk.tables - tables, logs := s.disk.logs - logs))
  }

  /** What a crash leaves of the logs: a front of each. */
  ghost predicate Fronts(left: map<nat, seq<Batch>>, logs: map<nat, seq<Batch>>) {
    left.Keys == logs.Keys && forall n | n in logs :: left[n] <= logs[n]
  }

  /** The entries of live records that are gone. */
  ghost function Lost(disk: Disk, left: map<nat, seq<Batch>>): set<Entry>
    requires LastHeader(disk.manifest).Some?
  {
    EntriesOf(LiveRecords(disk)) - EntriesOf(LiveRecords(disk.(logs := left)))
  }

  /** A crash, of the process or of the machine: memory is gone, and the tails of logs may be. */
  ghost predicate Crash(s: State, s': State, left: map<nat, seq<Batch>>) {
    LastHeader(s.disk.manifest).Some? && Fronts(left, s.disk.logs) &&
    s' == State(s.disk.(logs := left), None, s.history - Lost(s.disk, left))
  }

  // ----- Opening -----

  function LoadFile(f: File, tables: map<nat, seq<Entry>>): File {
    if f.number in tables then f.(entries := tables[f.number]) else f
  }

  function LoadLevel(fs: seq<File>, tables: map<nat, seq<Entry>>): seq<File> {
    seq(|fs|, i requires 0 <= i < |fs| => LoadFile(fs[i], tables))
  }

  /** The version with the contents of its table files. */
  function Load(v: Levels, tables: map<nat, seq<Entry>>): Levels {
    seq(|v|, l requires 0 <= l < |v| => LoadLevel(v[l], tables))
  }

  /** The table files of a version are all there; otherwise recovery reports missing files. */
  ghost predicate AllPresent(v: Levels, tables: map<nat, seq<Entry>>) {
    forall fs, f | fs in v && f in fs :: f.number in tables
  }

  function Flatten(groups: seq<seq<Batch>>): seq<Batch> {
    if groups == [] then [] else Flatten(groups[..|groups| - 1]) + groups[|groups| - 1]
  }

  /** RecoverLogFile, WriteLevel0Table(mem, edit, nullptr): one level-0 table per group of records. */
  ghost predicate RecoveredTables(groups: seq<seq<Batch>>, files: seq<File>, first: nat) {
    |files| == |groups| && forall i | 0 <= i < |files| ::
      ValidFile(files[i]) && Elements(files[i].entries) == EntriesOf(groups[i]) && first <= files[i].number &&
      forall j | 0 <= j < i :: files[j].number < files[i].number
  }

  /** Records of empty batches leave no trace. */
  function Updates(batches: seq<Batch>): seq<Batch> {
    if batches == [] then []
    else
      Updates(batches[..|batches| - 1]) +
      if batches[|batches| - 1].ops != [] then [batches[|batches| - 1]] else []
  }

  function MaxEnd(batches: seq<Batch>, low: nat): nat {
    if batches == [] then low
    else
      var m := MaxEnd(batches[..|batches| - 1], low);
      var last := End(batches[|batches| - 1]) - 1;
      if last > m then last else m
  }

  datatype Opening = Opening(
    groups: seq<seq<Batch>>,  // records flushed to level-0 tables during recovery, table by table
    files: seq<File>,         // those tables
    rest: seq<Batch>,         // records left in the memtable, when the last log is reused
    reuse: bool,              // options.reuse_logs, and the last log needed no flush
    save: bool,               // save_manifest
    newManifest: bool,        // the saved edit goes to a new MANIFEST that starts with a snapshot
    logFile: nat,
    nextFile: nat,
    version: Levels)

  /** DB::Open on an existing database: replay the MANIFEST, then the live logs in order. */
  ghost predicate Open(s: State, s': State, v: Levels, o: Opening) {
    s.engine == None && LastHeader(s.disk.manifest).Some? && IsVersionOf(v, Edits(s.disk.manifest)) &&
    AllPresent(v, s.disk.tables) &&
    var h := LastHeader(s.disk.manifest).value;
    var loaded := Load(v, s.disk.tables);
    var records := LiveRecords(s.disk);
    var edit := Edit({}, OnLevel(0, o.files));
    var last := MaxEnd(records, h.lastSequence);
    Flatten(o.groups) + o.rest == Updates(records) && RecoveredTables(o.groups, o.files, h.nextFile) &&
    Applies(edit, loaded, o.version) &&
    (forall i | 0 <= i < |o.files| :: o.files[i].number < o.nextFile) &&
    h.nextFile <= o.nextFile && (forall n | n in s.disk.logs :: n < o.nextFile) && o.logFile < o.nextFile &&
    (if o.reuse then
       o.logFile in s.disk.logs && o.logFile >= h.logNumber && (forall n | n in s.disk.logs :: n <= o.logFile) &&
       o.rest == Updates(s.disk.logs[o.logFile])
     else
       o.rest == [] && (forall n | n in s.disk.logs :: n < o.logFile) && h.nextFile <= o.logFile) &&
    (!o.save ==> o.files == []) &&
    var logs := if o.reuse then s.disk.logs else s.disk.logs[o.logFile := []];
    var record := Record(edit, Some(Header(o.logFile, o.nextFile, last)));
    var manifest :=
      if !o.save then s.disk.manifest
      else if o.newManifest then [Record(SnapshotEdit(loaded), None), record]
      else s.disk.manifest + [record];
    s' == s.(disk := Disk(manifest, WithTables(s.disk.tables, o.files), logs),
             engine := Some(Engine(EntriesOf(o.rest), None, o.version, o.logFile,
                                   if o.save then o.logFile else h.logNumber, o.nextFile, last, [], NoWrite, Resting)))
  }

  /** An attempt to open that dies half way: tables nobody refers to, perhaps an empty new log. */
  ghost predicate FailedOpen(s: State, s': State, files: seq<File>, log: Option<nat>) {
    s.engine == None && LastHeader(s.disk.manifest).Some? &&
    var h := LastHeader(s.disk.manifest).value;
    (forall f | f in files :: h.nextFile <= f.number) &&
    (log.Some? ==> forall n | n in s.disk.logs :: n < log.value) &&
    s' == s.(disk := s.disk.(tables := WithTables(s.disk.tables, files),
                             logs := if log.Some? then s.disk.logs[log.value := []] else s.disk.logs))
  }

  datatype Step =
    | LogGroupStep(ops: seq<Op>) | ApplyGroupStep | CommitGroupStep | SwitchStep
    | StartFlushStep(es: seq<Entry>, size: nat, target: nat) | InstallFlushStep(v: Levels)
    | StartCompactionStep(level: nat, c: CompactionInputs, input: seq<Entry>, outputs: seq<File>)
    | InstallCompactionStep(v: Levels) | MoveStep(level: nat, c: CompactionInputs, v: Levels)
    | TakeSnapshotStep | ReleaseSnapshotStep(i: nat) | RemoveStep(tables: set<nat>, logs: set<nat>)
    | CrashStep(left: map<nat, seq<Batch>>) | OpenStep(v: Levels, o: Opening) | FailedOpenStep(files: seq<File>, log: Option<nat>)

  ghost predicate Next(s: State, s': State, step: Step) {
    match step
    case LogGroupStep(ops) => LogGroup(s, s', ops)
    case ApplyGroupStep => ApplyGroup(s, s')
    case CommitGroupStep => CommitGroup(s, s')
    case SwitchStep => SwitchMemTable(s, s')
    case StartFlushStep(es, size, target) => StartFlush(s, s', es, size, target)
    case InstallFlushStep(v) => InstallFlush(s, s', v)
    case StartCompactionStep(level, c, input, outputs) => StartCompaction(s, s', level, c, input, outputs)
    case InstallCompactionStep(v) => InstallCompaction(s, s', v)
    case MoveStep(level, c, v) => MoveFile(s, s', level, c, v)
    case TakeSnapshotStep => TakeSnapshot(s, s')
    case ReleaseSnapshotStep(i) => ReleaseSnapshot(s, s', i)
    case RemoveStep(tables, logs) => RemoveObsolete(s, s', tables, logs)
    case CrashStep(left) => Crash(s, s', left)
    case OpenStep(v, o) => Open(s, s', v, o)
    case FailedOpenStep(files, log) => FailedOpen(s, s', files, log)
  }

  /** DBImpl::NewDB has just run: a MANIFEST with empty levels, next file 2 and no log. */
  ghost predicate Init(s: State) {
    s == State(Disk([Record(Edit({}, []), Some(Header(0, 2, 0)))], map[], map[]), None, {})
  }
}
