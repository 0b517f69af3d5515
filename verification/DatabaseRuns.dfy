/** Safety of whole runs: any interleaving of the steps, with any number of crashes and reopenings. */
module DatabaseRuns {
  import opened Entries
  import opened Files
  import opened Reads
  import opened Inputs
  import opened Compactions
  import opened Installs
  import opened Manifest
  import opened Database
  import opened DatabaseState
  import opened DatabaseSteps
  import opened DatabaseJobs
  import opened DatabaseOpen

  const EMPTY: Levels := [[], [], [], [], [], [], []]

  lemma InitInv(s: State)
    requires Init(s)
    ensures Inv(s)
  {
    hide VersionInv, ReadsPreserved;
    assert s.disk.logs.Keys == {} && LiveRecords(s.disk) == [];
    assert LevelEntries(EMPTY) == {} && EntriesOf([]) == {};
    assert LogInv(s.disk, EMPTY, s.history);
    SameSet(Settled(s.disk, s.history), LevelEntries(EMPTY), LastStored(s.disk));
    EmptyVersion(s.disk);
    assert StoredInv(s.disk, EMPTY, s.history, LastStored(s.disk));
  }

  lemma SameSet(S: set<Entry>, T: set<Entry>, oldest: nat)
    requires S == T
    ensures ReadsPreserved(S, T, oldest)
  {
  }

  lemma EmptyReadable()
    ensures ReadableLevels(EMPTY) && NumbersDistinct(EMPTY) && Intact(EMPTY, map[])
  {
    hide FileEntries, ValidFile, ShallowerIsNewer, NumbersDistinct, Intact;
    assert forall l | 0 <= l < NUM_LEVELS :: EMPTY[l] == [];
    EmptyLevels(EMPTY);
  }

  lemma EmptyLevels(v: Levels)
    requires |v| == NUM_LEVELS && forall l | 0 <= l < NUM_LEVELS :: v[l] == []
    ensures ShallowerIsNewer(v) && NumbersDistinct(v) && Intact(v, map[])
  {
    assert FileEntries([]) == {};
  }

  lemma EmptyVersion(disk: Disk)
    requires disk == Disk([Record(Edit({}, []), Some(Header(0, 2, 0)))], map[], map[])
    ensures VersionInv(disk, EMPTY)
  {
    hide ReadableLevels, NumbersDistinct, Intact, ManifestInv;
    EmptyReadable();
    EmptyManifest(disk.manifest);
  }

  lemma EmptyManifest(manifest: seq<Record>)
    requires manifest == [Record(Edit({}, []), Some(Header(0, 2, 0)))]
    ensures ManifestInv(manifest, EMPTY)
  {
    assert Edits(manifest) == [Edit({}, [])];
    OneEditIsEmpty();
    assert forall l | 0 <= l < NUM_LEVELS :: EMPTY[l] == [] && FileSet(EMPTY[l]) == {};
  }

  lemma OneEditIsEmpty()
    ensures Named([Edit({}, [])]) == {} && forall l :: Stepped({}, [Edit({}, [])], l) == {}
  {
    var e := Edit({}, []);
    assert [e][..0] == [] && NamedBy(e) == {};
    forall l
      ensures Stepped({}, [e], l) == {}
    {
      OneEdit(e, l);
      assert AddedAt(e, l) == {} && Stepped({}, [], l) == {};
    }
  }

  /** Every step keeps the invariant. */
  lemma NextKeeps(s: State, s': State, step: Step)
    requires Inv(s) && Next(s, s', step)
    ensures Inv(s')
  {
    hide Inv, LogGroup, ApplyGroup, CommitGroup, SwitchMemTable, StartFlush, InstallFlush, StartCompaction,
      InstallCompaction, MoveFile, TakeSnapshot, ReleaseSnapshot, RemoveObsolete, Crash, Open, FailedOpen;
    match step
    case LogGroupStep(ops) => LogGroupKeeps(s, s', ops);
    case ApplyGroupStep => ApplyGroupKeeps(s, s');
    case CommitGroupStep => CommitGroupKeeps(s, s');
    case SwitchStep => SwitchKeeps(s, s');
    case StartFlushStep(es, size, target) => StartFlushKeeps(s, s', es, size, target);
    case InstallFlushStep(v) => InstallFlushKeeps(s, s', v);
    case StartCompactionStep(level, c, input, outputs) => StartCompactionKeeps(s, s', level, c, input, outputs);
    case InstallCompactionStep(v) => InstallCompactionKeeps(s, s', v);
    case MoveStep(level, c, v) => MoveFileKeeps(s, s', level, c, v);
    case TakeSnapshotStep => TakeSnapshotKeeps(s, s');
    case ReleaseSnapshotStep(i) => ReleaseSnapshotKeeps(s, s', i);
    case RemoveStep(tables, logs) => RemoveKeeps(s, s', tables, logs);
    case CrashStep(left) => CrashKeeps(s, s', left);
    case OpenStep(v, o) => OpenKeeps(s, s', v, o);
    case FailedOpenStep(files, log) => FailedOpenKeeps(s, s', files, log);
  }

  ghost predicate Run(states: seq<State>, steps: seq<Step>) {
    |states| == |steps| + 1 && Init(states[0]) &&
    forall i | 0 <= i < |steps| :: Next(states[i], states[i + 1], steps[i])
  }

  lemma {:induction false} RunsKeepInv(states: seq<State>, steps: seq<Step>, i: nat)
    requires Run(states, steps) && i < |states|
    ensures Inv(states[i])
  {
    hide Inv, Next, Init;
    if i == 0 {
      InitInv(states[0]);
    } else {
      RunsKeepInv(states, steps, i - 1);
      NextKeeps(states[i - 1], states[i], steps[i - 1]);
    }
  }

  ghost predicate EndsIn(states: seq<State>, steps: seq<Step>, s: State) {
    Run(states, steps) && states[|states| - 1] == s
  }

  ghost predicate Reached(s: State) {
    exists states, steps :: EndsIn(states, steps, s)
  }

  lemma ReachStep(s: State, s': State, step: Step)
    requires Reached(s) && Next(s, s', step)
    ensures Reached(s')
  {
    hide Next, Init;
    var states, steps :| EndsIn(states, steps, s);
    var states', steps' := states + [s'], steps + [step];
    forall i | 0 <= i < |steps'|
      ensures Next(states'[i], states'[i + 1], steps'[i])
    {
      if i < |steps| {
        assert Next(states[i], states[i + 1], steps[i]);
      }
    }
    assert EndsIn(states', steps', s');
  }

  // ----- What readers get -----

  /** The memtable is newer than the immutable one: it holds later records. */
  lemma MemIsNewest(s: State)
    requires Inv(s) && s.engine.Some?
    ensures NewerThan(s.engine.value.mem, ImmEntries(s.engine.value))
  {
    hide VersionInv, ReadsPreserved, LiveRecords, CounterInv, BackgroundInv, SnapshotInv, Unique, BatchEntries, Ascending;
    var e := s.engine.value;
    RunningRecords(s.disk, e);
    var older, current := Records(s.disk.logs, e.logNumber, e.logFile), s.disk.logs[e.logFile];
    SuffixFollows(older, current);
    forall x, y | x in e.mem && y in ImmEntries(e)
      ensures x.key.sequence > y.key.sequence
    {
      var b :| b in current && x in BatchEntries(b);
      var a :| a in older && y in BatchEntries(a);
      BatchBounds(b, x);
      BatchBounds(a, y);
    }
  }

  /** The layers a lookup searches are ordered newest first. */
  lemma LayersOrdered(s: State)
    requires Inv(s) && s.engine.Some?
    ensures var e := s.engine.value;
      ReadableLevels(e.version) && Unique(Contents(e)) && Contents(e) <= s.history &&
      NewerThan(e.mem, ImmEntries(e) + LevelEntries(e.version)) && NewerThan(ImmEntries(e), LevelEntries(e.version))
  {
    hide ManifestInv, ReadsPreserved, LiveRecords, CounterInv, BackgroundInv, SnapshotInv, ReadableLevels, NumbersDistinct,
      Ascending, Contents, Unique;
    FlushInputs(s.disk, s.engine.value, s.history);
    MemIsNewest(s);
    ContentsInHistory(s);
  }

  lemma ContentsInHistory(s: State)
    requires Inv(s) && s.engine.Some?
    ensures Unique(Contents(s.engine.value)) && Contents(s.engine.value) <= s.history
  {
    hide VersionInv, ReadsPreserved, LiveRecords, CounterInv, BackgroundInv, SnapshotInv, MemInv, Contents, Pending;
    StoredIsContents(s);
    assert Stored(s.disk, s.engine.value.version) <= s.history;
  }

  // ----- Which compactions a run may hold -----

  /** Reads over part of the memtables do not notice a change of version. */
  ghost predicate Unseen(memory: set<Entry>, v: Levels, v': Levels, oldest: nat) {
    ReadsPreserved(memory + LevelEntries(v), memory + LevelEntries(v'), oldest)
  }

  /** MAIN: a compaction on inputs picked by SetupOtherInputs is invisible to readers, now and after a crash that loses
      any part of the memtables, if and only if it may start: the proviso of the step leaves out nothing else. */
  lemma CompactionIsUnseenIff(s: State, v': Levels, level: nat, c: CompactionInputs, input: seq<Entry>, outputs: seq<File>)
    requires s.engine.Some? && |s.engine.value.version| == NUM_LEVELS && level + 1 < NUM_LEVELS
    requires WellChosen(s.engine.value.version, level, c) && Inv(s)
    requires CompactionEdit(s.engine.value.version, v', level, c, outputs)
    requires Sorted(input) && Elements(input) == InputEntries(c)
    requires Concat(outputs) == Kept(input, |input|, SmallestSnapshot(s.engine.value), s.engine.value.version, level)
    ensures var e := s.engine.value;
      (forall memory | memory <= Memory(e) :: Unseen(memory, e.version, v', SmallestSnapshot(e))) <==>
      NothingExposed(e.version, level, input, SmallestSnapshot(e), LeftBehind(e.version, c))
  {
    hide Inv, ReadsPreserved, NothingExposed, WellChosen, CompactionEdit, Kept, Sorted, ReadableLevels, Unique, NewerThan,
      Unseen, LevelEntries, LeftBehind;
    var e := s.engine.value;
    var oldest := SmallestSnapshot(e);
    MemoryIsNewer(s);
    SmallerUnique(LevelEntries(e.version), Memory(e) + LevelEntries(e.version));
    NothingAbove(e.version, v', c);
    assert NewerThan({}, LevelEntries(e.version)) by {
      NothingIsNewer(LevelEntries(e.version));
    }
    InstallPreservesReadsIff(e.version, v', level, c, input, outputs, oldest, {});
    InstalledFewer(e.version, v', level, c, input, outputs, oldest);
    if NothingExposed(e.version, level, input, oldest, LeftBehind(e.version, c)) {
      forall memory | memory <= Memory(e)
        ensures Unseen(memory, e.version, v', oldest)
      {
        UnseenBelow(memory, Memory(e), e.version, v', oldest);
      }
    } else {
      assert !Unseen({}, e.version, v', oldest) by {
        SeenAlone(e.version, v', oldest);
      }
    }
  }

  lemma NothingIsNewer(S: set<Entry>)
    ensures NewerThan({}, S)
  {
  }

  lemma SeenAlone(v: Levels, v': Levels, oldest: nat)
    requires !ReadsPreserved({} + LevelEntries(v), {} + LevelEntries(v'), oldest)
    ensures !Unseen({}, v, v', oldest)
  {
    hide ReadsPreserved;
  }

  lemma UnseenBelow(memory: set<Entry>, all: set<Entry>, v: Levels, v': Levels, oldest: nat)
    requires memory <= all && NewerThan(all, LevelEntries(v)) && Unique(all + LevelEntries(v))
    requires ReadsPreserved(LevelEntries(v), LevelEntries(v'), oldest) && LevelEntries(v') <= LevelEntries(v)
    ensures Unseen(memory, v, v', oldest)
  {
    hide ReadsPreserved, LevelEntries;
    SmallerUnique(memory + LevelEntries(v), all + LevelEntries(v));
    assert memory + LevelEntries(v) == LevelEntries(v) + memory && memory + LevelEntries(v') == LevelEntries(v') + memory;
    AddNewer(LevelEntries(v), LevelEntries(v'), memory, oldest);
  }

  /** A clear next level is enough. */
  lemma ClearCompactionMayStart(s: State, level: nat, c: CompactionInputs, input: seq<Entry>)
    requires s.engine.Some? && level + 1 < NUM_LEVELS && |s.engine.value.version| == NUM_LEVELS
    requires WellChosen(s.engine.value.version, level, c) && NextLevelClear(s.engine.value.version, level, c) && Inv(s)
    requires Sorted(input) && Elements(input) == InputEntries(c)
    ensures var e := s.engine.value;
      NothingExposed(e.version, level, input, SmallestSnapshot(e), LeftBehind(e.version, c))
  {
    hide Inv, NothingExposed, WellChosen, NextLevelClear, Sorted, ReadableLevels, Unique, LevelEntries;
    var e := s.engine.value;
    MemoryIsNewer(s);
    SmallerUnique({} + LevelEntries(e.version), Memory(e) + LevelEntries(e.version));
    NothingAbove(e.version, e.version, c);
    ClearExposesNothing(e.version, level, c, input, SmallestSnapshot(e), {});
  }

  lemma MemoryIsNewer(s: State)
    requires Inv(s) && s.engine.Some?
    ensures var e := s.engine.value;
      ReadableLevels(e.version) && NewerThan(Memory(e), LevelEntries(e.version)) &&
      Contents(e) == Memory(e) + LevelEntries(e.version) && Unique(Memory(e) + LevelEntries(e.version))
  {
    hide Inv, ReadableLevels, Unique;
    LayersOrdered(s);
  }

  /** Stored is what readers see, plus the group that is logged and not yet in the memtable. */
  lemma StoredIsContents(s: State)
    requires Inv(s) && s.engine.Some?
    ensures LastHeader(s.disk.manifest).Some?
    ensures Stored(s.disk, s.engine.value.version) == Contents(s.engine.value) + Pending(s.engine.value.write)
  {
    hide VersionInv, ReadsPreserved, LiveRecords, CounterInv, BackgroundInv, SnapshotInv;
    RunningRecords(s.disk, s.engine.value);
  }

  lemma ReadsMatchHistory(s: State, k: UserKey, at: nat)
    requires Inv(s) && s.engine.Some?
    requires SmallestSnapshot(s.engine.value) <= at <= s.engine.value.lastSequence
    ensures Read(Contents(s.engine.value), k, at) == Read(s.history, k, at)
  {
    hide VersionInv, MemInv, LiveRecords, BackgroundInv, SnapshotInv, Contents, Stored, Unique;
    var e := s.engine.value;
    StoredIsContents(s);
    PendingInHistory(s);
    StoredReads(s.disk, e.version, s.history, SmallestSnapshot(e));
    assert Read(Stored(s.disk, e.version), k, at) == Read(s.history, k, at);
    forall x | x in Pending(e.write)
      ensures !Visible(x, k, at)
    {
      BatchBounds(e.write.batch, x);
    }
    IgnoreInvisible(Contents(e), Pending(e.write), k, at);
  }

  lemma PendingInHistory(s: State)
    requires Inv(s) && s.engine.Some?
    ensures Unique(Contents(s.engine.value) + Pending(s.engine.value.write))
  {
    hide VersionInv, ReadsPreserved, LiveRecords, CounterInv, BackgroundInv, SnapshotInv, MemInv, Contents, Pending;
    StoredIsContents(s);
    assert Stored(s.disk, s.engine.value.version) <= s.history;
  }

  /** MAIN: in every run, every read at a live snapshot, or at the last sequence number, returns the newest
      write ever committed for the key, whatever flushes, compactions, deletions of files, crashes and
      recoveries came in between. */
  lemma RunsReadTheHistory(states: seq<State>, steps: seq<Step>, i: nat, k: UserKey, at: nat)
    requires Run(states, steps) && i < |states| && states[i].engine.Some?
    requires at == states[i].engine.value.lastSequence || at in states[i].engine.value.snapshots
    ensures Read(Contents(states[i].engine.value), k, at) == Read(states[i].history, k, at)
    ensures forall x | IsNewest(states[i].history, k, at, x) :: Read(Contents(states[i].engine.value), k, at) == Outcome(x)
  {
    hide VersionInv, MemInv, LiveRecords, BackgroundInv, CounterInv, Contents, Stored, Unique, Run, Read;
    RunsKeepInv(states, steps, i);
    SnapshotInRange(states[i].engine.value, at);
    ReadsMatchHistory(states[i], k, at);
    forall x | IsNewest(states[i].history, k, at, x)
      ensures Read(states[i].history, k, at) == Outcome(x)
    {
      ReadIs(states[i].history, k, at, x);
    }
  }

  lemma SnapshotInRange(e: Engine, at: nat)
    requires SnapshotInv(e) && (at == e.lastSequence || at in e.snapshots)
    ensures SmallestSnapshot(e) <= at <= e.lastSequence
  {
  }

  /** MAIN: DBImpl::Get on any reachable state, over any sorted presentation of the memtables, reads the history. */
  method GetInRun(ghost states: seq<State>, ghost steps: seq<Step>, s: State, mem: seq<Entry>, imm: seq<Entry>,
                  k: UserKey, at: nat, mayMatch: (nat, UserKey) -> bool)
    returns (r: Option<Bytes>)
    requires Run(states, steps) && s in states && s.engine.Some?
    requires Sorted(mem) && Elements(mem) == s.engine.value.mem
    requires Sorted(imm) && Elements(imm) == ImmEntries(s.engine.value)
    requires at == s.engine.value.lastSequence || at in s.engine.value.snapshots
    requires forall l | 0 <= l < |s.engine.value.version| :: NoFalseNegatives(mayMatch, s.engine.value.version[l])
    ensures r == Read(s.history, k, at)
  {
    hide Inv, Run, Read, NewerThan, Unique, Sorted, NoFalseNegatives, ValidFile;
    ghost var i :| 0 <= i < |states| && states[i] == s;
    assert |states| > 0;
    RunsKeepInv(states, steps, i);
    LayersOrdered(s);
    RunsReadTheHistory(states, steps, i, k, at);
    assert AllEntries(mem, imm, s.engine.value.version) == Contents(s.engine.value);
    r := DatabaseGet(mem, imm, s.engine.value.version, k, at, mayMatch);
  }

  // ----- What a crash costs -----

  /** A state in which the database is down still stores what it stored before, but for records cut from the logs. */
  ghost predicate StoresTheRest(s: State, s': State) {
    LastHeader(s.disk.manifest).Some? && s'.disk.manifest == s.disk.manifest && s'.history <= s.history &&
    s.history - s'.history <= EntriesOf(LiveRecords(s.disk)) &&
    EntriesOf(LiveRecords(s'.disk)) == EntriesOf(LiveRecords(s.disk)) * s'.history
  }

  /** Records may be cut, and an empty log added; of the history, the cut records' entries go. */
  lemma RestCrashed(s: State, s1: State, s2: State, left: map<nat, seq<Batch>>)
    requires StoresTheRest(s, s1) && Crash(s1, s2, left) && EntriesOf(LiveRecords(s1.disk)) <= s1.history
    requires EntriesOf(LiveRecords(s2.disk)) <= EntriesOf(LiveRecords(s1.disk))
    ensures StoresTheRest(s, s2)
  {
    hide LiveRecords, EntriesOf;
  }

  /** The database stays down: it crashes again, or an attempt to open it dies half way. */
  ghost predicate StaysDown(step: Step) {
    step.CrashStep? || step.FailedOpenStep?
  }

  lemma HasLog(s: State) returns (v: Levels)
    requires Inv(s)
    ensures LogInv(s.disk, v, s.history)
  {
    hide VersionInv, LogInv, ReadsPreserved, EngineInv, LiveRecords;
    match s.engine
    case Some(e) => v := e.version;
    case None => v :| StoredInv(s.disk, v, s.history, LastStored(s.disk));
  }

  /** Before the first crash nothing is missing. */
  lemma RestStarts(s: State)
    requires Inv(s)
    ensures StoresTheRest(s, s)
  {
    hide Inv, LiveRecords, EntriesOf, Ascending, Unique;
    var v := HasLog(s);
  }

  lemma RestSteps(s: State, s1: State, s2: State, step: Step)
    requires Inv(s1) && StoresTheRest(s, s1) && Next(s1, s2, step) && StaysDown(step)
    ensures StoresTheRest(s, s2) && s2.engine == None
  {
    hide Inv, LiveRecords, EntriesOf, Ascending, Unique, Records, LogInv, Settled, StoresTheRest, Open, LogGroup, ApplyGroup,
      CommitGroup, SwitchMemTable, StartFlush, InstallFlush, StartCompaction, InstallCompaction, MoveFile, RemoveObsolete,
      WithTables;
    var v := HasLog(s1);
    match step
    case CrashStep(left) =>
      CrashedLog(s1.disk, v, s1.history, left);
      LiveIsHistory(s1.disk, v, s1.history);
      RestCrashed(s, s1, s2, left);
    case FailedOpenStep(files, log) =>
      if log.Some? {
        EmptyTopLog(s1.disk, s2.disk, log.value);
      } else {
        SameLogs(s1.disk, s2.disk);
      }
      RestKept(s, s1, s2);
    case _ =>
  }

  lemma LiveIsHistory(disk: Disk, v: Levels, history: set<Entry>)
    requires LogInv(disk, v, history)
    ensures EntriesOf(LiveRecords(disk)) <= history
  {
    hide LiveRecords, EntriesOf, Ascending, Unique;
  }

  lemma RestKept(s: State, s1: State, s2: State)
    requires StoresTheRest(s, s1) && s2.disk.manifest == s1.disk.manifest && s2.history == s1.history
    requires LiveRecords(s2.disk) == LiveRecords(s1.disk)
    ensures StoresTheRest(s, s2)
  {
    hide LiveRecords, EntriesOf;
  }

  lemma {:induction false} DownStoresTheRest(states: seq<State>, steps: seq<Step>, i: nat, j: nat)
    requires Run(states, steps) && i <= j < |states| && forall k | i <= k < j :: StaysDown(steps[k])
    ensures StoresTheRest(states[i], states[j]) && (i < j ==> states[j].engine == None)
  {
    hide Inv, Next, StoresTheRest, StaysDown, Init;
    if i == j {
      RunsKeepInv(states, steps, i);
      RestStarts(states[i]);
    } else {
      DownStoresTheRest(states, steps, i, j - 1);
      RunsKeepInv(states, steps, j - 1);
      RestSteps(states[i], states[j - 1], states[j], steps[j - 1]);
    }
  }

  lemma SameLogs(disk: Disk, disk': Disk)
    requires LastHeader(disk.manifest).Some? && disk'.manifest == disk.manifest && disk'.logs == disk.logs
    ensures LiveRecords(disk') == LiveRecords(disk)
  {
  }

  /** Crash at i, stay down to j, reopen at j. */
  ghost predicate CrashAndReopen(states: seq<State>, steps: seq<Step>, i: nat, j: nat) {
    i < j && j + 1 < |states| && |steps| + 1 == |states| && states[i].engine.Some? &&
    (forall k | i <= k < j :: StaysDown(steps[k])) && steps[j].OpenStep?
  }

  /** MAIN: crash at any point of any run, of the process or of the machine, crash again and fail to reopen any number of
      times, and reopen: the database holds exactly what it held, and the group in flight, but for what went with the
      tails of logs; and all of that was in memory only. */
  lemma CrashLosesOnlyTails(states: seq<State>, steps: seq<Step>, i: nat, j: nat)
    requires Run(states, steps) && CrashAndReopen(states, steps, i, j)
    ensures states[j + 1].engine.Some? && states[j + 1].history == states[j].history <= states[i].history
    ensures Contents(states[j + 1].engine.value) ==
      (Contents(states[i].engine.value) + Pending(states[i].engine.value.write)) * states[j].history
    ensures states[i].history - states[j].history <= Memory(states[i].engine.value) + Pending(states[i].engine.value.write)
  {
    hide Inv, Stored, Contents, Init, Next, Open, LiveRecords, EntriesOf, MemInv;
    var v, o := steps[j].v, steps[j].o;
    OpensAt(states, steps, j, v, o);
    RunsKeepInv(states, steps, i);
    RunsKeepInv(states, steps, j);
    RunsKeepInv(states, steps, j + 1);
    StoredIsContents(states[i]);
    DownStoresTheRest(states, steps, i, j);
    ReopenedStore(states[i], states[j], states[j + 1], v, o);
    StoredIsContents(states[j + 1]);
    LiveIsMemory(states[i]);
  }

  lemma LiveIsMemory(s: State)
    requires Inv(s) && s.engine.Some?
    ensures LastHeader(s.disk.manifest).Some?
    ensures EntriesOf(LiveRecords(s.disk)) == Memory(s.engine.value) + Pending(s.engine.value.write)
  {
    hide VersionInv, LogInv, ReadsPreserved, CounterInv, SnapshotInv, BackgroundInv, LiveRecords, EntriesOf;
    RunningRecords(s.disk, s.engine.value);
  }

  /** MAIN: if the logs stay whole, as they do when only the process dies, a crash at any point of any run, with further
      crashes and failed attempts to open behind it, costs nothing. */
  lemma CrashLosesNothing(states: seq<State>, steps: seq<Step>, i: nat, j: nat)
    requires Run(states, steps) && CrashAndReopen(states, steps, i, j)
    requires forall k | i <= k < j && steps[k].CrashStep? :: steps[k].left == states[k].disk.logs
    ensures states[j + 1].engine.Some?
    ensures Contents(states[j + 1].engine.value) ==
      Contents(states[i].engine.value) + Pending(states[i].engine.value.write)
  {
    hide Inv, Contents, Init, Next, Run, LiveRecords, EntriesOf;
    CrashLosesOnlyTails(states, steps, i, j);
    WholeLogs(states, steps, i, j);
    RunsKeepInv(states, steps, i);
    AllInHistory(states[i]);
  }

  lemma {:induction false} WholeLogs(states: seq<State>, steps: seq<Step>, i: nat, j: nat)
    requires Run(states, steps) && i <= j < |states| && forall k | i <= k < j :: StaysDown(steps[k])
    requires forall k | i <= k < j && steps[k].CrashStep? :: steps[k].left == states[k].disk.logs
    ensures states[j].history == states[i].history
  {
    hide Init, Open, LogGroup, ApplyGroup, CommitGroup, SwitchMemTable, StartFlush, InstallFlush, StartCompaction,
      InstallCompaction, MoveFile, RemoveObsolete, LiveRecords, EntriesOf, WithTables;
    if i < j {
      WholeLogs(states, steps, i, j - 1);
      var s := states[j - 1];
      assert Next(s, states[j], steps[j - 1]);
      assert s.disk.(logs := s.disk.logs) == s.disk;
    }
  }

  lemma AllInHistory(s: State)
    requires Inv(s) && s.engine.Some?
    ensures Contents(s.engine.value) + Pending(s.engine.value.write) <= s.history
  {
    hide VersionInv, ReadsPreserved, LiveRecords, EngineInv, Contents, Pending;
    StoredIsContents(s);
    assert Stored(s.disk, s.engine.value.version) <= s.history;
  }

  lemma OpensAt(states: seq<State>, steps: seq<Step>, i: nat, v: Levels, o: Opening)
    requires Run(states, steps) && i < |steps| && steps[i] == OpenStep(v, o)
    ensures Open(states[i], states[i + 1], v, o)
  {
    hide Open, Init;
    assert Next(states[i], states[i + 1], steps[i]);
  }

  lemma ReopenedStore(s0: State, s1: State, s2: State, v: Levels, o: Opening)
    requires Inv(s0) && s0.engine.Some? && Inv(s1) && StoresTheRest(s0, s1) && Open(s1, s2, v, o)
    ensures LastHeader(s2.disk.manifest).Some? && LastHeader(s0.disk.manifest).Some? && s2.engine.Some?
    ensures Stored(s2.disk, s2.engine.value.version) == Stored(s0.disk, s0.engine.value.version) * s1.history
    ensures s2.engine.value.write == NoWrite && s2.history == s1.history
  {
    hide VersionInv, LogInv, ReadsPreserved, EngineInv, LiveRecords, EntriesOf;
    var w :| StoredInv(s1.disk, w, s1.history, LastStored(s1.disk));
    SameAsStored(s1.disk, w, v);
    RecordedVersion(s0.disk, s0.engine.value.version);
    SameAsStored(s1.disk, w, s0.engine.value.version);
    OpenedVersion(s1, s2, v, o);
    OpenedStore(s1, s2, v, o);
    LevelsInHistory(s1.disk, w, s1.history);
  }

  lemma LevelsInHistory(disk: Disk, v: Levels, history: set<Entry>)
    requires LogInv(disk, v, history)
    ensures LevelEntries(v) <= history
  {
    hide LiveRecords, EntriesOf, Ascending, Unique;
  }

  lemma RecordedVersion(disk: Disk, v: Levels)
    requires VersionInv(disk, v)
    ensures LastHeader(disk.manifest).Some? && IsVersionOf(v, Edits(disk.manifest))
  {
  }

  /** MAIN: at no point of any run does recovery find a table file missing or changed. */
  lemma NoTableIsMissing(states: seq<State>, steps: seq<Step>, i: nat, v: Levels)
    requires Run(states, steps) && i < |states| && IsVersionOf(v, Edits(states[i].disk.manifest))
    ensures AllPresent(v, states[i].disk.tables) && Load(v, states[i].disk.tables) == v
  {
    hide LogInv, ReadsPreserved, EngineInv, VersionInv, LiveRecords, Run;
    RunsKeepInv(states, steps, i);
    var s := states[i];
    var w: Levels;
    if s.engine.Some? {
      w := s.engine.value.version;
    } else {
      w :| StoredInv(s.disk, w, s.history, LastStored(s.disk));
    }
    RecordedVersion(s.disk, w);
    SameAsStored(s.disk, w, v);
  }
}
