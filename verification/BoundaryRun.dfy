/** A run of the database that reaches the version of Boundary: it is no artefact of the invariant. */
module BoundaryRuns {
  import opened Entries
  import opened Files
  import opened Reads
  import opened Inputs
  import opened Compactions
  import opened Manifest
  import opened Installs
  import opened Database
  import opened DatabaseState
  import opened DatabaseJobs
  import opened DatabaseRuns
  import opened Boundary

  /** An open database at rest, as far as it matters here. */
  datatype Brief = Brief(mem: set<Entry>, version: Levels, nextFile: nat, lastSequence: nat, snapshots: seq<nat>)

  ghost predicate Shows(s: State, b: Brief) {
    s.engine.Some? &&
    var e := s.engine.value;
    e.mem == b.mem && e.imm == None && e.version == b.version && e.nextFile == b.nextFile &&
    e.lastSequence == b.lastSequence && e.snapshots == b.snapshots && e.write == NoWrite && e.background == Resting &&
    e.logFile in s.disk.logs
  }

  ghost predicate Arrives(b: Brief) {
    exists s :: Reached(s) && Shows(s, b)
  }

  const NEW: State :=
    State(Disk([Record(Edit({}, []), Some(Header(0, 2, 0)))], map[], map[]), None, {})

  const OPENED: State :=
    NEW.(disk := NEW.disk.(logs := map[2 := []]),
         engine := Some(Engine({}, None, EMPTY, 2, 0, 3, 0, [], NoWrite, Resting)))

  const OPENING := Opening([], [], [], false, false, false, 2, 3, EMPTY)

  lemma OpenArrives()
    ensures Arrives(Brief({}, EMPTY, 3, 0, []))
  {
    hide Open, LiveRecords, LogGroup, StartFlush, StartCompaction;
    assert Reached(NEW) by {
      assert EndsIn([NEW], [], NEW);
    }
    NewOpens();
    assert Next(NEW, OPENED, OpenStep(EMPTY, OPENING));
    ReachStep(NEW, OPENED, OpenStep(EMPTY, OPENING));
    assert Shows(OPENED, Brief({}, EMPTY, 3, 0, []));
  }

  lemma NewOpens()
    ensures Open(NEW, OPENED, EMPTY, OPENING)
  {
    hide Applies, LiveRecords, IsVersionOf, LevelEntries, FileSet;
    EmptyManifest(NEW.disk.manifest);
    NothingApplies();
    NoRecords(NEW.disk);
    EmptyLoads();
    NothingToFlush();
  }

  lemma EmptyLoads()
    ensures Load(EMPTY, map[]) == EMPTY && AllPresent(EMPTY, map[])
  {
  }

  lemma NothingToFlush()
    ensures EntriesOf([]) == {} && OnLevel(0, []) == [] && RecoveredTables([], [], 2) && Updates([]) == []
    ensures MaxEnd([], 0) == 0 && WithTables(map[], []) == map[] && Flatten([]) + [] == Updates([])
  {
  }

  lemma NoRecords(disk: Disk)
    requires disk.logs == map[] && LastHeader(disk.manifest).Some?
    ensures LiveRecords(disk) == []
  {
    assert disk.logs.Keys == {};
  }

  lemma NothingApplies()
    ensures Applies(Edit({}, OnLevel(0, [])), EMPTY, EMPTY)
  {
    assert OnLevel(0, []) == [];
    forall l | 0 <= l < NUM_LEVELS
      ensures Built(FileSet(EMPTY[l]), [Edit({}, [])], l) == {}
    {
      OneEdit(Edit({}, []), l);
      assert FileSet(EMPTY[l]) == {} && AddedAt(Edit({}, []), l) == {};
    }
  }

  /** A group commit: logged, applied, committed. */
  lemma WriteArrives(b: Brief, ops: seq<Op>)
    requires Arrives(b)
    ensures Arrives(b.(mem := b.mem + BatchEntries(Batch(b.lastSequence + 1, ops)), lastSequence := b.lastSequence + |ops|))
  {
    hide Reached, BatchEntries;
    var s :| Reached(s) && Shows(s, b);
    var e, batch := s.engine.value, Batch(b.lastSequence + 1, ops);
    var disk := s.disk.(logs := s.disk.logs[e.logFile := s.disk.logs[e.logFile] + [batch]]);
    var s1 := State(disk, Some(e.(write := Logged(batch))), s.history + BatchEntries(batch));
    var s2 := s1.(engine := Some(e.(mem := e.mem + BatchEntries(batch), write := Applied(batch))));
    var s3 := s2.(engine := Some(e.(mem := e.mem + BatchEntries(batch), lastSequence := e.lastSequence + |ops|)));
    assert Next(s, s1, LogGroupStep(ops)) && Next(s1, s2, ApplyGroupStep) && Next(s2, s3, CommitGroupStep);
    ReachStep(s, s1, LogGroupStep(ops));
    ReachStep(s1, s2, ApplyGroupStep);
    ReachStep(s2, s3, CommitGroupStep);
    assert Shows(s3, b.(mem := b.mem + BatchEntries(batch), lastSequence := b.lastSequence + |ops|));
  }

  lemma SnapshotArrives(b: Brief)
    requires Arrives(b)
    ensures Arrives(b.(snapshots := b.snapshots + [b.lastSequence]))
  {
    hide Reached;
    var s :| Reached(s) && Shows(s, b);
    var e := s.engine.value;
    var s' := s.(engine := Some(e.(snapshots := e.snapshots + [e.lastSequence])));
    assert Next(s, s', TakeSnapshotStep);
    ReachStep(s, s', TakeSnapshotStep);
    assert Shows(s', b.(snapshots := b.snapshots + [b.lastSequence]));
  }

  lemma ReleaseArrives(b: Brief)
    requires Arrives(b) && |b.snapshots| == 1
    ensures Arrives(b.(snapshots := []))
  {
    hide Reached;
    var s :| Reached(s) && Shows(s, b);
    var e := s.engine.value;
    var s' := s.(engine := Some(e.(snapshots := e.snapshots[..0] + e.snapshots[1..])));
    assert e.snapshots[..0] + e.snapshots[1..] == [];
    assert Next(s, s', ReleaseSnapshotStep(0));
    ReachStep(s, s', ReleaseSnapshotStep(0));
    assert Shows(s', b.(snapshots := []));
  }

  function TableFor(b: Brief, es: seq<Entry>): File
    requires es != []
  {
    File(b.nextFile + 1, 1, es[0].key, es[|es| - 1].key, es)
  }

  /** The memtable becomes a table: switch, flush, install. */
  lemma FlushArrives(b: Brief, es: seq<Entry>, target: nat, v': Levels)
    requires Arrives(b) && es != [] && Sorted(es) && Elements(es) == b.mem && target <= MAX_MEM_COMPACT_LEVEL
    requires FitsLevel(b.version, target, TableFor(b, es)) && Applies(FlushEdit(Some(TableFor(b, es)), target), b.version, v')
    ensures Arrives(b.(mem := {}, version := v', nextFile := b.nextFile + 2))
  {
    hide Reached, Sorted, FitsLevel, Applies;
    var s :| Reached(s) && Shows(s, b);
    var e, f := s.engine.value, TableFor(b, es);
    var e1 := e.(imm := Some(e.mem), mem := {}, logFile := e.nextFile, nextFile := e.nextFile + 1);
    var s1 := s.(disk := s.disk.(logs := s.disk.logs[e.nextFile := []]), engine := Some(e1));
    assert Next(s, s1, SwitchStep);
    ReachStep(s, s1, SwitchStep);
    var e2 := e1.(background := Flushing(Some(f), target), nextFile := e1.nextFile + 1);
    var s2 := s1.(disk := s1.disk.(tables := s1.disk.tables[f.number := es]), engine := Some(e2));
    assert Next(s1, s2, StartFlushStep(es, 1, target));
    ReachStep(s1, s2, StartFlushStep(es, 1, target));
    var e3 := e2.(imm := None, version := v', logNumber := e2.logFile, background := Resting);
    var s3 := s2.(disk := s2.disk.(manifest := s2.disk.manifest + [RecordNow(e2, FlushEdit(Some(f), target), e2.logFile)]),
                  engine := Some(e3));
    assert Next(s2, s3, InstallFlushStep(v'));
    ReachStep(s2, s3, InstallFlushStep(v'));
    assert Shows(s3, b.(mem := {}, version := v', nextFile := b.nextFile + 2));
  }

  function Smallest(b: Brief): nat {
    if b.snapshots == [] then b.lastSequence else b.snapshots[0]
  }

  lemma CompactionArrives(b: Brief, level: nat, c: CompactionInputs, input: seq<Entry>, outputs: seq<File>, v': Levels)
    requires Arrives(b) && |b.version| == NUM_LEVELS && level + 1 < NUM_LEVELS
    requires WellChosen(b.version, level, c) && Sorted(input) && Elements(input) == InputEntries(c)
    requires NothingExposed(b.version, level, input, Smallest(b), LeftBehind(b.version, c))
    requires Concat(outputs) == Kept(input, |input|, Smallest(b), b.version, level) && ValidFiles(outputs)
    requires forall i | 0 <= i < |outputs| :: outputs[i].number == b.nextFile + i
    requires Applies(CompactionEditOf(level, c, outputs), b.version, v')
    ensures Arrives(b.(version := v', nextFile := b.nextFile + |outputs|))
  {
    hide Reached, Sorted, Applies, WellChosen, NothingExposed, Concat, Kept, ValidFiles, CompactionEditOf, WithTables, LeftBehind;
    var s :| Reached(s) && Shows(s, b);
    var e := s.engine.value;
    var e1 := e.(background := Compacting(level, c, input, outputs, Smallest(b)), nextFile := e.nextFile + |outputs|);
    var s1 := s.(disk := s.disk.(tables := WithTables(s.disk.tables, outputs)), engine := Some(e1));
    assert Next(s, s1, StartCompactionStep(level, c, input, outputs));
    ReachStep(s, s1, StartCompactionStep(level, c, input, outputs));
    var edit := CompactionEditOf(level, c, outputs);
    var s2 := s1.(disk := s1.disk.(manifest := s1.disk.manifest + [RecordNow(e1, edit, e1.logNumber)]),
                  engine := Some(e1.(version := v', background := Resting)));
    assert Next(s1, s2, InstallCompactionStep(v'));
    ReachStep(s1, s2, InstallCompactionStep(v'));
    assert Shows(s2, b.(version := v', nextFile := b.nextFile + |outputs|));
  }

  // ----- The run -----

  /** The table with the first values of both keys, and the one with the deletion marker of "b". */
  const FIRST := File(4, 1, STALE.key, OLD.key, [STALE, OLD])
  const SECOND := File(6, 1, MARKER.key, MARKER.key, [MARKER])

  const V1: Levels := [[], [], [FIRST], [], [], [], []]
  const V2: Levels := [[], [SECOND], [FIRST], [], [], [], []]
  const V3: Levels := [[], [], [LOWER, NEXT], [], [], [], []]

  const BOTH := CompactionInputs([SECOND], [FIRST], [], MARKER.key)
  const ALL: seq<Entry> := [STALE, MARKER, OLD]

  /** A flush into an empty level. */
  lemma FlushApplies(v: Levels, v': Levels, f: File, target: nat)
    requires |v| == |v'| == NUM_LEVELS && target < NUM_LEVELS && v[target] == [] && v'[target] == [f]
    requires forall l | 0 <= l < NUM_LEVELS && l != target :: v'[l] == v[l] && Ordered(v[l])
    ensures Applies(FlushEdit(Some(f), target), v, v')
  {
    hide Ordered;
    var edit := FlushEdit(Some(f), target);
    OneIsOrdered(f);
    forall l | 0 <= l < NUM_LEVELS
      ensures FileSet(v'[l]) == Built(FileSet(v[l]), [edit], l)
    {
      OneEdit(edit, l);
      assert edit.added == [(target, f)];
      assert AddedAt(edit, l) == if l == target then {f} else {};
      assert DeletedAt(edit, l) == {};
    }
  }

  lemma OneIsOrdered(f: File)
    ensures Ordered([f]) && FileSet([f]) == {f}
  {
  }

  lemma NextIsBehindLower()
    ensures Ordered([LOWER, NEXT]) && FileSet([LOWER, NEXT]) == {LOWER, NEXT} && Ordered([]) && FileSet([]) == {}
  {
    KeysInOrder();
    assert Less(STALE.key, OLD.key);
    assert Before(LOWER, NEXT);
  }

  lemma CompactionApplies()
    ensures Applies(CompactionEditOf(1, BOTH, [LOWER, NEXT]), V2, V3)
  {
    hide Ordered, Less;
    var edit := CompactionEditOf(1, BOTH, [LOWER, NEXT]);
    NextIsBehindLower();
    OneIsOrdered(FIRST);
    OneIsOrdered(SECOND);
    assert edit.added == [(2, LOWER), (2, NEXT)];
    assert edit.added[0] == (2, LOWER) && edit.added[1] == (2, NEXT);
    CompactionDeletes();
    assert AddedAt(edit, 2) == {LOWER, NEXT} && NumbersAt(edit, 2) == {7, 8};
    assert V2[1] == [SECOND] && V2[2] == [FIRST] && V3[1] == [] && V3[2] == [LOWER, NEXT];
    forall l | 0 <= l < NUM_LEVELS
      ensures Ordered(V3[l]) && FileSet(V3[l]) == Built(FileSet(V2[l]), [edit], l)
    {
      OneEdit(edit, l);
      if l != 2 {
        assert AddedAt(edit, l) == {} && NumbersAt(edit, l) == {};
      }
      if l != 1 && l != 2 {
        assert V2[l] == [] && V3[l] == [];
      }
    }
  }

  lemma CompactionDeletes()
    ensures var edit := CompactionEditOf(1, BOTH, [LOWER, NEXT]);
      DeletedAt(edit, 1) == {6} && DeletedAt(edit, 2) == {4} && forall l | l != 1 && l != 2 :: DeletedAt(edit, l) == {}
  {
    var edit := CompactionEditOf(1, BOTH, [LOWER, NEXT]);
    assert edit.deleted == {(1, 6), (2, 4)} by {
      assert SECOND in BOTH.inputs0 && FIRST in BOTH.inputs1;
      assert (set f | f in BOTH.inputs0 :: (1 as nat, f.number)) == {(1, 6)};
      assert (set f | f in BOTH.inputs1 :: (2 as nat, f.number)) == {(2, 4)};
    }
    assert (1, 6) in edit.deleted && (2, 4) in edit.deleted;
  }

  /** Both keys written, flushed to level 2, a snapshot taken, then "b" deleted and flushed to level 1. */
  lemma TwoTablesArrive()
    ensures Arrives(Brief({}, V2, 7, 3, [2]))
  {
    hide Arrives, Applies;
    OpenArrives();
    var b0 := Brief({}, EMPTY, 3, 0, []);
    var ops := [Put(A, [2]), Put(B, [3])];
    WriteArrives(b0, ops);
    FirstEntries();
    var b1 := Brief({STALE, OLD}, EMPTY, 3, 2, []);
    assert b0.(mem := b0.mem + BatchEntries(Batch(1, ops)), lastSequence := 2) == b1;
    FirstInOrder();
    assert TableFor(b1, [STALE, OLD]) == FIRST;
    EmptyOrdered();
    FlushApplies(EMPTY, V1, FIRST, 2);
    FitsEmpty(EMPTY, 2, FIRST);
    FlushArrives(b1, [STALE, OLD], 2, V1);
    var b2 := Brief({}, V1, 5, 2, []);
    SnapshotArrives(b2);
    var b3 := Brief({}, V1, 5, 2, [2]);
    assert b2.(snapshots := [] + [2]) == b3;
    WriteArrives(b3, [Delete(B)]);
    SecondEntries();
    var b4 := Brief({MARKER}, V1, 5, 3, [2]);
    assert b3.(mem := b3.mem + BatchEntries(Batch(3, [Delete(B)])), lastSequence := 3) == b4;
    assert TableFor(b4, [MARKER]) == SECOND && Elements([MARKER]) == {MARKER};
    OneIsOrdered(FIRST);
    FlushApplies(V1, V2, SECOND, 1);
    FitsEmpty(V1, 1, SECOND);
    FlushArrives(b4, [MARKER], 1, V2);
    assert b4.(mem := {}, version := V2, nextFile := 7) == Brief({}, V2, 7, 3, [2]);
  }

  lemma FirstEntries()
    ensures BatchEntries(Batch(1, [Put(A, [2]), Put(B, [3])])) == {STALE, OLD}
  {
    var b := Batch(1, [Put(A, [2]), Put(B, [3])]);
    assert EntryOf(b.ops[0], 1 + 0) == STALE && EntryOf(b.ops[1], 1 + 1) == OLD;
  }

  lemma SecondEntries()
    ensures BatchEntries(Batch(3, [Delete(B)])) == {MARKER} && BatchEntries(Batch(4, [Put(A, [1])])) == {FRESH}
  {
    assert EntryOf(Batch(3, [Delete(B)]).ops[0], 3 + 0) == MARKER;
    assert EntryOf(Batch(4, [Put(A, [1])]).ops[0], 4 + 0) == FRESH;
  }

  lemma FirstInOrder()
    ensures Sorted([STALE, OLD]) && Elements([STALE, OLD]) == {STALE, OLD}
    ensures Sorted(ALL) && Elements(ALL) == {STALE, MARKER, OLD}
  {
    KeysInOrder();
    assert ALL[0] == STALE && ALL[1] == MARKER && ALL[2] == OLD;
    assert [STALE, OLD][0] == STALE && [STALE, OLD][1] == OLD;
  }

  lemma EmptyOrdered()
    ensures forall l | 0 <= l < NUM_LEVELS :: EMPTY[l] == [] && Ordered(EMPTY[l])
  {
  }

  /** Nothing overlaps in an empty level. */
  lemma FitsEmpty(v: Levels, target: nat, f: File)
    requires target < |v| && forall l | 0 <= l <= target :: v[l] == []
    ensures FitsLevel(v, target, f)
  {
  }

  /** The merge of both tables, cut between the two entries of "b": the snapshot needs the older one. */
  lemma CutArrives()
    ensures Arrives(Brief({}, V3, 9, 3, []))
  {
    hide Arrives, Applies, WellChosen, NothingExposed;
    TwoTablesArrive();
    var b := Brief({}, V2, 7, 3, [2]);
    FirstInOrder();
    BothAreChosen();
    NothingDropped();
    CompactionApplies();
    assert [LOWER, NEXT][..1] == [LOWER] && [LOWER][..0] == [];
    ExampleEntries();
    LowerAndNextAreValid();
    CompactionArrives(b, 1, BOTH, ALL, [LOWER, NEXT], V3);
    var b' := Brief({}, V3, 9, 3, [2]);
    assert b.(version := V3, nextFile := 9) == b';
    ReleaseArrives(b');
  }

  lemma LowerAndNextAreValid()
    ensures ValidFiles([LOWER, NEXT]) && Concat([LOWER, NEXT]) == ALL
  {
    KeysInOrder();
    assert [LOWER, NEXT][..1] == [LOWER] && [LOWER][..0] == [] && Concat([]) == [];
  }

  lemma BothAreChosen()
    ensures WellChosen(V2, 1, BOTH) && InputEntries(BOTH) == Elements(ALL)
  {
    KeysInOrder();
    assert V2[1] == [SECOND] && V2[2] == [FIRST] && [SECOND] == V2[1][0..1];
    assert SECOND in [SECOND];
    assert IsSmallestKey([SECOND], MARKER.key) && IsLargestKey([SECOND], MARKER.key);
    assert [FIRST][..0] == [] && Overlapping([], Some(B), Some(B)) == [];
    assert Overlapping([FIRST], Some(B), Some(B)) == [FIRST];
    TwoFiles(SECOND, SECOND);
    TwoFiles(FIRST, FIRST);
    FirstInOrder();
    assert Elements(SECOND.entries) == {MARKER};
  }

  /** At the snapshot the older entry of "b" is in use, and the marker is not even visible. */
  lemma NothingDropped()
    ensures Kept(ALL, 3, 2, V2, 1) == ALL && forall rest :: NothingExposed(V2, 1, ALL, 2, rest)
  {
    hide IsBaseLevel;
    KeysInOrder();
    assert ALL[0] == STALE && ALL[1] == MARKER && ALL[2] == OLD;
    assert !Dropped(ALL, 0, 2, V2, 1) && !Dropped(ALL, 1, 2, V2, 1) && !Dropped(ALL, 2, 2, V2, 1);
    assert Kept(ALL, 0, 2, V2, 1) == [] && Kept(ALL, 1, 2, V2, 1) == [STALE] && Kept(ALL, 2, 2, V2, 1) == [STALE, MARKER];
  }

  /** MAIN: a run reaches the version of Boundary, with nothing in memory and no snapshot. There the files that
      SetupOtherInputs picks expose the deleted value of "b". */
  lemma WitnessIsReached() returns (states: seq<State>, steps: seq<Step>, s: State)
    ensures EndsIn(states, steps, s) && Shows(s, Brief({}, LEVELS, 11, LAST, [])) && s.engine.Some?
    ensures WellChosen(LEVELS, 1, CHOSEN) && Sorted(MERGED) && Elements(MERGED) == InputEntries(CHOSEN)
    ensures Contents(s.engine.value) == LevelEntries(LEVELS) && SmallestSnapshot(s.engine.value) == LAST
    ensures !NothingExposed(LEVELS, 1, MERGED, LAST, LeftBehind(LEVELS, CHOSEN))
  {
    hide Run, Applies, WellChosen, NothingExposed, Sorted, LeftBehind, LevelEntries, Elements, InputEntries, Next, Init;
    LastFlushArrives();
    s :| Reached(s) && Shows(s, Brief({}, LEVELS, 11, LAST, []));
    states, steps :| EndsIn(states, steps, s);
    NextLevelBoundaryResurrects();
    assert Memory(s.engine.value) == {};
  }

  lemma LastFlushArrives()
    ensures Arrives(Brief({}, LEVELS, 11, LAST, []))
  {
    hide Arrives, Applies;
    CutArrives();
    var b := Brief({}, V3, 9, 3, []);
    WriteArrives(b, [Put(A, [1])]);
    SecondEntries();
    var b' := Brief({FRESH}, V3, 9, 4, []);
    assert b.(mem := b.mem + BatchEntries(Batch(4, [Put(A, [1])])), lastSequence := 4) == b';
    assert TableFor(b', [FRESH]) == UPPER && Elements([FRESH]) == {FRESH};
    NextIsBehindLower();
    assert V3[2] == [LOWER, NEXT] && LEVELS[2] == [LOWER, NEXT];
    FlushApplies(V3, LEVELS, UPPER, 1);
    FitsEmpty(V3, 1, UPPER);
    FlushArrives(b', [FRESH], 1, LEVELS);
    assert b'.(mem := {}, version := LEVELS, nextFile := 11) == Brief({}, LEVELS, 11, LAST, []);
  }
}
