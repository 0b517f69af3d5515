/** The database never gets stuck: what is under way can be finished, and the memtables can be flushed. */
module DatabaseProgress {
  import opened Entries
  import opened Files
  import opened Reads
  import opened Inputs
  import opened Compactions
  import opened Installs
  import opened Manifest
  import opened Database
  import opened DatabaseState
  import opened DatabaseJobs
  import opened DatabaseRuns
  import opened DatabaseReopen

  /** Steps that finish a write or empty a memtable: no new write, no snapshot, no new compaction, no crash. */
  predicate Finishes(step: Step) {
    step.ApplyGroupStep? || step.CommitGroupStep? || step.SwitchStep? || step.StartFlushStep? || step.InstallFlushStep? ||
    step.InstallCompactionStep?
  }

  ghost predicate Path(states: seq<State>, steps: seq<Step>, s: State, s': State) {
    |states| == |steps| + 1 && states[0] == s && states[|steps|] == s' &&
    forall i | 0 <= i < |steps| :: Next(states[i], states[i + 1], steps[i]) && Finishes(steps[i])
  }

  ghost predicate Leads(s: State, s': State) {
    exists states, steps :: Path(states, steps, s, s')
  }

  /** What is kept on the way: the invariant, and everything users can see. */
  ghost predicate Alike(s: State, s': State) {
    Inv(s') && s.engine.Some? && s'.engine.Some? && s'.history == s.history &&
    s'.engine.value.snapshots == s.engine.value.snapshots && s'.engine.value.lastSequence >= s.engine.value.lastSequence
  }

  lemma LeadsNowhere(s: State)
    requires Inv(s) && s.engine.Some?
    ensures Leads(s, s) && Alike(s, s)
  {
    hide Inv, Next;
    assert Path([s], [], s, s);
  }

  lemma LeadsOn(s: State, m: State, s': State, step: Step)
    requires Leads(s, m) && Alike(s, m) && Next(m, s', step) && Finishes(step)
    ensures Leads(s, s') && Alike(s, s')
  {
    hide Inv, Next;
    var states, steps :| Path(states, steps, s, m);
    var states', steps' := states + [s'], steps + [step];
    forall i | 0 <= i < |steps'|
      ensures Next(states'[i], states'[i + 1], steps'[i]) && Finishes(steps'[i])
    {
      if i < |steps| {
        assert Next(states[i], states[i + 1], steps[i]) && Finishes(steps[i]);
      }
    }
    assert Path(states', steps', s, s');
    NextKeeps(m, s', step);
    FinishingIsUnseen(m, s', step);
  }

  lemma FinishingIsUnseen(s: State, s': State, step: Step)
    requires Next(s, s', step) && Finishes(step)
    ensures s.engine.Some? && s'.engine.Some? && s'.history == s.history
    ensures s'.engine.value.snapshots == s.engine.value.snapshots
    ensures s'.engine.value.lastSequence >= s.engine.value.lastSequence
  {
    hide Applies, FitsLevel, Sorted;
  }

  // ----- The write in flight -----

  lemma WriteFinishes(s: State) returns (s': State)
    requires Inv(s) && s.engine.Some?
    ensures Leads(s, s') && Alike(s, s') && s'.engine.value.write == NoWrite
  {
    hide Inv, Next, BatchEntries, Path, Leads;
    s' := s;
    LeadsNowhere(s);
    if s'.engine.value.write.Logged? {
      var e := s'.engine.value;
      var t := s'.(engine := Some(e.(mem := e.mem + BatchEntries(e.write.batch), write := Applied(e.write.batch))));
      assert Next(s', t, ApplyGroupStep) by {
        Applying(s', t);
      }
      LeadsOn(s, s', t, ApplyGroupStep);
      s' := t;
    }
    if s'.engine.value.write.Applied? {
      var e := s'.engine.value;
      var t := s'.(engine := Some(e.(lastSequence := e.lastSequence + |e.write.batch.ops|, write := NoWrite)));
      assert Next(s', t, CommitGroupStep) by {
        Committing(s', t);
      }
      LeadsOn(s, s', t, CommitGroupStep);
      s' := t;
    }
  }

  lemma Applying(s: State, s': State)
    requires ApplyGroup(s, s')
    ensures Next(s, s', ApplyGroupStep)
  {
  }

  lemma Committing(s: State, s': State)
    requires CommitGroup(s, s')
    ensures Next(s, s', CommitGroupStep)
  {
  }

  // ----- The job in the background -----

  /** An edit that adds files under numbers not yet recorded can be installed. */
  lemma CanApply(s: State, edit: Edit) returns (v': Levels)
    requires Inv(s) && s.engine.Some?
    requires LastHeader(s.disk.manifest).Some?
    requires forall i | 0 <= i < |edit.added| :: LastHeader(s.disk.manifest).value.nextFile <= edit.added[i].1.number
    requires forall i, j | 0 <= i < j < |edit.added| :: edit.added[i].1.number != edit.added[j].1.number
    ensures Applies(edit, s.engine.value.version, v')
  {
    hide ReadableLevels, NumbersDistinct, ReadsPreserved, LogInv, EngineInv, Applies, LiveRecords;
    var v := s.engine.value.version;
    DownVersion(s.disk, v);
    NewNumbers(v, edit, LastHeader(s.disk.manifest).value.nextFile);
    v' := VersionUnder(v, edit);
  }

  lemma FlushFinishes(s: State) returns (s': State, v': Levels)
    requires Inv(s) && s.engine.Some? && s.engine.value.background.Flushing?
    ensures InstallFlush(s, s', v')
  {
    hide StoredInv, MemInv, CounterInv, SnapshotInv, Applies, FitsLevel;
    var e := s.engine.value;
    var edit := FlushEdit(e.background.file, e.background.target);
    v' := CanApply(s, edit);
    s' := s.(disk := s.disk.(manifest := s.disk.manifest + [RecordNow(e, edit, e.logFile)]),
             engine := Some(e.(imm := None, version := v', logNumber := e.logFile, background := Resting)));
  }

  lemma AddsOutputs(level: nat, c: CompactionInputs, outputs: seq<File>)
    ensures var added := CompactionEditOf(level, c, outputs).added;
      |added| == |outputs| && forall i | 0 <= i < |added| :: added[i].1 == outputs[i] && outputs[i] in outputs
  {
  }

  lemma CompactionFinishes(s: State) returns (s': State, v': Levels)
    requires Inv(s) && s.engine.Some? && s.engine.value.background.Compacting?
    ensures InstallCompaction(s, s', v')
  {
    hide StoredInv, MemInv, CounterInv, SnapshotInv, Applies, WellChosen, NothingExposed, Kept, Sorted, ValidFiles,
      CompactionEditOf;
    var e := s.engine.value;
    var edit := CompactionEditOf(e.background.level, e.background.inputs, e.background.outputs);
    AddsOutputs(e.background.level, e.background.inputs, e.background.outputs);
    v' := CanApply(s, edit);
    s' := s.(disk := s.disk.(manifest := s.disk.manifest + [RecordNow(e, edit, e.logNumber)]),
             engine := Some(e.(version := v', background := Resting)));
  }

  /** Installs what the background job has made, if one is running. */
  lemma JobFinishes(s: State, m: State) returns (s': State)
    requires Leads(s, m) && Alike(s, m)
    ensures Leads(s, s') && Alike(s, s') && s'.engine.value.background == Resting
    ensures s'.engine.value.write == m.engine.value.write && s'.engine.value.mem == m.engine.value.mem
    ensures m.engine.value.background.Flushing? ==> s'.engine.value.imm == None
    ensures m.engine.value.imm == None ==> s'.engine.value.imm == None
  {
    hide Inv, Applies, Path, Leads;
    s' := m;
    var b := m.engine.value.background;
    if b.Flushing? {
      var v';
      s', v' := FlushFinishes(m);
      LeadsOn(s, m, s', InstallFlushStep(v'));
    } else if b.Compacting? {
      var v';
      s', v' := CompactionFinishes(m);
      LeadsOn(s, m, s', InstallCompactionStep(v'));
    }
  }

  // ----- Compactions and crashes -----

  /** The input of a compaction, in order, and what is left of it in one table. */
  lemma OneOutput(number: nat, input: seq<Entry>, snapshot: nat, version: Levels, level: nat) returns (outputs: seq<File>)
    requires Sorted(input)
    ensures Concat(outputs) == Kept(input, |input|, snapshot, version, level) && ValidFiles(outputs)
    ensures forall i | 0 <= i < |outputs| :: outputs[i].number == number + i
  {
    hide Less, Dropped;
    var kept := Kept(input, |input|, snapshot, version, level);
    KeptSorted(input, |input|, snapshot, version, level);
    outputs := [];
    if kept != [] {
      outputs := [File(number, 0, kept[0].key, kept[|kept| - 1].key, kept)];
      assert outputs[..0] == [] && Concat([]) == [];
      assert [] + kept == kept;
    }
  }

  lemma InputsInOrder(s: State, level: nat, c: CompactionInputs) returns (input: seq<Entry>)
    requires Inv(s) && s.engine.Some? && |s.engine.value.version| == NUM_LEVELS && level + 1 < NUM_LEVELS
    requires WellChosen(s.engine.value.version, level, c)
    ensures Sorted(input) && Elements(input) == InputEntries(c)
  {
    hide ReadsPreserved, EngineInv, LiveRecords, Unique, Sorted, WellChosen, ManifestInv, NumbersDistinct, InputEntries,
      LevelEntries;
    var v := s.engine.value.version;
    ReadableShape(v);
    forall e | e in InputEntries(c)
      ensures e in LevelEntries(v)
    {
      InputsInLevels(v, level, c, e);
    }
    SmallerUnique(InputEntries(c), s.history);
    UniqueKeysDiffer(InputEntries(c));
    input := InOrder(InputEntries(c));
  }

  /** When nothing is running, any well-chosen compaction can start if it exposes nothing; a clear next level is enough. */
  lemma CompactionStarts(s: State, level: nat, c: CompactionInputs)
      returns (s': State, input: seq<Entry>, outputs: seq<File>)
    requires Inv(s) && s.engine.Some? && |s.engine.value.version| == NUM_LEVELS && level + 1 < NUM_LEVELS
    requires s.engine.value.background == Resting && WellChosen(s.engine.value.version, level, c)
    requires NextLevelClear(s.engine.value.version, level, c)
    ensures StartCompaction(s, s', level, c, input, outputs)
  {
    hide Inv, WellChosen, NextLevelClear, NothingExposed, Sorted, Kept, Concat, ValidFiles, InputEntries, WithTables;
    var e := s.engine.value;
    input := InputsInOrder(s, level, c);
    ClearCompactionMayStart(s, level, c, input);
    outputs := OneOutput(e.nextFile, input, SmallestSnapshot(e), e.version, level);
    s' := s.(disk := s.disk.(tables := WithTables(s.disk.tables, outputs)),
             engine := Some(e.(background := Compacting(level, c, input, outputs, SmallestSnapshot(e)),
                               nextFile := e.nextFile + |outputs|)));
  }

  lemma MovesOne(v: Levels, level: nat, c: CompactionInputs)
    requires |v| == NUM_LEVELS && level + 1 < NUM_LEVELS && |c.inputs0| == 1 && c.inputs1 == [] && c.inputs0[0] in v[level]
    requires NumbersDistinct(v)
    ensures var edit := CompactionEditOf(level, c, c.inputs0);
      (forall l | 0 <= l < NUM_LEVELS :: NumberFixesFile(FileSet(v[l]) + AddedAt(edit, l))) &&
      AddedAt(edit, level + 1) == {c.inputs0[0]} && NumbersAt(edit, level + 1) == {c.inputs0[0].number} &&
      AddedAt(edit, level) == {} && NumbersAt(edit, level) == {} && DeletedAt(edit, level) == {c.inputs0[0].number}
  {
    var edit, f := CompactionEditOf(level, c, c.inputs0), c.inputs0[0];
    assert edit.added == [(level + 1, f)];
    assert edit.added[0] == (level + 1, f);
    assert forall d :: d in edit.deleted <==> d == (level, f.number);
    assert (level, f.number) in edit.deleted;
    forall l | 0 <= l < NUM_LEVELS
      ensures NumberFixesFile(FileSet(v[l]) + AddedAt(edit, l))
    {
      assert AddedAt(edit, l) <= {f};
    }
  }

  /** A file that overlaps nothing in the next level can go there as it is: it is then in that level and not in its own. */
  lemma FileMoves(s: State, level: nat, c: CompactionInputs) returns (s': State, v': Levels)
    requires Inv(s) && s.engine.Some? && |s.engine.value.version| == NUM_LEVELS && level + 1 < NUM_LEVELS
    requires s.engine.value.background == Resting && WellChosen(s.engine.value.version, level, c)
    requires |c.inputs0| == 1 && c.inputs1 == []
    ensures MoveFile(s, s', level, c, v') && c.inputs0[0] in v'[level + 1] && c.inputs0[0] !in v'[level]
  {
    hide ReadsPreserved, LogInv, EngineInv, ReadableLevels, NumbersDistinct, CompactionEditOf, Ordered, ManifestInv;
    var e := s.engine.value;
    var edit, f := CompactionEditOf(level, c, c.inputs0), c.inputs0[0];
    assert f in c.inputs0;
    MovesOne(e.version, level, c);
    v' := VersionUnder(e.version, edit);
    OneEdit(edit, level);
    OneEdit(edit, level + 1);
    assert f in Built(FileSet(e.version[level + 1]), [edit], level + 1);
    assert f in FileSet(v'[level + 1]) && f !in FileSet(v'[level]);
    s' := s.(disk := s.disk.(manifest := s.disk.manifest + [RecordNow(e, edit, e.logNumber)]),
             engine := Some(e.(version := v')));
  }

  /** A crash can take any part of every log, and can take none. */
  lemma CrashTakesAnything(s: State, left: map<nat, seq<Batch>>) returns (s': State)
    requires Inv(s) && left.Keys == s.disk.logs.Keys && forall n | n in left :: left[n] <= s.disk.logs[n]
    ensures Crash(s, s', left) && s'.engine == None && s'.disk.logs == left
  {
    hide ReadsPreserved, VersionInv, LiveRecords;
    s' := State(s.disk.(logs := left), None, s.history - Lost(s.disk, left));
  }

  // ----- The memtables -----

  lemma ImmInOrder(s: State) returns (es: seq<Entry>)
    requires Inv(s) && s.engine.Some?
    ensures Sorted(es) && Elements(es) == ImmEntries(s.engine.value)
  {
    hide VersionInv, ReadsPreserved, CounterInv, SnapshotInv, BackgroundInv, LiveRecords, Unique, Sorted;
    LiveIsMemory(s);
    SmallerUnique(ImmEntries(s.engine.value), s.history);
    UniqueKeysDiffer(ImmEntries(s.engine.value));
    es := InOrder(ImmEntries(s.engine.value));
  }

  lemma FlushStartsAt0(s: State) returns (s': State, es: seq<Entry>)
    requires Inv(s) && s.engine.Some? && s.engine.value.background == Resting && s.engine.value.imm.Some?
    ensures StartFlush(s, s', es, 0, 0)
  {
    hide StoredInv, MemInv, CounterInv, SnapshotInv, Sorted, Less;
    var e := s.engine.value;
    es := ImmInOrder(s);
    if es == [] {
      s' := s.(engine := Some(e.(background := Flushing(None, 0), nextFile := e.nextFile + 1)));
    } else {
      var f := File(e.nextFile, 0, es[0].key, es[|es| - 1].key, es);
      s' := s.(disk := s.disk.(tables := s.disk.tables[f.number := es]),
               engine := Some(e.(background := Flushing(Some(f), 0), nextFile := e.nextFile + 1)));
    }
  }

  /** Flushes the immutable memtable, if there is one. */
  lemma ImmFlushes(s: State, m: State) returns (s': State)
    requires Leads(s, m) && Alike(s, m) && m.engine.value.background == Resting
    ensures Leads(s, s') && Alike(s, s') && s'.engine.value.background == Resting && s'.engine.value.imm == None
    ensures s'.engine.value.write == m.engine.value.write && s'.engine.value.mem == m.engine.value.mem
  {
    hide Inv, Sorted, Path, Leads, FitsLevel, Applies;
    s' := m;
    if m.engine.value.imm.Some? {
      var t, es := FlushStartsAt0(m);
      LeadsOn(s, m, t, StartFlushStep(es, 0, 0));
      s' := JobFinishes(s, t);
    }
  }

  /** A full memtable can make room: a new log and memtable. */
  lemma MemSwitches(s: State, m: State) returns (s': State)
    requires Leads(s, m) && Alike(s, m) && m.engine.value.imm == None && m.engine.value.write == NoWrite
    ensures Leads(s, s') && Alike(s, s') && s'.engine.value.write == NoWrite && s'.engine.value.mem == {}
    ensures s'.engine.value.background == m.engine.value.background
  {
    hide Inv, Path, Leads;
    var e := m.engine.value;
    s' := m.(disk := m.disk.(logs := m.disk.logs[e.nextFile := []]),
             engine := Some(e.(imm := Some(e.mem), mem := {}, logFile := e.nextFile, nextFile := e.nextFile + 1)));
    LeadsOn(s, m, s', SwitchStep);
  }

  lemma NothingToLose(s: State, s': State, left: map<nat, seq<Batch>>)
    requires Inv(s) && s.engine.Some? && Memory(s.engine.value) == {} && s.engine.value.write == NoWrite
    requires Crash(s, s', left)
    ensures s'.history == s.history
  {
    hide Inv, LiveRecords, EntriesOf;
    LiveIsMemory(s);
  }

  /** MAIN: from every state a run reaches with the database open, whatever is under way, the steps that finish it and flush
      the memtables lead to one with nothing in memory and the same history. There a crash that takes any part of any log
      loses nothing. */
  lemma MemoryCanBeFlushed(s: State) returns (s': State)
    requires Reached(s) && s.engine.Some?
    ensures Leads(s, s') && Alike(s, s') && s'.engine.value.write == NoWrite && s'.engine.value.background == Resting
    ensures Memory(s'.engine.value) == {}
    ensures forall s'', left :: Crash(s', s'', left) ==> s''.history == s.history
  {
    hide Inv, Crash, Path, Leads, EndsIn;
    var states, steps :| EndsIn(states, steps, s);
    ReachedKeeps(states, steps, s);
    var m := WriteFinishes(s);
    m := JobFinishes(s, m);
    m := ImmFlushes(s, m);
    m := MemSwitches(s, m);
    s' := ImmFlushes(s, m);
    forall s'', left | Crash(s', s'', left)
      ensures s''.history == s.history
    {
      NothingToLose(s', s'', left);
    }
  }

  lemma ReachedKeeps(states: seq<State>, steps: seq<Step>, s: State)
    requires EndsIn(states, steps, s)
    ensures Inv(s)
  {
    hide Next, Init, Inv;
    RunsKeepInv(states, steps, |states| - 1);
  }
}
