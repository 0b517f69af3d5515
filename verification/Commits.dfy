/** The write queue inside the database: as long as no write fails, the steps of WriteQueue's leader are group commits of
    Database, with any background steps in between. */
module Commits {
  import opened Entries
  import opened DatabaseRuns
  import opened DatabaseState
  import D = Database
  import Q = WriteQueue

  // ----- Steps of both -----

  /** The database is as far as the leader of the queue. */
  ghost predicate Mirrors(q: Q.State, d: D.State) {
    d.engine.Some? && d.engine.value.lastSequence == q.lastSequence &&
    match q.phase
    case Idle => d.engine.value.write == D.NoWrite
    case Leading(n, stage) =>
      |q.outcomes| + n <= |q.arrived| && stage != Q.Failed &&
      d.engine.value.write ==
        if stage == Q.Building then D.NoWrite
        else if stage == Q.Inserted then D.Applied(Q.Current(q)) else D.Logged(Q.Current(q))
  }

  /** The step of the database that a step of the queue is, if it is one. */
  ghost function StepOf(q: Q.State, step: Q.Step): Option<D.Step> {
    match step
    case Append(_) =>
      if q.phase.Leading? && |q.outcomes| + q.phase.n <= |q.arrived| then Some(D.LogGroupStep(Q.Current(q).ops)) else None
    case Apply(_) => Some(D.ApplyGroupStep)
    case Finish => Some(D.CommitGroupStep)
    case _ => None
  }

  /** Steps that leave the write path and the history alone. */
  predicate Background(step: D.Step) {
    !step.LogGroupStep? && !step.ApplyGroupStep? && !step.CommitGroupStep? && !step.CrashStep? && !step.OpenStep? &&
    !step.FailedOpenStep?
  }

  datatype Move = Queued(queued: Q.Step) | Behind(behind: D.Step)

  ghost predicate Moves(q: Q.State, d: D.State, q': Q.State, d': D.State, m: Move) {
    match m
    case Queued(step) =>
      Q.Next(q, q', step) && !Q.Fails(step) &&
      if StepOf(q, step).Some? then D.Next(d, d', StepOf(q, step).value) else d' == d
    case Behind(step) => q' == q && Background(step) && D.Next(d, d', step)
  }

  /** The database can follow every step of the queue that does not fail. */
  lemma MoveExists(q: Q.State, q': Q.State, step: Q.Step, d: D.State) returns (d': D.State)
    requires Q.Inv(q) && Inv(d) && Mirrors(q, d) && Q.Next(q, q', step) && !Q.Fails(step)
    ensures Moves(q, d, q', d', Queued(step))
  {
    hide Q.Merged, Q.IsGroup, Q.Honest, Q.Ordered, Q.RecordOk, StoredInv, Q.PhaseOk, CounterInv, SnapshotInv, BackgroundInv;
    var e := d.engine.value;
    match step
    case Append(_) =>
      var b := Q.Current(q);
      d' := D.State(d.disk.(logs := d.disk.logs[e.logFile := d.disk.logs[e.logFile] + [b]]),
                    Some(e.(write := D.Logged(b))), d.history + D.BatchEntries(b));
    case Apply(_) =>
      d' := d.(engine := Some(e.(mem := e.mem + D.BatchEntries(e.write.batch), write := D.Applied(e.write.batch))));
    case Finish =>
      d' := d.(engine := Some(e.(lastSequence := e.lastSequence + |e.write.batch.ops|, write := D.NoWrite)));
    case _ =>
      d' := d;
  }

  lemma QueuedKeeps(q: Q.State, d: D.State, q': Q.State, d': D.State, step: Q.Step)
    requires Mirrors(q, d) && Moves(q, d, q', d', Queued(step))
    ensures Mirrors(q', d')
  {
    hide Q.Merged, Q.Joins, D.BatchEntries;
    match step
    case Arrive(w) =>
      if q.phase.Leading? {
        Q.MergedAppend(q.arrived, w, |q.outcomes|, |q.outcomes| + q.phase.n);
      }
    case _ =>
  }

  lemma BehindKeeps(q: Q.State, d: D.State, d': D.State, step: D.Step)
    requires Mirrors(q, d) && Background(step) && D.Next(d, d', step)
    ensures Mirrors(q, d') && d'.history == d.history
  {
    hide D.Applies, Q.Merged;
  }

  function Batches(log: seq<Q.LogRecord>): (r: seq<D.Batch>)
    ensures |r| == |log|
  {
    seq(|log|, i requires 0 <= i < |log| => log[i].batch)
  }

  /** What the queue logged came on top of what there was. */
  ghost predicate Tracks(q: Q.State, d: D.State, before: set<Entry>) {
    Mirrors(q, d) && d.history == before + D.EntriesOf(Batches(q.log))
  }

  lemma BatchesAppend(log: seq<Q.LogRecord>, r: Q.LogRecord)
    ensures D.EntriesOf(Batches(log + [r])) == D.EntriesOf(Batches(log)) + D.BatchEntries(r.batch)
  {
    hide D.EntriesOf, D.BatchEntries;
    assert Batches(log + [r]) == Batches(log) + [r.batch];
    EntriesOfConcat(Batches(log), [r.batch]);
    EntriesOfOne(r.batch);
  }

  lemma MoveKeeps(q: Q.State, d: D.State, q': Q.State, d': D.State, m: Move, before: set<Entry>)
    requires Tracks(q, d, before) && Moves(q, d, q', d', m)
    ensures Tracks(q', d', before)
  {
    hide Mirrors, D.EntriesOf, D.BatchEntries, Q.Merged, Q.Joins, Q.IsGroup, D.Applies;
    match m
    case Behind(step) =>
      BehindKeeps(q, d, d', step);
    case Queued(step) =>
      QueuedKeeps(q, d, q', d', step);
      QueuedLogs(q, d, q', d', step);
  }

  lemma QueuedLogs(q: Q.State, d: D.State, q': Q.State, d': D.State, step: Q.Step)
    requires Mirrors(q, d) && Moves(q, d, q', d', Queued(step))
    ensures step.Append? ==> d'.history == d.history + D.BatchEntries(Q.Current(q))
    ensures !step.Append? ==> d'.history == d.history
    ensures D.EntriesOf(Batches(q'.log)) ==
      D.EntriesOf(Batches(q.log)) + if step.Append? then D.BatchEntries(Q.Current(q)) else {}
  {
    hide D.EntriesOf, D.BatchEntries, Q.Merged, Q.Joins, Q.IsGroup;
    if step.Append? {
      BatchesAppend(q.log, q'.log[|q.log|]);
    } else {
      assert Batches(q'.log) == Batches(q.log);
    }
  }

  // ----- Runs of both -----

  /** A queue starts empty on a database some run has reached; then both move. */
  ghost predicate Together(qs: seq<Q.State>, ds: seq<D.State>, moves: seq<Move>) {
    |qs| == |ds| == |moves| + 1 && Q.Init(qs[0]) && Reached(ds[0]) && Mirrors(qs[0], ds[0]) &&
    forall i | 0 <= i < |moves| :: Moves(qs[i], ds[i], qs[i + 1], ds[i + 1], moves[i])
  }

  lemma MoveReaches(q: Q.State, d: D.State, q': Q.State, d': D.State, m: Move)
    requires Q.Reached(q) && Reached(d) && Moves(q, d, q', d', m)
    ensures Q.Reached(q') && Reached(d')
  {
    hide Q.Reached, Reached, Q.Next, D.Next, Background;
    match m
    case Behind(step) =>
      ReachStep(d, d', step);
    case Queued(step) =>
      Q.ReachStep(q, q', step);
      if StepOf(q, step).Some? {
        ReachStep(d, d', StepOf(q, step).value);
      }
  }

  /** Every state of such a run is a state of a run of the queue, and of a run of the database; the database follows the
      queue, and its history is what was there before and what the queue logged. */
  lemma {:induction false} TogetherKeeps(qs: seq<Q.State>, ds: seq<D.State>, moves: seq<Move>, i: nat)
    requires Together(qs, ds, moves) && i < |qs|
    ensures Q.Reached(qs[i]) && Reached(ds[i]) && Tracks(qs[i], ds[i], ds[0].history)
  {
    hide Q.Reached, Reached, Moves, Tracks, Mirrors;
    if i == 0 {
      Q.EmptyQueue(qs[0]);
      TracksStart(qs[0], ds[0]);
    } else {
      TogetherKeeps(qs, ds, moves, i - 1);
      MoveReaches(qs[i - 1], ds[i - 1], qs[i], ds[i], moves[i - 1]);
      MoveKeeps(qs[i - 1], ds[i - 1], qs[i], ds[i], moves[i - 1], ds[0].history);
    }
  }

  lemma TracksStart(q: Q.State, d: D.State)
    requires Q.Init(q) && Mirrors(q, d)
    ensures Tracks(q, d, d.history)
  {
    hide Mirrors;
    assert Batches(q.log) == [] && D.EntriesOf([]) == {};
  }

  /** MAIN: as long as no write fails or is refused, every answer is OK. */
  lemma {:induction false} EveryAnswerIsOk(qs: seq<Q.State>, ds: seq<D.State>, moves: seq<Move>, i: nat, k: nat)
    requires Together(qs, ds, moves) && i < |qs| && k < |qs[i].outcomes|
    requires forall j | 0 <= j < i :: moves[j] != Queued(Q.Refuse)
    ensures qs[i].outcomes[k]
  {
    hide Q.Reached, Reached, Q.Merged, Q.IsGroup, D.Next;
    if i > 0 {
      assert Moves(qs[i - 1], ds[i - 1], qs[i], ds[i], moves[i - 1]);
      if k < |qs[i - 1].outcomes| {
        EveryAnswerIsOk(qs, ds, moves, i - 1, k);
      }
      TogetherKeeps(qs, ds, moves, i - 1);
    }
  }

  /** A record is settled once its writers have their answers. */
  lemma AnsweredIsCommitted(q: Q.State, i: nat, k: nat)
    requires Q.Inv(q) && i < |q.log| && q.log[i].from <= k < q.log[i].upto && k < |q.outcomes|
    ensures D.End(q.log[i].batch) <= q.lastSequence + 1
  {
    hide Q.Merged, Q.Honest, Q.Ordered, Q.RecordOk, Q.IsGroup;
    assert q.log[i] in q.log;
  }

  /** Entry x of arrival k, as record i numbers it. */
  ghost function WrittenEntry(q: Q.State, i: nat, k: nat, x: nat): Entry
    requires i < |q.log| && q.log[i].from <= k < q.log[i].upto <= |q.arrived| && x < |Q.OpsOf(q.arrived[k])|
  {
    D.EntryOf(Q.OpsOf(q.arrived[k])[x], Q.SequenceOf(q.arrived, q.log[i], k) + x)
  }

  /** MAIN: read your writes. In every run of the queue and the database together, a lookup at the last sequence number
      after a write was told OK returns, for each key it wrote, what it wrote or what a newer write of the key did. */
  lemma ReadYourWrites(qs: seq<Q.State>, ds: seq<D.State>, moves: seq<Move>, j: nat, k: nat, x: nat)
      returns (i: nat, newest: Entry)
    requires Together(qs, ds, moves) && j < |qs| && k < |qs[j].outcomes| && qs[j].outcomes[k]
    requires k < |qs[j].arrived| && qs[j].arrived[k].batch.Some? && x < |Q.OpsOf(qs[j].arrived[k])|
    ensures ds[j].engine.Some? && i < |qs[j].log| && qs[j].log[i].from <= k < qs[j].log[i].upto <= |qs[j].arrived|
    ensures var e, written := ds[j].engine.value, WrittenEntry(qs[j], i, k, x);
      IsNewest(ds[j].history, written.key.user, e.lastSequence, newest) &&
      written.key.sequence <= newest.key.sequence &&
      Read(D.Contents(e), written.key.user, e.lastSequence) == Outcome(newest)
  {
    hide Reached, Q.Run, Read, IsNewest, D.Contents, D.BatchEntries, Q.Merged, Q.Inv, Run, Moves;
    TogetherKeeps(qs, ds, moves, j);
    var q, d := qs[j], ds[j];
    var queue, queueSteps := QueueRunTo(q);
    i := Q.OkIsCommitted(queue, queueSteps, |queue| - 1, k);
    Q.RunKeeps(queue, queueSteps, |queue| - 1);
    AnsweredIsCommitted(q, i, k);
    var states, steps := RunTo(d);
    var e, written := d.engine.value, WrittenEntry(q, i, k, x);
    LoggedIsHistory(q, d, ds[0].history, i, written);
    BatchBounds(q.log[i].batch, written);
    newest := NewestExists(d.history, written.key.user, e.lastSequence, written);
    RunsReadTheHistory(states, steps, |states| - 1, written.key.user, e.lastSequence);
  }

  lemma QueueRunTo(q: Q.State) returns (states: seq<Q.State>, steps: seq<Q.Step>)
    requires Q.Reached(q)
    ensures Q.EndsIn(states, steps, q) && |states| > 0
  {
    states, steps :| Q.EndsIn(states, steps, q);
  }

  lemma RunTo(d: D.State) returns (states: seq<D.State>, steps: seq<D.Step>)
    requires Reached(d)
    ensures EndsIn(states, steps, d) && |states| > 0
  {
    states, steps :| EndsIn(states, steps, d);
  }

  lemma LoggedIsHistory(q: Q.State, d: D.State, before: set<Entry>, i: nat, e: Entry)
    requires Tracks(q, d, before) && i < |q.log| && e in D.BatchEntries(q.log[i].batch)
    ensures e in d.history
  {
    hide Mirrors, D.BatchEntries;
    assert Batches(q.log)[i] == q.log[i].batch;
    assert q.log[i].batch in Batches(q.log);
  }

  // ----- After a crash -----

  /** No entry of a record that was synced goes with the tail of a log. */
  ghost predicate KeepsSynced(q: Q.State, d: D.State, left: map<nat, seq<D.Batch>>) {
    D.LastHeader(d.disk.manifest).Some? &&
    forall i | 0 <= i < |q.log| && q.log[i].synced :: D.BatchEntries(q.log[i].batch) !! D.Lost(d.disk, left)
  }

  /** Nor in the further crashes before the database opens again. */
  ghost predicate SyncedKept(q: Q.State, states: seq<D.State>, steps: seq<D.Step>, a: nat, b: nat)
    requires b < |states| && |steps| + 1 == |states|
  {
    forall c | a <= c < b && steps[c].CrashStep? :: KeepsSynced(q, states[c], steps[c].left)
  }

  lemma StaysInHistory(q: Q.State, d: D.State, d': D.State, step: D.Step, i: nat, e: Entry)
    requires StaysDown(step) && D.Next(d, d', step) && e in d.history
    requires i < |q.log| && q.log[i].synced && e in D.BatchEntries(q.log[i].batch)
    requires step.CrashStep? ==> KeepsSynced(q, d, step.left)
    ensures e in d'.history
  {
    hide D.LiveRecords, D.EntriesOf, D.BatchEntries, D.WithTables, D.LastHeader, D.Lost;
    assert step.CrashStep? ==> e !in D.Lost(d.disk, step.left);
  }

  lemma {:induction false} SyncedStays(q: Q.State, states: seq<D.State>, steps: seq<D.Step>, a: nat, b: nat, i: nat, e: Entry)
    requires Run(states, steps) && a <= b < |states| && (forall c | a <= c < b :: StaysDown(steps[c]))
    requires SyncedKept(q, states, steps, a, b) && e in states[a].history
    requires i < |q.log| && q.log[i].synced && e in D.BatchEntries(q.log[i].batch)
    ensures e in states[b].history
  {
    hide D.Next, D.BatchEntries, KeepsSynced, StaysDown;
    if a < b {
      SyncedStays(q, states, steps, a, b - 1, i, e);
      StaysInHistory(q, states[b - 1], states[b], steps[b - 1], i, e);
    }
  }

  /** A database that has just opened has committed all it has. */
  lemma OpenedIsCommitted(states: seq<D.State>, steps: seq<D.Step>, j: nat, e: Entry)
    requires Run(states, steps) && |states| == |steps| + 1 && j < |steps| && steps[j].OpenStep? && e in states[j + 1].history
    ensures states[j + 1].engine.Some? && e.key.sequence <= states[j + 1].engine.value.lastSequence
  {
    hide StoredInv, MemInv, SnapshotInv, BackgroundInv, D.LiveRecords, D.Applies, D.RecoveredTables, Run;
    RunsKeepInv(states, steps, j + 1);
    OpensAt(states, steps, j, steps[j].v, steps[j].o);
  }

  /** MAIN: durability. In every run of the queue and the database together, after a write that asked for a sync was told
      OK, the database may crash, lose everything that was not synced, crash again and fail to open: the first lookup
      after it opens returns, for each key of the write, what it wrote or what a newer write of the key did. */
  lemma SyncedWritesAreRead(qs: seq<Q.State>, ds: seq<D.State>, moves: seq<Move>, j: nat, k: nat, x: nat,
                            states: seq<D.State>, steps: seq<D.Step>, a: nat, b: nat)
      returns (i: nat, newest: Entry)
    requires Together(qs, ds, moves) && j < |qs| && k < |qs[j].outcomes| && qs[j].outcomes[k]
    requires k < |qs[j].arrived| && qs[j].arrived[k].batch.Some? && x < |Q.OpsOf(qs[j].arrived[k])| && qs[j].arrived[k].sync
    requires Run(states, steps) && CrashAndReopen(states, steps, a, b) && states[a] == ds[j]
    requires SyncedKept(qs[j], states, steps, a, b)
    ensures i < |qs[j].log| && qs[j].log[i].from <= k < qs[j].log[i].upto <= |qs[j].arrived| && states[b + 1].engine.Some?
    ensures var e, written := states[b + 1].engine.value, WrittenEntry(qs[j], i, k, x);
      IsNewest(states[b + 1].history, written.key.user, e.lastSequence, newest) &&
      written.key.sequence <= newest.key.sequence &&
      Read(D.Contents(e), written.key.user, e.lastSequence) == Outcome(newest)
  {
    hide Reached, Q.Run, Read, IsNewest, D.Contents, D.BatchEntries, Q.Merged, Q.Inv, Run, Moves, StaysDown, D.LastHeader,
      KeepsSynced;
    TogetherKeeps(qs, ds, moves, j);
    var q := qs[j];
    var queue, queueSteps := QueueRunTo(q);
    i := Q.OkIsCommitted(queue, queueSteps, |queue| - 1, k);
    var written := WrittenEntry(q, i, k, x);
    LoggedIsHistory(q, ds[j], ds[0].history, i, written);
    SyncedStays(q, states, steps, a, b, i, written);
    CrashLosesOnlyTails(states, steps, a, b);
    OpenedIsCommitted(states, steps, b, written);
    var e := states[b + 1].engine.value;
    newest := NewestExists(states[b + 1].history, written.key.user, e.lastSequence, written);
    RunsReadTheHistory(states, steps, b + 1, written.key.user, e.lastSequence);
  }
}
