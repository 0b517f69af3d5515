/** The write queue (DBImpl::Write and BuildBatchGroup in db/db_impl.cc): the front writer leads, merges the batches
    behind it into one log record, and commits them together; others may queue up while it works unlocked. */
module WriteQueue {
  import opened Entries
  import opened Database

  /** `bytes` is the ByteSize of the batch; a null batch only asks for a memtable switch. */
  datatype Writer = Writer(batch: Option<seq<Op>>, bytes: nat, sync: bool)

  function OpsOf(w: Writer): seq<Op> {
    if w.batch.Some? then w.batch.value else []
  }

  /** The merged batch: WriteBatchInternal::Append for every non-null batch. */
  function Merged(ws: seq<Writer>): seq<Op> {
    if ws == [] then [] else Merged(ws[..|ws| - 1]) + OpsOf(ws[|ws| - 1])
  }

  function Size(ws: seq<Writer>): nat {
    if ws == [] then 0
    else Size(ws[..|ws| - 1]) + if ws[|ws| - 1].batch.Some? then ws[|ws| - 1].bytes else 0
  }

  function MaxSize(first: Writer): nat {
    if first.bytes <= 0x2_0000 then first.bytes + 0x2_0000 else 0x10_0000
  }

  /** Writer k may join the group of the writers before it. */
  predicate Joins(queue: seq<Writer>, k: nat)
    requires 0 < k < |queue|
  {
    !(queue[k].sync && !queue[0].sync) &&
    (queue[k].batch.Some? ==> Size(queue[..k + 1]) <= MaxSize(queue[0]))
  }

  /** The longest front of the queue whose members may all join. */
  predicate IsGroup(queue: seq<Writer>, n: nat) {
    0 < n <= |queue| && (forall k | 0 < k < n :: Joins(queue, k)) && (n < |queue| ==> !Joins(queue, n))
  }

  method BuildBatchGroup(queue: seq<Writer>) returns (n: nat, ops: seq<Op>)
    requires queue != [] && queue[0].batch.Some?
    ensures IsGroup(queue, n) && ops == Merged(queue[..n])
  {
    var first := queue[0];
    ops, n := first.batch.value, 1;
    var size := first.bytes;
    assert queue[..1] == [first] && [first][..0] == [];
    while n < |queue|
      invariant 0 < n <= |queue| && ops == Merged(queue[..n]) && size == Size(queue[..n])
      invariant forall k | 0 < k < n :: Joins(queue, k)
    {
      var w := queue[n];
      assert queue[..n + 1][..n] == queue[..n];
      if w.sync && !first.sync {
        break;
      }
      if w.batch.Some? {
        size := size + w.bytes;
        if size > MaxSize(first) {
          break;
        }
        ops := ops + w.batch.value;
      }
      n := n + 1;
    }
  }

  // ----- The queue as a state machine -----

  /** A log record: the merged batch of arrivals [from, upto). */
  datatype LogRecord = LogRecord(from: nat, upto: nat, batch: Batch, synced: bool)

  datatype Stage = Building | Written | Flushed | Inserted | Failed

  datatype Phase = Idle | Leading(n: nat, stage: Stage)

  /** Writers leave the queue in the order they arrived: outcomes[k] is the status arrival k got. */
  datatype State = State(
    arrived: seq<Writer>, outcomes: seq<bool>, log: seq<LogRecord>, memtable: seq<Batch>,
    lastSequence: nat, bgError: bool, phase: Phase)

  function Queue(s: State): seq<Writer>
    requires |s.outcomes| <= |s.arrived|
  {
    s.arrived[|s.outcomes|..]
  }

  /** The batch the current leader works on. */
  function Current(s: State): Batch
    requires s.phase.Leading? && |s.outcomes| + s.phase.n <= |s.arrived|
  {
    Batch(s.lastSequence + 1, Merged(s.arrived[|s.outcomes|..|s.outcomes| + s.phase.n]))
  }

  datatype Step = Arrive(w: Writer) | Refuse | Switch | Start | Append(ok: bool) | Sync(ok: bool) | Apply(ok: bool) | Finish

  ghost predicate Leader(s: State, stage: Stage) {
    s.phase.Leading? && s.phase.stage == stage && 0 < s.phase.n && |s.outcomes| + s.phase.n <= |s.arrived|
  }

  /** One step under the mutex, or one of the leader's steps while it is unlocked. */
  ghost predicate Next(s: State, s': State, step: Step) {
    match step
    case Arrive(w) => s' == s.(arrived := s.arrived + [w])
    case Refuse =>  // MakeRoomForWrite failed
      s.phase == Idle && |s.outcomes| < |s.arrived| && s' == s.(outcomes := s.outcomes + [false])
    case Switch =>  // a null batch leads
      s.phase == Idle && |s.outcomes| < |s.arrived| && !s.bgError && Queue(s)[0].batch.None? &&
      s' == s.(outcomes := s.outcomes + [true])
    case Start =>
      s.phase == Idle && |s.outcomes| < |s.arrived| && !s.bgError && Queue(s)[0].batch.Some? &&
      s'.phase.Leading? && IsGroup(Queue(s), s'.phase.n) && s' == s.(phase := Leading(s'.phase.n, Building))
    case Append(ok) =>
      Leader(s, Building) &&
      s' == if ok then
        s.(log := s.log + [LogRecord(|s.outcomes|, |s.outcomes| + s.phase.n, Current(s), false)], phase := s.phase.(stage := Written))
      else s.(phase := s.phase.(stage := Failed))
    case Sync(ok) =>
      Leader(s, Written) && s.arrived[|s.outcomes|].sync && s.log != [] &&
      s' == if ok then
        s.(log := s.log[|s.log| - 1 := s.log[|s.log| - 1].(synced := true)], phase := s.phase.(stage := Flushed))
      else s.(bgError := true, phase := s.phase.(stage := Failed))
    case Apply(ok) =>
      (Leader(s, Written) || Leader(s, Flushed)) && (s.arrived[|s.outcomes|].sync ==> s.phase.stage == Flushed) &&
      s' == if ok then s.(memtable := s.memtable + [Current(s)], phase := s.phase.(stage := Inserted))
            else s.(phase := s.phase.(stage := Failed))
    case Finish =>
      (Leader(s, Inserted) || Leader(s, Failed)) &&
      s' == s.(outcomes := s.outcomes + seq(s.phase.n, _ => s.phase.stage == Inserted),
               lastSequence := s.lastSequence + |Current(s).ops|, phase := Idle)
  }

  ghost predicate Init(s: State) {
    s.arrived == [] && s.outcomes == [] && s.log == [] && s.memtable == [] && s.phase == Idle
  }

  // ----- What every step keeps -----

  /** A record holds a run of arrivals, led by its first, and no writer that wants a sync the leader does not do. */
  ghost predicate RecordOk(arrived: seq<Writer>, r: LogRecord) {
    r.from < r.upto <= |arrived| && r.batch.ops == Merged(arrived[r.from..r.upto]) &&
    forall k | r.from <= k < r.upto && arrived[k].sync :: arrived[r.from].sync
  }

  /** Records follow the queue order, and so do their sequence numbers. */
  ghost predicate Ordered(log: seq<LogRecord>) {
    forall i, j | 0 <= i < j < |log| :: log[i].upto <= log[j].from && End(log[i].batch) <= log[j].batch.sequence
  }

  /** A writer told OK is in the log and in the memtable, synced if it asked for that. */
  ghost predicate Honest(s: State, k: nat)
    requires k < |s.outcomes| <= |s.arrived|
  {
    s.outcomes[k] && s.arrived[k].batch.Some? ==>
      exists i :: 0 <= i < |s.log| && s.log[i].from <= k < s.log[i].upto && s.log[i].batch in s.memtable &&
        (s.arrived[k].sync ==> s.log[i].synced)
  }

  /** The leader's record, once written, is the last one; before that everything logged is settled. */
  ghost predicate PhaseOk(s: State) {
    (forall r | r in s.log :: r.upto <= |s.outcomes| + if s.phase.Leading? then s.phase.n else 0) &&
    match s.phase
    case Idle => forall r | r in s.log :: End(r.batch) <= s.lastSequence + 1
    case Leading(n, stage) =>
      0 < n && |s.outcomes| + n <= |s.arrived| && IsGroup(Queue(s)[..n], n) &&
      (forall i | 0 <= i < |s.log| ::
         (s.log[i].upto <= |s.outcomes| && End(s.log[i].batch) <= s.lastSequence + 1) ||
         (i == |s.log| - 1 && stage != Building && s.log[i].from == |s.outcomes| && s.log[i].upto == |s.outcomes| + n &&
          s.log[i].batch == Current(s))) &&
      (stage == Written || stage == Flushed || stage == Inserted ==> s.log != [] && s.log[|s.log| - 1].from == |s.outcomes|) &&
      (stage == Flushed ==> s.log[|s.log| - 1].synced) &&
      (stage == Inserted ==> Current(s) in s.memtable && (s.arrived[|s.outcomes|].sync ==> s.log[|s.log| - 1].synced))
  }

  ghost predicate Inv(s: State) {
    |s.outcomes| <= |s.arrived| && (forall r | r in s.log :: RecordOk(s.arrived, r)) && Ordered(s.log) &&
    (forall k | 0 <= k < |s.outcomes| :: Honest(s, k)) && PhaseOk(s)
  }

  lemma MergedAppend(arrived: seq<Writer>, w: Writer, from: nat, upto: nat)
    requires from <= upto <= |arrived|
    ensures (arrived + [w])[from..upto] == arrived[from..upto]
  {
  }

  lemma ArriveKeeps(s: State, s': State, w: Writer)
    requires Inv(s) && Next(s, s', Arrive(w))
    ensures Inv(s')
  {
    hide Merged, Size, Ordered;
    forall r | r in s.log
      ensures RecordOk(s'.arrived, r)
    {
      MergedAppend(s.arrived, w, r.from, r.upto);
    }
    forall k | 0 <= k < |s.outcomes|
      ensures Honest(s', k)
    {
      assert Honest(s, k);
    }
    if s.phase.Leading? {
      var n := s.phase.n;
      MergedAppend(s.arrived, w, |s.outcomes|, |s.outcomes| + n);
      assert Queue(s')[..n] == Queue(s)[..n];
    }
  }

  /** Every OK the queue has given stays backed by the log and the memtable. */
  lemma HonestStays(s: State, s': State, k: nat)
    requires k < |s.outcomes| <= |s.arrived| && Honest(s, k)
    requires k < |s'.outcomes| <= |s'.arrived| && s'.arrived == s.arrived && s'.outcomes[k] == s.outcomes[k]
    requires |s.log| <= |s'.log| && forall i | 0 <= i < |s.log| ::
      s'.log[i].from == s.log[i].from && s'.log[i].upto == s.log[i].upto && s'.log[i].batch == s.log[i].batch &&
      (s.log[i].synced ==> s'.log[i].synced)
    requires forall b | b in s.memtable :: b in s'.memtable
    ensures Honest(s', k)
  {
    if s.outcomes[k] && s.arrived[k].batch.Some? {
      var i :| 0 <= i < |s.log| && s.log[i].from <= k < s.log[i].upto && s.log[i].batch in s.memtable &&
        (s.arrived[k].sync ==> s.log[i].synced);
      assert s'.log[i].from <= k < s'.log[i].upto;
    }
  }

  lemma AllHonestStay(s: State, s': State)
    requires |s.outcomes| <= |s.arrived| && forall k | 0 <= k < |s.outcomes| :: Honest(s, k)
    requires s'.arrived == s.arrived && |s.outcomes| <= |s'.outcomes| <= |s'.arrived|
    requires forall k | 0 <= k < |s.outcomes| :: s'.outcomes[k] == s.outcomes[k]
    requires |s.log| <= |s'.log| && forall i | 0 <= i < |s.log| ::
      s'.log[i].from == s.log[i].from && s'.log[i].upto == s.log[i].upto && s'.log[i].batch == s.log[i].batch &&
      (s.log[i].synced ==> s'.log[i].synced)
    requires forall b | b in s.memtable :: b in s'.memtable
    ensures forall k | 0 <= k < |s.outcomes| :: Honest(s', k)
  {
    forall k | 0 <= k < |s.outcomes|
      ensures Honest(s', k)
    {
      HonestStays(s, s', k);
    }
  }

  lemma SkipKeeps(s: State, s': State, step: Step)
    requires Inv(s) && (step == Refuse || step == Switch) && Next(s, s', step)
    ensures Inv(s')
  {
    hide Merged, Size, Ordered;
    AllHonestStay(s, s');
    assert step == Switch ==> s.arrived[|s.outcomes|] == Queue(s)[0];
  }

  lemma StartKeeps(s: State, s': State)
    requires Inv(s) && Next(s, s', Start)
    ensures Inv(s')
  {
    hide Merged, Size, Ordered;
    var n := s'.phase.n;
    AllHonestStay(s, s');
    GroupOfGroup(Queue(s), n);
  }

  /** The group is a group of its own. */
  lemma GroupOfGroup(queue: seq<Writer>, n: nat)
    requires IsGroup(queue, n)
    ensures IsGroup(queue[..n], n)
  {
    forall k | 0 < k < n
      ensures Joins(queue[..n], k)
    {
      assert queue[..n][..k + 1] == queue[..k + 1];
      assert Joins(queue, k);
    }
  }

  /** What the leader logs is a proper record of its group. */
  lemma GroupRecordOk(arrived: seq<Writer>, from: nat, n: nat, batch: Batch, synced: bool)
    requires from + n <= |arrived| && IsGroup(arrived[from..][..n], n) && batch.ops == Merged(arrived[from..from + n])
    ensures RecordOk(arrived, LogRecord(from, from + n, batch, synced))
  {
    var group := arrived[from..][..n];
    forall k | from <= k < from + n && arrived[k].sync
      ensures arrived[from].sync
    {
      assert group[k - from] == arrived[k] && group[0] == arrived[from];
      assert k > from ==> Joins(group, k - from);
    }
  }

  lemma AppendKeeps(s: State, s': State, ok: bool)
    requires Inv(s) && Next(s, s', Append(ok))
    ensures Inv(s')
  {
    hide Merged, Size, Joins;
    AllHonestStay(s, s');
    if ok {
      var n := s.phase.n;
      GroupRecordOk(s.arrived, |s.outcomes|, n, Current(s), false);
    }
  }

  function Flush(log: seq<LogRecord>): seq<LogRecord>
    requires log != []
  {
    log[|log| - 1 := log[|log| - 1].(synced := true)]
  }

  /** A sync changes nothing else about the log. */
  lemma FlushKeeps(arrived: seq<Writer>, log: seq<LogRecord>)
    requires log != [] && Ordered(log) && forall r | r in log :: RecordOk(arrived, r)
    ensures Ordered(Flush(log)) && forall r | r in Flush(log) :: RecordOk(arrived, r)
    ensures forall i | 0 <= i < |log| :: Flush(log)[i] == log[i].(synced := Flush(log)[i].synced)
    ensures forall i | 0 <= i < |log| && log[i].synced :: Flush(log)[i].synced
  {
    var last := log[|log| - 1];
    assert RecordOk(arrived, last);
    assert RecordOk(arrived, last.(synced := true));
    forall r | r in Flush(log)
      ensures RecordOk(arrived, r)
    {
      assert r in log || r == last.(synced := true);
    }
  }

  lemma SyncKeeps(s: State, s': State, ok: bool)
    requires Inv(s) && Next(s, s', Sync(ok))
    ensures Inv(s')
  {
    hide Merged, Size, Joins, IsGroup, Honest, Ordered, RecordOk;
    if ok {
      FlushKeeps(s.arrived, s.log);
      assert s'.log == Flush(s.log);
    }
    AllHonestStay(s, s');
  }

  lemma ApplyKeeps(s: State, s': State, ok: bool)
    requires Inv(s) && Next(s, s', Apply(ok))
    ensures Inv(s')
  {
    hide Merged, Size, Joins, Ordered, IsGroup, RecordOk;
    hide Honest;
    AllHonestStay(s, s');
  }

  lemma FinishKeeps(s: State, s': State)
    requires Inv(s) && Next(s, s', Finish)
    ensures Inv(s')
  {
    hide Merged, Size, Joins, Ordered;
    AllHonestStay(s, s');
    var start := |s.outcomes|;
    forall k | start <= k < start + s.phase.n
      ensures Honest(s', k)
    {
      if s.phase.stage == Inserted {
        var i := |s.log| - 1;
        var r := s.log[i];
        assert r in s.log && RecordOk(s.arrived, r);
        assert r.from <= k < r.upto && r.batch in s.memtable && (s.arrived[k].sync ==> r.synced);
      }
    }
  }

  lemma NextKeeps(s: State, s': State, step: Step)
    requires Inv(s) && Next(s, s', step)
    ensures Inv(s')
  {
    match step {
      case Arrive(w) => ArriveKeeps(s, s', w);
      case Start => StartKeeps(s, s');
      case Append(ok) => AppendKeeps(s, s', ok);
      case Sync(ok) => SyncKeeps(s, s', ok);
      case Apply(ok) => ApplyKeeps(s, s', ok);
      case Finish => FinishKeeps(s, s');
      case _ => SkipKeeps(s, s', step);
    }
  }

  ghost predicate Run(states: seq<State>, steps: seq<Step>) {
    |states| == |steps| + 1 && Init(states[0]) && forall i | 0 <= i < |steps| :: Next(states[i], states[i + 1], steps[i])
  }

  lemma {:induction false} RunKeeps(states: seq<State>, steps: seq<Step>, i: nat)
    requires Run(states, steps) && i < |states|
    ensures Inv(states[i])
  {
    if i > 0 {
      RunKeeps(states, steps, i - 1);
      NextKeeps(states[i - 1], states[i], steps[i - 1]);
    }
  }

  // ----- What callers get -----

  /** The sequence number of the first update of arrival k within the record that holds it. */
  function SequenceOf(arrived: seq<Writer>, r: LogRecord, k: nat): nat
    requires r.from <= k < r.upto <= |arrived|
  {
    r.batch.sequence + |Merged(arrived[r.from..k])|
  }

  lemma {:induction false} MergedSplit(ws: seq<Writer>, k: nat)
    requires k < |ws|
    ensures |Merged(ws[..k])| + |OpsOf(ws[k])| <= |Merged(ws)|
    ensures forall x | 0 <= x < |OpsOf(ws[k])| :: Merged(ws)[|Merged(ws[..k])| + x] == OpsOf(ws[k])[x]
    ensures Merged(ws[..k + 1]) == Merged(ws[..k]) + OpsOf(ws[k])
  {
    assert ws[..k + 1][..k] == ws[..k];
    if k < |ws| - 1 {
      var init := ws[..|ws| - 1];
      MergedSplit(init, k);
      assert init[..k] == ws[..k];
    } else {
      assert ws[..k + 1] == ws;
    }
  }

  /** The record holds the updates of arrival k, one after the other, from its sequence number on. */
  lemma HoldsUpdates(arrived: seq<Writer>, r: LogRecord, k: nat, x: nat)
    requires RecordOk(arrived, r) && r.from <= k < r.upto && x < |OpsOf(arrived[k])|
    ensures EntryOf(OpsOf(arrived[k])[x], SequenceOf(arrived, r, k) + x) in BatchEntries(r.batch)
    ensures SequenceOf(arrived, r, k) + |OpsOf(arrived[k])| <= End(r.batch)
  {
    hide Merged, BatchEntries, EntryOf;
    var ws := arrived[r.from..r.upto];
    MergedSplit(ws, k - r.from);
    assert ws[..k - r.from] == arrived[r.from..k] && ws[k - r.from] == arrived[k];
    BatchHas(r.batch, |Merged(arrived[r.from..k])| + x);
  }

  lemma BatchHas(b: Batch, y: nat)
    requires y < |b.ops|
    ensures EntryOf(b.ops[y], b.sequence + y) in BatchEntries(b)
  {
  }

  lemma {:induction false} MergedGrows(ws: seq<Writer>, a: nat, b: nat)
    requires a < b <= |ws|
    ensures |Merged(ws[..a])| + |OpsOf(ws[a])| <= |Merged(ws[..b])|
  {
    MergedSplit(ws[..b], a);
    assert ws[..b][..a] == ws[..a];
  }

  /** MAIN: no arrival is logged twice, and the sequence numbers of logged arrivals follow the queue order without
      overlap. */
  lemma LoggedOnceInOrder(states: seq<State>, steps: seq<Step>, n: nat, i: nat, j: nat, a: nat, b: nat)
    requires Run(states, steps) && n < |states| && i < |states[n].log| && j < |states[n].log|
    requires states[n].log[i].from <= a < states[n].log[i].upto && states[n].log[j].from <= b < states[n].log[j].upto
    requires a <= b
    ensures a == b ==> i == j
    ensures b < |states[n].arrived|
    ensures states[n].log[i].upto <= |states[n].arrived| && states[n].log[j].upto <= |states[n].arrived|
    ensures a < b ==>
      SequenceOf(states[n].arrived, states[n].log[i], a) + |OpsOf(states[n].arrived[a])| <=
      SequenceOf(states[n].arrived, states[n].log[j], b)
  {
    hide Merged;
    RunKeeps(states, steps, n);
    var s := states[n];
    var r, q := s.log[i], s.log[j];
    assert RecordOk(s.arrived, r) && RecordOk(s.arrived, q);
    if a < b {
      if i == j {
        var ws := s.arrived[r.from..r.upto];
        MergedGrows(ws, a - r.from, b - r.from);
        assert ws[..a - r.from] == s.arrived[r.from..a] && ws[..b - r.from] == s.arrived[r.from..b];
      } else {
        if OpsOf(s.arrived[a]) != [] {
          HoldsUpdates(s.arrived, r, a, 0);
        } else {
          RecordSpan(s.arrived, r, a);
        }
        assert i < j;
      }
    }
  }

  lemma RecordSpan(arrived: seq<Writer>, r: LogRecord, k: nat)
    requires RecordOk(arrived, r) && r.from <= k < r.upto
    ensures SequenceOf(arrived, r, k) <= End(r.batch)
  {
    var ws := arrived[r.from..r.upto];
    MergedSplit(ws, k - r.from);
    assert ws[..k - r.from] == arrived[r.from..k];
  }

  /** MAIN: a writer that was told OK finds each of its updates in a record of the log that is also in the
      memtable; if it asked for a sync, that record was synced, by a leader that asked for one too. */
  lemma OkIsCommitted(states: seq<State>, steps: seq<Step>, n: nat, k: nat) returns (i: nat)
    requires Run(states, steps) && n < |states| && k < |states[n].outcomes| && states[n].outcomes[k]
    requires k < |states[n].arrived| && states[n].arrived[k].batch.Some?
    ensures i < |states[n].log| && states[n].log[i].batch in states[n].memtable
    ensures states[n].log[i].from <= k < states[n].log[i].upto <= |states[n].arrived|
    ensures forall x | 0 <= x < |OpsOf(states[n].arrived[k])| ::
      EntryOf(OpsOf(states[n].arrived[k])[x], SequenceOf(states[n].arrived, states[n].log[i], k) + x)
        in BatchEntries(states[n].log[i].batch)
    ensures states[n].arrived[k].sync ==> states[n].log[i].synced && states[n].arrived[states[n].log[i].from].sync
  {
    hide Merged, BatchEntries;
    RunKeeps(states, steps, n);
    var s := states[n];
    assert Honest(s, k);
    i :| 0 <= i < |s.log| && s.log[i].from <= k < s.log[i].upto && s.log[i].batch in s.memtable &&
      (s.arrived[k].sync ==> s.log[i].synced);
    assert RecordOk(s.arrived, s.log[i]);
    forall x | 0 <= x < |OpsOf(s.arrived[k])|
      ensures EntryOf(OpsOf(s.arrived[k])[x], SequenceOf(s.arrived, s.log[i], k) + x) in BatchEntries(s.log[i].batch)
    {
      HoldsUpdates(s.arrived, s.log[i], k, x);
    }
  }

  // ----- Who is told what -----

  /** The status of AddRecord, Sync or InsertInto is not OK. */
  predicate Fails(step: Step) {
    (step.Append? || step.Sync? || step.Apply?) && !step.ok
  }

  /** The step is a reason to give arrival k an error: it is refused at the front of the queue, or its group fails. */
  ghost predicate Blames(s: State, step: Step, k: nat) {
    if step == Refuse then k == |s.outcomes|
    else Fails(step) && s.phase.Leading? && |s.outcomes| <= k < |s.outcomes| + s.phase.n
  }

  /** One of the first n steps was such a reason. */
  ghost predicate Blamed(states: seq<State>, steps: seq<Step>, n: nat, k: nat)
    requires n <= |steps| < |states|
  {
    exists i :: 0 <= i < n && Blames(states[i], steps[i], k)
  }

  /** Arrival k got an error, or will get one when its group is done. */
  ghost predicate InError(s: State, k: nat) {
    (k < |s.outcomes| && !s.outcomes[k]) ||
    (s.phase.Leading? && s.phase.stage == Failed && |s.outcomes| <= k < |s.outcomes| + s.phase.n)
  }

  lemma ErrorStep(s: State, s': State, step: Step, k: nat)
    requires Inv(s) && Next(s, s', step)
    ensures InError(s', k) <==> InError(s, k) || Blames(s, step, k)
  {
    hide Merged, Size, Ordered, Honest, RecordOk, IsGroup;
  }

  lemma {:induction false} ErrorsAreBlamed(states: seq<State>, steps: seq<Step>, n: nat, k: nat)
    requires Run(states, steps) && n < |states|
    ensures InError(states[n], k) <==> Blamed(states, steps, n, k)
  {
    hide Inv, Next, InError, Blames;
    if n == 0 {
      assert !InError(states[0], k) by {
        NoErrorYet(states[0], k);
      }
    } else {
      ErrorsAreBlamed(states, steps, n - 1, k);
      RunKeeps(states, steps, n - 1);
      ErrorStep(states[n - 1], states[n], steps[n - 1], k);
      assert Blames(states[n - 1], steps[n - 1], k) ==> Blamed(states, steps, n, k);
    }
  }

  lemma NoErrorYet(s: State, k: nat)
    requires Init(s)
    ensures !InError(s, k)
  {
  }

  /** MAIN: in every run a writer that has its answer was told OK if and only if it was not refused and no append, sync or
      insertion of its group failed. */
  lemma OkUnlessBlamed(states: seq<State>, steps: seq<Step>, n: nat, k: nat)
    requires Run(states, steps) && n < |states| && k < |states[n].outcomes|
    ensures states[n].outcomes[k] <==> !Blamed(states, steps, n, k)
  {
    hide Blames, Next, Init;
    ErrorsAreBlamed(states, steps, n, k);
  }

  /** After a sync that failed nothing more is logged or inserted. */
  ghost predicate Stopped(s: State, s': State)
    requires s.phase.Leading?
  {
    s'.bgError && s'.log == s.log && s'.memtable == s.memtable && (s'.phase == Idle || s'.phase == s.phase.(stage := Failed)) &&
    |s.outcomes| <= |s'.outcomes| && forall k | |s.outcomes| <= k < |s'.outcomes| :: !s'.outcomes[k]
  }

  /** MAIN: whether the record of a failed sync is on disk is not known, so from then on every writer gets an error and the
      log and the memtable stay as they are. */
  lemma {:induction false} SyncErrorIsFinal(states: seq<State>, steps: seq<Step>, i: nat, n: nat)
    requires Run(states, steps) && i < n < |states| && steps[i] == Sync(false)
    ensures states[i].phase.Leading? && Stopped(states[i], states[n])
  {
    hide Merged, Size, IsGroup;
    assert Next(states[i], states[i + 1], steps[i]);
    if n > i + 1 {
      SyncErrorIsFinal(states, steps, i, n - 1);
      assert Next(states[n - 1], states[n], steps[n - 1]);
    }
  }

  // ----- Every write can succeed -----

  ghost predicate EndsIn(states: seq<State>, steps: seq<Step>, s: State) {
    Run(states, steps) && states[|states| - 1] == s
  }

  ghost predicate Reached(s: State) {
    exists states, steps :: EndsIn(states, steps, s)
  }

  lemma ReachStep(s: State, s': State, step: Step)
    requires Reached(s) && Next(s, s', step)
    ensures Reached(s')
  {
    hide Next, Init;
    var states, steps :| EndsIn(states, steps, s);
    var states', steps' := states + [s'], steps + [step];
    forall i | 0 <= i < |steps'|
      ensures Next(states'[i], states'[i + 1], steps'[i])
    {
      if i < |steps| {
        assert Next(states[i], states[i + 1], steps[i]);
      }
    }
    assert EndsIn(states', steps', s');
  }

  /** The queue is between two groups, and no writer has been given an error. */
  ghost predicate Smooth(s: State, ws: seq<Writer>) {
    Reached(s) && s.arrived == ws && s.phase == Idle && !s.bgError && |s.outcomes| <= |ws| && forall ok | ok in s.outcomes :: ok
  }

  lemma {:induction false} AllArrive(ws: seq<Writer>) returns (s: State)
    ensures Smooth(s, ws) && s.outcomes == []
  {
    hide Reached;
    if ws == [] {
      s := State.State([], [], [], [], 0, false, Idle);
      assert Reached(s) by {
        EmptyQueue(s);
      }
    } else {
      var s0 := AllArrive(ws[..|ws| - 1]);
      s := s0.(arrived := ws);
      assert ws == ws[..|ws| - 1] + [ws[|ws| - 1]];
      assert Next(s0, s, Arrive(ws[|ws| - 1]));
      ReachStep(s0, s, Arrive(ws[|ws| - 1]));
    }
  }

  lemma EmptyQueue(s: State)
    requires Init(s)
    ensures Reached(s)
  {
    assert EndsIn([s], [], s);
  }

  lemma {:induction false} GroupExists(queue: seq<Writer>, n: nat) returns (m: nat)
    requires 0 < n <= |queue| && forall k | 0 < k < n :: Joins(queue, k)
    ensures IsGroup(queue, m)
    decreases |queue| - n
  {
    if n == |queue| || !Joins(queue, n) {
      m := n;
    } else {
      m := GroupExists(queue, n + 1);
    }
  }

  /** The front of the queue can get its answer, and a good one. */
  lemma GroupSucceeds(s: State, ws: seq<Writer>) returns (s': State)
    requires Smooth(s, ws) && |s.outcomes| < |ws|
    ensures Smooth(s', ws) && |s.outcomes| < |s'.outcomes|
  {
    hide Reached, Merged, IsGroup;
    var first := Queue(s)[0];
    if first.batch.None? {
      s' := s.(outcomes := s.outcomes + [true]);
      ReachStep(s, s', Switch);
      return;
    }
    var n := GroupExists(Queue(s), 1);
    assert 0 < n <= |Queue(s)| by {
      GroupSize(Queue(s), n);
    }
    var s1 := s.(phase := Leading(n, Building));
    ReachStep(s, s1, Start);
    var r := LogRecord(|s.outcomes|, |s.outcomes| + n, Current(s1), false);
    var s2 := s1.(log := s.log + [r], phase := Leading(n, Written));
    ReachStep(s1, s2, Append(true));
    var s3 := s2;
    if first.sync {
      s3 := s2.(log := s2.log[|s2.log| - 1 := r.(synced := true)], phase := Leading(n, Flushed));
      ReachStep(s2, s3, Sync(true));
    }
    var s4 := s3.(memtable := s3.memtable + [Current(s3)], phase := Leading(n, Inserted));
    ReachStep(s3, s4, Apply(true));
    s' := s4.(outcomes := s.outcomes + seq(n, _ => true), lastSequence := s.lastSequence + |Current(s4).ops|, phase := Idle);
    ReachStep(s4, s', Finish);
  }

  lemma GroupSize(queue: seq<Writer>, n: nat)
    requires IsGroup(queue, n)
    ensures 0 < n <= |queue|
  {
  }

  lemma {:induction false} RestSucceeds(s: State, ws: seq<Writer>) returns (s': State)
    requires Smooth(s, ws)
    ensures Smooth(s', ws) && |s'.outcomes| == |ws|
    decreases |ws| - |s.outcomes|
  {
    hide Smooth;
    s' := s;
    if |s.outcomes| < |ws| {
      var next := GroupSucceeds(s, ws);
      assert |next.outcomes| <= |ws| by {
        SmoothSize(next, ws);
      }
      s' := RestSucceeds(next, ws);
    } else {
      SmoothSize(s, ws);
    }
  }

  lemma SmoothSize(s: State, ws: seq<Writer>)
    requires Smooth(s, ws)
    ensures |s.outcomes| <= |ws|
  {
  }

  /** MAIN: whatever writers arrive, with or without batches and syncs, some run tells all of them OK. */
  lemma EveryWriteCanSucceed(ws: seq<Writer>) returns (states: seq<State>, steps: seq<Step>, s: State)
    ensures EndsIn(states, steps, s) && s.arrived == ws && |s.outcomes| == |ws| && forall ok | ok in s.outcomes :: ok
  {
    hide Run;
    var start := AllArrive(ws);
    s := RestSucceeds(start, ws);
    states, steps :| EndsIn(states, steps, s);
  }
}
