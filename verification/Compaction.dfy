/** Compaction of input files into new files of the next level (db/db_impl.cc, DoCompactionWork, and
    db/version_set.cc, Compaction::IsBaseLevelForKey and ShouldStopBefore), and what it does to reads. */
module Compactions {
  import opened Entries
  import opened Files
  import opened Grandparents

  /** No file of a level deeper than the output level has k in its range. */
  predicate IsBaseLevel(version: Levels, level: nat, k: UserKey) {
    forall l, j | level + 2 <= l < |version| && 0 <= j < |version[l]| :: !Covers(version[l][j], k)
  }

  /** Hidden by a newer entry for the same user key that every snapshot still in use can see. */
  predicate Hidden(input: seq<Entry>, i: nat, snapshot: nat)
    requires i < |input|
  {
    exists j | 0 <= j < i :: input[j].key.user == input[i].key.user && input[j].key.sequence <= snapshot
  }

  /** A deletion marker every live snapshot sees, with nothing below for it to hide. */
  predicate Obsolete(e: Entry, snapshot: nat, version: Levels, level: nat) {
    e.key.kind == Deletion && e.key.sequence <= snapshot && IsBaseLevel(version, level, e.key.user)
  }

  predicate Dropped(input: seq<Entry>, i: nat, snapshot: nat, version: Levels, level: nat)
    requires i < |input|
  {
    Hidden(input, i, snapshot) || Obsolete(input[i], snapshot, version, level)
  }

  /** The entries among the first n of the input that survive. */
  ghost function Kept(input: seq<Entry>, n: nat, snapshot: nat, version: Levels, level: nat): (kept: seq<Entry>)
    requires n <= |input|
  {
    if n == 0 then []
    else
      Kept(input, n - 1, snapshot, version, level) +
      if Dropped(input, n - 1, snapshot, version, level) then [] else [input[n - 1]]
  }

  lemma {:induction false} KeptElements(input: seq<Entry>, n: nat, snapshot: nat, version: Levels, level: nat, e: Entry)
    requires n <= |input|
    ensures e in Kept(input, n, snapshot, version, level) <==>
      exists i | 0 <= i < n :: input[i] == e && !Dropped(input, i, snapshot, version, level)
  {
    if n > 0 {
      KeptElements(input, n - 1, snapshot, version, level, e);
    }
  }

  lemma {:induction false} KeptSorted(input: seq<Entry>, n: nat, snapshot: nat, version: Levels, level: nat)
    requires n <= |input| && Sorted(input)
    ensures Sorted(Kept(input, n, snapshot, version, level))
  {
    if n > 0 {
      KeptSorted(input, n - 1, snapshot, version, level);
      var kept := Kept(input, n - 1, snapshot, version, level);
      forall a | 0 <= a < |kept|
        ensures Less(kept[a].key, input[n - 1].key)
      {
        KeptElements(input, n - 1, snapshot, version, level, kept[a]);
      }
    }
  }

  /** One variable, last_sequence_for_key, is enough to decide rule (A). */
  lemma HiddenByPrevious(input: seq<Entry>, i: nat, snapshot: nat)
    requires i < |input| && Sorted(input)
    ensures Hidden(input, i, snapshot) <==>
      i > 0 && input[i - 1].key.user == input[i].key.user && input[i - 1].key.sequence <= snapshot
  {
    if j :| 0 <= j < i && input[j].key.user == input[i].key.user && input[j].key.sequence <= snapshot {
      assert Less(input[j].key, input[i].key);
      assert j == i - 1 || Less(input[j].key, input[i - 1].key);
      assert Less(input[i - 1].key, input[i].key);
    }
  }

  class Compaction {
    const level: nat
    const version: Levels
    const levelPtrs: array<nat>
    const grandparents: seq<File>
    const maxOverlap: nat
    var grandparentIndex: nat
    var seenKey: bool
    var overlappedBytes: nat

    constructor (level: nat, version: Levels, grandparents: seq<File>, maxOverlap: nat)
      requires |version| == NUM_LEVELS
      ensures this.level == level && this.version == version
      ensures this.grandparents == grandparents && this.maxOverlap == maxOverlap
      ensures fresh(levelPtrs) && AtStart() && NothingAsked()
    {
      this.level, this.version, this.grandparents, this.maxOverlap := level, version, grandparents, maxOverlap;
      levelPtrs := new nat[NUM_LEVELS](_ => 0);
      grandparentIndex, seenKey, overlappedBytes := 0, false, 0;
    }

    ghost predicate AtStart()
      reads levelPtrs
    {
      |version| == NUM_LEVELS == levelPtrs.Length && forall l | 0 <= l < NUM_LEVELS :: levelPtrs[l] == 0
    }

    ghost predicate NothingAsked()
      reads this
    {
      grandparentIndex == 0 && !seenKey && overlappedBytes == 0
    }

    /** ShouldStopBefore has been asked about the first i entries. */
    ghost predicate Asked(input: seq<Entry>, i: nat)
      reads this
    {
      i <= |input| && ValidFiles(grandparents) && SortedFiles(grandparents) &&
      if i == 0 then NothingAsked()
      else
        seenKey && Before(grandparents, grandparentIndex, input[i - 1].key) &&
        overlappedBytes ==
          EndingFrom(grandparents[..grandparentIndex], input[CountedFrom(grandparents, maxOverlap, input, i)].key)
    }

    /** Whether the open output has to end before the next entry, for the sake of later compactions. */
    method ShouldStopBefore(k: IKey, ghost input: seq<Entry>, ghost i: nat) returns (stop: bool)
      requires Sorted(input) && i < |input| && k == input[i].key && Asked(input, i)
      modifies this
      ensures Asked(input, i + 1) && stop == StopsBefore(grandparents, maxOverlap, input, i)
    {
      hide Less, Sorted, ValidFiles, SortedFiles, EndingFrom, StopsBefore, CountedFrom;
      ghost var from, start := CountedFrom(grandparents, maxOverlap, input, i), grandparentIndex;
      if i > 0 {
        PassedStay(grandparents, start, input, i);
      }
      while grandparentIndex < |grandparents| && Less(grandparents[grandparentIndex].largest, k)
        invariant start <= grandparentIndex <= |grandparents|
        invariant forall j | 0 <= j < grandparentIndex :: Less(grandparents[j].largest, k)
        invariant seenKey == (i > 0) && overlappedBytes ==
          if seenKey then EndingFrom(grandparents[..grandparentIndex], input[from].key) else 0
        decreases |grandparents| - grandparentIndex
      {
        if seenKey {
          overlappedBytes := overlappedBytes + grandparents[grandparentIndex].size;
          CountedBehind(grandparents, maxOverlap, input, i, grandparents[grandparentIndex]);
          OneMore(grandparents, grandparentIndex, input[from].key);
        }
        grandparentIndex := grandparentIndex + 1;
      }
      ScanEnds(grandparents, grandparentIndex, k);
      Judged(grandparents, maxOverlap, input, i, grandparentIndex, overlappedBytes);
      seenKey := true;
      if overlappedBytes > maxOverlap {
        overlappedBytes := 0;
        return true;
      }
      return false;
    }

    /** Every file already stepped over lies wholly before k. */
    ghost predicate Passed(k: UserKey)
      reads levelPtrs
    {
      |version| == NUM_LEVELS == levelPtrs.Length &&
      forall l | level + 2 <= l < NUM_LEVELS ::
        levelPtrs[l] <= |version[l]| && forall j | 0 <= j < levelPtrs[l] :: version[l][j].largest.user < k
    }

    /** The scan pointers only move forward, so the answer is right when keys arrive in order. */
    method IsBaseLevelForKey(k: UserKey) returns (base: bool)
      requires ValidLevels(version) && Passed(k)
      modifies levelPtrs
      ensures Passed(k)
      ensures base <==> IsBaseLevel(version, level, k)
    {
      var lvl := level + 2;
      while lvl < NUM_LEVELS
        invariant level + 2 <= lvl
        invariant Passed(k)
        invariant forall l, j | level + 2 <= l < lvl && l < NUM_LEVELS && 0 <= j < |version[l]| :: !Covers(version[l][j], k)
      {
        var files := version[lvl];
        while levelPtrs[lvl] < |files|
          invariant Passed(k)
          invariant levelPtrs[lvl] <= |files|
          decreases |files| - levelPtrs[lvl]
        {
          var f := files[levelPtrs[lvl]];
          if k <= f.largest.user {
            if k >= f.smallest.user {
              assert Covers(version[lvl][levelPtrs[lvl]], k);
              return false;
            }
            break;
          }
          levelPtrs[lvl] := levelPtrs[lvl] + 1;
        }
        forall j | 0 <= j < |files|
          ensures !Covers(files[j], k)
        {
          var p := levelPtrs[lvl];
          if p < j {
            FileRange(files[p]);
            assert Less(files[p].largest, files[j].smallest);
          }
        }
        lvl := lvl + 1;
      }
      return true;
    }
  }

  /** What the scan variables hold on reaching entry i. */
  ghost predicate ScanState(c: Compaction, input: seq<Entry>, i: nat, currentUserKey: Option<UserKey>,
      lastSequenceForKey: nat)
    requires i <= |input|
    reads c.levelPtrs
  {
    if i == 0 then currentUserKey == None && c.AtStart()
    else
      currentUserKey == Some(input[i - 1].key.user) && lastSequenceForKey == input[i - 1].key.sequence &&
      c.Passed(input[i - 1].key.user)
  }

  /** The drop decision for entry i: rule (A), then the obsolete deletion marker. */
  method DecideDrop(c: Compaction, input: seq<Entry>, i: nat, currentUserKey: Option<UserKey>, lastSequenceForKey: nat,
                    snapshot: nat)
    returns (drop: bool)
    requires i < |input| && Sorted(input) && snapshot < MAX_SEQUENCE && ValidLevels(c.version)
    requires ScanState(c, input, i, currentUserKey, lastSequenceForKey)
    modifies c.levelPtrs
    ensures ScanState(c, input, i + 1, Some(input[i].key.user), input[i].key.sequence)
    ensures drop <==> Dropped(input, i, snapshot, c.version, c.level)
  {
    var e := input[i];
    HiddenByPrevious(input, i, snapshot);
    assert i > 0 ==> Less(input[i - 1].key, e.key);
    var last := if currentUserKey != Some(e.key.user) then MAX_SEQUENCE else lastSequenceForKey;
    drop := false;
    if last <= snapshot {
      drop := true;
    } else if e.key.kind == Deletion && e.key.sequence <= snapshot {
      drop := c.IsBaseLevelForKey(e.key.user);
    }
  }

  // ----- Where outputs are cut -----

  /** How many entries the first n outputs hold. */
  ghost function Begin(outputs: seq<File>, n: nat): nat
    requires n <= |outputs|
  {
    |Concat(outputs[..n])|
  }

  /** The places among the survivors where ShouldStopBefore wants a cut. */
  ghost function StopPlaces(input: seq<Entry>, stop: seq<bool>, snapshot: nat, version: Levels, level: nat): set<nat>
    requires |stop| == |input|
  {
    set i | 0 <= i < |input| && stop[i] :: |Kept(input, i, snapshot, version, level)|
  }

  /** Nothing was added to a table that had reached its size. */
  ghost predicate InSize(entries: seq<Entry>, builtSize: seq<Entry> -> nat, maxOutputSize: nat) {
    forall n | 0 < n < |entries| :: builtSize(entries[..n]) < maxOutputSize
  }

  ghost predicate Apart(places: set<nat>, from: nat, to: nat) {
    forall p | p in places :: p <= from || to <= p
  }

  /** Output j ends in time... */
  ghost predicate CutInTime(outputs: seq<File>, j: nat, places: set<nat>, builtSize: seq<Entry> -> nat, maxOutputSize: nat)
    requires j < |outputs|
  {
    InSize(outputs[j].entries, builtSize, maxOutputSize) && Apart(places, Begin(outputs, j), Begin(outputs, j + 1))
  }

  /** ... and for a cause. */
  ghost predicate CutForCause(outputs: seq<File>, j: nat, places: set<nat>, builtSize: seq<Entry> -> nat, maxOutputSize: nat)
    requires j < |outputs|
  {
    builtSize(outputs[j].entries) >= maxOutputSize || Begin(outputs, j + 1) in places
  }

  ghost predicate AllCut(outputs: seq<File>, n: nat, places: set<nat>, builtSize: seq<Entry> -> nat, maxOutputSize: nat)
    requires n <= |outputs|
  {
    (forall j | 0 <= j < |outputs| :: CutInTime(outputs, j, places, builtSize, maxOutputSize)) &&
    forall j | 0 <= j < n :: CutForCause(outputs, j, places, builtSize, maxOutputSize)
  }

  lemma {:induction false} KeptGrows(input: seq<Entry>, i: nat, j: nat, snapshot: nat, version: Levels, level: nat)
    requires i <= j <= |input|
    ensures |Kept(input, i, snapshot, version, level)| <= |Kept(input, j, snapshot, version, level)|
  {
    hide Dropped;
    if i < j {
      KeptGrows(input, i, j - 1, snapshot, version, level);
    }
  }

  /** The scan has honoured the stops before entry i; the others come later. */
  lemma StopsApart(input: seq<Entry>, stop: seq<bool>, i: nat, snapshot: nat, version: Levels, level: nat, from: nat)
    requires |stop| == |input| && i <= |input|
    requires forall k | 0 <= k < i && stop[k] :: |Kept(input, k, snapshot, version, level)| <= from
    ensures Apart(StopPlaces(input, stop, snapshot, version, level), from, |Kept(input, i, snapshot, version, level)|)
  {
    hide Kept;
    forall k | i <= k < |input|
      ensures |Kept(input, i, snapshot, version, level)| <= |Kept(input, k, snapshot, version, level)|
    {
      KeptGrows(input, i, k, snapshot, version, level);
    }
  }

  /** `r` is `outputs` and one more, of these entries. */
  ghost predicate Closes(r: seq<File>, outputs: seq<File>, building: seq<Entry>) {
    |r| == |outputs| + 1 && r[..|outputs|] == outputs && r[|outputs|].entries == building
  }

  /** One more output. */
  lemma CutMore(outputs: seq<File>, r: seq<File>, building: seq<Entry>, places: set<nat>, builtSize: seq<Entry> -> nat,
                maxOutputSize: nat)
    requires AllCut(outputs, |outputs|, places, builtSize, maxOutputSize) && InSize(building, builtSize, maxOutputSize)
    requires Closes(r, outputs, building) && Apart(places, |Concat(outputs)|, |Concat(outputs)| + |building|)
    ensures AllCut(r, |outputs|, places, builtSize, maxOutputSize)
    ensures builtSize(building) >= maxOutputSize || |Concat(outputs)| + |building| in places ==>
      AllCut(r, |r|, places, builtSize, maxOutputSize)
    ensures Concat(r) == Concat(outputs) + building
  {
    hide InSize, Apart;
    forall n | 0 <= n <= |outputs|
      ensures r[..n] == outputs[..n]
    {
      assert outputs[..n] == r[..|outputs|][..n];
    }
    assert r[..|r|] == r && outputs[..|outputs|] == outputs;
    assert Begin(r, |outputs|) == |Concat(outputs)|;
    assert Concat(r) == Concat(r[..|r| - 1]) + r[|r| - 1].entries;
    forall j | 0 <= j < |r|
      ensures CutInTime(r, j, places, builtSize, maxOutputSize)
      ensures j < |outputs| ==> CutForCause(r, j, places, builtSize, maxOutputSize)
    {
      if j < |outputs| {
        assert r[j] == r[..|outputs|][j];
        assert CutInTime(outputs, j, places, builtSize, maxOutputSize) && CutForCause(outputs, j, places, builtSize, maxOutputSize);
      }
    }
  }

  /** What a compaction is asked for. */
  datatype Job = Job(input: seq<Entry>, snapshot: nat, version: Levels, level: nat, stop: seq<bool>,
                     builtSize: seq<Entry> -> nat, maxOutputSize: nat)

  ghost function JobOf(c: Compaction, input: seq<Entry>, snapshot: nat, builtSize: seq<Entry> -> nat, maxOutputSize: nat): Job {
    Job(input, snapshot, c.version, c.level, Stops(c.grandparents, c.maxOverlap, input), builtSize, maxOutputSize)
  }

  ghost function Survivors(job: Job, n: nat): seq<Entry>
    requires n <= |job.input|
  {
    Kept(job.input, n, job.snapshot, job.version, job.level)
  }

  /** The outputs hold the survivors and are cut where size or grandparents demand, up to the first n for a cause. */
  ghost predicate RightlyCut(job: Job, outputs: seq<File>, n: nat)
    requires |job.stop| == |job.input| && n <= |outputs|
  {
    AllCut(outputs, n, StopPlaces(job.input, job.stop, job.snapshot, job.version, job.level), job.builtSize, job.maxOutputSize)
  }

  /** The scan has come to entry i, with `building` in the open builder. */
  ghost predicate Cutting(job: Job, outputs: seq<File>, building: seq<Entry>, i: nat) {
    |job.stop| == |job.input| && i <= |job.input| && RightlyCut(job, outputs, |outputs|) &&
    InSize(building, job.builtSize, job.maxOutputSize) && (building != [] ==> job.builtSize(building) < job.maxOutputSize) &&
    Concat(outputs) + building == Survivors(job, i) &&
    forall k | 0 <= k < i && job.stop[k] :: |Survivors(job, k)| <= |Concat(outputs)|
  }

  lemma CutStarts(job: Job)
    requires |job.stop| == |job.input|
    ensures Cutting(job, [], [], 0)
  {
  }

  /** ShouldStopBefore closes the open table. */
  lemma CutStops(job: Job, outputs: seq<File>, building: seq<Entry>, i: nat, r: seq<File>)
    requires Cutting(job, outputs, building, i) && i < |job.input| && job.stop[i] && Closes(r, outputs, building)
    ensures Cutting(job, r, [], i)
  {
    hide AllCut, Apart, Kept, Concat;
    StopsApart(job.input, job.stop, i, job.snapshot, job.version, job.level, |Concat(outputs)|);
    var places := StopPlaces(job.input, job.stop, job.snapshot, job.version, job.level);
    assert |Survivors(job, i)| in places;
    CutMore(outputs, r, building, places, job.builtSize, job.maxOutputSize);
  }

  lemma CutSkips(job: Job, outputs: seq<File>, building: seq<Entry>, i: nat)
    requires Cutting(job, outputs, building, i) && i < |job.input| && (job.stop[i] ==> building == [])
    requires Dropped(job.input, i, job.snapshot, job.version, job.level)
    ensures Cutting(job, outputs, building, i + 1)
  {
    hide AllCut, Concat, Dropped, RightlyCut, InSize;
  }

  lemma CutAdds(job: Job, outputs: seq<File>, building: seq<Entry>, i: nat, r: seq<File>)
    requires Cutting(job, outputs, building, i) && i < |job.input| && (job.stop[i] ==> building == [])
    requires !Dropped(job.input, i, job.snapshot, job.version, job.level)
    ensures var more := building + [job.input[i]];
      if job.builtSize(more) < job.maxOutputSize then Cutting(job, outputs, more, i + 1)
      else Closes(r, outputs, more) ==> Cutting(job, r, [], i + 1)
  {
    hide AllCut, Concat, Dropped, Apart;
    var more := building + [job.input[i]];
    SizeGrows(building, job.input[i], job.builtSize, job.maxOutputSize);
    assert Concat(outputs) + more == Survivors(job, i + 1);
    if job.builtSize(more) >= job.maxOutputSize && Closes(r, outputs, more) {
      StopsApart(job.input, job.stop, i + 1, job.snapshot, job.version, job.level, |Concat(outputs)|);
      var places := StopPlaces(job.input, job.stop, job.snapshot, job.version, job.level);
      CutMore(outputs, r, more, places, job.builtSize, job.maxOutputSize);
    }
  }

  lemma CutEnds(job: Job, outputs: seq<File>, building: seq<Entry>, r: seq<File>)
    requires Cutting(job, outputs, building, |job.input|)
    requires if building == [] then r == outputs else Closes(r, outputs, building)
    ensures Concat(r) == Survivors(job, |job.input|) && RightlyCut(job, r, if r == [] then 0 else |r| - 1)
  {
    hide Concat, Apart, Kept;
    StopsApart(job.input, job.stop, |job.input|, job.snapshot, job.version, job.level, |Concat(outputs)|);
    if building != [] {
      var places := StopPlaces(job.input, job.stop, job.snapshot, job.version, job.level);
      CutMore(outputs, r, building, places, job.builtSize, job.maxOutputSize);
    }
  }

  lemma SizeGrows(building: seq<Entry>, e: Entry, builtSize: seq<Entry> -> nat, maxOutputSize: nat)
    requires InSize(building, builtSize, maxOutputSize) && (building != [] ==> builtSize(building) < maxOutputSize)
    ensures InSize(building + [e], builtSize, maxOutputSize)
  {
    forall n | 0 < n < |building| + 1
      ensures builtSize((building + [e])[..n]) < maxOutputSize
    {
      if n == |building| {
        assert (building + [e])[..n] == building;
      } else {
        assert (building + [e])[..n] == building[..n];
      }
    }
  }

  /** DoCompactionWork: one pass over the merged inputs. `builtSize` and `fileSize` are the table builder's size while open
      and once finished. */
  method DoCompactionWork(c: Compaction, input: seq<Entry>, snapshot: nat,
                          builtSize: seq<Entry> -> nat, fileSize: seq<Entry> -> nat,
                          maxOutputSize: nat, nextFileNumber: nat)
    returns (outputs: seq<File>)
    requires Sorted(input) && snapshot < MAX_SEQUENCE
    requires ValidLevels(c.version) && c.AtStart() && c.NothingAsked()
    requires ValidFiles(c.grandparents) && SortedFiles(c.grandparents)
    modifies c, c.levelPtrs
    ensures Concat(outputs) == Kept(input, |input|, snapshot, c.version, c.level)
    ensures ValidFiles(outputs) && SortedFiles(outputs)
    ensures Numbered(outputs, fileSize, nextFileNumber)
    ensures RightlyCut(JobOf(c, input, snapshot, builtSize, maxOutputSize), outputs, if outputs == [] then 0 else |outputs| - 1)
  {
    hide Less, Sorted, ValidFile, SortedFiles, Dropped, Numbered, ValidFiles, Cutting, RightlyCut, Kept, Concat, Closes, ScanState;
    outputs := [];
    NoneNumbered(fileSize, nextFileNumber);
    ghost var job := JobOf(c, input, snapshot, builtSize, maxOutputSize);
    CutStarts(job);
    var building: seq<Entry> := [];  // entries of the open builder; empty when none is open
    var currentUserKey: Option<UserKey> := None;
    var lastSequenceForKey := MAX_SEQUENCE;
    ScanStarts(c, input, lastSequenceForKey);
    var i := 0;
    while i < |input|
      invariant 0 <= i <= |input|
      invariant ScanState(c, input, i, currentUserKey, lastSequenceForKey) && c.Asked(input, i)
      invariant Cutting(job, outputs, building, i)
      invariant Numbered(outputs, fileSize, nextFileNumber)
    {
      var e := input[i];
      ghost var before := outputs;
      var stop := c.ShouldStopBefore(e.key, input, i);
      if stop && building != [] {
        outputs := FinishOutput(outputs, building, fileSize, nextFileNumber);
        CutStops(job, before, building, i, outputs);
        building := [];
      }
      var drop := DecideDrop(c, input, i, currentUserKey, lastSequenceForKey, snapshot);
      currentUserKey, lastSequenceForKey := Some(e.key.user), e.key.sequence;
      before := outputs;
      if drop {
        CutSkips(job, outputs, building, i);
      } else {
        ghost var was := building;
        building := building + [e];
        if builtSize(building) >= maxOutputSize {
          outputs := FinishOutput(outputs, building, fileSize, nextFileNumber);
          building := [];
        }
        CutAdds(job, before, was, i, outputs);
      }
      i := i + 1;
    }
    ghost var before := outputs;
    if building != [] {
      outputs := FinishOutput(outputs, building, fileSize, nextFileNumber);
    }
    CutEnds(job, before, building, outputs);
    KeptSorted(input, |input|, snapshot, c.version, c.level);
    NumberedAreFramed(outputs, fileSize, nextFileNumber);
    SortedConcat(outputs);
  }

  lemma ScanStarts(c: Compaction, input: seq<Entry>, lastSequenceForKey: nat)
    requires c.AtStart()
    ensures ScanState(c, input, 0, None, lastSequenceForKey)
  {
  }

  ghost predicate Numbered(outputs: seq<File>, fileSize: seq<Entry> -> nat, nextFileNumber: nat) {
    forall i | 0 <= i < |outputs| ::
      Framed(outputs[i]) && outputs[i].number == nextFileNumber + i && outputs[i].size == fileSize(outputs[i].entries)
  }

  lemma NoneNumbered(fileSize: seq<Entry> -> nat, nextFileNumber: nat)
    ensures Numbered([], fileSize, nextFileNumber)
  {
  }

  lemma NumberedAreFramed(outputs: seq<File>, fileSize: seq<Entry> -> nat, nextFileNumber: nat)
    requires Numbered(outputs, fileSize, nextFileNumber)
    ensures forall i | 0 <= i < |outputs| :: Framed(outputs[i])
  {
  }

  /** FinishCompactionOutputFile: close the open builder as the next output. */
  method FinishOutput(outputs: seq<File>, building: seq<Entry>, fileSize: seq<Entry> -> nat, nextFileNumber: nat)
    returns (r: seq<File>)
    requires building != []
    requires Numbered(outputs, fileSize, nextFileNumber)
    ensures Numbered(r, fileSize, nextFileNumber) && Closes(r, outputs, building)
  {
    var f := File(nextFileNumber + |outputs|, fileSize(building), building[0].key,
                  building[|building| - 1].key, building);
    r := outputs + [f];
  }

  // ----- What an output costs the next compaction -----

  /** The survivor at place p. */
  lemma {:induction false} KeptAt(input: seq<Entry>, n: nat, snapshot: nat, version: Levels, level: nat, p: nat)
      returns (a: nat)
    requires n <= |input| && p < |Kept(input, n, snapshot, version, level)|
    ensures a < n && |Kept(input, a, snapshot, version, level)| == p
    ensures |Kept(input, a + 1, snapshot, version, level)| == p + 1
    ensures Kept(input, n, snapshot, version, level)[p] == input[a]
  {
    hide Dropped;
    if p == |Kept(input, n - 1, snapshot, version, level)| {
      a := n - 1;
    } else {
      a := KeptAt(input, n - 1, snapshot, version, level, p);
    }
  }

  lemma {:induction false} ConcatAt(outputs: seq<File>, j: nat)
    requires j < |outputs|
    ensures Begin(outputs, j) + |outputs[j].entries| == Begin(outputs, j + 1) <= |Concat(outputs)|
    ensures Concat(outputs)[Begin(outputs, j)..Begin(outputs, j + 1)] == outputs[j].entries
  {
    var n := |outputs| - 1;
    assert outputs[..n + 1] == outputs;
    if j < n {
      ConcatAt(outputs[..n], j);
      assert outputs[..n][..j] == outputs[..j] && outputs[..n][..j + 1] == outputs[..j + 1];
    }
  }

  /** Between two keys without a stop, files of at most `max` bytes end. */
  lemma {:induction false} FewEnd(files: seq<File>, max: nat, input: seq<Entry>, a: nat, b: nat)
    requires Sorted(input) && a <= b < |input| && forall k | a < k <= b :: !StopsBefore(files, max, input, k)
    ensures Ending(files, input[a].key, input[b].key) <= max
  {
    hide Less, StopsBefore, Ending;
    if a == b {
      NoneEnding(files, input[a].key);
    } else {
      CountedBefore(files, max, input, a, b);
      var from := CountedFrom(files, max, input, b);
      NoStop(files, max, input, b);
      LessIsTotalOrder(input[from].key, input[a].key, input[a].key);
      EndingShrinks(files, input[from].key, input[a].key, input[b].key);
    }
  }

  lemma NoStop(files: seq<File>, max: nat, input: seq<Entry>, b: nat)
    requires b < |input| && !StopsBefore(files, max, input, b)
    ensures Ending(files, input[CountedFrom(files, max, input, b)].key, input[b].key) <= max
  {
  }

  lemma {:induction false} CountedBefore(files: seq<File>, max: nat, input: seq<Entry>, a: nat, b: nat)
    requires a < b < |input| && forall k | a < k < b :: !StopsBefore(files, max, input, k)
    ensures CountedFrom(files, max, input, b) <= a
  {
    hide StopsBefore;
    if a < b - 1 {
      CountedBefore(files, max, input, a, b - 1);
    }
  }

  /** Between the first and the last entry of an output there is no stop. */
  lemma NoStopInside(job: Job, outputs: seq<File>, n: nat, j: nat, a: nat, b: nat)
    requires |job.stop| == |job.input| && n <= |outputs| && RightlyCut(job, outputs, n) && j < |outputs|
    requires a < |job.input| && |Survivors(job, a + 1)| == Begin(outputs, j) + 1
    requires b < |job.input| && |Survivors(job, b)| == Begin(outputs, j + 1) - 1
    ensures forall k | a < k <= b :: !job.stop[k]
  {
    hide Kept, InSize, Begin, Concat;
    var places := StopPlaces(job.input, job.stop, job.snapshot, job.version, job.level);
    assert CutInTime(outputs, j, places, job.builtSize, job.maxOutputSize);
    forall k | a < k <= b
      ensures !job.stop[k]
    {
      assert job.stop[k] ==> |Survivors(job, k)| in places;
      KeptGrows(job.input, a + 1, k, job.snapshot, job.version, job.level);
      KeptGrows(job.input, k, b, job.snapshot, job.version, job.level);
    }
  }

  /** MAIN: of the level below the outputs, the files that one output overlaps have no more bytes than allowed, not counting
      the last of them. */
  lemma OutputsMeetFew(files: seq<File>, max: nat, job: Job, outputs: seq<File>, n: nat, j: nat)
    requires ValidFiles(files) && SortedFiles(files) && Sorted(job.input) && job.stop == Stops(files, max, job.input)
    requires n <= |outputs| && RightlyCut(job, outputs, n) && Concat(outputs) == Survivors(job, |job.input|)
    requires ValidFiles(outputs) && j < |outputs|
    ensures Bounded(files, outputs[j].smallest, outputs[j].largest, max)
  {
    hide RightlyCut, Kept, Begin, Concat, Less, StopsBefore, Ending, Sorted, SortedFiles;
    var o := outputs[j];
    ConcatAt(outputs, j);
    assert ValidFile(o);
    var p, q := Begin(outputs, j), Begin(outputs, j + 1) - 1;
    var a := KeptAt(job.input, |job.input|, job.snapshot, job.version, job.level, p);
    var b := KeptAt(job.input, |job.input|, job.snapshot, job.version, job.level, q);
    assert o.entries[0] == Concat(outputs)[p] && o.entries[|o.entries| - 1] == Concat(outputs)[q];
    if b < a {
      KeptGrows(job.input, b + 1, a, job.snapshot, job.version, job.level);
    }
    NoStopInside(job, outputs, n, j, a, b);
    FewEnd(files, max, job.input, a, b);
    MetBounded(files, o.smallest, o.largest);
  }

  // ----- What the pass does to reads -----

  ghost function KeptSet(input: seq<Entry>, snapshot: nat, version: Levels, level: nat): set<Entry> {
    Elements(Kept(input, |input|, snapshot, version, level))
  }

  /** Entry i is a deletion marker dropped in its own right, not behind a newer entry. */
  ghost predicate MarkerDropped(input: seq<Entry>, i: nat, snapshot: nat, version: Levels, level: nat)
    requires i < |input|
  {
    !Hidden(input, i, snapshot) && Obsolete(input[i], snapshot, version, level)
  }

  /** Without marker t, the entries that stay behind would show an older value at the snapshot. */
  ghost predicate Exposes(rest: set<Entry>, t: Entry, snapshot: nat) {
    (forall n | n in rest && n.key.user == t.key.user :: !(t.key.sequence < n.key.sequence <= snapshot)) &&
    exists r :: IsNewest(rest, t.key.user, t.key.sequence, r) && r.key.kind == Value
  }

  /** Every read at a snapshot still in use has the same result before and after. */
  ghost predicate ReadsPreserved(before: set<Entry>, after: set<Entry>, snapshot: nat) {
    forall k, s: nat | s >= snapshot :: Read(before, k, s) == Read(after, k, s)
  }

  /** An entry of the input that is newest at s survives, or is a marker dropped in its own right. */
  lemma NewestSurvives(input: seq<Entry>, rest: set<Entry>, snapshot: nat, version: Levels, level: nat,
                       k: UserKey, s: nat, i: nat)
    requires Sorted(input) && s >= snapshot && i < |input|
    requires IsNewest(Elements(input) + rest, k, s, input[i])
    requires Unique(Elements(input) + rest)
    ensures !Hidden(input, i, snapshot)
    ensures MarkerDropped(input, i, snapshot, version, level) || input[i] in KeptSet(input, snapshot, version, level)
  {
    assert forall j | 0 <= j < |input| :: input[j] in Elements(input);
    KeptElements(input, |input|, snapshot, version, level, input[i]);
  }

  lemma KeptSubset(input: seq<Entry>, snapshot: nat, version: Levels, level: nat)
    ensures KeptSet(input, snapshot, version, level) <= Elements(input)
  {
    forall e | e in KeptSet(input, snapshot, version, level)
      ensures e in Elements(input)
    {
      KeptElements(input, |input|, snapshot, version, level, e);
    }
  }

  /** Behind a dropped marker nothing older of its key is kept. */
  lemma NothingOlderKept(input: seq<Entry>, i: nat, snapshot: nat, version: Levels, level: nat, e: Entry)
    requires Sorted(input) && i < |input| && MarkerDropped(input, i, snapshot, version, level)
    requires Unique(Elements(input))
    requires e in KeptSet(input, snapshot, version, level) && e.key.user == input[i].key.user
    ensures e.key.sequence > snapshot
  {
    KeptElements(input, |input|, snapshot, version, level, e);
    var j :| 0 <= j < |input| && input[j] == e && !Dropped(input, j, snapshot, version, level);
    assert j < i;
  }

  lemma ReadsPreservedIf(input: seq<Entry>, rest: set<Entry>, snapshot: nat, version: Levels, level: nat,
                         k: UserKey, s: nat)
    requires Sorted(input) && Unique(Elements(input) + rest) && s >= snapshot
    requires forall i | 0 <= i < |input| && MarkerDropped(input, i, snapshot, version, level) ::
      !Exposes(rest, input[i], snapshot)
    ensures Read(Elements(input) + rest, k, s) == Read(KeptSet(input, snapshot, version, level) + rest, k, s)
  {
    var before, after := Elements(input) + rest, KeptSet(input, snapshot, version, level) + rest;
    KeptSubset(input, snapshot, version, level);
    assert Unique(after);
    forall e | IsNewest(before, k, s, e) && Outcome(e) != None
      ensures IsNewest(after, k, s, e)
    {
      if e !in rest {
        var i :| 0 <= i < |input| && input[i] == e;
        NewestSurvives(input, rest, snapshot, version, level, k, s, i);
      }
    }
    forall e | IsNewest(after, k, s, e) && Outcome(e) != None
      ensures IsNewest(before, k, s, e)
    {
      var n := NewestExists(before, k, s, e);
      if n !in after {
        var i :| 0 <= i < |input| && input[i] == n;
        NewestSurvives(input, rest, snapshot, version, level, k, s, i);
        MarkerGone(input, rest, snapshot, version, level, k, s, i, e);
      }
    }
    SameRead(before, after, k, s);
  }

  /** If the newest entry before is a dropped marker and a value is newest after, the marker exposed it. */
  lemma MarkerGone(input: seq<Entry>, rest: set<Entry>, snapshot: nat, version: Levels, level: nat,
                   k: UserKey, s: nat, i: nat, e: Entry)
    requires Sorted(input) && Unique(Elements(input) + rest) && s >= snapshot && i < |input|
    requires IsNewest(Elements(input) + rest, k, s, input[i])
    requires MarkerDropped(input, i, snapshot, version, level)
    requires IsNewest(KeptSet(input, snapshot, version, level) + rest, k, s, e) && e.key.kind == Value
    ensures Exposes(rest, input[i], snapshot)
  {
    var t := input[i];
    assert t in Elements(input);
    KeptSubset(input, snapshot, version, level);
    assert e in Elements(input) + rest && e.key.sequence <= t.key.sequence;
    if e !in rest {
      NothingOlderKept(input, i, snapshot, version, level, e);
      assert false;
    }
    assert IsNewest(rest, k, t.key.sequence, e);
    forall n | n in rest && n.key.user == k
      ensures !(t.key.sequence < n.key.sequence <= snapshot)
    {
      assert n in Elements(input) + rest;
      assert Visible(n, k, s) ==> n.key.sequence <= t.key.sequence;
    }
  }

  lemma MarkerHides(input: seq<Entry>, rest: set<Entry>, snapshot: nat, version: Levels, level: nat, i: nat)
    requires Sorted(input) && Unique(Elements(input) + rest) && i < |input| && input[i] !in rest
    requires MarkerDropped(input, i, snapshot, version, level) && Exposes(rest, input[i], snapshot)
    ensures Read(Elements(input) + rest, input[i].key.user, snapshot) == None
  {
    var before := Elements(input) + rest;
    var t, k := input[i], input[i].key.user;
    assert t in Elements(input);
    forall x | x in before && Visible(x, k, snapshot)
      ensures x.key.sequence <= t.key.sequence
    {
      if x in Elements(input) {
        var j :| 0 <= j < |input| && input[j] == x;
        assert j >= i;
        assert j > i ==> Less(t.key, x.key);
      }
    }
    assert IsNewest(before, k, snapshot, t);
    ReadIs(before, k, snapshot, t);
  }

  lemma ResurrectedRead(input: seq<Entry>, rest: set<Entry>, snapshot: nat, version: Levels, level: nat, i: nat)
    requires Sorted(input) && Unique(Elements(input) + rest) && i < |input| && input[i] !in rest
    requires MarkerDropped(input, i, snapshot, version, level) && Exposes(rest, input[i], snapshot)
    ensures Read(KeptSet(input, snapshot, version, level) + rest, input[i].key.user, snapshot) != None
  {
    var after := KeptSet(input, snapshot, version, level) + rest;
    var t, k := input[i], input[i].key.user;
    KeptSubset(input, snapshot, version, level);
    assert Unique(after);
    var r :| IsNewest(rest, k, t.key.sequence, r) && r.key.kind == Value;
    forall x | x in after && Visible(x, k, snapshot)
      ensures x.key.sequence <= r.key.sequence
    {
      if x !in rest {
        NothingOlderKept(input, i, snapshot, version, level, x);
      } else {
        assert Visible(x, k, t.key.sequence);
      }
    }
    assert IsNewest(after, k, snapshot, r);
    ReadIs(after, k, snapshot, r);
  }

  /** MAIN: exactly when a compaction is invisible to every reader whose snapshot is still in use. The
      condition looks only at the entries left out of the inputs. */
  lemma CompactionPreservesReadsIff(input: seq<Entry>, rest: set<Entry>, snapshot: nat, version: Levels, level: nat)
    requires Sorted(input) && Elements(input) !! rest && Unique(Elements(input) + rest)
    ensures ReadsPreserved(Elements(input) + rest, KeptSet(input, snapshot, version, level) + rest, snapshot) <==>
      forall i | 0 <= i < |input| && MarkerDropped(input, i, snapshot, version, level) ::
        !Exposes(rest, input[i], snapshot)
  {
    if forall i | 0 <= i < |input| && MarkerDropped(input, i, snapshot, version, level) ::
      !Exposes(rest, input[i], snapshot)
    {
      forall k, s: nat | s >= snapshot
        ensures Read(Elements(input) + rest, k, s) == Read(KeptSet(input, snapshot, version, level) + rest, k, s)
      {
        ReadsPreservedIf(input, rest, snapshot, version, level, k, s);
      }
    } else {
      var i :| 0 <= i < |input| && MarkerDropped(input, i, snapshot, version, level) && Exposes(rest, input[i], snapshot);
      assert input[i] in Elements(input);
      MarkerHides(input, rest, snapshot, version, level, i);
      ResurrectedRead(input, rest, snapshot, version, level, i);
    }
  }

  /** Entries left out of the inputs are never older than an input entry of the same key, except in the
      levels below the output, which IsBaseLevelForKey consults. */
  ghost predicate OlderClosed(input: seq<Entry>, rest: set<Entry>, version: Levels, level: nat) {
    forall e, r | e in input && r in rest && r.key.user == e.key.user && r.key.sequence < e.key.sequence ::
      exists l, j :: level + 2 <= l < |version| && 0 <= j < |version[l]| && r in version[l][j].entries
  }

  /** MAIN: with older-entry-closed inputs no live reader can tell that the compaction happened. */
  lemma CompactionPreservesReads(input: seq<Entry>, rest: set<Entry>, snapshot: nat, version: Levels, level: nat)
    requires Sorted(input) && Elements(input) !! rest && Unique(Elements(input) + rest)
    requires ValidLevels(version) && OlderClosed(input, rest, version, level)
    ensures ReadsPreserved(Elements(input) + rest, KeptSet(input, snapshot, version, level) + rest, snapshot)
  {
    forall i | 0 <= i < |input| && MarkerDropped(input, i, snapshot, version, level)
      ensures !Exposes(rest, input[i], snapshot)
    {
      var t := input[i];
      assert t in Elements(input);
      forall r | IsNewest(rest, t.key.user, t.key.sequence, r)
        ensures false
      {
        assert r in Elements(input) + rest && t in Elements(input) + rest;
        assert r.key.sequence < t.key.sequence;
        var l, j :| level + 2 <= l < |version| && 0 <= j < |version[l]| && r in version[l][j].entries;
        FileBounds(version[l][j], r);
      }
    }
    CompactionPreservesReadsIff(input, rest, snapshot, version, level);
  }
}
