/** What installing a flush or a compaction does to the levels (db/db_impl.cc: WriteLevel0Table,
    InstallCompactionResults; db/version_set.cc: PickLevelForMemTableOutput). */
module Installs {
  import opened Entries
  import opened Files
  import opened Reads
  import opened Inputs
  import opened Compactions
  import opened Manifest

  // ----- Levels after an edit -----

  /** The files of `to` are those of `from`, less `gone`, plus `come`, in level order. */
  ghost predicate Edited(from: seq<File>, to: seq<File>, gone: set<File>, come: set<File>) {
    Ordered(to) && FileSet(to) == (FileSet(from) - gone) + come
  }

  predicate Apart(f: File, g: File) {
    Less(f.largest, g.smallest) || Less(g.largest, f.smallest)
  }

  /** Level order plus pairwise disjoint ranges is a sorted level. */
  lemma ApartIsSorted(fs: seq<File>)
    requires Ordered(fs) && ValidFiles(fs) && forall f, g | f in fs && g in fs && f != g :: Apart(f, g)
    ensures SortedFiles(fs)
  {
    hide ValidFile, Less;
    forall i, j | 0 <= i < j < |fs|
      ensures Less(fs[i].largest, fs[j].smallest)
    {
      var f, g := fs[i], fs[j];
      assert f in fs && g in fs;
      BeforeIsOrder(f, g, f);
      FileRange(f);
      FileRange(g);
      LessIsTotalOrder(g.smallest, g.largest, f.smallest);
      LessIsTotalOrder(g.largest, f.smallest, g.smallest);
      LessIsTotalOrder(f.smallest, g.smallest, f.smallest);
    }
  }

  lemma SortedIsApart(fs: seq<File>, f: File, g: File)
    requires SortedFiles(fs) && f in fs && g in fs && f != g
    ensures Apart(f, g)
  {
    hide Less;
    var i :| 0 <= i < |fs| && fs[i] == f;
    var j :| 0 <= j < |fs| && fs[j] == g;
    assert i != j;
  }

  lemma InLevelFiles(f: File, fs: seq<File>, e: Entry)
    requires f in fs && e in f.entries
    ensures e in FileEntries(fs)
  {
  }

  lemma ValidMember(fs: seq<File>, f: File)
    requires ValidFiles(fs) && f in fs
    ensures ValidFile(f)
  {
    hide ValidFile;
    var i :| 0 <= i < |fs| && fs[i] == f;
  }

  // ----- Flush -----

  /** Sequence numbers fit the 56 bits left beside the type. */
  predicate SequencesFit(files: seq<File>) {
    forall f | f in files :: f.largest.sequence <= MAX_SEQUENCE
  }

  ghost predicate AnyOverlap(files: seq<File>, smallest: UserKey, largest: UserKey) {
    exists f :: f in files && Overlaps(f, smallest, largest)
  }

  /** SomeFileOverlapsRange: linear on level 0, one binary search below. */
  method SomeFileOverlapsRange(disjoint: bool, files: seq<File>, smallest: UserKey, largest: UserKey) returns (r: bool)
    requires ValidFiles(files) && (disjoint ==> SortedFiles(files)) && SequencesFit(files)
    ensures r <==> AnyOverlap(files, smallest, largest)
  {
    hide ValidFile;
    if !disjoint {
      for i := 0 to |files|
        invariant forall j | 0 <= j < i :: !Overlaps(files[j], smallest, largest)
      {
        if Overlaps(files[i], smallest, largest) {
          return true;
        }
      }
      return false;
    }
    // The probe carries the largest tag, so it sorts before every entry of its user key.
    var index := FindFile(files, IKey(smallest, MAX_SEQUENCE, Value));
    r := index < |files| && !(largest < files[index].smallest.user);
    forall i | 0 <= i < |files|
      ensures Overlaps(files[i], smallest, largest) ==> r
    {
      assert files[i] in files;
      if index <= i {
        FileOrder(files, index, i);
      }
    }
    assert r ==> files[index] in files && Overlaps(files[index], smallest, largest);
  }

  /** The table may go one level deeper: nothing overlaps it there, and not too many bytes do in the level after that. */
  ghost predicate MayDescend(ls: Levels, level: nat, smallest: UserKey, largest: UserKey, maxOverlap: nat)
    requires level + 1 < |ls|
  {
    !AnyOverlap(ls[level + 1], smallest, largest) &&
    (level + 2 < |ls| ==> TotalFileSize(Overlapping(ls[level + 2], Some(smallest), Some(largest))) <= maxOverlap)
  }

  /** PickLevelForMemTableOutput. `maxOverlap` is MaxGrandParentOverlapBytes. */
  method PickLevelForMemTableOutput(ls: Levels, smallest: UserKey, largest: UserKey, maxOverlap: nat)
    returns (level: nat)
    requires ValidLevels(ls) && forall l | 0 <= l < NUM_LEVELS :: SequencesFit(ls[l])
    ensures level <= MAX_MEM_COMPACT_LEVEL
    ensures level > 0 ==> forall l | 0 <= l <= level :: !AnyOverlap(ls[l], smallest, largest)
    ensures AnyOverlap(ls[0], smallest, largest) ==> level == 0
    ensures !AnyOverlap(ls[0], smallest, largest) ==>
      (forall l | 0 <= l < level :: MayDescend(ls, l, smallest, largest, maxOverlap)) &&
      (level < MAX_MEM_COMPACT_LEVEL ==> !MayDescend(ls, level, smallest, largest, maxOverlap))
  {
    hide ValidFile, SortedFiles, AnyOverlap, SequencesFit;
    level := 0;
    var overlap := SomeFileOverlapsRange(false, ls[0], smallest, largest);
    if !overlap {
      while level < MAX_MEM_COMPACT_LEVEL
        invariant level <= MAX_MEM_COMPACT_LEVEL
        invariant forall l | 0 <= l <= level :: !AnyOverlap(ls[l], smallest, largest)
        invariant forall l | 0 <= l < level :: MayDescend(ls, l, smallest, largest, maxOverlap)
      {
        overlap := SomeFileOverlapsRange(true, ls[level + 1], smallest, largest);
        if overlap {
          break;
        }
        if level + 2 < NUM_LEVELS {
          var overlaps := GetOverlappingInputs(ls[level + 2], level + 2, Some(IKey(smallest, MAX_SEQUENCE, Value)),
                                               Some(IKey(largest, 0, Deletion)));
          if TotalFileSize(overlaps) > maxOverlap {
            break;
          }
        }
        level := level + 1;
      }
    }
  }

  const MAX_MEM_COMPACT_LEVEL: nat := 2

  /** f may go to the level: nothing at or above it overlaps, unless it is level 0. */
  ghost predicate FitsLevel(ls: Levels, level: nat, f: File) {
    level < |ls| && (level > 0 ==> forall l | 0 <= l <= level :: !AnyOverlap(ls[l], f.smallest.user, f.largest.user))
  }

  /** A table of newest entries with the highest number, put where nothing above overlaps it, keeps every
      order a lookup relies on. */
  lemma FlushKeepsReadable(ls: Levels, ls': Levels, level: nat, f: File)
    requires ReadableLevels(ls) && ValidFile(f) && FitsLevel(ls, level, f) && |ls'| == NUM_LEVELS
    requires forall l | 0 <= l < NUM_LEVELS && l != level :: ls'[l] == ls[l]
    requires Edited(ls[level], ls'[level], {}, {f})
    requires forall g | g in ls[0] :: g.number < f.number
    requires NewerThan(Elements(f.entries), LevelEntries(ls))
    requires level == 0 ==> forall i, j | 0 <= i < j < |ls'[0]| :: ls'[0][i].number != ls'[0][j].number
    ensures ReadableLevels(ls') && LevelEntries(ls') == LevelEntries(ls) + Elements(f.entries)
  {
    hide ValidFile, Less, NewerThan, AnyOverlap;
    AddedFiles(ls[level], ls'[level], f);
    if level > 0 {
      FlushedLevelSorted(ls[level], ls'[level], f);
    } else {
      FlushedLevel0(ls, ls'[0], f);
    }
    FlushedEntries(ls, ls', level, f);
    forall a, b | 0 <= a < b < |ls'|
      ensures NewerThan(FileEntries(ls'[a]), FileEntries(ls'[b]))
    {
      FlushedOrder(ls, ls', level, f, a, b);
    }
  }

  lemma AddedFiles(from: seq<File>, to: seq<File>, f: File)
    requires ValidFiles(from) && ValidFile(f) && Edited(from, to, {}, {f})
    ensures ValidFiles(to) && FileEntries(to) == FileEntries(from) + Elements(f.entries)
  {
    hide ValidFile, Ordered;
    forall g
      ensures g in to <==> g in from || g == f
    {
      assert g in to <==> g in FileSet(to);
      assert g in from <==> g in FileSet(from);
    }
    forall i | 0 <= i < |to|
      ensures ValidFile(to[i])
    {
      assert to[i] in to;
      if to[i] != f {
        ValidMember(from, to[i]);
      }
    }
  }

  lemma FlushedLevelSorted(from: seq<File>, to: seq<File>, f: File)
    requires ValidFiles(from) && SortedFiles(from) && ValidFiles(to) && ValidFile(f) && Edited(from, to, {}, {f})
    requires !AnyOverlap(from, f.smallest.user, f.largest.user)
    ensures SortedFiles(to)
  {
    hide ValidFile, SortedFiles;
    forall g, h | g in to && h in to && g != h
      ensures Apart(g, h)
    {
      assert g in FileSet(to) && h in FileSet(to);
      if g in from && h in from {
        SortedIsApart(from, g, h);
      }
    }
    ApartIsSorted(to);
  }

  lemma FlushedLevel0(ls: Levels, to: seq<File>, f: File)
    requires |ls| == NUM_LEVELS && NewestNumberFirst(ls[0]) && Edited(ls[0], to, {}, {f})
    requires forall g | g in ls[0] :: g.number < f.number
    requires NewerThan(Elements(f.entries), LevelEntries(ls))
    requires forall i, j | 0 <= i < j < |to| :: to[i].number != to[j].number
    ensures NewestNumberFirst(to)
  {
    hide Ordered;
    forall g, h | g in to && h in to && g.number > h.number
      ensures NewerThan(Elements(g.entries), Elements(h.entries))
    {
      assert g in FileSet(to) && h in FileSet(to);
      if g == f {
        forall e | e in h.entries
          ensures e in LevelEntries(ls)
        {
          assert ls[0] in ls;
        }
      }
    }
  }

  lemma FlushedEntries(ls: Levels, ls': Levels, level: nat, f: File)
    requires |ls| == |ls'| == NUM_LEVELS && level < NUM_LEVELS
    requires forall l | 0 <= l < NUM_LEVELS && l != level :: ls'[l] == ls[l]
    requires FileEntries(ls'[level]) == FileEntries(ls[level]) + Elements(f.entries)
    ensures LevelEntries(ls') == LevelEntries(ls) + Elements(f.entries)
  {
    hide FileEntries;
    forall e
      ensures e in LevelEntries(ls') <==> e in LevelEntries(ls) + Elements(f.entries)
    {
      InSomeLevel(ls, e);
      InSomeLevel(ls', e);
      assert e in FileEntries(ls'[level]) <==> e in FileEntries(ls[level]) || e in Elements(f.entries);
    }
  }

  lemma InSomeLevel(ls: Levels, e: Entry)
    ensures e in LevelEntries(ls) <==> exists l :: 0 <= l < |ls| && e in FileEntries(ls[l])
  {
    if e in LevelEntries(ls) {
      var l := LevelOf(ls, e);
    }
    if l :| 0 <= l < |ls| && e in FileEntries(ls[l]) {
      InLevel(ls, l, e);
    }
  }

  lemma FlushedOrder(ls: Levels, ls': Levels, level: nat, f: File, a: nat, b: nat)
    requires ReadableLevels(ls) && ValidFile(f) && FitsLevel(ls, level, f) && |ls'| == NUM_LEVELS && a < b < NUM_LEVELS
    requires forall l | 0 <= l < NUM_LEVELS && l != level :: ls'[l] == ls[l]
    requires FileEntries(ls'[level]) == FileEntries(ls[level]) + Elements(f.entries)
    requires NewerThan(Elements(f.entries), LevelEntries(ls))
    ensures NewerThan(FileEntries(ls'[a]), FileEntries(ls'[b]))
  {
    hide FileEntries, ValidFile, Less, NewestNumberFirst;
    assert NewerThan(FileEntries(ls[a]), FileEntries(ls[b]));
    forall x, y | x in FileEntries(ls'[a]) && y in FileEntries(ls'[b]) && x.key.user == y.key.user
      ensures x.key.sequence > y.key.sequence
    {
      if a == level && x !in FileEntries(ls[a]) {
        InLevel(ls, b, y);
      } else if b == level && y !in FileEntries(ls[b]) {
        NotAbove(ls[a], f, x, y);
      }
    }
  }

  /** Files that do not overlap f share no user key with it. */
  lemma NotAbove(files: seq<File>, f: File, x: Entry, y: Entry)
    requires ValidFiles(files) && ValidFile(f) && !AnyOverlap(files, f.smallest.user, f.largest.user)
    requires x in FileEntries(files) && y in f.entries
    ensures x.key.user != y.key.user
  {
    var g :| g in files && x in g.entries;
    FileBounds(f, y);
    FileBounds(g, x);
  }

  // ----- Compaction -----

  /** The levels before and after: the inputs leave, the outputs join the next level. */
  ghost predicate CompactionEdit(ls: Levels, ls': Levels, level: nat, c: CompactionInputs, outputs: seq<File>) {
    |ls| == |ls'| == NUM_LEVELS && level + 1 < NUM_LEVELS &&
    (forall l | 0 <= l < NUM_LEVELS && l != level && l != level + 1 :: ls'[l] == ls[l]) &&
    Edited(ls[level], ls'[level], FileSet(c.inputs0), {}) &&
    Edited(ls[level + 1], ls'[level + 1], FileSet(c.inputs1), FileSet(outputs))
  }

  ghost function InputEntries(c: CompactionInputs): set<Entry> {
    FileEntries(c.inputs0) + FileEntries(c.inputs1)
  }

  /** Outputs are a run of valid files holding nothing but input entries. */
  ghost predicate OutputsFrom(c: CompactionInputs, outputs: seq<File>) {
    ValidFiles(outputs) && SortedFiles(outputs) && FileEntries(outputs) <= InputEntries(c)
  }

  /** A file of the next level left out of the inputs lies wholly to one side of them. */
  lemma LeftOutBeside(ls: Levels, level: nat, c: CompactionInputs, h: File)
    requires ValidLevels(ls) && level + 1 < NUM_LEVELS && WellChosen(ls, level, c)
    requires h in ls[level + 1] && h !in c.inputs1
    ensures (forall e | e in InputEntries(c) :: Less(h.largest, e.key)) || (forall e | e in InputEntries(c) :: Less(e.key, h.smallest))
  {
    hide ValidFile, Less, Startable, OlderStaysIn;
    var files := ls[level + 1];
    var smallest, largest :| IsSmallestKey(c.inputs0, smallest) && IsLargestKey(c.inputs0, largest) &&
      c.inputs1 == Overlapping(files, Some(smallest.user), Some(largest.user));
    OverlappingIsFilter(files, Some(smallest.user), Some(largest.user), h);
    StartableInLevel(ls, level, c.inputs0);
    SomeAreValid(ls[level], c.inputs0);
    ValidMember(files, h);
    forall e | e in InputEntries(c)
      ensures h.largest.user < smallest.user ==> Less(h.largest, e.key)
      ensures h.smallest.user > largest.user ==> Less(e.key, h.smallest)
    {
      if e in FileEntries(c.inputs0) {
        InputWithin(c.inputs0, smallest, largest, e);
        UserLess(h.largest, e.key);
        UserLess(e.key, h.smallest);
      } else {
        InputBeside(files, smallest, largest, c.inputs1, h, e);
      }
    }
  }

  lemma UserLess(a: IKey, b: IKey)
    ensures a.user < b.user ==> Less(a, b)
  {
  }

  lemma InputWithin(inputs: seq<File>, smallest: IKey, largest: IKey, e: Entry)
    requires ValidFiles(inputs) && IsSmallestKey(inputs, smallest) && IsLargestKey(inputs, largest)
    requires e in FileEntries(inputs)
    ensures smallest.user <= e.key.user <= largest.user
  {
    hide ValidFile, Less, IsSmallestKey, IsLargestKey;
    RangeCovers(inputs, smallest, largest);
    var f :| f in inputs && e in f.entries;
    ValidMember(inputs, f);
    FileBounds(f, e);
  }

  lemma InputBeside(files: seq<File>, smallest: IKey, largest: IKey, inputs1: seq<File>, h: File, e: Entry)
    requires ValidFiles(files) && SortedFiles(files) && inputs1 == Overlapping(files, Some(smallest.user), Some(largest.user))
    requires h in files && h !in inputs1 && e in FileEntries(inputs1)
    ensures h.largest.user < smallest.user ==> Less(h.largest, e.key)
    ensures h.smallest.user > largest.user ==> Less(e.key, h.smallest)
  {
    hide ValidFile;
    var g :| g in inputs1 && e in g.entries;
    OverlappingIsFilter(files, Some(smallest.user), Some(largest.user), g);
    SortedIsApart(files, g, h);
    ValidMember(files, g);
    ValidMember(files, h);
    FileBounds(g, e);
    FileRange(h);
    LessIsTotalOrder(h.largest, g.smallest, e.key);
    LessIsTotalOrder(e.key, g.largest, h.smallest);
  }

  lemma CompactedNextSorted(ls: Levels, ls': Levels, level: nat, c: CompactionInputs, outputs: seq<File>)
    requires ValidLevels(ls) && CompactionEdit(ls, ls', level, c, outputs) && WellChosen(ls, level, c)
    requires OutputsFrom(c, outputs)
    ensures ValidFiles(ls'[level + 1]) && SortedFiles(ls'[level + 1])
  {
    hide ValidFile, Less, WellChosen, SortedFiles;
    var to := ls'[level + 1];
    forall f | f in to
      ensures f in outputs || (f in ls[level + 1] && f !in c.inputs1)
      ensures ValidFile(f)
    {
      assert f in FileSet(to);
      if f in outputs {
        ValidMember(outputs, f);
      } else {
        ValidMember(ls[level + 1], f);
      }
    }
    forall i | 0 <= i < |to|
      ensures ValidFile(to[i])
    {
      assert to[i] in to;
    }
    forall f, g | f in to && g in to && f != g
      ensures Apart(f, g)
    {
      if f in outputs && g in outputs {
        SortedIsApart(outputs, f, g);
      } else if f in outputs {
        OutputBeside(ls, level, c, outputs, f, g);
      } else if g in outputs {
        OutputBeside(ls, level, c, outputs, g, f);
      } else {
        SortedIsApart(ls[level + 1], f, g);
      }
    }
    ApartIsSorted(to);
  }

  lemma OutputBeside(ls: Levels, level: nat, c: CompactionInputs, outputs: seq<File>, f: File, h: File)
    requires ValidLevels(ls) && level + 1 < NUM_LEVELS && WellChosen(ls, level, c) && OutputsFrom(c, outputs)
    requires f in outputs && h in ls[level + 1] && h !in c.inputs1
    ensures Apart(f, h)
  {
    hide WellChosen, Less;
    LeftOutBeside(ls, level, c, h);
    ValidMember(outputs, f);
    var first, last := f.entries[0], f.entries[|f.entries| - 1];
    InLevelFiles(f, outputs, first);
    InLevelFiles(f, outputs, last);
  }

  /** Every order a lookup relies on survives the installation of a compaction. */
  lemma CompactionKeepsReadable(ls: Levels, ls': Levels, level: nat, c: CompactionInputs, outputs: seq<File>)
    requires ReadableLevels(ls) && Unique(LevelEntries(ls))
    requires CompactionEdit(ls, ls', level, c, outputs) && WellChosen(ls, level, c) && OutputsFrom(c, outputs)
    ensures ReadableLevels(ls')
  {
    hide ValidFile, Less, NewerThan, Startable, SortedFiles, ExactNextLevel;
    CompactedNextSorted(ls, ls', level, c, outputs);
    FewerFiles(ls[level], ls'[level], FileSet(c.inputs0));
    if level > 0 {
      FewerSorted(ls[level], ls'[level], FileSet(c.inputs0));
    } else {
      FewerNumbers(ls[0], ls'[0], FileSet(c.inputs0));
    }
    forall a, b | 0 <= a < b < |ls'|
      ensures NewerThan(FileEntries(ls'[a]), FileEntries(ls'[b]))
    {
      CompactedOrder(ls, ls', level, c, outputs, a, b);
    }
  }

  lemma FewerFiles(from: seq<File>, to: seq<File>, gone: set<File>)
    requires ValidFiles(from) && Edited(from, to, gone, {})
    ensures ValidFiles(to) && forall f :: f in to <==> f in from && f !in gone
  {
    hide ValidFile, Ordered;
    forall f
      ensures f in to <==> f in from && f !in gone
    {
      assert f in to <==> f in FileSet(to);
    }
    forall i | 0 <= i < |to|
      ensures ValidFile(to[i])
    {
      assert to[i] in to;
      ValidMember(from, to[i]);
    }
  }

  lemma FewerSorted(from: seq<File>, to: seq<File>, gone: set<File>)
    requires ValidFiles(from) && SortedFiles(from) && Edited(from, to, gone, {})
    ensures SortedFiles(to)
  {
    hide ValidFile, SortedFiles;
    FewerFiles(from, to, gone);
    forall f, g | f in to && g in to && f != g
      ensures Apart(f, g)
    {
      SortedIsApart(from, f, g);
    }
    ApartIsSorted(to);
  }

  lemma FewerNumbers(from: seq<File>, to: seq<File>, gone: set<File>)
    requires ValidFiles(from) && NewestNumberFirst(from) && Edited(from, to, gone, {})
    ensures NewestNumberFirst(to)
  {
    hide ValidFile, NewerThan, Less;
    FewerFiles(from, to, gone);
    forall i, j | 0 <= i < j < |to|
      ensures to[i].number != to[j].number
    {
      BeforeIsOrder(to[i], to[j], to[i]);
      assert to[i] in to && to[j] in to;
      var a :| 0 <= a < |from| && from[a] == to[i];
      var b :| 0 <= b < |from| && from[b] == to[j];
      assert a != b;
    }
  }

  /** An entry of a compacted level was in that level, or in an input file. */
  lemma CompactedFrom(ls: Levels, ls': Levels, level: nat, c: CompactionInputs, outputs: seq<File>, l: nat, e: Entry)
    requires CompactionEdit(ls, ls', level, c, outputs) && OutputsFrom(c, outputs) && WellChosen(ls, level, c)
    requires ValidLevels(ls) && l < NUM_LEVELS && e in FileEntries(ls'[l])
    ensures e in FileEntries(ls[l]) || (l == level + 1 && e in FileEntries(c.inputs0))
    ensures l == level ==> exists f :: f in ls[level] && f !in c.inputs0 && e in f.entries
  {
    hide ValidFile, Less, Ordered, Startable, OlderStaysIn;
    var f :| f in ls'[l] && e in f.entries;
    assert f in FileSet(ls'[l]);
    if l == level + 1 && f in outputs {
      InLevelFiles(f, outputs, e);
      if e in FileEntries(c.inputs1) {
        Inputs1InLevel(ls, level, c);
      }
    } else {
      InLevelFiles(f, ls[l], e);
    }
  }

  lemma Inputs1InLevel(ls: Levels, level: nat, c: CompactionInputs)
    requires ValidLevels(ls) && level + 1 < NUM_LEVELS && WellChosen(ls, level, c)
    ensures forall f | f in c.inputs1 :: f in ls[level + 1]
    ensures FileEntries(c.inputs1) <= FileEntries(ls[level + 1])
    ensures FileEntries(c.inputs0) <= FileEntries(ls[level])
    ensures forall f | f in c.inputs0 :: f in ls[level]
  {
    hide ValidFile, Less, OlderStaysIn;
    var smallest, largest :| IsSmallestKey(c.inputs0, smallest) && IsLargestKey(c.inputs0, largest) &&
      c.inputs1 == Overlapping(ls[level + 1], Some(smallest.user), Some(largest.user));
    forall f | f in c.inputs1
      ensures f in ls[level + 1]
    {
      OverlappingIsFilter(ls[level + 1], Some(smallest.user), Some(largest.user), f);
    }
  }

  lemma CompactedOrder(ls: Levels, ls': Levels, level: nat, c: CompactionInputs, outputs: seq<File>, a: nat, b: nat)
    requires ReadableLevels(ls) && Unique(LevelEntries(ls)) && a < b < NUM_LEVELS
    requires CompactionEdit(ls, ls', level, c, outputs) && WellChosen(ls, level, c) && OutputsFrom(c, outputs)
    ensures NewerThan(FileEntries(ls'[a]), FileEntries(ls'[b]))
  {
    hide FileEntries, ValidFile, Less, NewestNumberFirst, CompactionEdit, WellChosen, OutputsFrom, Unique, LevelEntries;
    assert |ls'| == NUM_LEVELS && level + 1 < NUM_LEVELS by {
      EditShape(ls, ls', level, c, outputs);
    }
    forall x, y | x in FileEntries(ls'[a]) && y in FileEntries(ls'[b]) && x.key.user == y.key.user
      ensures x.key.sequence > y.key.sequence
    {
      CompactedFrom(ls, ls', level, c, outputs, a, x);
      CompactedFrom(ls, ls', level, c, outputs, b, y);
      Inputs1InLevel(ls, level, c);
      var a' := if x in FileEntries(ls[a]) then a else level;
      var b' := if y in FileEntries(ls[b]) then b else level;
      if a' < b' {
        assert NewerThan(FileEntries(ls[a']), FileEntries(ls[b']));
      } else {
        assert a == a' == level && b == level + 1;
        var f :| f in ls[level] && f !in c.inputs0 && x in f.entries;
        LeftOutNewer(ls, level, c, f, x, y);
      }
    }
  }

  lemma EditShape(ls: Levels, ls': Levels, level: nat, c: CompactionInputs, outputs: seq<File>)
    requires CompactionEdit(ls, ls', level, c, outputs)
    ensures |ls| == |ls'| == NUM_LEVELS && level + 1 < NUM_LEVELS
  {
  }

  lemma LeftOutNewer(ls: Levels, level: nat, c: CompactionInputs, f: File, x: Entry, y: Entry)
    requires ValidLevels(ls) && Unique(LevelEntries(ls)) && level + 1 < NUM_LEVELS && WellChosen(ls, level, c)
    requires f in ls[level] && f !in c.inputs0 && x in f.entries && y in FileEntries(c.inputs0) && x.key.user == y.key.user
    ensures x.key.sequence > y.key.sequence
  {
    hide ValidFile, ExactNextLevel;
    var g :| g in c.inputs0 && y in g.entries;
    StartableInLevel(ls, level, c.inputs0);
    assert HoldsNewer(f, g);
    InLevelFiles(f, ls[level], x);
    InLevelFiles(g, ls[level], y);
    InLevel(ls, level, x);
    InLevel(ls, level, y);
  }

  // ----- Reads across an installation -----

  lemma ReadableShape(ls: Levels)
    requires ReadableLevels(ls)
    ensures ValidLevels(ls) && |ls| == NUM_LEVELS
  {
  }

  lemma LevelsNewer(ls: Levels, a: nat, b: nat, x: Entry, y: Entry)
    requires ReadableLevels(ls) && a < b < NUM_LEVELS && x.key.user == y.key.user
    requires x in FileEntries(ls[a]) && y in FileEntries(ls[b])
    ensures x.key.sequence > y.key.sequence
  {
    hide FileEntries, ValidFile, NewestNumberFirst;
    assert NewerThan(FileEntries(ls[a]), FileEntries(ls[b]));
  }

  lemma OneLevelOnly(ls: Levels, a: nat, b: nat, e: Entry)
    requires ReadableLevels(ls) && a < NUM_LEVELS && b < NUM_LEVELS
    requires e in FileEntries(ls[a]) && e in FileEntries(ls[b])
    ensures a == b
  {
    hide ReadableLevels, FileEntries;
    ReadableShape(ls);
    if a < b {
      LevelsNewer(ls, a, b, e, e);
    } else if b < a {
      LevelsNewer(ls, b, a, e, e);
    }
  }

  /** No entry is in two files of a level. */
  lemma OneFileOnly(ls: Levels, a: nat, f: File, g: File, e: Entry)
    requires ReadableLevels(ls) && a < NUM_LEVELS && f in ls[a] && g in ls[a] && e in f.entries && e in g.entries
    ensures f == g
  {
    hide ValidFile, SortedFiles, NewestNumberFirst, Less;
    if f != g {
      if a == 0 {
        OneLevel0File(ls[0], f, g, e);
      } else {
        SortedIsApart(ls[a], f, g);
        ValidMember(ls[a], f);
        ValidMember(ls[a], g);
        ApartShareNothing(f, g, e);
      }
    }
  }

  lemma ApartShareNothing(f: File, g: File, e: Entry)
    requires ValidFile(f) && ValidFile(g) && Apart(f, g) && e in f.entries
    ensures e !in g.entries
  {
    FileBounds(f, e);
    LessIsTotalOrder(f.largest, g.smallest, e.key);
    LessIsTotalOrder(g.largest, f.smallest, e.key);
    LessIsTotalOrder(e.key, f.largest, g.smallest);
    if e in g.entries {
      FileBounds(g, e);
    }
  }

  lemma OneLevel0File(fs: seq<File>, f: File, g: File, e: Entry)
    requires NewestNumberFirst(fs) && f in fs && g in fs && e in f.entries && e in g.entries
    ensures f == g
  {
    hide NewerThan;
    if f.number > g.number {
      NewerFile(fs, f, g, e, e);
    } else if f.number < g.number {
      NewerFile(fs, g, f, e, e);
    }
    var i :| 0 <= i < |fs| && fs[i] == f;
    var j :| 0 <= j < |fs| && fs[j] == g;
  }

  /** The entries that stay behind when the inputs leave. */
  ghost function LeftBehind(ls: Levels, c: CompactionInputs): set<Entry> {
    LevelEntries(ls) - InputEntries(c)
  }

  predicate IsInput(level: nat, c: CompactionInputs, l: nat, f: File) {
    (l == level && f in c.inputs0) || (l == level + 1 && f in c.inputs1)
  }

  lemma BehindIsInNoInput(ls: Levels, level: nat, c: CompactionInputs, l: nat, f: File, e: Entry)
    requires ReadableLevels(ls) && level + 1 < NUM_LEVELS && WellChosen(ls, level, c) && l < NUM_LEVELS
    requires f in ls[l] && e in f.entries
    ensures e in LevelEntries(ls)
    ensures e in InputEntries(c) <==> IsInput(level, c, l, f)
  {
    hide ValidFile, Less, ReadableLevels, WellChosen;
    ReadableShape(ls);
    InLevelFiles(f, ls[l], e);
    InLevel(ls, l, e);
    Inputs1InLevel(ls, level, c);
    if e in InputEntries(c) {
      var m := if e in FileEntries(c.inputs0) then level else level + 1;
      var g :| g in (if m == level then c.inputs0 else c.inputs1) && e in g.entries;
      InLevelFiles(g, ls[m], e);
      OneLevelOnly(ls, l, m, e);
      OneFileOnly(ls, l, f, g, e);
    }
    if IsInput(level, c, l, f) {
      InLevelFiles(f, if l == level && f in c.inputs0 then c.inputs0 else c.inputs1, e);
    }
  }

  lemma CompactedEntries(ls: Levels, ls': Levels, level: nat, c: CompactionInputs, outputs: seq<File>)
    requires ReadableLevels(ls) && CompactionEdit(ls, ls', level, c, outputs) && WellChosen(ls, level, c)
    ensures LevelEntries(ls') == LeftBehind(ls, c) + FileEntries(outputs)
  {
    hide ValidFile, Less, ReadableLevels, WellChosen, Ordered;
    forall e | e in LevelEntries(ls')
      ensures e in LeftBehind(ls, c) + FileEntries(outputs)
    {
      var l := LevelOf(ls', e);
      var f :| f in ls'[l] && e in f.entries;
      assert f in FileSet(ls'[l]);
      if l == level + 1 && f in outputs {
        InLevelFiles(f, outputs, e);
      } else {
        BehindIsInNoInput(ls, level, c, l, f, e);
      }
    }
    forall e | e in LeftBehind(ls, c)
      ensures e in LevelEntries(ls')
    {
      var l := LevelOf(ls, e);
      var f :| f in ls[l] && e in f.entries;
      BehindIsInNoInput(ls, level, c, l, f, e);
      StaysInLevel(ls, ls', level, c, outputs, l, f);
      InLevelFiles(f, ls'[l], e);
      InLevel(ls', l, e);
    }
    forall e | e in FileEntries(outputs)
      ensures e in LevelEntries(ls')
    {
      var f :| f in outputs && e in f.entries;
      assert f in FileSet(ls'[level + 1]);
      InLevelFiles(f, ls'[level + 1], e);
      InLevel(ls', level + 1, e);
    }
  }

  lemma StaysInLevel(ls: Levels, ls': Levels, level: nat, c: CompactionInputs, outputs: seq<File>, l: nat, f: File)
    requires CompactionEdit(ls, ls', level, c, outputs) && l < NUM_LEVELS && f in ls[l] && !IsInput(level, c, l, f)
    ensures f in ls'[l]
  {
    hide Ordered;
    assert f in FileSet(ls[l]);
    assert l == level || l == level + 1 ==> f in FileSet(ls'[l]);
  }

  /** The one thing SetupOtherInputs does not see to: no left-out file of the next level continues the
      user key at which inputs1 ends. */
  predicate NextLevelClear(ls: Levels, level: nat, c: CompactionInputs)
    requires level + 1 < |ls|
  {
    forall f, g | f in ls[level + 1] && g in c.inputs1 :: f in c.inputs1 || !IsBoundary(f, g.largest)
  }

  lemma NextLevelClosed(ls: Levels, level: nat, c: CompactionInputs)
    requires ValidLevels(ls) && level + 1 < NUM_LEVELS && WellChosen(ls, level, c) && NextLevelClear(ls, level, c)
    ensures OlderStaysIn(ls[level + 1], c.inputs1)
  {
    hide ValidFile, Less, Startable, IsBoundary;
    var files := ls[level + 1];
    var smallest, largest :| IsSmallestKey(c.inputs0, smallest) && IsLargestKey(c.inputs0, largest) &&
      c.inputs1 == Overlapping(files, Some(smallest.user), Some(largest.user));
    var x, y := OverlapIsRun(files, |files|, Some(smallest.user), Some(largest.user));
    assert files[..|files|] == files;
    if x < y {
      var last := files[y - 1];
      assert last in files[x..y] by {
        assert files[x..y][y - 1 - x] == last;
      }
      LastIsLargest(files, x, y);
      forall f | f in files
        ensures !IsBoundary(f, last.largest)
      {
        if f in c.inputs1 {
          InputIsNoBoundary(files, x, y, f);
        }
      }
      RunIsClosed(files, c.inputs1, last.largest);
    }
  }

  lemma LastIsLargest(files: seq<File>, x: nat, y: nat)
    requires ValidFiles(files) && SortedFiles(files) && x < y <= |files|
    ensures IsLargestKey(files[x..y], files[y - 1].largest)
  {
    hide ValidFile, Less;
    var run := files[x..y];
    assert run[y - 1 - x] == files[y - 1];
    forall f | f in run
      ensures AtMost(f.largest, files[y - 1].largest)
    {
      var i :| 0 <= i < |run| && run[i] == f;
      FileOrder(files, x + i, y - 1);
    }
  }

  lemma InputIsNoBoundary(files: seq<File>, x: nat, y: nat, f: File)
    requires ValidFiles(files) && SortedFiles(files) && x < y <= |files| && f in files[x..y]
    ensures !IsBoundary(f, files[y - 1].largest)
  {
    hide ValidFile;
    var i :| 0 <= i < y - x && files[x..y][i] == f;
    FileOrder(files, x + i, y - 1);
    FileRange(files[x + i]);
    LessIsTotalOrder(files[y - 1].largest, f.smallest, f.largest);
  }

  /** Inputs chosen by SetupOtherInputs are closed towards older entries, given a clear next level. */
  lemma ChosenInputsAreClosed(ls: Levels, level: nat, c: CompactionInputs, input: seq<Entry>, upper: set<Entry>)
    requires ReadableLevels(ls) && Unique(LevelEntries(ls)) && level + 1 < NUM_LEVELS
    requires WellChosen(ls, level, c) && OlderStaysIn(ls[level + 1], c.inputs1)
    requires Elements(input) == InputEntries(c) && NewerThan(upper, LevelEntries(ls))
    ensures OlderClosed(input, upper + LeftBehind(ls, c), ls, level)
  {
    hide ValidFile, Less, ReadableLevels, WellChosen, OlderStaysIn, Unique;
    forall e, r |
      e in input && r in upper + LeftBehind(ls, c) && r.key.user == e.key.user && r.key.sequence < e.key.sequence
      ensures exists l, j :: level + 2 <= l < |ls| && 0 <= j < |ls[l]| && r in ls[l][j].entries
    {
      assert e in Elements(input);
      ReadableShape(ls);
      InputsInLevels(ls, level, c, e);
      assert r in LeftBehind(ls, c);
      var l := LevelOf(ls, r);
      var f :| f in ls[l] && r in f.entries;
      BehindIsInNoInput(ls, level, c, l, f, r);
      OlderIsDeeper(ls, level, c, e, l, f, r);
      var j :| 0 <= j < |ls[l]| && ls[l][j] == f;
    }
  }

  lemma InputsInLevels(ls: Levels, level: nat, c: CompactionInputs, e: Entry)
    requires ValidLevels(ls) && level + 1 < NUM_LEVELS && WellChosen(ls, level, c) && e in InputEntries(c)
    ensures e in LevelEntries(ls)
  {
    hide ValidFile, Less, WellChosen;
    Inputs1InLevel(ls, level, c);
    InLevel(ls, if e in FileEntries(c.inputs0) then level else level + 1, e);
  }

  /** A left-out entry older than an input entry of its key can only be below the output level. */
  lemma OlderIsDeeper(ls: Levels, level: nat, c: CompactionInputs, e: Entry, l: nat, f: File, r: Entry)
    requires ReadableLevels(ls) && Unique(LevelEntries(ls)) && level + 1 < NUM_LEVELS
    requires WellChosen(ls, level, c) && OlderStaysIn(ls[level + 1], c.inputs1)
    requires e in InputEntries(c) && l < NUM_LEVELS && f in ls[l] && r in f.entries && !IsInput(level, c, l, f)
    requires r.key.user == e.key.user && r.key.sequence < e.key.sequence
    ensures l >= level + 2
  {
    hide ReadableLevels, Less, OlderStaysIn, Unique, Startable, ValidLevels, FileEntries, WellChosen;
    ReadableShape(ls);
    Inputs1InLevel(ls, level, c);
    InLevelFiles(f, ls[l], r);
    var m := if e in FileEntries(c.inputs0) then level else level + 1;
    assert e in FileEntries(ls[m]);
    if l < m {
      LevelsNewer(ls, l, m, r, e);
    } else if l == m {
      if m == level {
        LeftOutNewer(ls, level, c, f, r, e);
      } else {
        NextLeftOutNewer(ls, level, c, f, r, e);
      }
    } else if l == level + 1 {
      NextLevelApart(ls, level, c, f, r, e);
    }
  }

  lemma NextLeftOutNewer(ls: Levels, level: nat, c: CompactionInputs, f: File, x: Entry, y: Entry)
    requires ValidLevels(ls) && Unique(LevelEntries(ls)) && level + 1 < NUM_LEVELS && WellChosen(ls, level, c)
    requires OlderStaysIn(ls[level + 1], c.inputs1)
    requires f in ls[level + 1] && f !in c.inputs1 && x in f.entries && y in FileEntries(c.inputs1) && x.key.user == y.key.user
    ensures x.key.sequence > y.key.sequence
  {
    hide ValidFile, WellChosen;
    Inputs1InLevel(ls, level, c);
    var g :| g in c.inputs1 && y in g.entries;
    assert HoldsNewer(f, g);
    InLevelFiles(f, ls[level + 1], x);
    InLevelFiles(g, ls[level + 1], y);
    InLevel(ls, level + 1, x);
    InLevel(ls, level + 1, y);
  }

  /** A left-out file of the next level shares no user key with inputs0. */
  lemma NextLevelApart(ls: Levels, level: nat, c: CompactionInputs, f: File, r: Entry, e: Entry)
    requires ValidLevels(ls) && level + 1 < NUM_LEVELS && WellChosen(ls, level, c)
    requires f in ls[level + 1] && f !in c.inputs1 && r in f.entries && e in FileEntries(c.inputs0)
    ensures r.key.user != e.key.user
  {
    hide ValidFile, Less, Startable, OlderStaysIn;
    var smallest, largest :| IsSmallestKey(c.inputs0, smallest) && IsLargestKey(c.inputs0, largest) &&
      c.inputs1 == Overlapping(ls[level + 1], Some(smallest.user), Some(largest.user));
    OverlappingIsFilter(ls[level + 1], Some(smallest.user), Some(largest.user), f);
    StartableInLevel(ls, level, c.inputs0);
    SomeAreValid(ls[level], c.inputs0);
    InputWithin(c.inputs0, smallest, largest, e);
    ValidMember(ls[level + 1], f);
    FileBounds(f, r);
  }

  /** No deletion marker that the compaction drops hides a value among the entries `rest`. */
  ghost predicate NothingExposed(ls: Levels, level: nat, input: seq<Entry>, snapshot: nat, rest: set<Entry>) {
    forall i | 0 <= i < |input| && MarkerDropped(input, i, snapshot, ls, level) :: !Exposes(rest, input[i], snapshot)
  }

  /** With a clear next level the inputs are closed, so nothing is exposed. */
  lemma ClearExposesNothing(ls: Levels, level: nat, c: CompactionInputs, input: seq<Entry>, snapshot: nat, upper: set<Entry>)
    requires ReadableLevels(ls) && level + 1 < NUM_LEVELS && WellChosen(ls, level, c) && NextLevelClear(ls, level, c)
    requires Sorted(input) && Elements(input) == InputEntries(c)
    requires NewerThan(upper, LevelEntries(ls)) && Unique(upper + LevelEntries(ls))
    ensures NothingExposed(ls, level, input, snapshot, upper + LeftBehind(ls, c))
  {
    hide ValidFile, Less, ReadableLevels, WellChosen, OlderStaysIn, OlderClosed, ReadsPreserved, Sorted, MarkerDropped, Exposes;
    var rest := upper + LeftBehind(ls, c);
    assert Unique(LevelEntries(ls));
    ReadableShape(ls);
    NextLevelClosed(ls, level, c);
    ChosenInputsAreClosed(ls, level, c, input, upper);
    InputsApart(ls, level, c, input, upper);
    CompactionPreservesReads(input, rest, snapshot, ls, level);
    CompactionPreservesReadsIff(input, rest, snapshot, ls, level);
  }

  /** The input entries and the rest are what there was. */
  lemma InputsApart(ls: Levels, level: nat, c: CompactionInputs, input: seq<Entry>, upper: set<Entry>)
    requires ValidLevels(ls) && level + 1 < NUM_LEVELS && WellChosen(ls, level, c) && Elements(input) == InputEntries(c)
    requires NewerThan(upper, LevelEntries(ls)) && Unique(upper + LevelEntries(ls))
    ensures Elements(input) + (upper + LeftBehind(ls, c)) == upper + LevelEntries(ls)
    ensures Elements(input) !! upper + LeftBehind(ls, c) && Unique(Elements(input) + (upper + LeftBehind(ls, c)))
  {
    hide ValidFile, Less, WellChosen, ValidLevels;
    forall e | e in InputEntries(c)
      ensures e in LevelEntries(ls) && e !in upper + LeftBehind(ls, c)
    {
      InputsInLevels(ls, level, c, e);
    }
    assert Elements(input) + (upper + LeftBehind(ls, c)) == upper + LevelEntries(ls);
  }

  /** MAIN: picking inputs as SetupOtherInputs does, running DoCompactionWork on their merge and installing the outputs
      leaves every read at a snapshot still in use unchanged if and only if no marker dropped exposes a value left
      behind. `upper` is what the memtables hold. */
  lemma InstallPreservesReadsIff(ls: Levels, ls': Levels, level: nat, c: CompactionInputs, input: seq<Entry>,
                                 outputs: seq<File>, snapshot: nat, upper: set<Entry>)
    requires ReadableLevels(ls) && CompactionEdit(ls, ls', level, c, outputs) && WellChosen(ls, level, c)
    requires Sorted(input) && Elements(input) == InputEntries(c)
    requires Concat(outputs) == Kept(input, |input|, snapshot, ls, level)
    requires NewerThan(upper, LevelEntries(ls)) && Unique(upper + LevelEntries(ls))
    ensures ReadsPreserved(upper + LevelEntries(ls), upper + LevelEntries(ls'), snapshot) <==>
      NothingExposed(ls, level, input, snapshot, upper + LeftBehind(ls, c))
  {
    hide ValidFile, Less, ReadableLevels, WellChosen, CompactionEdit, ReadsPreserved, Sorted, MarkerDropped, Exposes;
    EditShape(ls, ls', level, c, outputs);
    ReadableShape(ls);
    var rest := upper + LeftBehind(ls, c);
    InputsApart(ls, level, c, input, upper);
    CompactedEntries(ls, ls', level, c, outputs);
    ConcatElements(outputs);
    assert KeptSet(input, snapshot, ls, level) + rest == upper + LevelEntries(ls');
    CompactionPreservesReadsIff(input, rest, snapshot, ls, level);
  }

  /** Installing the outputs adds nothing. */
  lemma InstalledFewer(ls: Levels, ls': Levels, level: nat, c: CompactionInputs, input: seq<Entry>, outputs: seq<File>,
                       snapshot: nat)
    requires ReadableLevels(ls) && CompactionEdit(ls, ls', level, c, outputs) && WellChosen(ls, level, c)
    requires Elements(input) == InputEntries(c) && Concat(outputs) == Kept(input, |input|, snapshot, ls, level)
    ensures LevelEntries(ls') <= LevelEntries(ls)
  {
    hide ValidFile, Less, ReadableLevels, WellChosen, CompactionEdit, MarkerDropped, FileEntries;
    EditShape(ls, ls', level, c, outputs);
    ReadableShape(ls);
    CompactedEntries(ls, ls', level, c, outputs);
    ConcatElements(outputs);
    KeptSubset(input, snapshot, ls, level);
    forall e | e in InputEntries(c)
      ensures e in LevelEntries(ls)
    {
      InputsInLevels(ls, level, c, e);
    }
  }

  /** MAIN: with a clear next level, every such read is unchanged. */
  lemma InstallPreservesReads(ls: Levels, ls': Levels, level: nat, c: CompactionInputs, input: seq<Entry>,
                              outputs: seq<File>, snapshot: nat, upper: set<Entry>)
    requires ReadableLevels(ls) && CompactionEdit(ls, ls', level, c, outputs) && WellChosen(ls, level, c)
    requires NextLevelClear(ls, level, c)
    requires Sorted(input) && Elements(input) == InputEntries(c)
    requires Concat(outputs) == Kept(input, |input|, snapshot, ls, level)
    requires NewerThan(upper, LevelEntries(ls)) && Unique(upper + LevelEntries(ls))
    ensures ReadsPreserved(upper + LevelEntries(ls), upper + LevelEntries(ls'), snapshot)
  {
    hide Less, ReadableLevels, WellChosen, CompactionEdit, ReadsPreserved, Sorted, NothingExposed, NextLevelClear;
    EditShape(ls, ls', level, c, outputs);
    ClearExposesNothing(ls, level, c, input, snapshot, upper);
    InstallPreservesReadsIff(ls, ls', level, c, input, outputs, snapshot, upper);
  }
}
