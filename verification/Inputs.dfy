/** Choosing the input files of a compaction (db/version_set.cc: GetOverlappingInputs,
    AddBoundaryInputs, SetupOtherInputs, PickCompaction, CompactRange). */
module Inputs {
  import opened Entries
  import opened Files

  // ----- Overlap with a user-key range; an absent bound is unbounded -----

  predicate Hits(f: File, begin: Option<UserKey>, end: Option<UserKey>) {
    !(begin.Some? && f.largest.user < begin.value) && !(end.Some? && f.smallest.user > end.value)
  }

  /** The files that overlap the range, in the order of the level. */
  function Overlapping(files: seq<File>, begin: Option<UserKey>, end: Option<UserKey>): seq<File> {
    if files == [] then []
    else
      Overlapping(files[..|files| - 1], begin, end) +
      if Hits(files[|files| - 1], begin, end) then [files[|files| - 1]] else []
  }

  lemma {:induction false} OverlappingIsFilter(files: seq<File>, begin: Option<UserKey>, end: Option<UserKey>, f: File)
    ensures f in Overlapping(files, begin, end) <==> f in files && Hits(f, begin, end)
  {
    if files != [] {
      OverlappingIsFilter(files[..|files| - 1], begin, end, f);
      assert files == files[..|files| - 1] + [files[|files| - 1]];
    }
  }

  predicate Within(f: File, begin: Option<UserKey>, end: Option<UserKey>) {
    !(begin.Some? && f.smallest.user < begin.value) && !(end.Some? && f.largest.user > end.value)
  }

  /** No overlapping file sticks out of the range: nothing is left to pull in. */
  predicate Saturated(files: seq<File>, begin: Option<UserKey>, end: Option<UserKey>) {
    forall f | f in files && Hits(f, begin, end) :: Within(f, begin, end)
  }

  predicate WiderOrEqual(wide: (Option<UserKey>, Option<UserKey>), narrow: (Option<UserKey>, Option<UserKey>)) {
    (wide.0.Some? <==> narrow.0.Some?) && (wide.1.Some? <==> narrow.1.Some?) &&
    (wide.0.Some? ==> wide.0.value <= narrow.0.value) && (wide.1.Some? ==> wide.1.value >= narrow.1.value)
  }

  // ----- GetOverlappingInputs -----

  /** How many files start before the range, plus how many end after it: what a restart uses up. */
  ghost function Outside(files: seq<File>, begin: Option<UserKey>, end: Option<UserKey>): nat {
    if files == [] then 0
    else
      Outside(files[..|files| - 1], begin, end) +
      (if begin.Some? && files[|files| - 1].smallest.user < begin.value then 1 else 0) +
      (if end.Some? && files[|files| - 1].largest.user > end.value then 1 else 0)
  }

  lemma {:induction false} WideningUsesUp(files: seq<File>, begin: Option<UserKey>, end: Option<UserKey>,
                                          begin': Option<UserKey>, end': Option<UserKey>, i: nat)
    requires WiderOrEqual((begin', end'), (begin, end))
    ensures Outside(files, begin', end') <= Outside(files, begin, end)
    ensures i < |files| && begin.Some? && files[i].smallest.user < begin.value && begin' == Some(files[i].smallest.user) ==>
      Outside(files, begin', end') < Outside(files, begin, end)
    ensures i < |files| && end.Some? && files[i].largest.user > end.value && end' == Some(files[i].largest.user) ==>
      Outside(files, begin', end') < Outside(files, begin, end)
  {
    if files != [] {
      WideningUsesUp(files[..|files| - 1], begin, end, begin', end', i);
      assert i < |files| - 1 ==> files[..|files| - 1][i] == files[i];
    }
  }

  /** The files overlapping [userBegin, userEnd]: the asked range, which only level 0 may widen. */
  ghost predicate FoundIn(files: seq<File>, level: nat, begin: Option<IKey>, end: Option<IKey>, inputs: seq<File>,
                          userBegin: Option<UserKey>, userEnd: Option<UserKey>) {
    WiderOrEqual((userBegin, userEnd), (UserOf(begin), UserOf(end))) &&
    inputs == Overlapping(files, userBegin, userEnd) &&
    (level == 0 ==> Saturated(files, userBegin, userEnd) && Least(files, begin, end, userBegin, userEnd)) &&
    (level > 0 ==> (userBegin, userEnd) == (UserOf(begin), UserOf(end)))
  }

  /** Every range that covers the one asked for and out of which no overlapping file sticks covers this one. */
  ghost predicate Least(files: seq<File>, begin: Option<IKey>, end: Option<IKey>, userBegin: Option<UserKey>,
                        userEnd: Option<UserKey>) {
    forall b, e | WiderOrEqual((b, e), (UserOf(begin), UserOf(end))) && Saturated(files, b, e) ::
      WiderOrEqual((b, e), (userBegin, userEnd))
  }

  /** What GetOverlappingInputs finds; there is only one such list. */
  ghost predicate Found(files: seq<File>, level: nat, begin: Option<IKey>, end: Option<IKey>, inputs: seq<File>) {
    exists b, e :: FoundIn(files, level, begin, end, inputs, b, e)
  }

  lemma FoundIsUnique(files: seq<File>, level: nat, begin: Option<IKey>, end: Option<IKey>, x: seq<File>, y: seq<File>)
    requires Found(files, level, begin, end, x) && Found(files, level, begin, end, y)
    ensures x == y
  {
    hide Overlapping, Saturated;
    var b, e :| FoundIn(files, level, begin, end, x, b, e);
    var b', e' :| FoundIn(files, level, begin, end, y, b', e');
    assert level == 0 ==> WiderOrEqual((b, e), (b', e')) && WiderOrEqual((b', e'), (b, e));
  }

  /** A file that overlaps the range and sticks out of it is inside every such range. */
  lemma LeastGrows(files: seq<File>, begin: Option<IKey>, end: Option<IKey>, ub: Option<UserKey>, ue: Option<UserKey>, f: File)
    requires Least(files, begin, end, ub, ue) && f in files && Hits(f, ub, ue)
    ensures ub.Some? && f.smallest.user < ub.value ==> Least(files, begin, end, Some(f.smallest.user), ue)
    ensures ue.Some? && f.largest.user > ue.value ==> Least(files, begin, end, ub, Some(f.largest.user))
  {
    forall b, e | WiderOrEqual((b, e), (UserOf(begin), UserOf(end))) && Saturated(files, b, e)
      ensures Hits(f, b, e) && Within(f, b, e)
    {
      assert WiderOrEqual((b, e), (ub, ue));
    }
  }

  /** Version::GetOverlappingInputs. On level 0 the range grows with every file found and the scan
      restarts, until nothing sticks out. */
  method GetOverlappingInputs(files: seq<File>, level: nat, begin: Option<IKey>, end: Option<IKey>)
    returns (inputs: seq<File>)
    requires ValidFiles(files)
    ensures Found(files, level, begin, end, inputs)
  {
    hide Less, Sorted, Least;
    StartsLeast(files, begin, end);
    inputs := [];
    var ub, ue := UserOf(begin), UserOf(end);
    var i := 0;
    while i < |files|
      invariant 0 <= i <= |files|
      invariant WiderOrEqual((ub, ue), (UserOf(begin), UserOf(end)))
      invariant inputs == Overlapping(files[..i], ub, ue)
      invariant level == 0 ==> forall j | 0 <= j < i && Hits(files[j], ub, ue) :: Within(files[j], ub, ue)
      invariant Least(files, begin, end, ub, ue)
      invariant level > 0 ==> (ub, ue) == (UserOf(begin), UserOf(end))
      decreases Outside(files, ub, ue), |files| - i
    {
      var f := files[i];
      assert files[..i + 1][..i] == files[..i];
      i := i + 1;
      if ub.Some? && f.largest.user < ub.value {
      } else if ue.Some? && f.smallest.user > ue.value {
      } else {
        inputs := inputs + [f];
        if level == 0 {
          FileRange(f);
          LeastGrows(files, begin, end, ub, ue, f);
          if ub.Some? && f.smallest.user < ub.value {
            WideningUsesUp(files, ub, ue, Some(f.smallest.user), ue, i - 1);
            ub := Some(f.smallest.user);
            inputs := [];
            i := 0;
          } else if ue.Some? && f.largest.user > ue.value {
            WideningUsesUp(files, ub, ue, ub, Some(f.largest.user), i - 1);
            ue := Some(f.largest.user);
            inputs := [];
            i := 0;
          }
        }
      }
    }
    assert files[..|files|] == files;
    assert FoundIn(files, level, begin, end, inputs, ub, ue);
  }

  lemma StartsLeast(files: seq<File>, begin: Option<IKey>, end: Option<IKey>)
    ensures Least(files, begin, end, UserOf(begin), UserOf(end))
  {
  }

  function UserOf(key: Option<IKey>): Option<UserKey> {
    if key.Some? then Some(key.value.user) else None
  }

  // ----- Boundary files -----

  ghost predicate IsLargestKey(files: seq<File>, key: IKey) {
    (exists f :: f in files && f.largest == key) && forall f | f in files :: AtMost(f.largest, key)
  }

  /** FindLargestKey; None stands for its result false. */
  method FindLargestKey(files: seq<File>) returns (r: Option<IKey>)
    ensures r.None? <==> files == []
    ensures r.Some? ==> IsLargestKey(files, r.value)
  {
    if files == [] {
      return None;
    }
    var largest := files[0].largest;
    for i := 1 to |files|
      invariant IsLargestKey(files[..i], largest)
    {
      LessIsTotalOrder(largest, files[i].largest, largest);
      forall f | f in files[..i + 1]
        ensures Less(largest, files[i].largest) ==> AtMost(f.largest, files[i].largest)
      {
        LessIsTotalOrder(files[i].largest, f.largest, largest);
        LessIsTotalOrder(largest, files[i].largest, f.largest);
        assert f in files[..i] || f == files[i];
      }
      assert files[i] in files[..i + 1];
      if Less(largest, files[i].largest) {
        largest := files[i].largest;
      }
    }
    assert files[..|files|] == files;
    r := Some(largest);
  }

  /** f continues the user key at which the chosen files end. */
  predicate IsBoundary(f: File, largest: IKey) {
    Less(largest, f.smallest) && f.smallest.user == largest.user
  }

  method FindSmallestBoundaryFile(levelFiles: seq<File>, largest: IKey) returns (r: Option<File>)
    ensures r.None? ==> forall f | f in levelFiles :: !IsBoundary(f, largest)
    ensures r.Some? ==> r.value in levelFiles && IsBoundary(r.value, largest)
    ensures r.Some? ==> forall f | f in levelFiles && IsBoundary(f, largest) :: AtMost(r.value.smallest, f.smallest)
  {
    r := None;
    for i := 0 to |levelFiles|
      invariant r.None? ==> forall j | 0 <= j < i :: !IsBoundary(levelFiles[j], largest)
      invariant r.Some? ==> r.value in levelFiles && IsBoundary(r.value, largest)
      invariant r.Some? ==> forall j | 0 <= j < i && IsBoundary(levelFiles[j], largest) ::
        AtMost(r.value.smallest, levelFiles[j].smallest)
    {
      var f := levelFiles[i];
      if IsBoundary(f, largest) {
        if r.None? || Less(f.smallest, r.value.smallest) {
          forall j | 0 <= j < i && IsBoundary(levelFiles[j], largest)
            ensures AtMost(f.smallest, levelFiles[j].smallest)
          {
            if r.Some? {
              LessIsTotalOrder(levelFiles[j].smallest, f.smallest, r.value.smallest);
            }
          }
          LessIsTotalOrder(f.smallest, f.smallest, f.smallest);
          r := Some(f);
        }
      }
    }
  }

  /** How many files start after the key: what AddBoundaryInputs uses up. */
  ghost function StartingAfter(files: seq<File>, key: IKey): nat {
    if files == [] then 0
    else StartingAfter(files[..|files| - 1], key) + if Less(key, files[|files| - 1].smallest) then 1 else 0
  }

  lemma {:induction false} AdvancingUsesUp(files: seq<File>, key: IKey, f: File)
    requires ValidFile(f) && Less(key, f.smallest)
    ensures StartingAfter(files, f.largest) <= StartingAfter(files, key)
    ensures f in files ==> StartingAfter(files, f.largest) < StartingAfter(files, key)
  {
    FileRange(f);
    if files != [] {
      var last := files[|files| - 1];
      AdvancingUsesUp(files[..|files| - 1], key, f);
      assert f in files ==> f in files[..|files| - 1] || f == last;
      LessIsTotalOrder(key, f.smallest, last.smallest);
      LessIsTotalOrder(f.largest, last.smallest, f.smallest);
    }
  }

  /** A contiguous run of the level's files. */
  ghost predicate IsRun(levelFiles: seq<File>, files: seq<File>) {
    exists a, b :: 0 <= a < b <= |levelFiles| && files == levelFiles[a..b]
  }

  /** The file AddBoundaryInputs appends next. */
  ghost predicate Continues(levelFiles: seq<File>, files: seq<File>, f: File) {
    exists key :: IsLargestKey(files, key) && f in levelFiles && IsBoundary(f, key) &&
      forall g | g in levelFiles && IsBoundary(g, key) :: AtMost(f.smallest, g.smallest)
  }

  /** From `files` to `r`, one continuing file at a time, until there is none. */
  ghost predicate Chained(levelFiles: seq<File>, files: seq<File>, r: seq<File>) {
    Chaining(levelFiles, files, r) && forall key, f | IsLargestKey(r, key) && f in levelFiles :: !IsBoundary(f, key)
  }

  ghost predicate Chaining(levelFiles: seq<File>, files: seq<File>, r: seq<File>) {
    files <= r && forall n | |files| <= n < |r| :: Continues(levelFiles, r[..n], r[n])
  }

  lemma ChainGrows(levelFiles: seq<File>, files: seq<File>, r: seq<File>, key: IKey, f: File)
    requires Chaining(levelFiles, files, r) && IsLargestKey(r, key) && f in levelFiles && IsBoundary(f, key)
    requires forall g | g in levelFiles && IsBoundary(g, key) :: AtMost(f.smallest, g.smallest)
    ensures Chaining(levelFiles, files, r + [f])
  {
    hide Less, IsLargestKey;
    var more := r + [f];
    assert Continues(levelFiles, r, f);
    forall n | |files| <= n < |more|
      ensures Continues(levelFiles, more[..n], more[n])
    {
      assert more[..n] == if n < |r| then r[..n] else r;
    }
  }

  lemma ChainStarts(levelFiles: seq<File>, files: seq<File>)
    ensures Chaining(levelFiles, files, files)
  {
  }

  lemma ChainEnds(levelFiles: seq<File>, files: seq<File>, r: seq<File>, key: IKey)
    requires Chaining(levelFiles, files, r) && IsLargestKey(r, key) && forall f | f in levelFiles :: !IsBoundary(f, key)
    ensures Chained(levelFiles, files, r)
  {
    hide Less, Chaining, IsLargestKey;
    forall k | IsLargestKey(r, k)
      ensures k == key
    {
      LargestIsUnique(r, k, key);
    }
  }

  lemma LargestIsUnique(files: seq<File>, k: IKey, l: IKey)
    requires IsLargestKey(files, k) && IsLargestKey(files, l)
    ensures k == l
  {
    LessIsTotalOrder(k, l, k);
  }

  /** AddBoundaryInputs: append the file that continues the last user key, until none does. */
  method AddBoundaryInputs(levelFiles: seq<File>, compactionFiles: seq<File>) returns (r: seq<File>)
    requires ValidFiles(levelFiles)
    ensures compactionFiles <= r && forall f | f in r[|compactionFiles|..] :: f in levelFiles
    ensures compactionFiles != [] ==>
      exists key :: IsLargestKey(r, key) && forall f | f in levelFiles :: !IsBoundary(f, key)
    ensures compactionFiles == [] ==> r == []
    ensures compactionFiles != [] ==> Chained(levelFiles, compactionFiles, r)
    ensures SortedFiles(levelFiles) && IsRun(levelFiles, compactionFiles) ==> IsRun(levelFiles, r)
    ensures (forall key, f | IsLargestKey(compactionFiles, key) && f in levelFiles :: !IsBoundary(f, key)) ==>
      r == compactionFiles
  {
    hide Chaining, Chained, Less, ValidFile, IsLargestKey, IsRun, SortedFiles;
    r := compactionFiles;
    ChainStarts(levelFiles, compactionFiles);
    var largest := FindLargestKey(compactionFiles);
    if largest.None? {
      return;
    }
    var key := largest.value;
    var searching := true;
    while searching
      invariant compactionFiles <= r && forall f | f in r[|compactionFiles|..] :: f in levelFiles
      invariant IsLargestKey(r, key)
      invariant !searching ==> forall f | f in levelFiles :: !IsBoundary(f, key)
      invariant SortedFiles(levelFiles) && IsRun(levelFiles, compactionFiles) ==> IsRun(levelFiles, r)
      invariant Chaining(levelFiles, compactionFiles, r)
      invariant r == compactionFiles || exists k, f :: IsLargestKey(compactionFiles, k) && f in levelFiles && IsBoundary(f, k)
      decreases searching, StartingAfter(levelFiles, key)
    {
      var f := FindSmallestBoundaryFile(levelFiles, key);
      if f.Some? {
        AdvancingUsesUp(levelFiles, key, f.value);
        LargestAdvances(r, key, f.value);
        if SortedFiles(levelFiles) && IsRun(levelFiles, compactionFiles) {
          RunGrows(levelFiles, r, key, f.value);
        }
        ChainGrows(levelFiles, compactionFiles, r, key, f.value);
        r := r + [f.value];
        key := f.value.largest;
      } else {
        searching := false;
      }
    }
    ChainEnds(levelFiles, compactionFiles, r, key);
  }

  lemma LargestAdvances(files: seq<File>, key: IKey, f: File)
    requires IsLargestKey(files, key) && ValidFile(f) && Less(key, f.smallest)
    ensures IsLargestKey(files + [f], f.largest)
  {
    FileRange(f);
    forall g | g in files + [f]
      ensures AtMost(g.largest, f.largest)
    {
      LessIsTotalOrder(key, f.smallest, f.largest);
      LessIsTotalOrder(f.largest, g.largest, key);
      LessIsTotalOrder(key, f.largest, g.largest);
      LessIsTotalOrder(f.largest, g.largest, f.largest);
      LessIsTotalOrder(f.largest, key, f.smallest);
    }
    assert (files + [f])[|files|] == f;
  }

  /** Order of two files of a sorted level by position. */
  lemma FileOrder(files: seq<File>, i: nat, j: nat)
    requires ValidFiles(files) && SortedFiles(files) && i <= j < |files|
    ensures AtMost(files[i].smallest, files[j].smallest) && AtMost(files[i].largest, files[j].largest)
    ensures files[i].smallest.user <= files[i].largest.user
    ensures i < j ==> Less(files[i].smallest, files[j].smallest) && files[i].largest.user <= files[j].smallest.user
  {
    FileRange(files[i]);
    FileRange(files[j]);
    if i < j {
      assert Less(files[i].largest, files[j].smallest);
      LessIsTotalOrder(files[i].smallest, files[i].largest, files[j].smallest);
      LessIsTotalOrder(files[i].largest, files[j].smallest, files[j].largest);
      LessIsTotalOrder(files[j].smallest, files[i].smallest, files[j].smallest);
      LessIsTotalOrder(files[j].largest, files[i].largest, files[j].largest);
    } else {
      LessIsTotalOrder(files[i].smallest, files[i].smallest, files[i].smallest);
      LessIsTotalOrder(files[i].largest, files[i].largest, files[i].largest);
    }
  }

  /** The boundary file found is the very next file of the level. */
  lemma RunGrows(levelFiles: seq<File>, files: seq<File>, key: IKey, f: File)
    requires ValidFiles(levelFiles) && SortedFiles(levelFiles) && IsRun(levelFiles, files)
    requires IsLargestKey(files, key) && f in levelFiles && IsBoundary(f, key)
    requires forall g | g in levelFiles && IsBoundary(g, key) :: AtMost(f.smallest, g.smallest)
    ensures IsRun(levelFiles, files + [f])
  {
    var a, b :| 0 <= a < b <= |levelFiles| && files == levelFiles[a..b];
    var i :| 0 <= i < |levelFiles| && levelFiles[i] == f;
    assert i == b by {
      RunLargest(levelFiles, a, b, key);
      BoundaryIsNext(levelFiles, b, i);
    }
    RunAppend(levelFiles, files, a, b);
  }

  lemma RunAppend(levelFiles: seq<File>, files: seq<File>, a: nat, b: nat)
    requires a < b < |levelFiles| && files == levelFiles[a..b]
    ensures IsRun(levelFiles, files + [levelFiles[b]])
  {
    assert files + [levelFiles[b]] == levelFiles[a..b + 1];
  }

  lemma BoundaryIsNext(levelFiles: seq<File>, b: nat, i: nat)
    requires ValidFiles(levelFiles) && SortedFiles(levelFiles) && 0 < b <= |levelFiles| && i < |levelFiles|
    requires IsBoundary(levelFiles[i], levelFiles[b - 1].largest)
    requires forall g | g in levelFiles && IsBoundary(g, levelFiles[b - 1].largest) :: AtMost(levelFiles[i].smallest, g.smallest)
    ensures i == b
  {
    var key := levelFiles[b - 1].largest;
    assert b < |levelFiles| ==> levelFiles[b] in levelFiles && Less(key, levelFiles[b].smallest);
    if i < b {
      FileOrder(levelFiles, i, b - 1);
      FileRange(levelFiles[i]);
      LessIsTotalOrder(key, levelFiles[i].smallest, levelFiles[i].largest);
      assert false;
    } else if b < i {
      FileOrder(levelFiles, b, i);
      assert false;
    }
  }

  lemma RunLargest(levelFiles: seq<File>, a: nat, b: nat, key: IKey)
    requires ValidFiles(levelFiles) && SortedFiles(levelFiles) && a < b <= |levelFiles|
    requires IsLargestKey(levelFiles[a..b], key)
    ensures key == levelFiles[b - 1].largest
  {
    var last := levelFiles[b - 1];
    assert last == levelFiles[a..b][b - 1 - a];
    var f :| f in levelFiles[a..b] && f.largest == key;
    var i :| a <= i < b && levelFiles[i] == f;
    FileRange(last);
    LessIsTotalOrder(f.largest, last.smallest, last.largest);
    LessIsTotalOrder(f.largest, last.largest, f.largest);
  }

  // ----- The range of a set of files -----

  ghost predicate IsSmallestKey(files: seq<File>, key: IKey) {
    (exists f :: f in files && f.smallest == key) && forall f | f in files :: AtMost(key, f.smallest)
  }

  /** VersionSet::GetRange. */
  method GetRange(files: seq<File>) returns (smallest: IKey, largest: IKey)
    requires files != []
    ensures IsSmallestKey(files, smallest) && IsLargestKey(files, largest)
  {
    smallest := files[0].smallest;
    for i := 1 to |files|
      invariant IsSmallestKey(files[..i], smallest)
    {
      SmallestOfMore(files[..i], smallest, files[i]);
      assert files[..i + 1] == files[..i] + [files[i]];
      if Less(files[i].smallest, smallest) {
        smallest := files[i].smallest;
      }
    }
    assert files[..|files|] == files;
    var l := FindLargestKey(files);
    largest := l.value;
  }

  lemma SmallestOfMore(files: seq<File>, key: IKey, f: File)
    requires IsSmallestKey(files, key)
    ensures IsSmallestKey(files + [f], if Less(f.smallest, key) then f.smallest else key)
  {
    forall g | g in files && Less(f.smallest, key)
      ensures AtMost(f.smallest, g.smallest)
    {
      LessIsTotalOrder(g.smallest, f.smallest, key);
    }
    LessIsTotalOrder(f.smallest, f.smallest, f.smallest);
    assert (files + [f])[|files|] == f;
  }

  /** The user keys of the chosen files lie in the range GetRange reports. */
  lemma RangeCovers(files: seq<File>, smallest: IKey, largest: IKey)
    requires ValidFiles(files) && IsSmallestKey(files, smallest) && IsLargestKey(files, largest)
    ensures forall f | f in files :: smallest.user <= f.smallest.user <= f.largest.user <= largest.user
    ensures forall f | f in files :: Hits(f, Some(smallest.user), Some(largest.user))
  {
    forall f | f in files
      ensures smallest.user <= f.smallest.user <= f.largest.user <= largest.user
    {
      FileRange(f);
    }
  }

  function TotalFileSize(files: seq<File>): nat {
    if files == [] then 0 else TotalFileSize(files[..|files| - 1]) + files[|files| - 1].size
  }

  lemma {:induction false} TotalIsSum(a: seq<File>, b: seq<File>, f: File)
    ensures TotalFileSize([]) == 0 && TotalFileSize([f]) == f.size
    ensures TotalFileSize(a + b) == TotalFileSize(a) + TotalFileSize(b)
  {
    assert [f][..0] == [];
    if b == [] {
      assert a + b == a;
    } else {
      TotalIsSum(a, b[..|b| - 1], f);
      assert (a + b)[..|a + b| - 1] == a + b[..|b| - 1];
    }
  }

  /** A file overlaps a range if they share a user key. */
  lemma HitsSharesKey(f: File, begin: Option<UserKey>, end: Option<UserKey>)
    requires f.smallest.user <= f.largest.user && (begin.Some? && end.Some? ==> begin.value <= end.value)
    ensures Hits(f, begin, end) <==>
      exists k: UserKey :: f.smallest.user <= k <= f.largest.user && InRange(k, begin, end)
  {
    if Hits(f, begin, end) {
      var k := if begin.Some? && begin.value > f.smallest.user then begin.value else f.smallest.user;
      assert InRange(k, begin, end);
    }
  }

  predicate InRange(k: UserKey, begin: Option<UserKey>, end: Option<UserKey>) {
    (begin.Some? ==> begin.value <= k) && (end.Some? ==> k <= end.value)
  }

  // ----- What a good choice is -----

  /** Of every user key they share, f holds the newer entries. */
  ghost predicate HoldsNewer(f: File, g: File) {
    forall e, x | e in f.entries && x in g.entries && e.key.user == x.key.user :: Less(e.key, x.key)
  }

  /** A left-out file of the level never holds an older entry of a user key that is being compacted. */
  ghost predicate OlderStaysIn(levelFiles: seq<File>, inputs: seq<File>) {
    forall f, g | f in levelFiles && f !in inputs && g in inputs :: HoldsNewer(f, g)
  }

  /** What SetupOtherInputs may assume about the files handed to it. */
  ghost predicate Startable(ls: Levels, level: nat, inputs: seq<File>)
    requires level < |ls|
  {
    inputs != [] && (forall f | f in inputs :: f in ls[level]) &&
    (level > 0 ==> IsRun(ls[level], inputs)) &&
    (level == 0 ==> exists b, e :: inputs == Overlapping(ls[0], b, e) && Saturated(ls[0], b, e))
  }

  lemma SaturatedHasNoBoundary(levelFiles: seq<File>, b: Option<UserKey>, e: Option<UserKey>)
    requires ValidFiles(levelFiles) && Saturated(levelFiles, b, e)
    ensures forall key, f | IsLargestKey(Overlapping(levelFiles, b, e), key) && f in levelFiles :: !IsBoundary(f, key)
  {
    var inputs := Overlapping(levelFiles, b, e);
    forall key, f | IsLargestKey(inputs, key) && f in levelFiles && f.smallest.user == key.user
      ensures !Less(key, f.smallest)
    {
      var g :| g in inputs && g.largest == key;
      OverlappingIsFilter(levelFiles, b, e, g);
      OverlappingIsFilter(levelFiles, b, e, f);
      FileRange(f);
      FileRange(g);
      assert f in inputs;
      LessIsTotalOrder(key, f.smallest, f.largest);
      LessIsTotalOrder(f.smallest, f.largest, f.smallest);
    }
  }

  lemma SaturatedIsClosed(levelFiles: seq<File>, b: Option<UserKey>, e: Option<UserKey>)
    requires ValidFiles(levelFiles) && Saturated(levelFiles, b, e)
    ensures OlderStaysIn(levelFiles, Overlapping(levelFiles, b, e))
  {
    var inputs := Overlapping(levelFiles, b, e);
    forall f, g | f in levelFiles && f !in inputs && g in inputs
      ensures HoldsNewer(f, g)
    {
      OverlappingIsFilter(levelFiles, b, e, g);
      OverlappingIsFilter(levelFiles, b, e, f);
      forall y, x | y in f.entries && x in g.entries
        ensures y.key.user != x.key.user
      {
        FileBounds(f, y);
        FileBounds(g, x);
      }
    }
  }

  lemma RunIsClosed(levelFiles: seq<File>, inputs: seq<File>, key: IKey)
    requires ValidFiles(levelFiles) && SortedFiles(levelFiles) && IsRun(levelFiles, inputs)
    requires IsLargestKey(inputs, key) && forall f | f in levelFiles :: !IsBoundary(f, key)
    ensures OlderStaysIn(levelFiles, inputs)
  {
    hide ValidFile, HoldsNewer, Less, SortedFiles, IsBoundary, IsLargestKey;
    var a, b :| 0 <= a < b <= |levelFiles| && inputs == levelFiles[a..b];
    RunLargest(levelFiles, a, b, key);
    forall f, g | f in levelFiles && f !in inputs && g in inputs
      ensures HoldsNewer(f, g)
    {
      var i :| 0 <= i < |levelFiles| && levelFiles[i] == f;
      var j :| a <= j < b && levelFiles[j] == g;
      assert forall n | a <= n < b :: levelFiles[n] in inputs;
      LeftOutHoldsNewer(levelFiles, b, i, j);
    }
  }

  lemma LeftOutHoldsNewer(levelFiles: seq<File>, b: nat, i: nat, j: nat)
    requires ValidFiles(levelFiles) && SortedFiles(levelFiles) && j < b <= |levelFiles| && i < |levelFiles|
    requires forall f | f in levelFiles :: !IsBoundary(f, levelFiles[b - 1].largest)
    requires i < j || b <= i
    ensures HoldsNewer(levelFiles[i], levelFiles[j])
  {
    forall e, x | e in levelFiles[i].entries && x in levelFiles[j].entries && e.key.user == x.key.user
      ensures Less(e.key, x.key)
    {
      LeftOutIsNewer(levelFiles, b, i, j, e, x);
    }
  }

  lemma LeftOutIsNewer(levelFiles: seq<File>, b: nat, i: nat, j: nat, e: Entry, x: Entry)
    requires ValidFiles(levelFiles) && SortedFiles(levelFiles) && j < b <= |levelFiles| && i < |levelFiles|
    requires forall f | f in levelFiles :: !IsBoundary(f, levelFiles[b - 1].largest)
    requires e in levelFiles[i].entries && x in levelFiles[j].entries && e.key.user == x.key.user
    requires i < j || b <= i
    ensures Less(e.key, x.key)
  {
    FileBounds(levelFiles[i], e);
    FileBounds(levelFiles[j], x);
    assert b < |levelFiles| ==> levelFiles[b] in levelFiles && !IsBoundary(levelFiles[b], levelFiles[b - 1].largest);
    if i < j {
      assert Less(levelFiles[i].largest, levelFiles[j].smallest);
      LessIsTotalOrder(levelFiles[i].largest, levelFiles[j].smallest, x.key);
      LessIsTotalOrder(e.key, levelFiles[i].largest, x.key);
      LessIsTotalOrder(levelFiles[j].smallest, x.key, x.key);
      LessIsTotalOrder(x.key, e.key, levelFiles[i].largest);
    } else {
      FileOrder(levelFiles, j, b - 1);
      FileOrder(levelFiles, b - 1, b);
      FileOrder(levelFiles, b, i);
      assert false;
    }
  }

  lemma HitsConvex(files: seq<File>, i: nat, j: nat, k: nat, b: Option<UserKey>, e: Option<UserKey>)
    requires ValidFiles(files) && SortedFiles(files) && i <= j <= k < |files|
    requires Hits(files[i], b, e) && Hits(files[k], b, e)
    ensures Hits(files[j], b, e)
  {
    FileOrder(files, i, j);
    FileOrder(files, j, k);
  }

  /** The files of a sorted level that overlap a range are neighbours. */
  lemma OverlapOfNone(files: seq<File>, b: Option<UserKey>, e: Option<UserKey>)
    ensures Overlapping(files[..0], b, e) == files[0..0] == []
  {
  }

  lemma {:induction false} OverlapIsRun(files: seq<File>, n: nat, b: Option<UserKey>, e: Option<UserKey>)
    returns (x: nat, y: nat)
    requires ValidFiles(files) && SortedFiles(files) && n <= |files|
    ensures x <= y <= n && Overlapping(files[..n], b, e) == files[x..y]
    ensures forall i | 0 <= i < n :: Hits(files[i], b, e) <==> x <= i < y
  {
    hide ValidFile, Less, Hits, SortedFiles, ValidFiles, Overlapping;
    if n == 0 {
      OverlapOfNone(files, b, e);
      return 0, 0;
    }
    x, y := OverlapIsRun(files, n - 1, b, e);
    OverlapStep(files, n - 1, b, e);
    if Hits(files[n - 1], b, e) {
      HitsReachEnd(files, n - 1, x, y, b, e);
      assert files[x..y] + [files[n - 1]] == files[if x < y then x else n - 1..n];
      x, y := if x < y then x else n - 1, n;
    }
  }

  lemma OverlapStep(files: seq<File>, n: nat, b: Option<UserKey>, e: Option<UserKey>)
    requires n < |files|
    ensures Overlapping(files[..n + 1], b, e) ==
      Overlapping(files[..n], b, e) + if Hits(files[n], b, e) then [files[n]] else []
  {
    hide Hits;
    assert files[..n + 1][..n] == files[..n];
  }

  lemma HitsReachEnd(files: seq<File>, n: nat, x: nat, y: nat, b: Option<UserKey>, e: Option<UserKey>)
    requires ValidFiles(files) && SortedFiles(files) && x <= y <= n < |files|
    requires forall i | 0 <= i < n :: Hits(files[i], b, e) <==> x <= i < y
    requires Hits(files[n], b, e)
    ensures x < y ==> y == n
  {
    if x < y < n {
      HitsConvex(files, x, y, n, b, e);
    }
  }

  // ----- SetupOtherInputs and its callers -----

  datatype CompactionInputs = CompactionInputs(inputs0: seq<File>, inputs1: seq<File>, grandparents: seq<File>, pointer: IKey)

  /** inputs1 is the overlap of the next level with the exact user-key range of inputs0. */
  ghost predicate ExactNextLevel(nextFiles: seq<File>, inputs0: seq<File>, inputs1: seq<File>) {
    exists smallest, largest ::
      IsSmallestKey(inputs0, smallest) && IsLargestKey(inputs0, largest) &&
      inputs1 == Overlapping(nextFiles, Some(smallest.user), Some(largest.user))
  }

  ghost predicate WellChosen(ls: Levels, level: nat, c: CompactionInputs)
    requires level + 1 < |ls|
  {
    Startable(ls, level, c.inputs0) && OlderStaysIn(ls[level], c.inputs0) && ExactNextLevel(ls[level + 1], c.inputs0, c.inputs1)
  }

  /** AddBoundaryInputs closes a good start towards older entries. */
  method CloseInputs(ls: Levels, level: nat, inputs: seq<File>) returns (r: seq<File>)
    requires ValidLevels(ls) && level < NUM_LEVELS && Startable(ls, level, inputs)
    ensures Startable(ls, level, r) && OlderStaysIn(ls[level], r) && inputs <= r && Chained(ls[level], inputs, r)
  {
    r := AddBoundaryInputs(ls[level], inputs);
    if level == 0 {
      ghost var b, e :| inputs == Overlapping(ls[0], b, e) && Saturated(ls[0], b, e);
      SaturatedHasNoBoundary(ls[0], b, e);
      assert r == inputs;
      SaturatedIsClosed(ls[0], b, e);
    } else {
      ghost var key :| IsLargestKey(r, key) && forall f | f in ls[level] :: !IsBoundary(f, key);
      RunIsClosed(ls[level], r, key);
      RunInLevel(ls[level], r);
    }
  }

  lemma RunInLevel(levelFiles: seq<File>, files: seq<File>)
    requires IsRun(levelFiles, files)
    ensures files != [] && forall f | f in files :: f in levelFiles
  {
  }

  lemma OverlapIsStartable(ls: Levels, level: nat, b: Option<UserKey>, e: Option<UserKey>)
    requires ValidLevels(ls) && level < NUM_LEVELS && Overlapping(ls[level], b, e) != []
    requires level == 0 ==> Saturated(ls[0], b, e)
    ensures Startable(ls, level, Overlapping(ls[level], b, e))
  {
    hide ValidFile, Less, Hits;
    var o := Overlapping(ls[level], b, e);
    forall f | f in o
      ensures f in ls[level]
    {
      OverlappingIsFilter(ls[level], b, e, f);
    }
    if level > 0 {
      var x, y := OverlapIsRun(ls[level], |ls[level]|, b, e);
      assert ls[level][..|ls[level]|] == ls[level];
      assert o == ls[level][x..y];
    }
  }

  /** Files inside a range are among those found when the range is searched. */
  lemma ChosenAreFound(files: seq<File>, inputs: seq<File>, smallest: IKey, largest: IKey,
                       b: Option<UserKey>, e: Option<UserKey>)
    requires ValidFiles(inputs) && (forall f | f in inputs :: f in files)
    requires IsSmallestKey(inputs, smallest) && IsLargestKey(inputs, largest)
    requires WiderOrEqual((b, e), (Some(smallest.user), Some(largest.user)))
    ensures forall f | f in inputs :: f in Overlapping(files, b, e)
  {
    RangeCovers(inputs, smallest, largest);
    forall f | f in inputs
      ensures f in Overlapping(files, b, e)
    {
      OverlappingIsFilter(files, b, e, f);
    }
  }

  lemma SomeAreValid(files: seq<File>, some: seq<File>)
    requires ValidFiles(files) && forall f | f in some :: f in files
    ensures ValidFiles(some)
  {
    hide ValidFile;
    forall i | 0 <= i < |some|
      ensures ValidFile(some[i])
    {
      assert some[i] in files;
    }
  }

  /** The largest range of two groups covers each of them. */
  lemma RangeOfBoth(inputs0: seq<File>, inputs1: seq<File>, smallest: IKey, largest: IKey, s0: IKey, l0: IKey)
    requires IsSmallestKey(inputs0 + inputs1, smallest) && IsLargestKey(inputs0 + inputs1, largest)
    requires IsSmallestKey(inputs0, s0) && IsLargestKey(inputs0, l0)
    ensures smallest.user <= s0.user && l0.user <= largest.user
  {
    var f :| f in inputs0 && f.smallest == s0;
    var g :| g in inputs0 && g.largest == l0;
    assert f in inputs0 + inputs1 && g in inputs0 + inputs1;
  }

  /** What overlaps the range of the inputs. */
  ghost predicate RangeFound(files: seq<File>, level: nat, inputs: seq<File>, r: seq<File>) {
    exists smallest, largest :: IsSmallestKey(inputs, smallest) && IsLargestKey(inputs, largest) &&
      Found(files, level, Some(smallest), Some(largest), r)
  }

  /** The next level's share: everything that overlaps the range of inputs0. */
  method NextLevelInputs(ls: Levels, level: nat, inputs0: seq<File>) returns (r: CompactionInputs)
    requires ValidLevels(ls) && level + 1 < NUM_LEVELS
    requires Startable(ls, level, inputs0) && OlderStaysIn(ls[level], inputs0)
    ensures r.inputs0 == inputs0 && r.grandparents == [] && WellChosen(ls, level, r) && IsLargestKey(inputs0, r.pointer)
    ensures RangeFound(ls[level + 1], level + 1, inputs0, r.inputs1)
  {
    var smallest, largest := GetRange(inputs0);
    var inputs1 := GetOverlappingInputs(ls[level + 1], level + 1, Some(smallest), Some(largest));
    r := CompactionInputs(inputs0, inputs1, [], largest);
  }

  /** All files of the level in the range of both inputs, closed like the first ones. */
  ghost predicate Candidate(ls: Levels, level: nat, inputs0: seq<File>, inputs1: seq<File>, expanded0: seq<File>)
    requires level < |ls|
  {
    exists found :: RangeFound(ls[level], level, inputs0 + inputs1, found) && Chained(ls[level], found, expanded0)
  }

  /** The attempt to take more files of the level without taking more of the next one. */
  method ExpandInputs(ls: Levels, level: nat, c: CompactionInputs) returns (expanded0: seq<File>)
    requires ValidLevels(ls) && level + 1 < NUM_LEVELS && WellChosen(ls, level, c)
    ensures Startable(ls, level, expanded0) && OlderStaysIn(ls[level], expanded0)
    ensures forall f | f in c.inputs0 :: f in expanded0
    ensures Candidate(ls, level, c.inputs0, c.inputs1, expanded0)
  {
    hide ValidFile, ValidFiles, Less, OlderStaysIn, SortedFiles, Startable, ExactNextLevel, IsSmallestKey, IsLargestKey, Found,
      Chained;
    StartableInLevel(ls, level, c.inputs0);
    var allStart, allLimit := GetRange(c.inputs0 + c.inputs1);
    expanded0 := GetOverlappingInputs(ls[level], level, Some(allStart), Some(allLimit));
    WiderIsStartable(ls, level, c.inputs0, c.inputs1, allStart, allLimit, expanded0);
    ghost var found := expanded0;
    assert RangeFound(ls[level], level, c.inputs0 + c.inputs1, found);
    expanded0 := CloseInputs(ls, level, expanded0);
    assert forall f | f in found :: f in expanded0;
  }

  /** What overlaps the range of both inputs holds the first ones, and is a good start again. */
  lemma WiderIsStartable(ls: Levels, level: nat, inputs0: seq<File>, inputs1: seq<File>, start: IKey, limit: IKey, found: seq<File>)
    requires ValidLevels(ls) && level < NUM_LEVELS && Startable(ls, level, inputs0)
    requires IsSmallestKey(inputs0 + inputs1, start) && IsLargestKey(inputs0 + inputs1, limit)
    requires Found(ls[level], level, Some(start), Some(limit), found)
    ensures Startable(ls, level, found) && forall f | f in inputs0 :: f in found
  {
    hide ValidFile, ValidFiles, Less, Hits, SortedFiles, Saturated, Overlapping, Least, IsRun;
    var b, e :| FoundIn(ls[level], level, Some(start), Some(limit), found, b, e);
    StartableInLevel(ls, level, inputs0);
    SomeAreValid(ls[level], inputs0);
    var s0, l0 := KeysOf(inputs0);
    RangeOfBoth(inputs0, inputs1, start, limit, s0, l0);
    ChosenAreFound(ls[level], inputs0, s0, l0, b, e);
    assert inputs0[0] in found;
    OverlapIsStartable(ls, level, b, e);
  }

  lemma StartableInLevel(ls: Levels, level: nat, inputs: seq<File>)
    requires level < |ls| && Startable(ls, level, inputs)
    ensures inputs != [] && forall f | f in inputs :: f in ls[level]
  {
  }

  lemma {:induction false} KeysOf(files: seq<File>) returns (s: IKey, l: IKey)
    requires files != []
    ensures IsSmallestKey(files, s) && IsLargestKey(files, l)
  {
    hide Less;
    if |files| == 1 {
      s, l := files[0].smallest, files[0].largest;
      LessIsTotalOrder(s, s, s);
      LessIsTotalOrder(l, l, l);
    } else {
      var front, f := files[..|files| - 1], files[|files| - 1];
      s, l := KeysOf(front);
      assert files == front + [f];
      SmallestOfMore(front, s, f);
      LargestOfMore(front, l, f);
      s, l := if Less(f.smallest, s) then f.smallest else s, if Less(l, f.largest) then f.largest else l;
    }
  }

  lemma LargestOfMore(files: seq<File>, key: IKey, f: File)
    requires IsLargestKey(files, key)
    ensures IsLargestKey(files + [f], if Less(key, f.largest) then f.largest else key)
  {
    forall g | g in files && Less(key, f.largest)
      ensures AtMost(g.largest, f.largest)
    {
      LessIsTotalOrder(f.largest, g.largest, key);
      LessIsTotalOrder(key, f.largest, g.largest);
    }
    LessIsTotalOrder(f.largest, f.largest, f.largest);
    assert (files + [f])[|files|] == f;
  }

  lemma {:induction false} OverlapGrows(files: seq<File>, b: Option<UserKey>, e: Option<UserKey>, b': Option<UserKey>,
                                        e': Option<UserKey>)
    requires WiderOrEqual((b', e'), (b, e))
    ensures |Overlapping(files, b, e)| <= |Overlapping(files, b', e')|
    ensures |Overlapping(files, b, e)| == |Overlapping(files, b', e')| ==> Overlapping(files, b, e) == Overlapping(files, b', e')
  {
    if files != [] {
      OverlapGrows(files[..|files| - 1], b, e, b', e');
    }
  }

  /** More inputs of the level overlap no fewer files of the next; if they overlap as many, they overlap the same. */
  lemma SameShare(next: seq<File>, level: nat, inputs0: seq<File>, expanded0: seq<File>, x: seq<File>, y: seq<File>)
    requires level > 0 && (forall f | f in inputs0 :: f in expanded0)
    requires RangeFound(next, level, inputs0, x) && RangeFound(next, level, expanded0, y)
    ensures |x| <= |y| && (|x| == |y| ==> x == y)
  {
    hide Less, Overlapping;
    var s, l :| IsSmallestKey(inputs0, s) && IsLargestKey(inputs0, l) && Found(next, level, Some(s), Some(l), x);
    var s', l' :| IsSmallestKey(expanded0, s') && IsLargestKey(expanded0, l') && Found(next, level, Some(s'), Some(l'), y);
    KeysSpread(inputs0, expanded0, s, l, s', l');
    OverlapGrows(next, Some(s.user), Some(l.user), Some(s'.user), Some(l'.user));
  }

  lemma KeysSpread(inputs0: seq<File>, expanded0: seq<File>, s: IKey, l: IKey, s': IKey, l': IKey)
    requires (forall f | f in inputs0 :: f in expanded0) && IsSmallestKey(inputs0, s) && IsLargestKey(inputs0, l)
    requires IsSmallestKey(expanded0, s') && IsLargestKey(expanded0, l')
    ensures s'.user <= s.user && l.user <= l'.user
  {
    var f :| f in inputs0 && f.smallest == s;
    var g :| g in inputs0 && g.largest == l;
    assert f in expanded0 && g in expanded0;
  }

  lemma OneShare(next: seq<File>, level: nat, inputs0: seq<File>, x: seq<File>)
    requires level > 0 && RangeFound(next, level, inputs0, x)
    ensures forall y | RangeFound(next, level, inputs0, y) :: y == x
  {
    forall y | RangeFound(next, level, inputs0, y)
      ensures y == x
    {
      SameShare(next, level, inputs0, inputs0, x, y);
      SameShare(next, level, inputs0, inputs0, y, x);
    }
  }

  /** The candidate is taken if it is larger, not too large, and costs no further file of the next level. */
  ghost predicate MayExpand(ls: Levels, level: nat, inputs0: seq<File>, inputs1: seq<File>, expanded0: seq<File>, limit: nat)
    requires level + 1 < |ls|
  {
    inputs1 != [] && |expanded0| > |inputs0| && TotalFileSize(inputs1) + TotalFileSize(expanded0) < limit &&
    exists expanded1 :: RangeFound(ls[level + 1], level + 1, expanded0, expanded1) && |expanded1| == |inputs1|
  }

  /** What SetupOtherInputs makes of the picked files: their closure or the candidate, with the closure's share of the
      next level in either case. */
  ghost predicate SetupFrom(ls: Levels, level: nat, picked: seq<File>, limit: nat, r: CompactionInputs,
                            inputs0: seq<File>, expanded0: seq<File>)
    requires level + 1 < |ls|
  {
    Chained(ls[level], picked, inputs0) && RangeFound(ls[level + 1], level + 1, inputs0, r.inputs1) &&
    (r.inputs1 != [] ==> Candidate(ls, level, inputs0, r.inputs1, expanded0)) &&
    r.inputs0 == if MayExpand(ls, level, inputs0, r.inputs1, expanded0, limit) then expanded0 else inputs0
  }

  ghost predicate Setup(ls: Levels, level: nat, picked: seq<File>, limit: nat, r: CompactionInputs)
    requires level + 1 < |ls|
  {
    exists inputs0, expanded0 :: SetupFrom(ls, level, picked, limit, r, inputs0, expanded0)
  }

  /** SetupOtherInputs. `limit` is ExpandedCompactionByteSizeLimit. */
  method SetupOtherInputs(ls: Levels, level: nat, picked: seq<File>, limit: nat) returns (r: CompactionInputs)
    requires ValidLevels(ls) && level + 1 < NUM_LEVELS && Startable(ls, level, picked)
    ensures WellChosen(ls, level, r) && IsLargestKey(r.inputs0, r.pointer) && Setup(ls, level, picked, limit, r)
    ensures forall f | f in picked :: f in r.inputs0
    ensures level + 2 >= NUM_LEVELS ==> r.grandparents == []
    ensures level + 2 < NUM_LEVELS ==> exists smallest, largest ::
      IsSmallestKey(r.inputs0 + r.inputs1, smallest) && IsLargestKey(r.inputs0 + r.inputs1, largest) &&
      r.grandparents == Overlapping(ls[level + 2], Some(smallest.user), Some(largest.user))
  {
    hide ValidFile, Less, OlderStaysIn, Startable, ExactNextLevel, SortedFiles, IsSmallestKey, IsLargestKey, Chained,
      RangeFound, Candidate;
    var inputs0 := CloseInputs(ls, level, picked);
    r := NextLevelInputs(ls, level, inputs0);
    ghost var inputs1, candidate := r.inputs1, inputs0;
    if r.inputs1 != [] {
      var expanded0 := ExpandInputs(ls, level, r);
      candidate := expanded0;
      if |expanded0| > |r.inputs0| && TotalFileSize(r.inputs1) + TotalFileSize(expanded0) < limit {
        var expanded := NextLevelInputs(ls, level, expanded0);
        SameShare(ls[level + 1], level + 1, inputs0, expanded0, r.inputs1, expanded.inputs1);
        if |expanded.inputs1| == |r.inputs1| {
          r := expanded;
        } else {
          OneShare(ls[level + 1], level + 1, expanded0, expanded.inputs1);
        }
      }
    }
    assert SetupFrom(ls, level, picked, limit, r, inputs0, candidate);
    if level + 2 < NUM_LEVELS {
      var allStart, allLimit := GetRange(r.inputs0 + r.inputs1);
      var grandparents := GetOverlappingInputs(ls[level + 2], level + 2, Some(allStart), Some(allLimit));
      r := r.(grandparents := grandparents);
    }
    assert SetupFrom(ls, level, picked, limit, r, inputs0, candidate);
  }

  /** On level 0 a file is picked with all files that overlap it, one by one. */
  ghost predicate PickedFor(ls: Levels, level: nat, f: File, picked: seq<File>)
    requires level < |ls|
  {
    if level == 0 then Found(ls[0], 0, Some(f.smallest), Some(f.largest), picked) else picked == [f]
  }

  /** PickCompaction, for whichever file the scores and seek counts point at. */
  method PickCompaction(ls: Levels, level: nat, index: nat, limit: nat) returns (r: CompactionInputs)
    requires ValidLevels(ls) && level + 1 < NUM_LEVELS && index < |ls[level]|
    ensures WellChosen(ls, level, r) && ls[level][index] in r.inputs0
    ensures exists picked :: PickedFor(ls, level, ls[level][index], picked) && Setup(ls, level, picked, limit, r)
  {
    var f := ls[level][index];
    var picked := [f];
    if level == 0 {
      picked := GetOverlappingInputs(ls[0], 0, Some(f.smallest), Some(f.largest));
      ghost var b, e :| FoundIn(ls[0], 0, Some(f.smallest), Some(f.largest), picked, b, e);
      FileRange(f);
      OverlappingIsFilter(ls[0], b, e, f);
      OverlapIsStartable(ls, 0, b, e);
    } else {
      assert picked == ls[level][index..index + 1];
    }
    r := SetupOtherInputs(ls, level, picked, limit);
  }

  /** Above level 0 a front of the files found is taken, up to the file with which it reaches the size limit. */
  ghost predicate CutAt(level: nat, found: seq<File>, maxFileSize: nat, picked: seq<File>) {
    picked <= found && picked != [] && (level == 0 ==> picked == found) &&
    (level > 0 ==> forall n | 0 < n < |picked| :: TotalFileSize(picked[..n]) < maxFileSize) &&
    (picked != found ==> TotalFileSize(picked) >= maxFileSize)
  }

  /** What CompactRange makes of the files in its range. */
  ghost predicate ManualFrom(ls: Levels, level: nat, found: seq<File>, maxFileSize: nat, limit: nat, r: CompactionInputs)
    requires level + 1 < |ls|
  {
    exists picked :: CutAt(level, found, maxFileSize, picked) && Setup(ls, level, picked, limit, r)
  }

  /** VersionSet::CompactRange: a manual compaction of [begin, end], cut short above level 0 once enough
      bytes are collected. None stands for "nothing to do". */
  method CompactRange(ls: Levels, level: nat, begin: Option<IKey>, end: Option<IKey>, maxFileSize: nat, limit: nat)
    returns (r: Option<CompactionInputs>)
    requires ValidLevels(ls) && level + 1 < NUM_LEVELS
    ensures r.Some? ==> WellChosen(ls, level, r.value)
    ensures r.None? <==> forall f | f in ls[level] :: !Hits(f, UserOf(begin), UserOf(end))
    ensures r.Some? ==>
      exists found :: Found(ls[level], level, begin, end, found) && ManualFrom(ls, level, found, maxFileSize, limit, r.value)
  {
    hide Setup;
    var inputs := GetOverlappingInputs(ls[level], level, begin, end);
    ghost var b, e :| FoundIn(ls[level], level, begin, end, inputs, b, e);
    FoundIfAny(ls[level], level, begin, end, inputs, b, e);
    if inputs == [] {
      return None;
    }
    OverlapIsStartable(ls, level, b, e);
    ghost var found := inputs;
    if level > 0 {
      inputs := CutShort(ls, level, inputs, maxFileSize);
    }
    assert CutAt(level, found, maxFileSize, inputs);
    var c := SetupOtherInputs(ls, level, inputs, limit);
    assert ManualFrom(ls, level, found, maxFileSize, limit, c);
    r := Some(c);
  }

  /** The loop over the files of a manual compaction. */
  method CutShort(ls: Levels, level: nat, found: seq<File>, maxFileSize: nat) returns (inputs: seq<File>)
    requires 0 < level < |ls| && Startable(ls, level, found)
    ensures Startable(ls, level, inputs) && CutAt(level, found, maxFileSize, inputs)
  {
    hide IsRun;
    inputs := found;
    var total, i := 0, 0;
    while i < |found|
      invariant 0 <= i <= |found| && inputs == found && total == TotalFileSize(found[..i])
      invariant forall n | 0 < n <= i :: TotalFileSize(found[..n]) < maxFileSize
    {
      total := total + found[i].size;
      assert found[..i + 1][..i] == found[..i];
      if total >= maxFileSize {
        ShorterRun(ls[level], found, i + 1);
        inputs := found[..i + 1];
        assert forall n | 0 < n < |inputs| :: inputs[..n] == found[..n];
        return;
      }
      i := i + 1;
    }
  }

  /** Something is found exactly if some file overlaps the range asked for. */
  lemma FoundIfAny(files: seq<File>, level: nat, begin: Option<IKey>, end: Option<IKey>, inputs: seq<File>,
                   b: Option<UserKey>, e: Option<UserKey>)
    requires FoundIn(files, level, begin, end, inputs, b, e)
    ensures inputs == [] <==> forall f | f in files :: !Hits(f, UserOf(begin), UserOf(end))
  {
    hide Overlapping;
    forall f | f in files
      ensures f in inputs <==> Hits(f, b, e)
    {
      OverlappingIsFilter(files, b, e, f);
    }
    if inputs != [] {
      OverlappingIsFilter(files, b, e, inputs[0]);
      if level == 0 && forall f | f in files :: !Hits(f, UserOf(begin), UserOf(end)) {
        assert Saturated(files, UserOf(begin), UserOf(end));
      }
    }
  }

  lemma ShorterRun(levelFiles: seq<File>, files: seq<File>, n: nat)
    requires IsRun(levelFiles, files) && 0 < n <= |files|
    ensures IsRun(levelFiles, files[..n]) && forall f | f in files[..n] :: f in levelFiles
  {
    var a, b :| 0 <= a < b <= |levelFiles| && files == levelFiles[a..b];
    assert files[..n] == levelFiles[a..a + n];
  }
}
