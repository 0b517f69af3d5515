/** How much of the level below its output a compaction may let one output overlap (db/version_set.cc,
    Compaction::ShouldStopBefore). */
module Grandparents {
  import opened Entries
  import opened Files

  function Size(files: seq<File>): nat {
    if files == [] then 0 else Size(files[..|files| - 1]) + files[|files| - 1].size
  }

  /** The files that share an internal key with [a, b]. */
  function Met(files: seq<File>, a: IKey, b: IKey): seq<File> {
    if files == [] then []
    else
      var f := files[|files| - 1];
      Met(files[..|files| - 1], a, b) + if !Less(f.largest, a) && !Less(b, f.smallest) then [f] else []
  }

  /** The bytes of the files that end at or after a. */
  function EndingFrom(files: seq<File>, a: IKey): nat {
    if files == [] then 0
    else
      var f := files[|files| - 1];
      EndingFrom(files[..|files| - 1], a) + if Less(f.largest, a) then 0 else f.size
  }

  /** The bytes of the files that end at or after a and before b. */
  function Ending(files: seq<File>, a: IKey, b: IKey): nat {
    if files == [] then 0
    else
      var f := files[|files| - 1];
      Ending(files[..|files| - 1], a, b) + if !Less(f.largest, a) && Less(f.largest, b) then f.size else 0
  }

  /** Where the count of bytes that entry i is judged by began: at the last stop before it, or the first entry. */
  ghost function CountedFrom(files: seq<File>, max: nat, input: seq<Entry>, i: nat): (from: nat)
    requires i <= |input|
    ensures from < i || i == from == 0
    decreases i, 0
  {
    if i <= 1 then 0 else if StopsBefore(files, max, input, i - 1) then i - 1 else CountedFrom(files, max, input, i - 1)
  }

  /** Files of more than `max` bytes have ended since. */
  ghost predicate StopsBefore(files: seq<File>, max: nat, input: seq<Entry>, i: nat)
    requires i < |input|
    decreases i, 1
  {
    Ending(files, input[CountedFrom(files, max, input, i)].key, input[i].key) > max
  }

  ghost function Stops(files: seq<File>, max: nat, input: seq<Entry>): (r: seq<bool>)
    ensures |r| == |input| && forall i | 0 <= i < |input| :: r[i] == StopsBefore(files, max, input, i)
  {
    seq(|input|, i requires 0 <= i < |input| => StopsBefore(files, max, input, i))
  }

  // ----- Disjoint files end in order -----

  lemma EndInOrder(files: seq<File>, i: nat, j: nat)
    requires ValidFiles(files) && SortedFiles(files) && i < j < |files|
    ensures Less(files[i].largest, files[j].largest)
  {
    FileRange(files[j]);
    LessIsTotalOrder(files[i].largest, files[j].smallest, files[j].largest);
  }

  /** The first n files end before a key, the others do not. */
  ghost predicate Before(files: seq<File>, n: nat, k: IKey) {
    n <= |files| && (forall j | 0 <= j < n :: Less(files[j].largest, k)) &&
    forall j | n <= j < |files| :: !Less(files[j].largest, k)
  }

  lemma {:induction false} NoneFrom(files: seq<File>, a: IKey)
    requires forall f | f in files :: Less(f.largest, a)
    ensures EndingFrom(files, a) == 0
  {
    if files != [] {
      NoneFrom(files[..|files| - 1], a);
    }
  }

  lemma {:induction false} EndingIs(files: seq<File>, n: nat, a: IKey, b: IKey)
    requires Before(files, n, b)
    ensures Ending(files, a, b) == EndingFrom(files[..n], a)
  {
    hide Less;
    if files != [] {
      var init := files[..|files| - 1];
      if n == |files| {
        EndingIs(init, n - 1, a, b);
        assert files[..n] == files && init[..n - 1] == init;
      } else {
        EndingIs(init, n, a, b);
        assert init[..n] == files[..n];
      }
    }
  }

  lemma OneMore(files: seq<File>, n: nat, a: IKey)
    requires n < |files| && !Less(files[n].largest, a)
    ensures EndingFrom(files[..n + 1], a) == EndingFrom(files[..n], a) + files[n].size
  {
    assert files[..n + 1][..n] == files[..n];
  }

  /** The count began at a key that is not after the last one asked about. */
  lemma CountedBehind(files: seq<File>, max: nat, input: seq<Entry>, i: nat, f: File)
    requires Sorted(input) && 0 < i <= |input| && !Less(f.largest, input[i - 1].key)
    ensures !Less(f.largest, input[CountedFrom(files, max, input, i)].key)
  {
    var from := CountedFrom(files, max, input, i);
    if from < i - 1 {
      LessIsTotalOrder(f.largest, input[from].key, input[i - 1].key);
    }
  }

  lemma PassedStay(files: seq<File>, n: nat, input: seq<Entry>, i: nat)
    requires Sorted(input) && 0 < i < |input| && Before(files, n, input[i - 1].key)
    ensures forall j | 0 <= j < n :: Less(files[j].largest, input[i].key)
  {
    forall j | 0 <= j < n
      ensures Less(files[j].largest, input[i].key)
    {
      LessIsTotalOrder(files[j].largest, input[i - 1].key, input[i].key);
    }
  }

  /** The scan for entry i ends in front of file n. */
  lemma ScanEnds(files: seq<File>, n: nat, k: IKey)
    requires ValidFiles(files) && SortedFiles(files) && n <= |files|
    requires (forall j | 0 <= j < n :: Less(files[j].largest, k)) && (n < |files| ==> !Less(files[n].largest, k))
    ensures Before(files, n, k) && EndingFrom(files[..n], k) == 0
  {
    NoneFrom(files[..n], k);
    forall j | n < j < |files|
      ensures !Less(files[j].largest, k)
    {
      EndInOrder(files, n, j);
      LessIsTotalOrder(files[n].largest, files[j].largest, k);
    }
  }

  /** What the bytes counted decide. */
  lemma Judged(files: seq<File>, max: nat, input: seq<Entry>, i: nat, n: nat, bytes: nat)
    requires i < |input| && Before(files, n, input[i].key)
    requires bytes == if i == 0 then 0 else EndingFrom(files[..n], input[CountedFrom(files, max, input, i)].key)
    ensures StopsBefore(files, max, input, i) <==> bytes > max
    ensures CountedFrom(files, max, input, i + 1) == if bytes > max then i else CountedFrom(files, max, input, i)
  {
    EndingIs(files, n, input[CountedFrom(files, max, input, i)].key, input[i].key);
    if i == 0 {
      NoneEnding(files, input[0].key);
    }
  }

  lemma {:induction false} EndingShrinks(files: seq<File>, a: IKey, a': IKey, b: IKey)
    requires AtMost(a, a')
    ensures Ending(files, a', b) <= Ending(files, a, b)
  {
    if files != [] {
      EndingShrinks(files[..|files| - 1], a, a', b);
    }
  }

  lemma NoneEnding(files: seq<File>, a: IKey)
    ensures Ending(files, a, a) == 0
  {
  }

  // ----- How much one output meets -----

  lemma {:induction false} MetEnd(files: seq<File>, a: IKey, b: IKey)
    requires ValidFiles(files) && forall f | f in files :: Less(f.largest, b)
    ensures Size(Met(files, a, b)) == Ending(files, a, b)
  {
    if files != [] {
      var f := files[|files| - 1];
      FileRange(f);
      LessIsTotalOrder(f.smallest, f.largest, b);
      MetEnd(files[..|files| - 1], a, b);
      SizeMore(Met(files[..|files| - 1], a, b), f);
    }
  }

  lemma SizeMore(files: seq<File>, f: File)
    ensures Size(files + [f]) == Size(files) + f.size && files + [] == files
  {
    assert (files + [f])[..|files|] == files;
  }

  /** All the files met but the last end inside the range. */
  ghost predicate Bounded(files: seq<File>, a: IKey, b: IKey, max: nat) {
    var met := Met(files, a, b);
    Size(met) <= max + if met == [] then 0 else met[|met| - 1].size
  }

  lemma {:induction false} MetBounded(files: seq<File>, a: IKey, b: IKey)
    requires ValidFiles(files) && SortedFiles(files)
    ensures Bounded(files, a, b, Ending(files, a, b))
  {
    hide Less, ValidFile;
    if files != [] {
      var n := |files| - 1;
      var init, f := files[..n], files[n];
      if Less(b, f.smallest) {
        BehindRange(files, n, b);
        MetBounded(init, a, b);
        SizeMore(Met(init, a, b), f);
      } else {
        EndBefore(files, b);
        MetEnd(init, a, b);
        SizeMore(Met(init, a, b), f);
      }
    }
  }

  lemma BehindRange(files: seq<File>, n: nat, b: IKey)
    requires ValidFiles(files) && n < |files| && Less(b, files[n].smallest)
    ensures !Less(files[n].largest, b)
  {
    FileRange(files[n]);
    LessIsTotalOrder(b, files[n].smallest, files[n].largest);
  }

  lemma EndBefore(files: seq<File>, b: IKey)
    requires SortedFiles(files) && files != [] && !Less(b, files[|files| - 1].smallest)
    ensures forall f | f in files[..|files| - 1] :: Less(f.largest, b)
  {
    forall j | 0 <= j < |files| - 1
      ensures Less(files[j].largest, b)
    {
      LessIsTotalOrder(files[j].largest, files[|files| - 1].smallest, b);
    }
  }
}
