/** Table files and the levels of a version (db/version_edit.h, db/version_set.h). */
module Files {
  import opened Entries

  /** FileMetaData together with the entries of the table it describes. */
  datatype File = File(number: nat, size: nat, smallest: IKey, largest: IKey, entries: seq<Entry>)

  const NUM_LEVELS: nat := 7

  type Levels = seq<seq<File>>

  /** The recorded range is the first and last key of the table. */
  predicate Framed(f: File) {
    |f.entries| > 0 && f.smallest == f.entries[0].key && f.largest == f.entries[|f.entries| - 1].key
  }

  predicate ValidFile(f: File) {
    Framed(f) && Sorted(f.entries)
  }

  predicate ValidFiles(fs: seq<File>) {
    forall i | 0 <= i < |fs| :: ValidFile(fs[i])
  }

  /** The files hold disjoint ranges of internal keys, in order. Neighbours may share a user key. */
  predicate SortedFiles(fs: seq<File>) {
    forall i, j | 0 <= i < j < |fs| :: Less(fs[i].largest, fs[j].smallest)
  }

  predicate ValidLevels(ls: Levels) {
    |ls| == NUM_LEVELS &&
    (forall l | 0 <= l < NUM_LEVELS :: ValidFiles(ls[l])) &&
    (forall l | 1 <= l < NUM_LEVELS :: SortedFiles(ls[l]))
  }

  function FileEntries(fs: seq<File>): set<Entry> {
    set f, e | f in fs && e in f.entries :: e
  }

  function LevelEntries(ls: Levels): set<Entry> {
    set fs, f, e | fs in ls && f in fs && e in f.entries :: e
  }

  /** The user keys of f lie within [f.smallest.user, f.largest.user]. */
  predicate Covers(f: File, k: UserKey) {
    f.smallest.user <= k <= f.largest.user
  }

  predicate Overlaps(f: File, begin: UserKey, end: UserKey) {
    !(f.largest.user < begin) && !(f.smallest.user > end)
  }

  lemma FileBounds(f: File, e: Entry)
    requires ValidFile(f) && e in f.entries
    ensures AtMost(f.smallest, e.key) && AtMost(e.key, f.largest) && Covers(f, e.key.user)
  {
    var i :| 0 <= i < |f.entries| && f.entries[i] == e;
    LessIsTotalOrder(f.smallest, e.key, f.largest);
    LessIsTotalOrder(e.key, f.largest, f.smallest);
  }

  lemma FileRange(f: File)
    requires ValidFile(f)
    ensures AtMost(f.smallest, f.largest) && f.smallest.user <= f.largest.user
  {
    FileBounds(f, f.entries[0]);
  }

  /** The entries of a run of files, in order. */
  function Concat(fs: seq<File>): seq<Entry> {
    if fs == [] then [] else Concat(fs[..|fs| - 1]) + fs[|fs| - 1].entries
  }

  lemma {:induction false} ConcatElements(fs: seq<File>)
    ensures Elements(Concat(fs)) == FileEntries(fs)
  {
    if fs != [] {
      var init := fs[..|fs| - 1];
      ConcatElements(init);
      assert fs == init + [fs[|fs| - 1]];
      assert forall e :: e in Concat(fs) <==> e in Concat(init) || e in fs[|fs| - 1].entries;
      assert forall e :: e in Concat(init) <==> e in Elements(Concat(init));
    }
  }

  /** A sorted run cut into files gives files with disjoint ascending ranges. */
  lemma {:induction false} SortedConcat(fs: seq<File>)
    requires Sorted(Concat(fs)) && forall i | 0 <= i < |fs| :: Framed(fs[i])
    ensures ValidFiles(fs) && SortedFiles(fs)
  {
    hide Less;
    if fs != [] {
      var n := |fs| - 1;
      var p := Concat(fs[..n]);
      SplitSorted(p, fs[n].entries);
      SortedConcat(fs[..n]);
      forall i | 0 <= i < n
        ensures Less(fs[i].largest, fs[n].smallest)
      {
        var e := fs[i].entries[|fs[i].entries| - 1];
        InConcat(fs[..n], i, e);
        var a :| 0 <= a < |p| && p[a] == e;
        assert Less(p[a].key, fs[n].entries[0].key);
      }
    }
  }

  lemma SplitSorted(p: seq<Entry>, q: seq<Entry>)
    requires Sorted(p + q)
    ensures Sorted(p) && Sorted(q)
    ensures forall a, b | 0 <= a < |p| && 0 <= b < |q| :: Less(p[a].key, q[b].key)
  {
    hide Less;
    var r := p + q;
    assert forall i | 0 <= i < |p| :: r[i] == p[i];
    assert forall i | 0 <= i < |q| :: r[|p| + i] == q[i];
  }

  lemma InConcat(fs: seq<File>, i: nat, e: Entry)
    requires i < |fs| && e in fs[i].entries
    ensures e in Concat(fs)
  {
    ConcatElements(fs);
    assert fs[i] in fs && e in FileEntries(fs);
    assert e in Elements(Concat(fs));
  }
}
