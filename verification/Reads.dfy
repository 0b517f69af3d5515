/** Point lookups: MemTable::Get, Version::Get with its search order, DBImpl::Get (db/memtable.cc,
    db/version_set.cc, db/db_impl.cc). */
module Reads {
  import opened Entries
  import opened Files

  // ----- The order between layers that a lookup relies on -----

  /** For every user key, entries of the first set are newer than entries of the second. */
  ghost predicate NewerThan(S: set<Entry>, T: set<Entry>) {
    forall a, b | a in S && b in T && a.key.user == b.key.user :: a.key.sequence > b.key.sequence
  }

  /** Level-0 files may overlap; the higher numbered one is the newer one. */
  ghost predicate NewestNumberFirst(fs: seq<File>) {
    (forall i, j | 0 <= i < j < |fs| :: fs[i].number != fs[j].number) &&
    forall f, g | f in fs && g in fs && f.number > g.number :: NewerThan(Elements(f.entries), Elements(g.entries))
  }

  ghost predicate ShallowerIsNewer(ls: Levels) {
    forall a, b | 0 <= a < b < |ls| :: NewerThan(FileEntries(ls[a]), FileEntries(ls[b]))
  }

  ghost predicate ReadableLevels(ls: Levels) {
    ValidLevels(ls) && NewestNumberFirst(ls[0]) && ShallowerIsNewer(ls)
  }

  /** The table filter never denies a key the table holds. */
  ghost predicate NoFalseNegatives(mayMatch: (nat, UserKey) -> bool, fs: seq<File>) {
    forall f, e | f in fs && e in f.entries :: mayMatch(f.number, e.key.user)
  }

  ghost predicate NothingVisible(S: set<Entry>, k: UserKey, s: nat) {
    forall e | e in S :: !Visible(e, k, s)
  }

  // ----- Searching one sorted run -----

  /** Position of the first entry at or after the target. */
  method Seek(es: seq<Entry>, target: IKey) returns (i: nat)
    requires Sorted(es)
    ensures i <= |es|
    ensures forall j | 0 <= j < i :: Less(es[j].key, target)
    ensures forall j | i <= j < |es| :: !Less(es[j].key, target)
  {
    i := 0;
    while i < |es| && Less(es[i].key, target)
      invariant i <= |es|
      invariant forall j | 0 <= j < i :: Less(es[j].key, target)
    {
      i := i + 1;
    }
    forall j | i <= j < |es|
      ensures !Less(es[j].key, target)
    {
      LessIsTotalOrder(es[i].key, es[j].key, target);
    }
  }

  lemma VisibleIsAtOrAfter(e: Entry, k: UserKey, s: nat)
    ensures Visible(e, k, s) <==> e.key.user == k && !Less(e.key, LookupKey(k, s))
  {
  }

  /** What the first entry at or after the lookup key says about the whole run. */
  lemma SeekFindsNewest(es: seq<Entry>, i: nat, k: UserKey, s: nat)
    requires Sorted(es) && i <= |es|
    requires forall j | 0 <= j < i :: Less(es[j].key, LookupKey(k, s))
    requires forall j | i <= j < |es| :: !Less(es[j].key, LookupKey(k, s))
    ensures i < |es| && es[i].key.user == k ==> IsNewest(Elements(es), k, s, es[i])
    ensures !(i < |es| && es[i].key.user == k) ==> forall e | e in es :: !Visible(e, k, s)
  {
    forall e | e in es && Visible(e, k, s)
      ensures i < |es| && es[i].key.user == k && e.key.sequence <= es[i].key.sequence
    {
      VisibleIsAtOrAfter(e, k, s);
      var j :| 0 <= j < |es| && es[j] == e;
      assert j == i || Less(es[i].key, es[j].key);
    }
  }

  /** MemTable::Get: the entry decides the read, unless its user key differs. */
  method SearchRun(es: seq<Entry>, k: UserKey, s: nat) returns (hit: Option<Entry>)
    requires Sorted(es)
    ensures hit.Some? ==> IsNewest(Elements(es), k, s, hit.value)
    ensures hit.None? ==> forall e | e in es :: !Visible(e, k, s)
  {
    var i := Seek(es, LookupKey(k, s));
    SeekFindsNewest(es, i, k, s);
    hit := if i < |es| && es[i].key.user == k then Some(es[i]) else None;
  }

  /** TableCache::Get with SaveValue: the filter may spare the search. */
  method SearchFile(f: File, k: UserKey, s: nat, mayMatch: (nat, UserKey) -> bool) returns (hit: Option<Entry>)
    requires ValidFile(f) && NoFalseNegatives(mayMatch, [f])
    ensures hit.Some? ==> IsNewest(Elements(f.entries), k, s, hit.value)
    ensures hit.None? ==> forall e | e in f.entries :: !Visible(e, k, s)
  {
    if !mayMatch(f.number, k) {
      forall e | e in f.entries
        ensures !Visible(e, k, s)
      {
        assert f in [f];
      }
      hit := None;
    } else {
      hit := SearchRun(f.entries, k, s);
    }
  }

  // ----- Searching a level -----

  /** FindFile: binary search for the first file whose largest key is at or after the target. */
  method FindFile(files: seq<File>, target: IKey) returns (r: nat)
    requires ValidFiles(files) && SortedFiles(files)
    ensures r <= |files|
    ensures forall i | 0 <= i < r :: Less(files[i].largest, target)
    ensures forall i | r <= i < |files| :: !Less(files[i].largest, target)
  {
    var left: nat, right: nat := 0, |files|;
    while left < right
      invariant left <= right <= |files|
      invariant forall i | 0 <= i < left :: Less(files[i].largest, target)
      invariant forall i | right <= i < |files| :: !Less(files[i].largest, target)
    {
      var mid := (left + right) / 2;
      forall i | 0 <= i < |files|
        ensures i < mid ==> Less(files[i].largest, files[mid].largest)
        ensures mid < i ==> Less(files[mid].largest, files[i].largest)
      {
        LargestAscends(files, if i < mid then i else mid, if i < mid then mid else i);
      }
      if Less(files[mid].largest, target) {
        left := mid + 1;
      } else {
        right := mid;
      }
    }
    r := right;
  }

  lemma LargestAscends(files: seq<File>, i: nat, j: nat)
    requires ValidFiles(files) && SortedFiles(files) && i <= j < |files|
    ensures i < j ==> Less(files[i].largest, files[j].largest)
  {
    FileRange(files[j]);
  }

  /** Levels above 0: one file decides the whole level. */
  method SearchSortedLevel(files: seq<File>, k: UserKey, s: nat, mayMatch: (nat, UserKey) -> bool)
    returns (hit: Option<Entry>)
    requires ValidFiles(files) && SortedFiles(files) && NoFalseNegatives(mayMatch, files)
    ensures hit.Some? ==> IsNewest(FileEntries(files), k, s, hit.value)
    ensures hit.None? ==> NothingVisible(FileEntries(files), k, s)
  {
    hit := None;
    var r := FindFile(files, LookupKey(k, s));
    if r < |files| && !(k < files[r].smallest.user) {
      hit := SearchFile(files[r], k, s, mayMatch);
    }
    forall e | e in FileEntries(files) && Visible(e, k, s)
      ensures hit.Some? && e.key.sequence <= hit.value.key.sequence
    {
      OnlyOneFileMatters(files, r, k, s, e);
    }
  }

  /** A visible entry lies in file r, or file r holds a newer visible one. */
  lemma OnlyOneFileMatters(files: seq<File>, r: nat, k: UserKey, s: nat, e: Entry)
    requires ValidFiles(files) && SortedFiles(files) && r <= |files|
    requires forall i | 0 <= i < r :: Less(files[i].largest, LookupKey(k, s))
    requires forall i | r <= i < |files| :: !Less(files[i].largest, LookupKey(k, s))
    requires e in FileEntries(files) && Visible(e, k, s)
    ensures r < |files| && files[r].smallest.user <= k
    ensures exists x :: x in files[r].entries && Visible(x, k, s) && e.key.sequence <= x.key.sequence
  {
    var f :| f in files && e in f.entries;
    var i :| 0 <= i < |files| && files[i] == f;
    FileBounds(f, e);
    VisibleIsAtOrAfter(e, k, s);
    if i > r {
      var last := files[r].entries[|files[r].entries| - 1];
      FileRange(files[r]);
      assert Less(files[r].largest, files[i].smallest);
      assert Visible(last, k, s);
    }
  }

  ghost predicate Descending(fs: seq<File>) {
    forall i, j | 0 <= i < j < |fs| :: fs[i].number > fs[j].number
  }

  /** std::sort with NewestFirst over distinct file numbers. */
  method SortNewestFirst(files: seq<File>) returns (r: seq<File>)
    requires forall i, j | 0 <= i < j < |files| :: files[i].number != files[j].number
    ensures multiset(r) == multiset(files) && Descending(r)
  {
    r := [];
    for n := 0 to |files|
      invariant multiset(r) == multiset(files[..n]) && Descending(r)
    {
      forall i | 0 <= i < |r|
        ensures r[i].number != files[n].number
      {
        assert r[i] in multiset(r);
        assert r[i] in files[..n];
      }
      assert files[..n + 1] == files[..n] + [files[n]];
      r := InsertNewestFirst(r, files[n]);
    }
    assert files[..|files|] == files;
  }

  method InsertNewestFirst(fs: seq<File>, f: File) returns (r: seq<File>)
    requires Descending(fs) && forall i | 0 <= i < |fs| :: fs[i].number != f.number
    ensures multiset(r) == multiset(fs) + multiset{f} && Descending(r)
  {
    var at := 0;
    while at < |fs| && fs[at].number > f.number
      invariant at <= |fs|
      invariant forall i | 0 <= i < at :: fs[i].number > f.number
    {
      at := at + 1;
    }
    r := fs[..at] + [f] + fs[at..];
    InsertKeepsOrder(fs, f, at);
    InsertAdds(fs, f, at);
  }

  lemma InsertKeepsOrder(fs: seq<File>, f: File, at: nat)
    requires Descending(fs) && at <= |fs|
    requires forall i | 0 <= i < at :: fs[i].number > f.number
    requires at < |fs| ==> fs[at].number < f.number
    ensures Descending(fs[..at] + [f] + fs[at..])
  {
    var front, back := fs[..at], fs[at..];
    assert forall i | 0 <= i < |back| :: back[i].number < f.number;
    assert Descending([f] + back);
    assert front + [f] + back == front + ([f] + back);
  }

  lemma InsertAdds(fs: seq<File>, f: File, at: nat)
    requires at <= |fs|
    ensures multiset(fs[..at] + [f] + fs[at..]) == multiset(fs) + multiset{f}
  {
    assert fs == fs[..at] + fs[at..];
  }

  /** The level-0 files whose range covers the key. */
  method CoveringFiles(files: seq<File>, k: UserKey) returns (r: seq<File>)
    requires forall i, j | 0 <= i < j < |files| :: files[i].number != files[j].number
    ensures forall f | f in r :: f in files
    ensures forall f | f in files && Covers(f, k) :: f in r
    ensures forall i, j | 0 <= i < j < |r| :: r[i].number != r[j].number
  {
    r := [];
    for n := 0 to |files|
      invariant forall f | f in r :: f in files[..n]
      invariant forall i | 0 <= i < n && Covers(files[i], k) :: files[i] in r
      invariant forall i, j | 0 <= i < j < |r| :: r[i].number != r[j].number
    {
      if Covers(files[n], k) {
        assert forall i | 0 <= i < |r| :: r[i] in files[..n];
        r := r + [files[n]];
      }
    }
  }

  /** Level 0: every file that covers the key, newest first. */
  method SearchLevel0(files: seq<File>, k: UserKey, s: nat, mayMatch: (nat, UserKey) -> bool)
    returns (hit: Option<Entry>)
    requires ValidFiles(files) && NewestNumberFirst(files) && NoFalseNegatives(mayMatch, files)
    ensures hit.Some? ==> IsNewest(FileEntries(files), k, s, hit.value)
    ensures hit.None? ==> NothingVisible(FileEntries(files), k, s)
  {
    var covering := CoveringFiles(files, k);
    var tmp := SortNewestFirst(covering);
    forall f: File
      ensures f in tmp <==> f in covering
    {
      assert f in tmp <==> f in multiset(tmp);
    }
    assert forall j | 0 <= j < |tmp| :: tmp[j] in covering;
    var i;
    i, hit := SearchInOrder(tmp, k, s, mayMatch);
    NewestCoveringFileDecides(files, tmp, k, s, i, hit);
  }

  /** Files that do not cover the key, or come later in the search order, cannot hold a newer entry. */
  lemma NewestCoveringFileDecides(files: seq<File>, tmp: seq<File>, k: UserKey, s: nat, i: nat, hit: Option<Entry>)
    requires ValidFiles(files) && NewestNumberFirst(files) && Descending(tmp)
    requires (forall f | f in tmp :: f in files) && forall f | f in files && Covers(f, k) :: f in tmp
    requires hit.Some? ==> i < |tmp| && IsNewest(Elements(tmp[i].entries), k, s, hit.value)
    requires hit.None? ==> i == |tmp|
    requires forall j, e | 0 <= j < i && e in tmp[j].entries :: !Visible(e, k, s)
    ensures hit.Some? ==> IsNewest(FileEntries(files), k, s, hit.value)
    ensures hit.None? ==> NothingVisible(FileEntries(files), k, s)
  {
    hide ValidFile, NewestNumberFirst;
    if hit.Some? {
      assert tmp[i] in files && hit.value in tmp[i].entries;
      assert hit.value in FileEntries(files);
    }
    forall e | e in FileEntries(files) && Visible(e, k, s)
      ensures hit.Some? && e.key.sequence <= hit.value.key.sequence
    {
      var j := SearchedLater(files, tmp, k, s, i, e);
      if j > i {
        NewerFile(files, tmp[i], tmp[j], hit.value, e);
      } else {
        assert e in Elements(tmp[i].entries);
      }
    }
  }

  lemma SearchedLater(files: seq<File>, tmp: seq<File>, k: UserKey, s: nat, i: nat, e: Entry) returns (j: nat)
    requires ValidFiles(files) && forall f | f in files && Covers(f, k) :: f in tmp
    requires i <= |tmp| && forall j, e | 0 <= j < i && e in tmp[j].entries :: !Visible(e, k, s)
    requires e in FileEntries(files) && Visible(e, k, s)
    ensures i <= j < |tmp| && e in tmp[j].entries
  {
    var f :| f in files && e in f.entries;
    FileBounds(f, e);
    j :| 0 <= j < |tmp| && tmp[j] == f;
  }

  lemma NewerFile(files: seq<File>, f: File, g: File, a: Entry, b: Entry)
    requires NewestNumberFirst(files) && f in files && g in files && f.number > g.number
    requires a in f.entries && b in g.entries && a.key.user == b.key.user
    ensures a.key.sequence > b.key.sequence
  {
    assert NewerThan(Elements(f.entries), Elements(g.entries));
    assert a in Elements(f.entries) && b in Elements(g.entries);
  }

  /** Ask the files one by one; the first that knows the key ends the search. */
  method SearchInOrder(files: seq<File>, k: UserKey, s: nat, mayMatch: (nat, UserKey) -> bool)
    returns (i: nat, hit: Option<Entry>)
    requires ValidFiles(files) && NoFalseNegatives(mayMatch, files)
    ensures hit.Some? ==> i < |files| && IsNewest(Elements(files[i].entries), k, s, hit.value)
    ensures hit.None? ==> i == |files|
    ensures forall j, e | 0 <= j < i && e in files[j].entries :: !Visible(e, k, s)
  {
    i, hit := 0, None;
    while i < |files|
      invariant i <= |files|
      invariant forall j, e | 0 <= j < i && e in files[j].entries :: !Visible(e, k, s)
    {
      hit := SearchFile(files[i], k, s, mayMatch);
      if hit.Some? {
        return;
      }
      i := i + 1;
    }
    hit := None;
  }

  // ----- The whole lookup -----

  /** Version::Get: level 0, then one file per deeper level. */
  method VersionGet(ls: Levels, k: UserKey, s: nat, mayMatch: (nat, UserKey) -> bool) returns (hit: Option<Entry>)
    requires ReadableLevels(ls)
    requires forall l | 0 <= l < NUM_LEVELS :: NoFalseNegatives(mayMatch, ls[l])
    ensures hit.Some? ==> IsNewest(LevelEntries(ls), k, s, hit.value)
    ensures hit.None? ==> NothingVisible(LevelEntries(ls), k, s)
  {
    hide ValidFile, SortedFiles, NewerThan, NewestNumberFirst, ShallowerIsNewer, IsNewest, NoFalseNegatives;
    hit := SearchLevel0(ls[0], k, s, mayMatch);
    var level := 0;
    while hit.None? && level + 1 < NUM_LEVELS
      invariant level < NUM_LEVELS
      invariant forall l | 0 <= l < level :: NothingVisible(FileEntries(ls[l]), k, s)
      invariant hit.None? ==> NothingVisible(FileEntries(ls[level]), k, s)
      invariant hit.Some? ==> IsNewest(FileEntries(ls[level]), k, s, hit.value)
    {
      level := level + 1;
      if |ls[level]| > 0 {
        hit := SearchSortedLevel(ls[level], k, s, mayMatch);
      }
    }
    if hit.Some? {
      FirstLevelDecides(ls, k, s, level, hit.value);
    } else {
      NoLevelKnows(ls, k, s);
    }
  }

  lemma FirstLevelDecides(ls: Levels, k: UserKey, s: nat, level: nat, e: Entry)
    requires level < |ls| && ShallowerIsNewer(ls) && IsNewest(FileEntries(ls[level]), k, s, e)
    requires forall l | 0 <= l < level :: NothingVisible(FileEntries(ls[l]), k, s)
    ensures IsNewest(LevelEntries(ls), k, s, e)
  {
    InLevel(ls, level, e);
    forall x | x in LevelEntries(ls) && Visible(x, k, s)
      ensures x.key.sequence <= e.key.sequence
    {
      var l := LevelOf(ls, x);
      assert l > level ==> NewerThan(FileEntries(ls[level]), FileEntries(ls[l]));
    }
  }

  lemma NoLevelKnows(ls: Levels, k: UserKey, s: nat)
    requires forall l | 0 <= l < |ls| :: NothingVisible(FileEntries(ls[l]), k, s)
    ensures NothingVisible(LevelEntries(ls), k, s)
  {
    forall e | e in LevelEntries(ls)
      ensures !Visible(e, k, s)
    {
      var l := LevelOf(ls, e);
    }
  }

  lemma LevelOf(ls: Levels, e: Entry) returns (l: nat)
    requires e in LevelEntries(ls)
    ensures l < |ls| && e in FileEntries(ls[l])
  {
    var fs, f :| fs in ls && f in fs && e in f.entries;
    l :| 0 <= l < |ls| && ls[l] == fs;
  }

  lemma InLevel(ls: Levels, l: nat, e: Entry)
    requires l < |ls| && e in FileEntries(ls[l])
    ensures e in LevelEntries(ls)
  {
    assert ls[l] in ls;
  }

  /** All entries of an open database: active memtable, immutable memtable, levels. */
  ghost function AllEntries(mem: seq<Entry>, imm: seq<Entry>, ls: Levels): set<Entry> {
    Elements(mem) + Elements(imm) + LevelEntries(ls)
  }

  /** MAIN: DBImpl::Get returns what the newest visible entry of the whole database says. An absent
      immutable memtable is an empty one. */
  method DatabaseGet(mem: seq<Entry>, imm: seq<Entry>, ls: Levels, k: UserKey, s: nat, mayMatch: (nat, UserKey) -> bool)
    returns (r: Option<Bytes>)
    requires Sorted(mem) && Sorted(imm) && ReadableLevels(ls)
    requires NewerThan(Elements(mem), Elements(imm) + LevelEntries(ls)) && NewerThan(Elements(imm), LevelEntries(ls))
    requires Unique(AllEntries(mem, imm, ls))
    requires forall l | 0 <= l < NUM_LEVELS :: NoFalseNegatives(mayMatch, ls[l])
    ensures r == Read(AllEntries(mem, imm, ls), k, s)
  {
    var all := AllEntries(mem, imm, ls);
    var hit := SearchRun(mem, k, s);
    if hit.None? {
      hit := SearchRun(imm, k, s);
      if hit.None? {
        hit := VersionGet(ls, k, s, mayMatch);
      }
    }
    if hit.Some? {
      assert IsNewest(all, k, s, hit.value);
      ReadIs(all, k, s, hit.value);
      r := Outcome(hit.value);
    } else {
      ReadNothing(all, k, s);
      r := None;
    }
  }
}
