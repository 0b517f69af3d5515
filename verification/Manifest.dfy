/** Version edits and the builder that applies them (db/version_edit.h, VersionSet::Builder,
    VersionSet::Recover and WriteSnapshot in db/version_set.cc). */
module Manifest {
  import opened Entries
  import opened Files

  /** VersionEdit: what one MANIFEST record says. `added` pairs a level with a file, in order. */
  datatype Edit = Edit(deleted: set<(nat, nat)>, added: seq<(nat, File)>)

  predicate WellFormed(e: Edit) {
    (forall d | d in e.deleted :: d.0 < NUM_LEVELS) && forall i | 0 <= i < |e.added| :: e.added[i].0 < NUM_LEVELS
  }

  /** BySmallestKey: ascending smallest key, ties broken by file number. */
  predicate Before(f: File, g: File) {
    Less(f.smallest, g.smallest) || (f.smallest == g.smallest && f.number < g.number)
  }

  predicate Ordered(fs: seq<File>) {
    forall i, j | 0 <= i < j < |fs| :: Before(fs[i], fs[j])
  }

  function FileSet(fs: seq<File>): set<File> {
    set f | f in fs
  }

  lemma BeforeIsOrder(f: File, g: File, h: File)
    ensures !Before(f, f)
    ensures Before(f, g) && Before(g, h) ==> Before(f, h)
    ensures f.number != g.number ==> Before(f, g) || Before(g, f)
    ensures !Before(f, g) && !Before(g, f) <==> f.smallest == g.smallest && f.number == g.number
    ensures Before(f, g) ==> !Before(g, f)
  {
    LessIsTotalOrder(f.smallest, g.smallest, h.smallest);
    LessIsTotalOrder(g.smallest, f.smallest, g.smallest);
  }

  /** A level is determined by the set of its files. */
  lemma {:induction false} OrderedIsUnique(fs: seq<File>, gs: seq<File>)
    requires Ordered(fs) && Ordered(gs) && FileSet(fs) == FileSet(gs)
    ensures fs == gs
  {
    hide Before;
    if fs == [] {
      if gs != [] {
        SomeFile(gs);
      }
    } else {
      assert fs[0] in FileSet(gs);
      assert gs != [] && gs[0] in FileSet(fs);
      FirstOfSet(fs, gs);
      RestOfSet(fs);
      RestOfSet(gs);
      OrderedIsUnique(fs[1..], gs[1..]);
      assert fs == [fs[0]] + fs[1..] && gs == [gs[0]] + gs[1..];
    }
  }

  lemma SomeFile(fs: seq<File>)
    requires fs != []
    ensures FileSet(fs) != {}
  {
    assert fs[0] in FileSet(fs);
  }

  lemma FirstOfSet(fs: seq<File>, gs: seq<File>)
    requires Ordered(fs) && Ordered(gs) && FileSet(fs) == FileSet(gs) && fs != [] && gs != []
    ensures fs[0] == gs[0]
  {
    hide Before;
    assert fs[0] in FileSet(gs) && gs[0] in FileSet(fs);
    var i :| 0 <= i < |gs| && gs[i] == fs[0];
    var j :| 0 <= j < |fs| && fs[j] == gs[0];
    BeforeIsOrder(fs[0], gs[0], fs[0]);
  }

  lemma RestOfSet(fs: seq<File>)
    requires Ordered(fs) && fs != []
    ensures FileSet(fs[1..]) == FileSet(fs) - {fs[0]} && Ordered(fs[1..])
  {
    hide Before;
    assert fs == [fs[0]] + fs[1..];
    BeforeIsOrder(fs[0], fs[0], fs[0]);
  }

  // ----- What a list of edits amounts to -----

  function NumbersAt(e: Edit, level: nat): set<nat> {
    set i | 0 <= i < |e.added| && e.added[i].0 == level :: e.added[i].1.number
  }

  function AddedAt(e: Edit, level: nat): set<File> {
    set i | 0 <= i < |e.added| && e.added[i].0 == level :: e.added[i].1
  }

  function DeletedAt(e: Edit, level: nat): set<nat> {
    set d | d in e.deleted && d.0 == level :: d.1
  }

  /** deleted_files after all edits: an addition revives its own number. */
  function Deleted(edits: seq<Edit>, level: nat): set<nat> {
    if edits == [] then {}
    else
      var e := edits[|edits| - 1];
      Deleted(edits[..|edits| - 1], level) + DeletedAt(e, level) - NumbersAt(e, level)
  }

  /** added_files after all edits. */
  function Added(edits: seq<Edit>, level: nat): set<File> {
    if edits == [] then {}
    else Added(edits[..|edits| - 1], level) + AddedAt(edits[|edits| - 1], level)
  }

  /** What one Builder makes of the base and all the edits. */
  function Built(base: set<File>, edits: seq<Edit>, level: nat): set<File> {
    set f | f in base + Added(edits, level) && f.number !in Deleted(edits, level)
  }

  /** One version per edit, each built on the one before. */
  function Stepped(base: set<File>, edits: seq<Edit>, level: nat): set<File> {
    if edits == [] then base
    else Built(Stepped(base, edits[..|edits| - 1], level), [edits[|edits| - 1]], level)
  }

  /** A file number stands for one file only. */
  ghost predicate NumberFixesFile(S: set<File>) {
    forall f, g | f in S && g in S && f.number == g.number :: f == g
  }

  lemma OneEdit(e: Edit, level: nat)
    ensures Deleted([e], level) == DeletedAt(e, level) - NumbersAt(e, level)
    ensures Added([e], level) == AddedAt(e, level)
  {
    assert [e][..0] == [];
    assert Deleted([], level) == {} && Added([], level) == {};
  }

  /** MAIN: feeding all edits through one builder gives the files of the version-per-edit history. */
  lemma {:induction false} ReplayEqualsHistory(base: set<File>, edits: seq<Edit>, level: nat)
    requires NumberFixesFile(base + Added(edits, level))
    ensures Built(base, edits, level) == Stepped(base, edits, level)
  {
    if edits != [] {
      var init, e := edits[..|edits| - 1], edits[|edits| - 1];
      ReplayEqualsHistory(base, init, level);
      OneEdit(e, level);
      forall f
        ensures f in Built(base, edits, level) <==> f in Stepped(base, edits, level)
      {
        if f in base + Added(edits, level) && f.number in NumbersAt(e, level) {
          var i :| 0 <= i < |e.added| && e.added[i].0 == level && e.added[i].1.number == f.number;
          assert e.added[i].1 in AddedAt(e, level);
          assert e.added[i].1 in base + Added(edits, level);
        }
        assert f in AddedAt(e, level) ==> f.number in NumbersAt(e, level);
      }
    }
  }

  // ----- The builder -----

  /** std::set::insert with BySmallestKey: an equivalent file already there stays. */
  method InsertFile(fs: seq<File>, f: File) returns (r: seq<File>)
    requires Ordered(fs) && NumberFixesFile(FileSet(fs) + {f})
    ensures Ordered(r) && FileSet(r) == FileSet(fs) + {f}
  {
    hide Before;
    var at := 0;
    while at < |fs| && Before(fs[at], f)
      invariant at <= |fs|
      invariant forall i | 0 <= i < at :: Before(fs[i], f)
    {
      at := at + 1;
    }
    if at < |fs| && !Before(f, fs[at]) {
      BeforeIsOrder(fs[at], f, f);
      assert fs[at] in FileSet(fs) + {f} && f in FileSet(fs) + {f};
      r := fs;
    } else {
      r := fs[..at] + [f] + fs[at..];
      InsertOrdered(fs, f, at);
    }
  }

  lemma InsertOrdered(fs: seq<File>, f: File, at: nat)
    requires Ordered(fs) && at <= |fs| && (forall i | 0 <= i < at :: Before(fs[i], f))
    requires at < |fs| ==> Before(f, fs[at])
    ensures Ordered(fs[..at] + [f] + fs[at..]) && FileSet(fs[..at] + [f] + fs[at..]) == FileSet(fs) + {f}
  {
    hide Before;
    var front, back := fs[..at], fs[at..];
    forall i | 0 <= i < |back|
      ensures Before(f, back[i])
    {
      BeforeIsOrder(f, fs[at], back[i]);
    }
    assert Ordered([f] + back);
    assert front + [f] + back == front + ([f] + back);
    assert fs == front + back;
  }

  class Builder {
    const base: Levels
    var deleted: seq<set<nat>>
    var added: seq<seq<File>>
    ghost var edits: seq<Edit>

    /** The builder state is what the edits so far amount to. */
    ghost predicate Valid()
      reads this
    {
      |base| == |deleted| == |added| == NUM_LEVELS &&
      forall l | 0 <= l < NUM_LEVELS ::
        Ordered(base[l]) && Ordered(added[l]) &&
        deleted[l] == Deleted(edits, l) && FileSet(added[l]) == Added(edits, l)
    }

    constructor (base: Levels)
      requires |base| == NUM_LEVELS && forall l | 0 <= l < NUM_LEVELS :: Ordered(base[l])
      ensures Valid() && edits == [] && this.base == base
    {
      this.base := base;
      deleted := seq(NUM_LEVELS, _ => {});
      added := seq(NUM_LEVELS, _ => []);
      edits := [];
    }

    method Apply(e: Edit)
      requires Valid() && WellFormed(e)
      requires forall l | 0 <= l < NUM_LEVELS :: NumberFixesFile(Added(edits + [e], l))
      modifies this
      ensures Valid() && edits == old(edits) + [e]
    {
      DeleteFiles(e);
      AddFiles(e, edits, deleted);
      edits := edits + [e];
      assert edits[..|edits| - 1] == old(edits);
    }

    method DeleteFiles(e: Edit)
      requires WellFormed(e) && |deleted| == NUM_LEVELS
      modifies this`deleted
      ensures |deleted| == NUM_LEVELS
      ensures forall l | 0 <= l < NUM_LEVELS :: deleted[l] == old(deleted)[l] + DeletedAt(e, l)
    {
      var rest := e.deleted;
      while rest != {}
        invariant rest <= e.deleted && |deleted| == NUM_LEVELS
        invariant forall l | 0 <= l < NUM_LEVELS ::
          deleted[l] == old(deleted)[l] + DeletedAt(e.(deleted := e.deleted - rest), l)
        decreases rest
      {
        var d :| d in rest;
        assert e.deleted - (rest - {d}) == (e.deleted - rest) + {d};
        deleted := deleted[d.0 := deleted[d.0] + {d.1}];
        rest := rest - {d};
      }
      assert e.(deleted := e.deleted - rest) == e;
    }

    method AddFiles(e: Edit, ghost edits: seq<Edit>, ghost before: seq<set<nat>>)
      requires WellFormed(e) && |deleted| == |added| == NUM_LEVELS && before == deleted
      requires forall l | 0 <= l < NUM_LEVELS :: Ordered(added[l]) && FileSet(added[l]) == Added(edits, l)
      requires forall l | 0 <= l < NUM_LEVELS :: NumberFixesFile(Added(edits + [e], l))
      modifies this`deleted, this`added
      ensures |deleted| == |added| == NUM_LEVELS
      ensures forall l | 0 <= l < NUM_LEVELS :: deleted[l] == before[l] - NumbersAt(e, l)
      ensures forall l | 0 <= l < NUM_LEVELS ::
        Ordered(added[l]) && FileSet(added[l]) == Added(edits, l) + AddedAt(e, l)
    {
      hide Ordered, NumberFixesFile, Added;
      for i := 0 to |e.added|
        invariant |deleted| == |added| == NUM_LEVELS
        invariant forall l | 0 <= l < NUM_LEVELS :: deleted[l] == before[l] - NumbersAt(FirstAdded(e, i), l)
        invariant forall l | 0 <= l < NUM_LEVELS ::
          Ordered(added[l]) && FileSet(added[l]) == Added(edits, l) + AddedAt(FirstAdded(e, i), l)
      {
        var level, f := e.added[i].0, e.added[i].1;
        OneMoreAdded(e, i, edits, level);
        deleted := deleted[level := deleted[level] - {f.number}];
        var files := InsertFile(added[level], f);
        added := added[level := files];
      }
      assert FirstAdded(e, |e.added|) == e;
    }

    /** SaveTo: every level ordered, holding exactly what base and edits amount to. */
    method SaveTo() returns (v: Levels)
      requires Valid()
      requires forall l | 0 <= l < NUM_LEVELS ::
        NumberFixesFile(FileSet(base[l]) + Added(edits, l)) && FileSet(base[l]) !! Added(edits, l)
      ensures |v| == NUM_LEVELS && forall l | 0 <= l < NUM_LEVELS ::
        Ordered(v[l]) && FileSet(v[l]) == Built(FileSet(base[l]), edits, l)
    {
      v := [];
      for level := 0 to NUM_LEVELS
        invariant |v| == level && forall l | 0 <= l < level ::
          Ordered(v[l]) && FileSet(v[l]) == Built(FileSet(base[l]), edits, l)
      {
        var files := MergeLevel(base[level], added[level], deleted[level]);
        v := v + [files];
      }
    }
  }

  /** The edit cut to its first n additions. */
  function FirstAdded(e: Edit, n: nat): Edit
    requires n <= |e.added|
  {
    Edit(e.deleted, e.added[..n])
  }

  lemma OneMoreAdded(e: Edit, i: nat, edits: seq<Edit>, level: nat)
    requires i < |e.added| && e.added[i].0 == level && NumberFixesFile(Added(edits + [e], level))
    ensures NumbersAt(FirstAdded(e, i + 1), level) == NumbersAt(FirstAdded(e, i), level) + {e.added[i].1.number}
    ensures AddedAt(FirstAdded(e, i + 1), level) == AddedAt(FirstAdded(e, i), level) + {e.added[i].1}
    ensures forall l | l != level ::
      NumbersAt(FirstAdded(e, i + 1), l) == NumbersAt(FirstAdded(e, i), l) &&
      AddedAt(FirstAdded(e, i + 1), l) == AddedAt(FirstAdded(e, i), l)
    ensures NumberFixesFile(Added(edits, level) + AddedAt(FirstAdded(e, i), level) + {e.added[i].1})
  {
    var a, b := FirstAdded(e, i), FirstAdded(e, i + 1);
    assert b.added == a.added + [e.added[i]];
    assert (edits + [e])[..|edits|] == edits;
    assert AddedAt(a, level) + {e.added[i].1} <= AddedAt(e, level);
  }

  method MaybeAddFile(v: seq<File>, f: File, deleted: set<nat>) returns (r: seq<File>)
    ensures r == Maybe(v, f, deleted)
  {
    r := v;
    if f.number !in deleted {
      r := r + [f];
    }
  }

  function Surviving(base: seq<File>, added: seq<File>, deleted: set<nat>): set<File> {
    set f | f in FileSet(base) + FileSet(added) && f.number !in deleted
  }

  lemma FileSetAppend(fs: seq<File>, f: File)
    ensures FileSet(fs + [f]) == FileSet(fs) + {f}
  {
    assert forall g :: g in fs + [f] <==> g in fs || g == f;
  }

  /** The files of both lists up to the two cursors, less the deleted ones, in order. */
  ghost predicate Merged(base: seq<File>, added: seq<File>, deleted: set<nat>, b: nat, a: nat, v: seq<File>)
    requires b <= |base| && a <= |added|
  {
    Ordered(v) && FileSet(v) == Surviving(base[..b], added[..a], deleted) &&
    (forall f, j | f in v && b <= j < |base| :: Before(f, base[j])) &&
    forall f, j | f in v && a <= j < |added| :: Before(f, added[j])
  }

  /** v with f appended, unless f is deleted. */
  function Maybe(v: seq<File>, f: File, deleted: set<nat>): seq<File> {
    if f.number in deleted then v else v + [f]
  }

  lemma SurvivingGrows(base: seq<File>, added: seq<File>, deleted: set<nat>, v: seq<File>, f: File)
    requires FileSet(v) == Surviving(base, added, deleted)
    ensures FileSet(Maybe(v, f, deleted)) == Surviving(base + [f], added, deleted)
    ensures FileSet(Maybe(v, f, deleted)) == Surviving(base, added + [f], deleted)
  {
    FileSetAppend(v, f);
    FileSetAppend(base, f);
    FileSetAppend(added, f);
  }

  lemma OrderGrows(v: seq<File>, f: File, deleted: set<nat>, base: seq<File>, b: nat, added: seq<File>, a: nat)
    requires Ordered(v) && (forall x | x in v :: Before(x, f)) && b <= |base| && a <= |added|
    requires forall x, j | x in v && b <= j < |base| :: Before(x, base[j])
    requires forall x, j | x in v && a <= j < |added| :: Before(x, added[j])
    requires forall j | b <= j < |base| :: Before(f, base[j])
    requires forall j | a <= j < |added| :: Before(f, added[j])
    ensures Ordered(Maybe(v, f, deleted))
    ensures forall x, j | x in Maybe(v, f, deleted) && b <= j < |base| :: Before(x, base[j])
    ensures forall x, j | x in Maybe(v, f, deleted) && a <= j < |added| :: Before(x, added[j])
  {
    hide Before;
  }

  lemma MergeBase(base: seq<File>, added: seq<File>, deleted: set<nat>, b: nat, a: nat, v: seq<File>)
    requires Ordered(base) && Ordered(added) && b < |base| && a <= |added| && Merged(base, added, deleted, b, a, v)
    requires a < |added| ==> Before(base[b], added[a])
    ensures Merged(base, added, deleted, b + 1, a, Maybe(v, base[b], deleted))
  {
    hide Before, Surviving, Maybe, FileSet;
    SurvivingGrows(base[..b], added[..a], deleted, v, base[b]);
    assert base[..b + 1] == base[..b] + [base[b]];
    forall j | a <= j < |added|
      ensures Before(base[b], added[j])
    {
      BeforeIsOrder(base[b], added[a], added[j]);
    }
    OrderGrows(v, base[b], deleted, base, b + 1, added, a);
  }

  lemma MergeAdded(base: seq<File>, added: seq<File>, deleted: set<nat>, b: nat, a: nat, v: seq<File>)
    requires Ordered(base) && Ordered(added) && b <= |base| && a < |added| && Merged(base, added, deleted, b, a, v)
    requires b < |base| ==> Before(added[a], base[b])
    ensures Merged(base, added, deleted, b, a + 1, Maybe(v, added[a], deleted))
  {
    hide Before, Surviving, Maybe, FileSet;
    SurvivingGrows(base[..b], added[..a], deleted, v, added[a]);
    assert added[..a + 1] == added[..a] + [added[a]];
    forall j | b <= j < |base|
      ensures Before(added[a], base[j])
    {
      BeforeIsOrder(added[a], base[b], base[j]);
    }
    OrderGrows(v, added[a], deleted, base, b, added, a + 1);
  }

  /** The per-level loop of SaveTo. */
  method MergeLevel(base: seq<File>, added: seq<File>, deleted: set<nat>) returns (v: seq<File>)
    requires Ordered(base) && Ordered(added) && FileSet(base) !! FileSet(added)
    requires NumberFixesFile(FileSet(base) + FileSet(added))
    ensures Ordered(v) && FileSet(v) == Surviving(base, added, deleted)
  {
    hide Before, Ordered;
    v := [];
    var b := 0;
    assert Merged(base, added, deleted, 0, 0, []) by {
      NothingMerged(base, added, deleted);
    }
    for a := 0 to |added|
      invariant 0 <= b <= |base|
      invariant Merged(base, added, deleted, b, a, v)
    {
      while b < |base| && !Before(added[a], base[b])
        invariant 0 <= b <= |base|
        invariant Merged(base, added, deleted, b, a, v)
      {
        DistinctAreOrdered(base, added, b, a);
        MergeBase(base, added, deleted, b, a, v);
        v := MaybeAddFile(v, base[b], deleted);
        b := b + 1;
      }
      MergeAdded(base, added, deleted, b, a, v);
      v := MaybeAddFile(v, added[a], deleted);
    }
    while b < |base|
      invariant 0 <= b <= |base|
      invariant Merged(base, added, deleted, b, |added|, v)
    {
      MergeBase(base, added, deleted, b, |added|, v);
      v := MaybeAddFile(v, base[b], deleted);
      b := b + 1;
    }
    assert base[..|base|] == base && added[..|added|] == added;
  }

  lemma NothingMerged(base: seq<File>, added: seq<File>, deleted: set<nat>)
    ensures Merged(base, added, deleted, 0, 0, [])
  {
  }

  lemma DistinctAreOrdered(base: seq<File>, added: seq<File>, b: nat, a: nat)
    requires b < |base| && a < |added| && FileSet(base) !! FileSet(added)
    requires NumberFixesFile(FileSet(base) + FileSet(added))
    ensures Before(base[b], added[a]) || Before(added[a], base[b])
  {
    assert base[b] in FileSet(base) && added[a] in FileSet(added);
    BeforeIsOrder(base[b], added[a], base[b]);
  }

  // ----- Recovery of a version from its MANIFEST -----

  /** Every level of v is ordered and holds the files of the version-per-edit history. */
  ghost predicate IsVersionOf(v: Levels, edits: seq<Edit>) {
    |v| == NUM_LEVELS && forall l | 0 <= l < NUM_LEVELS :: Ordered(v[l]) && FileSet(v[l]) == Stepped({}, edits, l)
  }

  /** The edits determine the version. */
  lemma VersionIsUnique(v: Levels, w: Levels, edits: seq<Edit>)
    requires IsVersionOf(v, edits) && IsVersionOf(w, edits)
    ensures v == w
  {
    hide Ordered;
    forall l | 0 <= l < NUM_LEVELS
      ensures v[l] == w[l]
    {
      OrderedIsUnique(v[l], w[l]);
    }
  }

  /** A MANIFEST that a database may have written. */
  ghost predicate Consistent(edits: seq<Edit>) {
    (forall i | 0 <= i < |edits| :: WellFormed(edits[i])) &&
    forall l | 0 <= l < NUM_LEVELS :: NumberFixesFile(Added(edits, l))
  }

  lemma {:induction false} AddedGrows(edits: seq<Edit>, n: nat, level: nat)
    requires n <= |edits|
    ensures Added(edits[..n], level) <= Added(edits, level)
  {
    if n < |edits| {
      AddedGrows(edits[..|edits| - 1], n, level);
      assert edits[..|edits| - 1][..n] == edits[..n];
    } else {
      assert edits[..n] == edits;
    }
  }

  /** The next edit may go to a builder that has taken those before it. */
  lemma MayApply(edits: seq<Edit>, i: nat)
    requires Consistent(edits) && i < |edits|
    ensures WellFormed(edits[i]) && edits[..i + 1] == edits[..i] + [edits[i]]
    ensures forall l | 0 <= l < NUM_LEVELS :: NumberFixesFile(Added(edits[..i] + [edits[i]], l))
  {
    assert edits[..i + 1] == edits[..i] + [edits[i]];
    forall l | 0 <= l < NUM_LEVELS
      ensures NumberFixesFile(Added(edits[..i] + [edits[i]], l))
    {
      AddedGrows(edits, i + 1, l);
    }
  }

  lemma SavedIsVersion(v: Levels, edits: seq<Edit>)
    requires Consistent(edits) && |v| == NUM_LEVELS
    requires forall l | 0 <= l < NUM_LEVELS :: Ordered(v[l]) && FileSet(v[l]) == Built(FileSet([]), edits, l)
    ensures IsVersionOf(v, edits)
  {
    hide Ordered, Built, Stepped;
    forall l | 0 <= l < NUM_LEVELS
      ensures FileSet(v[l]) == Stepped({}, edits, l)
    {
      assert FileSet([]) == {} && {} + Added(edits, l) == Added(edits, l);
      ReplayEqualsHistory({}, edits, l);
    }
  }

  /** MAIN: VersionSet::Recover, one builder over all records from an empty version, rebuilds exactly
      the version that LogAndApply had current after the last record. */
  method Replay(edits: seq<Edit>) returns (v: Levels)
    requires Consistent(edits)
    ensures IsVersionOf(v, edits)
  {
    var builder := new Builder(seq(NUM_LEVELS, _ => []));
    for i := 0 to |edits|
      invariant fresh(builder) && builder.Valid() && builder.edits == edits[..i]
      invariant builder.base == seq(NUM_LEVELS, _ => [])
    {
      MayApply(edits, i);
      builder.Apply(edits[i]);
    }
    assert edits[..|edits|] == edits;
    v := builder.SaveTo();
    SavedIsVersion(v, edits);
  }

  /** LogAndApply's new version: one edit on the current one. */
  method NewVersion(current: Levels, edits: seq<Edit>, e: Edit) returns (v: Levels)
    requires IsVersionOf(current, edits) && Consistent(edits + [e])
    requires forall l | 0 <= l < NUM_LEVELS :: FileSet(current[l]) !! AddedAt(e, l)
    ensures IsVersionOf(v, edits + [e])
  {
    var builder := new Builder(current);
    assert (edits + [e])[..|edits|] == edits && (edits + [e])[|edits|] == e;
    forall l: nat {:trigger Added([] + [e], l)} | l < NUM_LEVELS
      ensures Added([] + [e], l) == AddedAt(e, l) && NumberFixesFile(FileSet(current[l]) + AddedAt(e, l))
    {
      OneEdit(e, l);
      assert [] + [e] == [e];
      SteppedWithinAdded(edits, l);
      assert FileSet(current[l]) + AddedAt(e, l) <= Added(edits + [e], l);
    }
    builder.Apply(e);
    v := builder.SaveTo();
  }

  lemma {:induction false} SteppedWithinAdded(edits: seq<Edit>, level: nat)
    ensures Stepped({}, edits, level) <= Added(edits, level)
  {
    if edits != [] {
      SteppedWithinAdded(edits[..|edits| - 1], level);
      OneEdit(edits[|edits| - 1], level);
    }
  }

  /** One edit that adds every file of the first n levels. */
  function SnapshotAdded(current: Levels, n: nat): seq<(nat, File)>
    requires n <= |current|
  {
    if n == 0 then [] else SnapshotAdded(current, n - 1) + OnLevel(n - 1, current[n - 1])
  }

  function SnapshotEdit(current: Levels): Edit {
    Edit({}, SnapshotAdded(current, |current|))
  }

  /** VersionSet::WriteSnapshot. */
  method WriteSnapshot(current: Levels) returns (e: Edit)
    ensures e == SnapshotEdit(current)
  {
    var added: seq<(nat, File)> := [];
    for level := 0 to |current|
      invariant added == SnapshotAdded(current, level)
    {
      for i := 0 to |current[level]|
        invariant added == SnapshotAdded(current, level) + OnLevel(level, current[level])[..i]
      {
        added := added + [(level, current[level][i])];
      }
    }
    e := Edit({}, added);
  }

  lemma {:induction false} SnapshotLevels(current: Levels, n: nat)
    requires n <= |current|
    ensures forall i | 0 <= i < |SnapshotAdded(current, n)| :: SnapshotAdded(current, n)[i].0 < n
    ensures forall l | 0 <= l < n :: AddedAt(Edit({}, SnapshotAdded(current, n)), l) == FileSet(current[l])
  {
    if n > 0 {
      SnapshotLevels(current, n - 1);
      AddLevel(SnapshotAdded(current, n - 1), n - 1, current[n - 1]);
    }
  }

  /** MAIN: replaying the snapshot edit alone rebuilds the current version. */
  lemma SnapshotRebuilds(current: Levels)
    requires |current| == NUM_LEVELS && forall l | 0 <= l < NUM_LEVELS :: Ordered(current[l])
    ensures WellFormed(SnapshotEdit(current)) && IsVersionOf(current, [SnapshotEdit(current)])
    ensures forall l | 0 <= l < NUM_LEVELS :: AddedAt(SnapshotEdit(current), l) == FileSet(current[l])
  {
    var e := SnapshotEdit(current);
    SnapshotLevels(current, |current|);
    forall l | 0 <= l < NUM_LEVELS
      ensures Stepped({}, [e], l) == FileSet(current[l])
    {
      OneEdit(e, l);
      assert [e][..0] == [] && Stepped({}, [], l) == {};
      assert DeletedAt(e, l) == {};
    }
  }

  function OnLevel(level: nat, files: seq<File>): seq<(nat, File)> {
    seq(|files|, i requires 0 <= i < |files| => (level, files[i]))
  }

  lemma AddLevel(added: seq<(nat, File)>, level: nat, files: seq<File>)
    requires forall i | 0 <= i < |added| :: added[i].0 < level
    ensures var more := added + OnLevel(level, files);
      (forall i | 0 <= i < |more| :: more[i].0 <= level) &&
      AddedAt(Edit({}, more), level) == FileSet(files) &&
      forall l: nat | l < level :: AddedAt(Edit({}, more), l) == AddedAt(Edit({}, added), l)
  {
    var more := added + OnLevel(level, files);
    assert forall i | 0 <= i < |added| :: more[i] == added[i];
    assert forall i | 0 <= i < |files| :: more[|added| + i] == (level, files[i]);
    forall f
      ensures f in AddedAt(Edit({}, more), level) <==> f in FileSet(files)
    {
      if f in FileSet(files) {
        var j :| 0 <= j < |files| && files[j] == f;
        assert more[|added| + j] == (level, f);
      }
      if f in AddedAt(Edit({}, more), level) {
        var i :| 0 <= i < |more| && more[i] == (level, f);
        assert i >= |added| && f == files[i - |added|];
      }
    }
    forall l: nat, f | l < level
      ensures f in AddedAt(Edit({}, more), l) <==> f in AddedAt(Edit({}, added), l)
    {
      if f in AddedAt(Edit({}, added), l) {
        var i :| 0 <= i < |added| && added[i] == (l, f);
        assert more[i] == (l, f);
      }
    }
  }
}
