/** SetupOtherInputs extends inputs0 by its boundary files but not inputs1 (db/version_set.cc:1384-1399).
    This concrete database shows what that costs. */
module Boundary {
  import opened Entries
  import opened Files
  import opened Reads
  import opened Inputs
  import opened Compactions
  import opened Installs
  import KeyOrder

  /** The user keys "a" and "b". */
  const A: UserKey := KeyOrder.Rank([0x61])
  const B: UserKey := KeyOrder.Rank([0x62])

  lemma KeysInOrder()
    ensures A < B
  {
    KeyOrder.RankIsOrder([0x61], [0x62]);
  }

  const FRESH := Entry(IKey(A, 4, Value), [1])
  const STALE := Entry(IKey(A, 1, Value), [2])
  const MARKER := Entry(IKey(B, 3, Deletion), [])
  const OLD := Entry(IKey(B, 2, Value), [3])

  /** The last sequence number, which is the smallest snapshot when none is taken. */
  const LAST: nat := 4

  const UPPER := File(10, 1, FRESH.key, FRESH.key, [FRESH])
  const LOWER := File(7, 1, STALE.key, MARKER.key, [STALE, MARKER])
  /** Continues user key B where LOWER ends. */
  const NEXT := File(8, 1, OLD.key, OLD.key, [OLD])

  const LEVELS: Levels := [[], [UPPER], [LOWER, NEXT], [], [], [], []]
  const CHOSEN := CompactionInputs([UPPER], [LOWER], [], FRESH.key)
  const MERGED: seq<Entry> := [FRESH, STALE, MARKER]

  lemma TwoFiles(f: File, g: File)
    ensures FileEntries([f, g]) == Elements(f.entries) + Elements(g.entries)
    ensures FileEntries([f]) == Elements(f.entries)
  {
    assert f in [f] && f in [f, g] && g in [f, g];
  }

  lemma ExampleEntries()
    ensures Elements(UPPER.entries) == {FRESH} && Elements(LOWER.entries) == {STALE, MARKER} && Elements(NEXT.entries) == {OLD}
    ensures Elements(MERGED) == {FRESH, STALE, MARKER}
  {
    assert MERGED[0] == FRESH && MERGED[1] == STALE && MERGED[2] == MARKER;
    assert LOWER.entries[0] == STALE && LOWER.entries[1] == MARKER;
    assert UPPER.entries[0] == FRESH && NEXT.entries[0] == OLD;
  }

  lemma ExampleLevels()
    ensures |LEVELS| == NUM_LEVELS && LEVELS[1] == [UPPER] && LEVELS[2] == [LOWER, NEXT]
    ensures forall l | 0 <= l < NUM_LEVELS && l != 1 && l != 2 :: LEVELS[l] == []
    ensures FileEntries(LEVELS[1]) == {FRESH} && FileEntries(LEVELS[2]) == {STALE, MARKER, OLD}
    ensures InputEntries(CHOSEN) == {FRESH, STALE, MARKER}
  {
    ExampleEntries();
    TwoFiles(UPPER, UPPER);
    TwoFiles(LOWER, NEXT);
  }

  lemma ExampleContents()
    ensures LevelEntries(LEVELS) == {FRESH, STALE, MARKER, OLD}
  {
    hide FileEntries, LevelEntries;
    ExampleLevels();
    assert FileEntries([]) == {} by {
      NoFileEntries();
    }
    forall e
      ensures e in LevelEntries(LEVELS) <==> e in {FRESH, STALE, MARKER, OLD}
    {
      InSomeLevel(LEVELS, e);
    }
  }

  lemma NoFileEntries()
    ensures FileEntries([]) == {}
  {
  }

  lemma ExampleIsReadable()
    ensures ReadableLevels(LEVELS)
  {
    hide FileEntries;
    KeysInOrder();
    ExampleLevels();
    assert FileEntries([]) == {} by {
      NoFileEntries();
    }
    assert ValidFile(UPPER) && ValidFile(LOWER) && ValidFile(NEXT);
    assert ValidLevels(LEVELS) by {
      hide ValidFile;
    }
    assert ShallowerIsNewer(LEVELS) by {
      hide ValidFile, Less;
    }
  }

  /** The inputs are what SetupOtherInputs picks for file UPPER. */
  lemma ExampleIsChosen()
    ensures WellChosen(LEVELS, 1, CHOSEN)
  {
    KeysInOrder();
    assert LEVELS[1] == [UPPER] && LEVELS[2] == [LOWER, NEXT];
    assert [UPPER] == LEVELS[1][0..1];
    assert IsSmallestKey([UPPER], FRESH.key) && IsLargestKey([UPPER], FRESH.key) by {
      assert UPPER in [UPPER];
    }
    assert [LOWER, NEXT][..1] == [LOWER] && [LOWER][..0] == [];
    assert Overlapping([], Some(A), Some(A)) == [];
    assert Overlapping([LOWER], Some(A), Some(A)) == [LOWER];
    assert Overlapping([LOWER, NEXT], Some(A), Some(A)) == [LOWER];
  }

  /** The property fails: a compaction of well-chosen inputs brings a deleted value back. */
  lemma NextLevelBoundaryResurrects()
    ensures ReadableLevels(LEVELS) && WellChosen(LEVELS, 1, CHOSEN) && !NextLevelClear(LEVELS, 1, CHOSEN)
    ensures Sorted(MERGED) && Elements(MERGED) == InputEntries(CHOSEN)
    ensures Read(LevelEntries(LEVELS), B, LAST) == None
    ensures Read(KeptSet(MERGED, LAST, LEVELS, 1) + LeftBehind(LEVELS, CHOSEN), B, LAST) == Some(OLD.value)
    ensures !NothingExposed(LEVELS, 1, MERGED, LAST, LeftBehind(LEVELS, CHOSEN))
  {
    hide ReadableLevels, WellChosen, KeptSet, LeftBehind, LevelEntries, Elements, InputEntries, Read, Sorted, NothingExposed;
    ExampleLevels();
    ExampleContents();
    ExampleIsReadable();
    ExampleIsChosen();
    assert NEXT in LEVELS[2] && LOWER in CHOSEN.inputs1 && NEXT.number != LOWER.number;
    assert IsBoundary(NEXT, LOWER.largest) && NEXT !in CHOSEN.inputs1;
    ExampleEntries();
    BeforeExample();
    AfterExample();
    MarkerExposes();
  }

  lemma MarkerExposes()
    requires LevelEntries(LEVELS) == {FRESH, STALE, MARKER, OLD} && InputEntries(CHOSEN) == {FRESH, STALE, MARKER}
    ensures !NothingExposed(LEVELS, 1, MERGED, LAST, LeftBehind(LEVELS, CHOSEN))
  {
    hide IsBaseLevel, LevelEntries, InputEntries;
    KeysInOrder();
    assert forall l | 3 <= l < NUM_LEVELS :: LEVELS[l] == [];
    assert IsBaseLevel(LEVELS, 1, B) by {
      MarkerIsAtBase();
    }
    var rest := LeftBehind(LEVELS, CHOSEN);
    assert rest == {OLD};
    assert IsNewest(rest, B, MARKER.key.sequence, OLD);
    assert MERGED[2] == MARKER && !Hidden(MERGED, 2, LAST);
    assert MarkerDropped(MERGED, 2, LAST, LEVELS, 1) && Exposes(rest, MERGED[2], LAST);
  }

  lemma MarkerIsAtBase()
    ensures IsBaseLevel(LEVELS, 1, B)
  {
    assert forall l | 3 <= l < NUM_LEVELS :: LEVELS[l] == [];
  }

  lemma BeforeExample()
    ensures Sorted(MERGED) && Read({FRESH, STALE, MARKER, OLD}, B, LAST) == None
  {
    hide Read;
    KeysInOrder();
    assert IsNewest({FRESH, STALE, MARKER, OLD}, B, LAST, MARKER);
    ReadIs({FRESH, STALE, MARKER, OLD}, B, LAST, MARKER);
  }

  lemma MarkerIsDropped()
    ensures Dropped(MERGED, 2, LAST, LEVELS, 1)
  {
    hide ValidFile, Covers;
    KeysInOrder();
    assert forall l | 3 <= l < NUM_LEVELS :: LEVELS[l] == [];
    assert Obsolete(MERGED[2], LAST, LEVELS, 1);
  }

  lemma AfterExample()
    requires LevelEntries(LEVELS) == {FRESH, STALE, MARKER, OLD} && InputEntries(CHOSEN) == {FRESH, STALE, MARKER}
    requires Elements(MERGED) == {FRESH, STALE, MARKER}
    ensures Read(KeptSet(MERGED, LAST, LEVELS, 1) + LeftBehind(LEVELS, CHOSEN), B, LAST) == Some(OLD.value)
  {
    hide KeptSet, Dropped, InputEntries, LevelEntries, Less;
    KeysInOrder();
    assert LeftBehind(LEVELS, CHOSEN) == {OLD};
    MarkerIsNotKept();
    KeptSubset(MERGED, LAST, LEVELS, 1);
    var kept := KeptSet(MERGED, LAST, LEVELS, 1);
    assert kept <= {FRESH, STALE};
    assert IsNewest(kept + {OLD}, B, LAST, OLD);
    ReadIs(kept + {OLD}, B, LAST, OLD);
  }

  lemma MarkerIsNotKept()
    ensures MARKER !in KeptSet(MERGED, LAST, LEVELS, 1)
  {
    hide Dropped;
    MarkerIsDropped();
    KeptElements(MERGED, 3, LAST, LEVELS, 1, MARKER);
  }
}
