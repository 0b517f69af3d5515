/** Damage to a log: blocks whose bytes are overwritten cost the records that touch them, and no others. */
module LogDamage {
  import opened Entries
  import opened Checksums
  import opened Log
  import opened LogReader
  import Crc

  // ----- Block boundaries fall between fragments -----

  lemma {:induction false} PrefixFits(off: nat, ps: seq<Piece>, k: nat)
    requires off < BLOCK && Fit(off, ps) && k <= |ps|
    ensures Fit(off, ps[..k])
    decreases |ps|
  {
    if k > 0 {
      PrefixFits(Next(off, |ps[0].data|), ps[1..], k - 1);
      assert ps[..k][1..] == ps[1..][..k - 1];
    }
  }

  /** The place behind the first k pieces. */
  function PlaceOf(t: Crc.Tables, p: nat, ps: seq<Piece>, k: nat): nat
    requires Fit(InBlock(p), ps) && k <= |ps|
  {
    PrefixFits(InBlock(p), ps, k);
    p + |Lay(t, InBlock(p), ps[..k])|
  }

  /** The pieces before and after, and where the latter begin. */
  lemma {:induction false} PlaceSplits(t: Crc.Tables, p: nat, ps: seq<Piece>, k: nat)
    requires Fit(InBlock(p), ps) && k <= |ps|
    ensures var q := PlaceOf(t, p, ps, k);
      p <= q && Fit(InBlock(p), ps[..k]) && Fit(InBlock(q), ps[k..]) && InBlock(q) == OffAfter(InBlock(p), ps[..k]) &&
      Lay(t, InBlock(p), ps) == Lay(t, InBlock(p), ps[..k]) + Lay(t, InBlock(q), ps[k..])
    decreases |ps|
  {
    hide Chunk, InBlock, Header, Padding, Lay, Fit, OffAfter;
    PrefixFits(InBlock(p), ps, k);
    NothingLaid(t, InBlock(p));
    if k == 0 {
      assert ps[..0] == [] && ps[0..] == ps;
    } else {
      FirstPiece(t, p, ps);
      assert ps[..k][1..] == ps[1..][..k - 1] && ps[k..] == ps[1..][k - 1..];
      FirstPiece(t, p, ps[..k]);
      var q := p + |Padding(InBlock(p)) + Chunk(t, ps[0].kind, ps[0].data)|;
      PlaceSplits(t, q, ps[1..], k - 1);
    }
  }

  /** Piece k lies between two places. */
  lemma PlaceNext(t: Crc.Tables, p: nat, ps: seq<Piece>, k: nat)
    requires Fit(InBlock(p), ps) && k < |ps|
    ensures var q := PlaceOf(t, p, ps, k);
      PlaceOf(t, p, ps, k + 1) == Header(q) + HEADER + |ps[k].data| && InBlock(Header(q)) + HEADER + |ps[k].data| <= BLOCK
  {
    hide Chunk, InBlock, Header, Padding, Lay, Fit, OffAfter;
    PlaceSplits(t, p, ps, k);
    var q := PlaceOf(t, p, ps, k);
    FirstPiece(t, q, ps[k..]);
    PrefixFits(InBlock(p), ps, k + 1);
    PlaceSplits(t, p, ps[..k + 1], k);
    assert ps[..k + 1][..k] == ps[..k] && ps[..k + 1][k..] == [ps[k]];
    FirstPiece(t, q, [ps[k]]);
    assert [ps[k]][1..] == [];
    NothingLaid(t, InBlock(PlaceOf(t, p, ps, k + 1)));
    NothingLaid(t, InBlock(Header(q) + HEADER + |ps[k].data|));
  }

  lemma {:induction false} PlacesGrow(t: Crc.Tables, p: nat, ps: seq<Piece>, k: nat, m: nat)
    requires Fit(InBlock(p), ps) && k <= m <= |ps|
    ensures PlaceOf(t, p, ps, k) <= PlaceOf(t, p, ps, m)
    ensures k < m ==> Header(PlaceOf(t, p, ps, k)) + HEADER <= PlaceOf(t, p, ps, m)
    decreases m - k
  {
    hide InBlock, Header, Fit, PlaceOf;
    if k < m {
      PlaceNext(t, p, ps, k);
      PlacesGrow(t, p, ps, k + 1, m);
    }
  }

  /** A fragment ends where its block does, or before. */
  lemma BoundaryBehind(at: nat, n: nat, b: nat)
    requires InBlock(b) == 0 && at < b && InBlock(at) + n <= BLOCK
    ensures at + n <= b
  {
    var q, r := at / 32768, b / 32768;
    assert at == 32768 * q + InBlock(at) && b == 32768 * r;
    assert q < r;
  }

  /** The first k pieces lie before a block boundary, and the others behind it. */
  lemma {:induction false} BoundaryAt(t: Crc.Tables, p: nat, ps: seq<Piece>, b: nat, from: nat) returns (k: nat)
    requires Fit(InBlock(p), ps) && from <= |ps| && InBlock(b) == 0
    requires PlaceOf(t, p, ps, from) <= b <= PlaceOf(t, p, ps, |ps|)
    ensures from <= k <= |ps| && PlaceOf(t, p, ps, k) <= b <= Header(PlaceOf(t, p, ps, k))
    decreases |ps| - from
  {
    hide InBlock, Header, Fit, PlaceOf;
    k := from;
    if b > Header(PlaceOf(t, p, ps, from)) {
      var q := PlaceOf(t, p, ps, from);
      PlaceNext(t, p, ps, from);
      BoundaryBehind(Header(q), HEADER + |ps[from].data|, b);
      k := BoundaryAt(t, p, ps, b, from + 1);
    }
  }

  // ----- Reading up to a boundary, and from it on -----

  /** Trailers are passed over: reading is the same from where the next header may start. */
  lemma HeaderOfHeader(t: Crc.Tables, file: Bytes, p: nat)
    requires Header(p) <= |file|
    ensures Header(Header(p)) == Header(p) && Physicals(t, file, p) == Physicals(t, file, Header(p))
  {
    hide InBlock, Parsed;
    HeaderIs(p);
    HeaderIs(Header(p));
  }

  /** Reading from p on comes to the boundary q. */
  ghost predicate Reaches(t: Crc.Tables, file: Bytes, p: nat, q: nat)
    requires p <= q <= |file|
    decreases q - p
  {
    Header(p) >= q ||
    (Taken(PhysicalAt(t, file, p)) != Eof && Behind(t, file, p) <= q && Reaches(t, file, Behind(t, file, p), q))
  }

  lemma {:induction false} ReachesSplits(t: Crc.Tables, file: Bytes, p: nat, q: nat) returns (mid: seq<Physical>)
    requires p <= q <= |file| && InBlock(q) == 0 && Reaches(t, file, p, q)
    ensures Physicals(t, file, p) == mid + Physicals(t, file, q)
    decreases q - p
  {
    hide InBlock, PhysicalAt, Behind, Header;
    if Header(p) >= q {
      HeaderAtBoundary(p, q);
      HeaderOfHeader(t, file, p);
      HeaderOfHeader(t, file, q);
      mid := [];
    } else {
      mid := ReachesSplits(t, file, Behind(t, file, p), q);
      mid := [Taken(PhysicalAt(t, file, p))] + mid;
    }
  }

  lemma HeaderAtBoundary(p: nat, q: nat)
    requires p <= q <= Header(p) && InBlock(q) == 0
    ensures Header(p) == q == Header(q)
  {
    hide InBlock;
    HeaderIs(p);
    HeaderIs(q);
    if p < q {
      BoundaryBehind(p, BLOCK - InBlock(p), q);
    }
  }

  /** The damage cannot be got over only if the type byte of a sound fragment in it is 5: that is taken for the end. */
  lemma {:induction false} StoppedByFive(t: Crc.Tables, file: Bytes, p: nat, q: nat) returns (at: nat)
    requires p <= q <= |file| && InBlock(q) == 0 && !Reaches(t, file, p, q)
    ensures p <= at < q && Header(p) <= Header(at) < q
    ensures PhysicalAt(t, file, at).Fragment? && PhysicalAt(t, file, at).kind == 5
    decreases q - p
  {
    hide InBlock, Parsed;
    NoEndInside(t, file, p, q);
    if Taken(PhysicalAt(t, file, p)) == Eof {
      at := p;
    } else {
      at := StoppedByFive(t, file, Behind(t, file, p), q);
    }
  }

  lemma NoEndInside(t: Crc.Tables, file: Bytes, p: nat, q: nat)
    requires p <= q <= |file| && InBlock(q) == 0 && Header(p) < q
    ensures PhysicalAt(t, file, p) != Eof && Behind(t, file, p) <= q
  {
    hide InBlock, Crc.Extended, Crc.Unmask;
    HeaderIs(p);
    var at := Header(p);
    BoundaryBehind(at, BLOCK - InBlock(at), q);
  }

  lemma FitsFromBoundary(p: nat, ps: seq<Piece>, b: nat)
    requires Fit(InBlock(p), ps) && InBlock(b) == 0 && p <= b <= Header(p)
    ensures Fit(InBlock(b), ps)
  {
    hide InBlock, Padding;
    HeaderAtBoundary(p, b);
    HeaderIs(p);
  }

  /** The bytes of pieces from a boundary on. */
  lemma LaidFromBoundary(t: Crc.Tables, p: nat, ps: seq<Piece>, b: nat)
    requires Fit(InBlock(p), ps) && InBlock(b) == 0 && p <= b <= Header(p) && (ps == [] ==> p == b)
    ensures Fit(InBlock(b), ps) && |Lay(t, InBlock(p), ps)| == b - p + |Lay(t, InBlock(b), ps)|
    ensures Lay(t, InBlock(p), ps)[b - p..] == Lay(t, InBlock(b), ps)
  {
    hide InBlock, Chunk, Lay, Fit, OffAfter, Next;
    FitsFromBoundary(p, ps, b);
    HeaderAtBoundary(p, b);
    if p < b {
      HeaderIs(p);
      FirstPiece(t, p, ps);
      FirstPiece(t, b, ps);
      var c, more := Chunk(t, ps[0].kind, ps[0].data), Lay(t, InBlock(b + HEADER + |ps[0].data|), ps[1..]);
      assert Lay(t, InBlock(p), ps) == Padding(InBlock(p)) + (c + more);
      assert Lay(t, InBlock(b), ps) == c + more;
    }
  }

  /** From a boundary behind the damage on, the fragments are read as they were written. */
  lemma BehindReads(t: Crc.Tables, file: Bytes, ps: seq<Piece>, b: nat, k: nat)
    requires Fit(InBlock(0), ps) && k <= |ps| && InBlock(b) == 0
    requires var whole := Lay(t, InBlock(0), ps); b <= |file| == |whole| && file[b..] == whole[b..]
    requires PlaceOf(t, 0, ps, k) <= b <= Header(PlaceOf(t, 0, ps, k)) && (k == |ps| ==> PlaceOf(t, 0, ps, k) == b)
    ensures Physicals(t, file, b) == AsRead(ps[k..])
  {
    hide InBlock, Chunk, Header, Lay, Fit, OffAfter, Physicals, AsRead;
    var whole := Lay(t, InBlock(0), ps);
    var q := PlaceOf(t, 0, ps, k);
    PlaceSplits(t, 0, ps, k);
    var rest := Lay(t, InBlock(q), ps[k..]);
    LaidFromBoundary(t, q, ps[k..], b);
    assert whole[b..] == rest[b - q..];
    assert file[b..|file|] == file[b..];
    WholeReads(t, file, b, ps[k..]);
    EndIsRead(t, file);
    NothingMore(AsRead(ps[k..]));
  }

  lemma NothingMore(r: seq<Physical>)
    ensures r + [] == r
  {
  }

  lemma EndIsRead(t: Crc.Tables, file: Bytes)
    ensures Physicals(t, file, |file|) == []
  {
  }

  /** Before the damage, too. */
  lemma FrontReads(t: Crc.Tables, file: Bytes, ps: seq<Piece>, a: nat, k: nat)
    requires Fit(InBlock(0), ps) && k <= |ps|
    requires var whole := Lay(t, InBlock(0), ps); a <= |file| == |whole| && file[..a] == whole[..a]
    requires PlaceOf(t, 0, ps, k) <= a
    ensures Physicals(t, file, 0) == AsRead(ps[..k]) + Physicals(t, file, PlaceOf(t, 0, ps, k))
  {
    hide InBlock, Chunk, Header, Lay, Fit, OffAfter, Physicals, AsRead;
    var whole := Lay(t, InBlock(0), ps);
    PlaceSplits(t, 0, ps, k);
    var front := Lay(t, InBlock(0), ps[..k]);
    assert file[0..|front|] == file[..a][..|front|] == whole[..a][..|front|] == front;
    WholeReads(t, file, 0, ps[..k]);
  }

  // ----- The records -----

  lemma {:induction false} AllLogical(s: Assembly, off: nat, records: seq<Bytes>, rest: seq<Physical>)
    requires off < BLOCK && s.Assembling?
    ensures Logical(s, AsRead(AllPieces(off, records)) + rest).records ==
      records + Logical(if records == [] then s else NOTHING, rest).records
    decreases |records|
  {
    hide Logical, AsRead, Pieces, EndOff;
    if records == [] {
      NothingRead(rest);
    } else {
      var next := EndOff(off, records[0]);
      var first, more := Pieces(off, records[0], true), AllPieces(next, records[1..]);
      AsReadConcat(first, more);
      assert AsRead(first) + AsRead(more) + rest == AsRead(first) + (AsRead(more) + rest);
      RecordLogical(s, off, records[0], true, AsRead(more) + rest);
      AllLogical(NOTHING, next, records[1..], rest);
      assert [records[0]] + records[1..] == records;
    }
  }

  lemma AsReadConcat(a: seq<Piece>, b: seq<Piece>)
    ensures AsRead(a + b) == AsRead(a) + AsRead(b)
  {
  }

  /** Reading on after `a` in some state. */
  lemma {:induction false} LogicalSplits(s: Assembly, a: seq<Physical>, b: seq<Physical>) returns (s': Assembly)
    requires s.Assembling?
    ensures s'.Assembling? && Logical(s, a + b).records == Logical(s, a).records + Logical(s', b).records
    decreases |a|
  {
    hide Logical, Assembled, Complaints, Own;
    if a == [] {
      assert a + b == b;
      NoneLogical(s);
      s' := s;
    } else {
      assert a + b == [a[0]] + (a[1..] + b) && a == [a[0]] + a[1..];
      LogicalStep(s, a[0], a[1..] + b);
      LogicalStep(s, a[0], a[1..]);
      var next := Assembled(s, a[0]);
      s' := LogicalSplits(if next.Done? then NOTHING else next, a[1..], b);
    }
  }

  lemma NoneLogical(s: Assembly)
    requires s.Assembling?
    ensures Logical(s, []) == Reading([], 0)
  {
  }

  /** The records before i and from i on are two runs of pieces. */
  lemma {:induction false} AllPiecesSplit(t: Crc.Tables, off: nat, records: seq<Bytes>, i: nat)
    requires off < BLOCK && i <= |records|
    ensures AllPieces(off, records) == AllPieces(off, records[..i]) + AllPieces(LogEnd(off, records[..i]), records[i..])
    decreases i
  {
    hide Pieces, EndOff;
    if i == 0 {
      assert records[..0] == [] && records[0..] == records;
    } else {
      AllPiecesSplit(t, EndOff(off, records[0]), records[1..], i - 1);
      assert records[..i][1..] == records[1..][..i - 1] && records[1..][i - 1..] == records[i..];
    }
  }

  /** Where the pieces of the first i records end in the list, and in the file. */
  lemma RecordPlace(t: Crc.Tables, records: seq<Bytes>, i: nat) returns (m: nat)
    requires i <= |records|
    ensures InBlock(0) == 0 && Fit(0, AllPieces(0, records)) && m <= |AllPieces(0, records)|
    ensures AllPieces(0, records)[..m] == AllPieces(0, records[..i])
    ensures AllPieces(0, records)[m..] == AllPieces(LogEnd(0, records[..i]), records[i..])
    ensures PlaceOf(t, 0, AllPieces(0, records), m) == |LogBytes(t, 0, records[..i])|
  {
    hide Pieces, EndOff, Chunk, Lay, Fit, InBlock, AllPieces, LogEnd;
    InBlockAdvances(0, 0);
    LogIsLaid(t, 0, records);
    LogIsLaid(t, 0, records[..i]);
    AllPiecesSplit(t, 0, records, i);
    var front, all := AllPieces(0, records[..i]), AllPieces(0, records);
    m := |front|;
    assert all[..m] == front && all[m..] == AllPieces(LogEnd(0, records[..i]), records[i..]);
  }

  // ----- The result -----

  /** The file is the log but for the blocks from a up to b, which may hold any bytes. */
  ghost predicate Damaged(t: Crc.Tables, records: seq<Bytes>, file: Bytes, a: nat, b: nat) {
    var whole := LogBytes(t, 0, records);
    |file| == |whole| && InBlock(a) == InBlock(b) == 0 && a <= b && a <= |file| && file[..a] == whole[..a] &&
    (b <= |file| ==> file[b..] == whole[b..])
  }

  /** The first i records end before the damage, and those from j on begin behind it. */
  ghost predicate Untouched(t: Crc.Tables, records: seq<Bytes>, a: nat, b: nat, i: nat, j: nat)
    requires i <= j <= |records|
  {
    |LogBytes(t, 0, records[..i])| <= a && (j < |records| ==> b <= Header(|LogBytes(t, 0, records[..j])|))
  }

  /** No fragment in the damaged blocks has the right checksum and the type byte 5. */
  ghost predicate NoFive(t: Crc.Tables, file: Bytes, a: nat, b: nat) {
    forall p: nat | p <= |file| && a <= Header(p) < b && PhysicalAt(t, file, p).Fragment? :: PhysicalAt(t, file, p).kind != 5
  }

  /** What lies between two places that are both read as written: the fragments in front, then anything. */
  lemma FrontIs(t: Crc.Tables, records: seq<Bytes>, file: Bytes, a: nat, b: nat, i: nat) returns (k: nat, m: nat)
    requires Damaged(t, records, file, a, b) && i <= |records| && |LogBytes(t, 0, records[..i])| <= a
    ensures InBlock(0) == 0 && Fit(0, AllPieces(0, records))
    ensures var ps := AllPieces(0, records);
      m <= k <= |ps| && ps[..m] == AllPieces(0, records[..i]) && PlaceOf(t, 0, ps, k) <= a <= Header(PlaceOf(t, 0, ps, k)) &&
      Physicals(t, file, 0) == AsRead(ps[..k]) + Physicals(t, file, PlaceOf(t, 0, ps, k))
  {
    hide InBlock, Header, Lay, Fit, OffAfter, Physicals, AsRead, AllPieces, LogBytes, PlaceOf;
    InBlockAdvances(0, 0);
    var ps := AllPieces(0, records);
    m := RecordPlace(t, records, i);
    WholePlace(t, records);
    k := BoundaryAt(t, 0, ps, a, 0);
    if k < m {
      PlacesGrow(t, 0, ps, k, m);
    }
    FrontReads(t, file, ps, a, k);
  }

  lemma WholePlace(t: Crc.Tables, records: seq<Bytes>)
    ensures InBlock(0) == 0 && Fit(0, AllPieces(0, records)) && Lay(t, 0, AllPieces(0, records)) == LogBytes(t, 0, records)
    ensures var ps := AllPieces(0, records); PlaceOf(t, 0, ps, 0) == 0 && PlaceOf(t, 0, ps, |ps|) == |LogBytes(t, 0, records)|
  {
    hide InBlock, Lay, Fit, OffAfter, AllPieces, LogBytes;
    InBlockAdvances(0, 0);
    LogIsLaid(t, 0, records);
    NothingLaid(t, 0);
    var ps := AllPieces(0, records);
    assert ps[..0] == [] && ps[..|ps|] == ps;
  }

  lemma NoPieces(off: nat)
    requires off < BLOCK
    ensures AllPieces(off, []) == []
  {
  }

  lemma BackIs(t: Crc.Tables, records: seq<Bytes>, file: Bytes, a: nat, b: nat, j: nat) returns (k: nat, m: nat)
    requires Damaged(t, records, file, a, b) && j <= |records| && b <= |file|
    requires j < |records| ==> b <= Header(|LogBytes(t, 0, records[..j])|)
    ensures var ps := AllPieces(0, records);
      k <= m <= |ps| && ps[m..] == AllPieces(LogEnd(0, records[..j]), records[j..]) && Physicals(t, file, b) == AsRead(ps[k..])
  {
    hide InBlock, Header, Lay, Fit, OffAfter, Physicals, AsRead, AllPieces, LogBytes, PlaceOf;
    InBlockAdvances(0, 0);
    var ps := AllPieces(0, records);
    m := RecordPlace(t, records, j);
    WholePlace(t, records);
    k := BoundaryAt(t, 0, ps, b, 0);
    if j == |records| {
      assert records[j..] == [];
      NoPieces(LogEnd(0, records[..j]));
    } else if m < k {
      PlacesGrow(t, 0, ps, m, k);
    }
    BehindReads(t, file, ps, b, k);
  }

  lemma FrontLogical(records: seq<Bytes>, i: nat, k: nat, m: nat, rest: seq<Physical>)
    requires i <= |records| && m <= k <= |AllPieces(0, records)| && AllPieces(0, records)[..m] == AllPieces(0, records[..i])
    ensures Logical(NOTHING, AsRead(AllPieces(0, records)[..k]) + rest).records ==
      records[..i] + Logical(NOTHING, AsRead(AllPieces(0, records)[m..k]) + rest).records
  {
    hide Logical, AsRead, AllPieces;
    var ps := AllPieces(0, records);
    assert ps[..k] == ps[..m] + ps[m..k];
    AsReadConcat(ps[..m], ps[m..k]);
    assert AsRead(ps[..m]) + AsRead(ps[m..k]) + rest == AsRead(ps[..m]) + (AsRead(ps[m..k]) + rest);
    AllLogical(NOTHING, 0, records[..i], AsRead(ps[m..k]) + rest);
  }

  lemma BackLogical(front: seq<Physical>, off: nat, ps: seq<Piece>, k: nat, m: nat, records: seq<Bytes>) returns (x: seq<Bytes>)
    requires off < BLOCK && k <= m <= |ps| && ps[m..] == AllPieces(off, records)
    ensures Logical(NOTHING, front + AsRead(ps[k..])).records == x + records
  {
    hide Logical, AsRead, AllPieces;
    assert ps[k..] == ps[k..m] + ps[m..];
    AsReadConcat(ps[k..m], ps[m..]);
    var between := front + AsRead(ps[k..m]);
    assert front + (AsRead(ps[k..m]) + AsRead(ps[m..])) == between + AsRead(ps[m..]);
    var s := LogicalSplits(NOTHING, between, AsRead(ps[m..]));
    NothingMore(AsRead(ps[m..]));
    AllLogical(s, off, records, []);
    NoneLogical(if records == [] then s else NOTHING);
    x := Logical(NOTHING, between).records;
  }

  /** MAIN: whatever bytes are in the damaged blocks, every record that does not touch them is read, in order; only if a
      fragment with the right checksum and the type byte 5 is among them may reading end there. */
  lemma DamageIsLocal(t: Crc.Tables, records: seq<Bytes>, file: Bytes, a: nat, b: nat, i: nat, j: nat) returns (x: seq<Bytes>)
    requires Damaged(t, records, file, a, b) && i <= j <= |records| && Untouched(t, records, a, b, i, j)
    requires NoFive(t, file, a, b)
    ensures Logical(NOTHING, Physicals(t, file, 0)).records == records[..i] + x + records[j..]
  {
    hide InBlock, Header, Lay, Fit, OffAfter, Physicals, AsRead, AllPieces, LogBytes, PlaceOf, Logical, Reaches, PhysicalAt;
    var ps := AllPieces(0, records);
    var k, m := FrontIs(t, records, file, a, b, i);
    var p := PlaceOf(t, 0, ps, k);
    FrontLogical(records, i, k, m, Physicals(t, file, p));
    if b <= |file| {
      if !Reaches(t, file, p, b) {
        var at := StoppedByFive(t, file, p, b);
      }
      var mid := ReachesSplits(t, file, p, b);
      var n, l := BackIs(t, records, file, a, b, j);
      assert AsRead(ps[m..k]) + (mid + AsRead(ps[n..])) == AsRead(ps[m..k]) + mid + AsRead(ps[n..]);
      x := BackLogical(AsRead(ps[m..k]) + mid, LogEnd(0, records[..j]), ps, n, l, records[j..]);
    } else {
      EndIsBefore(t, records, b, j);
      x := Logical(NOTHING, AsRead(ps[m..k]) + Physicals(t, file, p)).records;
    }
  }

  /** No record begins behind the end. */
  lemma EndIsBefore(t: Crc.Tables, records: seq<Bytes>, b: nat, j: nat)
    requires b > |LogBytes(t, 0, records)| && InBlock(b) == 0 && j <= |records|
    requires j < |records| ==> b <= Header(|LogBytes(t, 0, records[..j])|)
    ensures records[j..] == []
  {
    hide InBlock, Header, PlaceOf, AllPieces, Fit, Lay;
    if j < |records| {
      var m := RecordPlace(t, records, j);
      WholePlace(t, records);
      MorePieces(t, records, j, m);
      PlacesGrow(t, 0, AllPieces(0, records), m, |AllPieces(0, records)|);
    }
  }

  lemma MorePieces(t: Crc.Tables, records: seq<Bytes>, j: nat, m: nat)
    requires j < |records| && m <= |AllPieces(0, records)|
    requires AllPieces(0, records)[m..] == AllPieces(LogEnd(0, records[..j]), records[j..])
    ensures m < |AllPieces(0, records)|
  {
    hide Pieces, EndOff, LogEnd;
    var off := LogEnd(0, records[..j]);
    assert |AllPieces(off, records[j..])| >= |Pieces(off, records[j..][0], true)| > 0;
  }

  /** The exception: behind a fragment with the type byte 5 nothing is read, and nothing is reported, though its checksum is
      right. */
  lemma FiveEndsTheLog(t: Crc.Tables, data: Bytes, rest: Bytes)
    requires HEADER + |data| <= BLOCK
    ensures Logical(NOTHING, Physicals(t, Chunk(t, 5, data) + rest, 0)) == Reading([], 0)
  {
    hide Chunk, Crc.Extended, Crc.Unmask, Fixed32Of, Bits;
    var c, file := Chunk(t, 5, data), Chunk(t, 5, data) + rest;
    InBlockAdvances(0, 0);
    HeaderIs(0);
    ChunkChecks(t, 5, data);
    var end := BlockEnd(|file|, 0);
    var buf := file[0..end];
    assert buf[..|c|] == c;
    assert buf[6..HEADER + |data|] == c[6..] && buf[HEADER..HEADER + |data|] == c[HEADER..];
    assert forall i | 0 <= i < HEADER :: buf[i] == c[i];
    Fixed32Same(c, buf);
    assert PhysicalAt(t, file, 0) == Fragment(5, data);
  }
}
