/** The portable CRC-32C (util/crc32c.cc, util/crc32c.h; section 12.1 of RFC 3720): four interleaved strides
    against one byte at a time. The numeric tables are parameters. */
module Crc {
  import opened Entries

  // ----- Machine words -----

  function Xor(a: bv32, b: bv32): bv32 {
    a ^ b
  }

  function Xor8(a: bv8, b: bv8): bv8 {
    a ^ b
  }

  function Low(w: bv32): bv8 {
    (w & 0xff) as bv8
  }

  function Shift(w: bv32): bv32 {
    w >> 8
  }

  function Wide(b: bv8): bv32 {
    b as bv32
  }

  function Up(w: bv32): bv32 {
    w << 8
  }

  /** Byte i of a word. */
  function Part(w: bv32, i: nat): bv8
    requires i < 4
  {
    Low(if i == 0 then w else if i == 1 then w >> 8 else if i == 2 then w >> 16 else w >> 24)
  }

  /** The word with one byte in place i. */
  function Placed(b: bv8, i: nat): bv32
    requires i < 4
  {
    var w := Wide(b);
    if i == 0 then w else if i == 1 then w << 8 else if i == 2 then w << 16 else w << 24
  }

  /** DecodeFixed32. */
  function Word(b0: bv8, b1: bv8, b2: bv8, b3: bv8): bv32 {
    Wide(b0) | (Wide(b1) << 8) | (Wide(b2) << 16) | (Wide(b3) << 24)
  }

  lemma XorAssociates(a: bv32, b: bv32, c: bv32)
    ensures Xor(Xor(a, b), c) == Xor(a, Xor(b, c))
  {
  }

  lemma XorLaws(a: bv32, b: bv32, c: bv32)
    ensures Xor(a, b) == Xor(b, a) && Xor(Xor(a, b), c) == Xor(a, Xor(b, c))
    ensures Xor(Xor(a, b), b) == a && Xor(a, 0) == a
  {
    XorCommutes(a, b);
    XorCancels(a, b);
    hide Xor;
    XorAssociates(a, b, c);
  }

  lemma XorCommutes(a: bv32, b: bv32)
    ensures Xor(a, b) == Xor(b, a)
  {
  }

  lemma XorCancels(a: bv32, b: bv32)
    ensures Xor(Xor(a, b), b) == a && Xor(a, 0) == a
  {
  }

  lemma XorPairs(a: bv32, b: bv32, c: bv32, d: bv32)
    ensures Xor(Xor(a, b), Xor(c, d)) == Xor(Xor(a, c), Xor(b, d))
  {
    hide Xor;
    XorAssociates(a, b, Xor(c, d));
    XorAssociates(b, c, d);
    XorCommutes(b, c);
    XorAssociates(c, b, d);
    XorAssociates(a, c, Xor(b, d));
  }

  lemma XorParts(a: bv32, b: bv32)
    ensures Shift(Xor(a, b)) == Xor(Shift(a), Shift(b)) && Low(Xor(a, b)) == Xor8(Low(a), Low(b))
  {
  }

  lemma ByteParts(b: bv8)
    ensures Shift(Wide(b)) == 0 && Low(Wide(b)) == b
  {
  }

  lemma UpParts(w: bv32)
    requires w < 0x100_0000
    ensures Shift(Up(w)) == w && Low(Up(w)) == 0
  {
  }

  lemma WordParts(b0: bv8, b1: bv8, b2: bv8, b3: bv8)
    ensures Word(b0, b1, b2, b3) == Xor(Wide(b0), Up(Xor(Wide(b1), Up(Xor(Wide(b2), Up(Wide(b3)))))))
    ensures Wide(b3) < 0x100_0000 && Xor(Wide(b2), Up(Wide(b3))) < 0x100_0000
    ensures Xor(Wide(b1), Up(Xor(Wide(b2), Up(Wide(b3))))) < 0x100_0000
  {
  }

  /** A word is the xor of its bytes, each in its place. */
  lemma WordSplits(w: bv32)
    ensures w == Xor(Xor(Placed(Part(w, 0), 0), Placed(Part(w, 1), 1)), Xor(Placed(Part(w, 2), 2), Placed(Part(w, 3), 3)))
  {
  }

  // ----- One byte at a time -----

  /** kByteExtensionTable and the four kStrideExtensionTables. */
  datatype Tables = Tables(
    byte: bv8 -> bv32, stride0: bv8 -> bv32, stride1: bv8 -> bv32, stride2: bv8 -> bv32, stride3: bv8 -> bv32)

  const ONES: bv32 := 0xffffffff

  /** STEP1. */
  function Step(t: Tables, l: bv32, b: bv8): bv32 {
    Xor(t.byte(Xor8(Low(l), b)), Shift(l))
  }

  function Run(t: Tables, l: bv32, data: seq<bv8>): bv32 {
    if data == [] then l else Step(t, Run(t, l, data[..|data| - 1]), data[|data| - 1])
  }

  /** The specification of Extend. */
  function Extended(t: Tables, crc: bv32, data: seq<bv8>): bv32 {
    Xor(Run(t, Xor(crc, ONES), data), ONES)
  }

  lemma {:induction false} RunConcat(t: Tables, l: bv32, a: seq<bv8>, b: seq<bv8>)
    ensures Run(t, l, a + b) == Run(t, Run(t, l, a), b)
  {
    hide Step;
    if b == [] {
      assert a + b == a;
    } else {
      RunConcat(t, l, a, b[..|b| - 1]);
      assert (a + b)[..|a + b| - 1] == a + b[..|b| - 1];
    }
  }

  /** MAIN: extending by A and then by B extends by A followed by B, which is what lets the log writer start
      from the checksum of the type byte. */
  lemma ExtendConcat(t: Tables, crc: bv32, a: seq<bv8>, b: seq<bv8>)
    ensures Extended(t, Extended(t, crc, a), b) == Extended(t, crc, a + b)
  {
    hide Xor, Run, Step;
    XorLaws(Run(t, Xor(crc, ONES), a), ONES, 0);
    RunConcat(t, Xor(crc, ONES), a, b);
  }

  // ----- Words and strides -----

  /** One zero byte. */
  function Zero(t: Tables, w: bv32): bv32 {
    Xor(Shift(w), t.byte(Low(w)))
  }

  /** Four zero bytes: the loop of STEP4W. */
  function Advance4(t: Tables, w: bv32): bv32 {
    Zero(t, Zero(t, Zero(t, Zero(t, w))))
  }

  function Advance16(t: Tables, w: bv32): bv32 {
    Advance4(t, Advance4(t, Advance4(t, Advance4(t, w))))
  }

  ghost predicate Linear(t: Tables) {
    forall a, b :: t.byte(Xor8(a, b)) == Xor(t.byte(a), t.byte(b))
  }

  /** The byte table is linear over GF(2), and each stride table advances one byte of a word by 16 bytes. */
  ghost predicate GoodTables(t: Tables) {
    Linear(t) &&
    forall b: bv8 ::
      t.stride3(b) == Advance16(t, Placed(b, 0)) && t.stride2(b) == Advance16(t, Placed(b, 1)) &&
      t.stride1(b) == Advance16(t, Placed(b, 2)) && t.stride0(b) == Advance16(t, Placed(b, 3))
  }

  lemma ZeroLinear(t: Tables, a: bv32, b: bv32)
    requires Linear(t)
    ensures Zero(t, Xor(a, b)) == Xor(Zero(t, a), Zero(t, b))
  {
    hide Xor, Xor8, Shift, Low;
    XorParts(a, b);
    XorPairs(Shift(a), Shift(b), t.byte(Low(a)), t.byte(Low(b)));
  }

  lemma Advance4Linear(t: Tables, a: bv32, b: bv32)
    requires Linear(t)
    ensures Advance4(t, Xor(a, b)) == Xor(Advance4(t, a), Advance4(t, b))
  {
    hide Xor, Zero;
    ZeroLinear(t, a, b);
    ZeroLinear(t, Zero(t, a), Zero(t, b));
    ZeroLinear(t, Zero(t, Zero(t, a)), Zero(t, Zero(t, b)));
    ZeroLinear(t, Zero(t, Zero(t, Zero(t, a))), Zero(t, Zero(t, Zero(t, b))));
  }

  lemma Advance16Linear(t: Tables, a: bv32, b: bv32)
    requires Linear(t)
    ensures Advance16(t, Xor(a, b)) == Xor(Advance16(t, a), Advance16(t, b))
  {
    hide Xor, Advance4;
    Advance4Linear(t, a, b);
    Advance4Linear(t, Advance4(t, a), Advance4(t, b));
    Advance4Linear(t, Advance4(t, Advance4(t, a)), Advance4(t, Advance4(t, b)));
    Advance4Linear(t, Advance4(t, Advance4(t, Advance4(t, a))), Advance4(t, Advance4(t, Advance4(t, b))));
  }

  /** A byte may be mixed into the register before the step. */
  lemma StepIsZero(t: Tables, l: bv32, b: bv8)
    ensures Step(t, l, b) == Zero(t, Xor(l, Wide(b)))
  {
    hide Xor, Xor8, Shift, Low, Wide;
    XorParts(l, Wide(b));
    ByteParts(b);
    XorLaws(Shift(l), 0, 0);
    XorLaws(Shift(l), t.byte(Xor8(Low(l), b)), 0);
  }

  /** Bytes still to come may be mixed in one place higher. */
  lemma ZeroShifts(t: Tables, l: bv32, w: bv32)
    requires Linear(t) && w < 0x100_0000
    ensures Zero(t, Xor(l, Up(w))) == Xor(Zero(t, l), w)
  {
    hide Xor, Xor8, Shift, Low;
    ZeroLinear(t, l, Up(w));
    UpParts(w);
    ZeroTable(t);
    XorLaws(w, 0, 0);
  }

  lemma ZeroTable(t: Tables)
    requires Linear(t)
    ensures t.byte(0) == 0
  {
    assert Xor8(0, 0) == 0;
    XorLaws(t.byte(0), t.byte(0), 0);
    assert t.byte(Xor8(0, 0)) == Xor(t.byte(0), t.byte(0));
  }

  /** STEP4W: four bytes at once. */
  lemma FourSteps(t: Tables, l: bv32, b0: bv8, b1: bv8, b2: bv8, b3: bv8)
    requires Linear(t)
    ensures Step(t, Step(t, Step(t, Step(t, l, b0), b1), b2), b3) == Advance4(t, Xor(l, Word(b0, b1, b2, b3)))
  {
    hide Xor, Zero, Step, Up, Wide, Word, Linear;
    var w3 := Wide(b3);
    var w2 := Xor(Wide(b2), Up(w3));
    var w1 := Xor(Wide(b1), Up(w2));
    WordParts(b0, b1, b2, b3);
    MixByte(t, l, b0, w1);
    var l1 := Step(t, l, b0);
    MixByte(t, l1, b1, w2);
    var l2 := Step(t, l1, b1);
    MixByte(t, l2, b2, w3);
    StepIsZero(t, Step(t, l2, b2), b3);
  }

  lemma MixByte(t: Tables, l: bv32, b: bv8, rest: bv32)
    requires Linear(t) && rest < 0x100_0000
    ensures Zero(t, Xor(l, Xor(Wide(b), Up(rest)))) == Xor(Step(t, l, b), rest)
  {
    hide Xor, Zero, Step, Up, Wide, Linear;
    StepIsZero(t, l, b);
    XorLaws(l, Wide(b), Up(rest));
    ZeroShifts(t, Xor(l, Wide(b)), rest);
  }

  /** STEP4: the stride tables advance a stride by 16 bytes. */
  function Stride(t: Tables, w: bv32): bv32 {
    Xor(Xor(t.stride3(Part(w, 0)), t.stride2(Part(w, 1))), Xor(t.stride1(Part(w, 2)), t.stride0(Part(w, 3))))
  }

  lemma StrideAdvances(t: Tables, w: bv32)
    requires GoodTables(t)
    ensures Stride(t, w) == Advance16(t, w)
  {
    hide Xor, Advance16, Part, Placed;
    WordSplits(w);
    var w0, w1, w2, w3 := Placed(Part(w, 0), 0), Placed(Part(w, 1), 1), Placed(Part(w, 2), 2), Placed(Part(w, 3), 3);
    Advance16Linear(t, w0, w1);
    Advance16Linear(t, w2, w3);
    Advance16Linear(t, Xor(w0, w1), Xor(w2, w3));
  }

  /** The register the four strides stand for. */
  function Combined(t: Tables, c0: bv32, c1: bv32, c2: bv32, c3: bv32): bv32 {
    Advance4(t, Xor(c3, Advance4(t, Xor(c2, Advance4(t, Xor(c1, Advance4(t, c0)))))))
  }

  /** Feeding one more word: the oldest stride takes it and becomes the youngest. */
  lemma StridesStep(t: Tables, c0: bv32, c1: bv32, c2: bv32, c3: bv32, w: bv32)
    requires GoodTables(t)
    ensures Combined(t, c1, c2, c3, Xor(w, Stride(t, c0))) == Advance4(t, Xor(Combined(t, c0, c1, c2, c3), w))
  {
    hide Xor, Advance4, Stride;
    StrideAdvances(t, c0);
    var a1 := Advance4(t, c0);
    Advance4Linear(t, c1, a1);
    var a2 := Advance4(t, a1);
    XorLaws(c2, Advance4(t, c1), a2);
    Advance4Linear(t, Xor(c2, Advance4(t, c1)), a2);
    var a3 := Advance4(t, a2);
    var r := Advance4(t, Xor(c2, Advance4(t, c1)));
    XorLaws(c3, r, a3);
    Advance4Linear(t, Xor(c3, r), a3);
    var s := Advance4(t, Xor(c3, r));
    var a4 := Advance4(t, a3);
    Rearrange(w, a4, s);
  }

  lemma Rearrange(w: bv32, a: bv32, s: bv32)
    ensures Xor(Xor(w, a), s) == Xor(Xor(s, a), w)
  {
    hide Xor;
    XorCommutes(w, a);
    XorAssociates(a, w, s);
    XorCommutes(w, s);
    XorAssociates(a, s, w);
    XorCommutes(a, s);
  }

  // ----- Extend -----

  function WordAt(data: seq<bv8>, p: nat): bv32
    requires p + 4 <= |data|
  {
    Word(data[p], data[p + 1], data[p + 2], data[p + 3])
  }

  lemma RunByte(t: Tables, l: bv32, data: seq<bv8>, p: nat)
    requires p < |data|
    ensures Run(t, l, data[..p + 1]) == Step(t, Run(t, l, data[..p]), data[p])
  {
    hide Step;
    assert data[..p + 1][..p] == data[..p];
  }

  lemma RunWord(t: Tables, l: bv32, data: seq<bv8>, p: nat)
    requires Linear(t) && p + 4 <= |data|
    ensures Run(t, l, data[..p + 4]) == Advance4(t, Xor(Run(t, l, data[..p]), WordAt(data, p)))
  {
    hide Step, Run, Xor, Word, Advance4, Linear;
    RunByte(t, l, data, p);
    RunByte(t, l, data, p + 1);
    RunByte(t, l, data, p + 2);
    RunByte(t, l, data, p + 3);
    FourSteps(t, Run(t, l, data[..p]), data[p], data[p + 1], data[p + 2], data[p + 3]);
  }

  /** The four strides stand for the register after the bytes before p. */
  ghost predicate Strides(t: Tables, l: bv32, data: seq<bv8>, p: nat, c0: bv32, c1: bv32, c2: bv32, c3: bv32)
    requires p <= |data|
  {
    Run(t, l, data[..p]) == Combined(t, c0, c1, c2, c3)
  }

  /** Loading the first 16 bytes. */
  lemma StridesStart(t: Tables, l: bv32, data: seq<bv8>, p: nat)
    requires Linear(t) && p + 16 <= |data|
    ensures Strides(t, l, data, p + 16, Xor(WordAt(data, p), Run(t, l, data[..p])), WordAt(data, p + 4),
                    WordAt(data, p + 8), WordAt(data, p + 12))
  {
    hide Run, Xor, Advance4, WordAt, Linear;
    RunWord(t, l, data, p);
    RunWord(t, l, data, p + 4);
    RunWord(t, l, data, p + 8);
    RunWord(t, l, data, p + 12);
    XorCommutes(Run(t, l, data[..p]), WordAt(data, p));
    XorCommutes(Run(t, l, data[..p + 4]), WordAt(data, p + 4));
    XorCommutes(Run(t, l, data[..p + 8]), WordAt(data, p + 8));
    XorCommutes(Run(t, l, data[..p + 12]), WordAt(data, p + 12));
  }

  /** One STEP4. */
  lemma StridesMove(t: Tables, l: bv32, data: seq<bv8>, p: nat, c0: bv32, c1: bv32, c2: bv32, c3: bv32)
    requires GoodTables(t) && p + 4 <= |data| && Strides(t, l, data, p, c0, c1, c2, c3)
    ensures Strides(t, l, data, p + 4, c1, c2, c3, Xor(WordAt(data, p), Stride(t, c0)))
  {
    hide Run, Xor, Combined, WordAt, Stride;
    RunWord(t, l, data, p);
    StridesStep(t, c0, c1, c2, c3, WordAt(data, p));
  }

  /** STEP16. */
  lemma StridesMove16(t: Tables, l: bv32, data: seq<bv8>, p: nat, c0: bv32, c1: bv32, c2: bv32, c3: bv32)
    requires GoodTables(t) && p + 16 <= |data| && Strides(t, l, data, p, c0, c1, c2, c3)
    ensures Strides(t, l, data, p + 16, Xor(WordAt(data, p), Stride(t, c0)), Xor(WordAt(data, p + 4), Stride(t, c1)),
                    Xor(WordAt(data, p + 8), Stride(t, c2)), Xor(WordAt(data, p + 12), Stride(t, c3)))
  {
    hide Run, Xor, WordAt, Stride, Strides;
    var d0, d1 := Xor(WordAt(data, p), Stride(t, c0)), Xor(WordAt(data, p + 4), Stride(t, c1));
    var d2 := Xor(WordAt(data, p + 8), Stride(t, c2));
    StridesMove(t, l, data, p, c0, c1, c2, c3);
    StridesMove(t, l, data, p + 4, c1, c2, c3, d0);
    StridesMove(t, l, data, p + 8, c2, c3, d0, d1);
    StridesMove(t, l, data, p + 12, c3, d0, d1, d2);
  }

  lemma RunNothing(t: Tables, l: bv32, data: seq<bv8>)
    ensures Run(t, l, data[..0]) == l
  {
  }

  /** Combining the strides, oldest first, starting from a zero register. */
  lemma StridesAre(t: Tables, l: bv32, data: seq<bv8>, p: nat, c0: bv32, c1: bv32, c2: bv32, c3: bv32)
    requires p <= |data| && Strides(t, l, data, p, c0, c1, c2, c3)
    ensures Run(t, l, data[..p]) ==
      Advance4(t, Xor(c3, Advance4(t, Xor(c2, Advance4(t, Xor(c1, Advance4(t, Xor(c0, 0))))))))
  {
    hide Run, Xor, Advance4;
    XorCancels(c0, 0);
  }

  /** MAIN: for every buffer and every alignment of its address, the strided computation gives the checksum of
      the byte-at-a-time one. */
  method Extend(t: Tables, crc: bv32, data: seq<bv8>, address: nat) returns (r: bv32)
    requires GoodTables(t)
    ensures r == Extended(t, crc, data)
  {
    hide Run, Xor, Combined, WordAt, Stride, Step, Strides, Advance4;
    var start := Xor(crc, ONES);
    var p, e, l := 0, |data|, start;
    RunNothing(t, start, data);
    var x := (4 - address % 4) % 4;
    if x <= e {
      while p != x
        invariant p <= x && l == Run(t, start, data[..p])
      {
        RunByte(t, start, data, p);
        l := Step(t, l, data[p]);
        p := p + 1;
      }
    }
    if e - p >= 16 {
      StridesStart(t, start, data, p);
      var c0, c1, c2, c3 := Xor(WordAt(data, p), l), WordAt(data, p + 4), WordAt(data, p + 8), WordAt(data, p + 12);
      p := p + 16;
      while e - p >= 16
        invariant p <= e && Strides(t, start, data, p, c0, c1, c2, c3)
      {
        StridesMove16(t, start, data, p, c0, c1, c2, c3);
        c0 := Xor(WordAt(data, p), Stride(t, c0));
        c1 := Xor(WordAt(data, p + 4), Stride(t, c1));
        c2 := Xor(WordAt(data, p + 8), Stride(t, c2));
        c3 := Xor(WordAt(data, p + 12), Stride(t, c3));
        p := p + 16;
      }
      while e - p >= 4
        invariant p <= e && Strides(t, start, data, p, c0, c1, c2, c3)
      {
        StridesMove(t, start, data, p, c0, c1, c2, c3);
        c0 := Xor(WordAt(data, p), Stride(t, c0));
        c0, c1, c2, c3 := c1, c2, c3, c0;
        p := p + 4;
      }
      l := Advance4(t, Xor(c0, 0));
      l := Advance4(t, Xor(c1, l));
      l := Advance4(t, Xor(c2, l));
      l := Advance4(t, Xor(c3, l));
      StridesAre(t, start, data, p, c0, c1, c2, c3);
    }
    while p != e
      invariant p <= e && l == Run(t, start, data[..p])
    {
      RunByte(t, start, data, p);
      l := Step(t, l, data[p]);
      p := p + 1;
    }
    assert data[..e] == data;
    r := Xor(l, ONES);
  }

  // ----- Stored checksums -----

  function Mask(crc: bv32): bv32 {
    ((crc >> 15) | (crc << 17)) + 0xa282ead8
  }

  function Unmask(masked: bv32): bv32 {
    var rot := masked - 0xa282ead8;
    (rot >> 17) | (rot << 15)
  }

  lemma MaskRoundTrip(crc: bv32)
    ensures Unmask(Mask(crc)) == crc
  {
  }
}
