/** What the checksum of Crc computes: CRC-32C bit by bit, as sections 12.1 and B.4 of RFC 3720 have it. */
module Crc32c {
  import opened Entries
  import opened Crc
  import Checksums

  // ----- Bit by bit -----

  /** One bit: the register is shifted down, and the reflected polynomial 0x1edc6f41 taken off if a one falls out. */
  function BitStep(w: bv32): bv32 {
    if w & 1 == 1 then (w >> 1) ^ 0x82f63b78 else w >> 1
  }

  function ByteStep(w: bv32): bv32 {
    BitStep(BitStep(BitStep(BitStep(BitStep(BitStep(BitStep(BitStep(w))))))))
  }

  /** The register after the bytes, the lowest bit of each first. */
  function Serial(register: bv32, data: seq<bv8>): bv32 {
    if data == [] then register
    else ByteStep(Xor(Serial(register, data[..|data| - 1]), Wide(data[|data| - 1])))
  }

  /** The remainder, with the register preset to ones and complemented at the end. */
  function Checksum(data: seq<bv8>): bv32 {
    !Serial(0xffff_ffff, data)
  }

  // ----- The tables -----

  /** The byte table holds eight steps of every byte; each stride table holds 16 zero bytes' worth of a byte of a word. */
  ghost predicate RealTables(t: Tables) {
    forall b: bv8 ::
      t.byte(b) == ByteStep(Wide(b)) &&
      t.stride3(b) == Zeros16(Placed(b, 0)) && t.stride2(b) == Zeros16(Placed(b, 1)) &&
      t.stride1(b) == Zeros16(Placed(b, 2)) && t.stride0(b) == Zeros16(Placed(b, 3))
  }

  function Zeros4(w: bv32): bv32 {
    ByteStep(ByteStep(ByteStep(ByteStep(w))))
  }

  function Zeros16(w: bv32): bv32 {
    Zeros4(Zeros4(Zeros4(Zeros4(w))))
  }

  predicate Odd(w: bv32) {
    w & 1 == 1
  }

  function Half(w: bv32): bv32 {
    w >> 1
  }

  lemma BitStepIs(w: bv32)
    ensures BitStep(w) == if Odd(w) then Xor(Half(w), 0x82f63b78) else Half(w)
  {
  }

  lemma HalfLinear(a: bv32, b: bv32)
    ensures Half(Xor(a, b)) == Xor(Half(a), Half(b))
  {
  }

  lemma OddOfXor(a: bv32, b: bv32)
    ensures Odd(Xor(a, b)) <==> Odd(a) != Odd(b)
  {
  }

  lemma BitStepLinear(a: bv32, b: bv32)
    ensures BitStep(Xor(a, b)) == Xor(BitStep(a), BitStep(b))
  {
    hide BitStep, Odd, Half, Xor;
    BitStepIs(a);
    BitStepIs(b);
    BitStepIs(Xor(a, b));
    HalfLinear(a, b);
    OddOfXor(a, b);
    var x, y, p: bv32 := Half(a), Half(b), 0x82f63b78;
    XorLaws(Xor(x, y), p, 0);
    XorPairs(x, p, y, p);
    XorCancels(p, p);
    XorSelf(p);
    XorCancels(Xor(x, y), 0);
    XorAssociates(x, y, p);
    XorAssociates(x, p, y);
    XorCommutes(y, p);
  }

  lemma XorSelf(a: bv32)
    ensures Xor(a, a) == 0
  {
  }

  lemma ByteStepLinear(a: bv32, b: bv32)
    ensures ByteStep(Xor(a, b)) == Xor(ByteStep(a), ByteStep(b))
  {
    hide BitStep, Xor;
    var x, y := a, b;
    BitStepLinear(x, y);
    x, y := BitStep(x), BitStep(y);
    BitStepLinear(x, y);
    x, y := BitStep(x), BitStep(y);
    BitStepLinear(x, y);
    x, y := BitStep(x), BitStep(y);
    BitStepLinear(x, y);
    x, y := BitStep(x), BitStep(y);
    BitStepLinear(x, y);
    x, y := BitStep(x), BitStep(y);
    BitStepLinear(x, y);
    x, y := BitStep(x), BitStep(y);
    BitStepLinear(x, y);
    x, y := BitStep(x), BitStep(y);
    BitStepLinear(x, y);
  }

  lemma EvenBits(w: bv32)
    requires Low(w) == 0
    ensures !Odd(w) && !Odd(w >> 1) && !Odd(w >> 2) && !Odd(w >> 3)
    ensures !Odd(w >> 4) && !Odd(w >> 5) && !Odd(w >> 6) && !Odd(w >> 7)
  {
  }

  lemma Halves(w: bv32)
    ensures Half(w) == w >> 1 && Half(w >> 1) == w >> 2 && Half(w >> 2) == w >> 3 && Half(w >> 3) == w >> 4
    ensures Half(w >> 4) == w >> 5 && Half(w >> 5) == w >> 6 && Half(w >> 6) == w >> 7 && Half(w >> 7) == Shift(w)
  {
  }

  /** No ones fall out of a register whose low byte is zero. */
  lemma ByteStepShifts(w: bv32)
    requires Low(w) == 0
    ensures ByteStep(w) == Shift(w)
  {
    hide BitStep, Odd, Half, Shift, Low;
    EvenBits(w);
    Halves(w);
    BitStepIs(w);
    BitStepIs(Half(w));
    BitStepIs(Half(Half(w)));
    BitStepIs(Half(Half(Half(w))));
    BitStepIs(Half(Half(Half(Half(w)))));
    BitStepIs(Half(Half(Half(Half(Half(w))))));
    BitStepIs(Half(Half(Half(Half(Half(Half(w)))))));
    BitStepIs(Half(Half(Half(Half(Half(Half(Half(w))))))));
  }

  /** The low byte and the others. */
  lemma HighAndLow(w: bv32)
    ensures w == Xor(w & 0xffff_ff00, Wide(Low(w))) && Low(w & 0xffff_ff00) == 0 && Shift(w & 0xffff_ff00) == Shift(w)
  {
  }

  /** One look at the table is eight steps of the register. */
  lemma StepIsSerial(t: Tables, l: bv32, b: bv8)
    requires RealTables(t)
    ensures Step(t, l, b) == ByteStep(Xor(l, Wide(b)))
  {
    StepIsZero(t, l, b);
    ZeroIsByteStep(t, Xor(l, Wide(b)));
    hide Step, Zero, ByteStep;
  }

  lemma ZeroIsByteStep(t: Tables, w: bv32)
    requires RealTables(t)
    ensures Zero(t, w) == ByteStep(w)
  {
    hide ByteStep, Xor, Low, Shift, Wide;
    HighAndLow(w);
    ByteStepLinear(w & 0xffff_ff00, Wide(Low(w)));
    ByteStepShifts(w & 0xffff_ff00);
  }

  lemma {:induction false} RunIsSerial(t: Tables, l: bv32, data: seq<bv8>)
    requires RealTables(t)
    ensures Run(t, l, data) == Serial(l, data)
  {
    hide Step, ByteStep, RealTables, Xor, Wide;
    if data != [] {
      RunIsSerial(t, l, data[..|data| - 1]);
      StepIsSerial(t, Run(t, l, data[..|data| - 1]), data[|data| - 1]);
    }
  }

  /** With these tables the strided computation is right, too. */
  lemma RealTablesAreGood(t: Tables)
    requires RealTables(t)
    ensures GoodTables(t)
  {
    hide ByteStep, Xor, Xor8, Wide, Zero, Placed;
    forall a, b
      ensures t.byte(Xor8(a, b)) == Xor(t.byte(a), t.byte(b))
    {
      WideLinear(a, b);
      ByteStepLinear(Wide(a), Wide(b));
    }
    forall w: bv32
      ensures Advance16(t, w) == Zeros16(w)
    {
      Advance4Is(t, w);
      Advance4Is(t, Zeros4(w));
      Advance4Is(t, Zeros4(Zeros4(w)));
      Advance4Is(t, Zeros4(Zeros4(Zeros4(w))));
    }
  }

  lemma WideLinear(a: bv8, b: bv8)
    ensures Wide(Xor8(a, b)) == Xor(Wide(a), Wide(b))
  {
  }

  lemma Advance4Is(t: Tables, w: bv32)
    requires RealTables(t)
    ensures Advance4(t, w) == Zeros4(w)
  {
    hide ByteStep, Zero, RealTables;
    ZeroIsByteStep(t, w);
    ZeroIsByteStep(t, ByteStep(w));
    ZeroIsByteStep(t, ByteStep(ByteStep(w)));
    ZeroIsByteStep(t, ByteStep(ByteStep(ByteStep(w))));
  }

  /** MAIN: with these tables, extending the empty checksum by any bytes gives their CRC-32C. */
  lemma ExtendedIsChecksum(t: Tables, data: seq<bv8>)
    requires RealTables(t)
    ensures Extended(t, 0, data) == Checksum(data)
  {
    hide Run, Serial, RealTables;
    RunIsSerial(t, 0xffff_ffff, data);
    Complement(Serial(0xffff_ffff, data));
    assert Xor(0, ONES) == 0xffff_ffff;
  }

  lemma Complement(w: bv32)
    ensures Xor(w, ONES) == !w
  {
  }

  /** MAIN: what Extend computes, at any address, is the CRC-32C of the bytes. */
  method Value(t: Tables, data: seq<bv8>, address: nat) returns (r: bv32)
    requires RealTables(t)
    ensures r == Checksum(data)
  {
    hide RealTables, GoodTables, Checksum;
    RealTablesAreGood(t);
    r := Extend(t, 0, data, address);
    ExtendedIsChecksum(t, data);
  }

  // ----- A published check value -----

  const DIGITS: seq<bv8> := [0x31, 0x32, 0x33, 0x34, 0x35, 0x36, 0x37, 0x38, 0x39]

  lemma SerialNext(n: nat, register: bv32)
    requires n < |DIGITS| && Serial(0xffff_ffff, DIGITS[..n]) == register
    ensures Serial(0xffff_ffff, DIGITS[..n + 1]) == ByteStep(Xor(register, Wide(DIGITS[n])))
  {
    hide ByteStep, Xor, Wide;
    assert DIGITS[..n + 1][..n] == DIGITS[..n];
  }

  /** The digits 1 to 9 have the check value 0xe3069283, as published for CRC-32C; masked it is 0xc78ab0e5. */
  lemma CheckValue()
    ensures Checksum(DIGITS) == 0xe306_9283
    ensures Mask(0xe306_9283) == 0xc78a_b0e5
    ensures Checksums.Fixed32(0xc78a_b0e5) == [0xe5, 0xb0, 0x8a, 0xc7]
  {
    hide Serial, ByteStep, Xor, Wide;
    DigitSteps();
    assert Serial(0xffff_ffff, DIGITS[..0]) == 0xffff_ffff by {
      NoDigits();
    }
    SerialNext(0, 0xffffffff);
    SerialNext(1, 0x6f0a661c);
    SerialNext(2, 0x8caa3b9f);
    SerialNext(3, 0xef84d04d);
    SerialNext(4, 0x09c50b11);
    SerialNext(5, 0xe72edcca);
    SerialNext(6, 0xbeca8e79);
    SerialNext(7, 0xedbd6815);
    SerialNext(8, 0x9f787f65);
    assert DIGITS[..9] == DIGITS;
  }

  lemma DigitSteps()
    ensures ByteStep(Xor(0xffffffff, Wide(0x31))) == 0x6f0a661c
    ensures ByteStep(Xor(0x6f0a661c, Wide(0x32))) == 0x8caa3b9f
    ensures ByteStep(Xor(0x8caa3b9f, Wide(0x33))) == 0xef84d04d
    ensures ByteStep(Xor(0xef84d04d, Wide(0x34))) == 0x09c50b11
    ensures ByteStep(Xor(0x09c50b11, Wide(0x35))) == 0xe72edcca
    ensures ByteStep(Xor(0xe72edcca, Wide(0x36))) == 0xbeca8e79
    ensures ByteStep(Xor(0xbeca8e79, Wide(0x37))) == 0xedbd6815
    ensures ByteStep(Xor(0xedbd6815, Wide(0x38))) == 0x9f787f65
    ensures ByteStep(Xor(0x9f787f65, Wide(0x39))) == 0x1cf96d7c
  {
  }

  lemma NoDigits()
    ensures Serial(0xffff_ffff, DIGITS[..0]) == 0xffff_ffff
  {
  }
}
