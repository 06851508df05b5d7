/** Values of the image check that pin the reference down: those every catalogue gives for this CRC, and
    the constant that an image leaves in the register when its check value follows it. */
module CrcValues {
  import opened Bytes
  import opened Crc32

  lemma NoBytes(c: bv32)
    ensures Register(c, []) == c
  {
  }

  /** The ASCII digits from 1 to 9. */
  const DIGITS: seq<byte> := [0x31, 0x32, 0x33, 0x34, 0x35, 0x36, 0x37, 0x38, 0x39]

  lemma DigitSteps()
    ensures Update(0xFFFFFFFF, 0x31) == 0x7C231048 && Update(0x7C231048, 0x32) == 0xB0ACBB32
    ensures Update(0xB0ACBB32, 0x33) == 0x77B79C2D && Update(0x77B79C2D, 0x34) == 0x641C1F5C
    ensures Update(0x641C1F5C, 0x35) == 0x340AC5E3 && Update(0x340AC5E3, 0x36) == 0xF68D2C9E
    ensures Update(0xF68D2C9E, 0x37) == 0xAFFC9660 && Update(0xAFFC9660, 0x38) == 0x651F2550
    ensures Update(0x651F2550, 0x39) == 0x340BC6D9
  {
  }

  lemma DigitsRegister()
    ensures Register(0xFFFFFFFF, DIGITS) == 0x340BC6D9
  {
    hide Update, Register;
    DigitSteps();
    NoBytes(0xFFFFFFFF);
    assert DIGITS[..9] == DIGITS && DIGITS[..0] == [];
    RegisterStep(0xFFFFFFFF, DIGITS, 0);
    RegisterStep(0xFFFFFFFF, DIGITS, 1);
    RegisterStep(0xFFFFFFFF, DIGITS, 2);
    RegisterStep(0xFFFFFFFF, DIGITS, 3);
    RegisterStep(0xFFFFFFFF, DIGITS, 4);
    RegisterStep(0xFFFFFFFF, DIGITS, 5);
    RegisterStep(0xFFFFFFFF, DIGITS, 6);
    RegisterStep(0xFFFFFFFF, DIGITS, 7);
    RegisterStep(0xFFFFFFFF, DIGITS, 8);
  }

  /** The check value of this CRC in the catalogues, and those of no byte and of a single zero. */
  lemma KnownValues()
    ensures Crc([]) == 0 && Crc([0]) == 0xD202EF8D && Crc(DIGITS) == 0xCBF43926
  {
    DigitsRegister();
    hide Register, EightSteps;
    OneZero();
  }

  lemma OneZero()
    ensures Register(ALL_ONES, []) == 0xFFFFFFFF && Register(ALL_ONES, [0]) == 0x2DFD1072
  {
    var zero: seq<byte> := [0];
    assert zero[..1] == zero && zero[..0] == [];
    RegisterStep(ALL_ONES, zero, 0);
  }

  // ---------- An image with its check value behind it ----------

  function LowByte(w: bv32): byte {
    (w & 0xFF) as byte
  }

  function Shift(w: bv32): bv32 {
    w >> 8
  }

  /** A word as four bytes, low byte first. */
  function LowFirst(w: bv32): seq<byte> {
    [LowByte(w), LowByte(Shift(w)), LowByte(Shift(Shift(w))), LowByte(Shift(Shift(Shift(w))))]
  }

  lemma LowByteIsLow(w: bv32)
    ensures LowByte(w) as bv32 == w & 0xFF
  {
  }

  lemma AddRegroups(c: bv32, low: bv32, high: bv32)
    ensures Add(Add(c, low), high) == Add(c, Add(low, high))
  {
  }

  /** One byte of a word moves the register and shifts the word; their sum only takes eight steps. */
  lemma WordStep(c: bv32, w: bv32)
    ensures Add(Update(c, LowByte(w)), Shift(w)) == EightSteps(Add(c, w))
  {
    var low := w & 0xFF;
    var high := Add(w, low);
    hide EightSteps, Add, LowByte;
    LowByteIsLow(w);
    LowByteCleared(w);
    HighBytesKept(w);
    AddTwice(low, w);
    ClearByteShifts(high, Shift(w));
    AddRegroups(c, low, high);
    EightStepsIsLinear(Add(c, low), high);
  }

  lemma WordRunsOut(w: bv32)
    ensures Shift(Shift(Shift(Shift(w)))) == 0 && Add(w, 0) == w
  {
  }

  lemma FourUpdates(c: bv32, w: bv32)
    ensures Update(Update(Update(Update(c, LowByte(w)), LowByte(Shift(w))), LowByte(Shift(Shift(w)))),
                   LowByte(Shift(Shift(Shift(w))))) ==
            EightSteps(EightSteps(EightSteps(EightSteps(Add(c, w)))))
  {
    hide Update, EightSteps, Add, LowByte, Shift;
    var w1 := Shift(w);
    var w2 := Shift(w1);
    var w3 := Shift(w2);
    var c1 := Update(c, LowByte(w));
    var c2 := Update(c1, LowByte(w1));
    var c3 := Update(c2, LowByte(w2));
    WordStep(c, w);
    WordStep(c1, w1);
    WordStep(c2, w2);
    WordStep(c3, w3);
    WordRunsOut(w);
    WordRunsOut(Update(c3, LowByte(w3)));
  }

  lemma FourMoreBytes(c: bv32, data: seq<byte>, b0: byte, b1: byte, b2: byte, b3: byte)
    ensures Register(c, data + [b0, b1, b2, b3]) == Update(Update(Update(Update(Register(c, data), b0), b1), b2), b3)
  {
    hide Update, Register;
    var all, n := data + [b0, b1, b2, b3], |data|;
    assert all[..n] == data && all[..n + 4] == all;
    RegisterStep(c, all, n);
    RegisterStep(c, all, n + 1);
    RegisterStep(c, all, n + 2);
    RegisterStep(c, all, n + 3);
  }

  lemma OnesStep()
    ensures EightSteps(0xFFFFFFFF) == 0x2DFD1072 && EightSteps(0x2DFD1072) == 0xBE26ED00
    ensures EightSteps(0xBE26ED00) == 0x00BE26ED && EightSteps(0x00BE26ED) == 0xDEBB20E3
  {
  }

  lemma ComplementAdds(c: bv32)
    ensures Add(c, Add(c, ALL_ONES)) == 0xFFFFFFFF
  {
  }

  /** Running the register over any image with its check value behind it, low byte first, leaves the same
      constant. */
  lemma CheckedImageLeavesResidue(data: seq<byte>)
    ensures Register(0xFFFFFFFF, data + LowFirst(Crc(data))) == 0xDEBB20E3
  {
    hide EightSteps, Add, Register, Update, LowByte, Shift;
    var w := Crc(data);
    FourMoreBytes(0xFFFFFFFF, data, LowByte(w), LowByte(Shift(w)), LowByte(Shift(Shift(w))),
                  LowByte(Shift(Shift(Shift(w)))));
    FourUpdates(Register(0xFFFFFFFF, data), w);
    ComplementAdds(Register(0xFFFFFFFF, data));
    OnesStep();
  }
}
