/** What the image check guarantees: two images of equal length that differ only inside some window
    of 32 consecutive bits, wherever it starts, never have the same check value. */
module CrcBursts {
  import opened Bytes
  import opened Crc32

  // ---------- The register as a bit-serial machine ----------

  function Bit(b: bool): bv32 {
    if b then 1 else 0
  }

  /** The register after a string of message bits. */
  function Feed(c: bv32, bits: seq<bool>): bv32
    decreases |bits|
  {
    if bits == [] then c else Feed(BitStep(Add(c, Bit(bits[0]))), bits[1..])
  }

  predicate Odd(w: bv32) {
    w & 1 == 1
  }

  function Half(w: bv32): bv32 {
    w >> 1
  }

  /** The low `n` bits of a word, least significant first. */
  function WordBits(w: bv32, n: nat): (bits: seq<bool>)
    ensures |bits| == n
    decreases n
  {
    if n == 0 then [] else [Odd(w)] + WordBits(Half(w), n - 1)
  }

  /** The message as the check consumes it. */
  function Bits(data: seq<byte>): (bits: seq<bool>)
    ensures |bits| == 8 * |data|
    decreases |data|
  {
    if data == [] then [] else WordBits(data[0] as bv32, 8) + Bits(data[1..])
  }

  lemma {:induction false} FeedSplits(c: bv32, x: seq<bool>, y: seq<bool>)
    ensures Feed(c, x + y) == Feed(Feed(c, x), y)
    decreases |x|
  {
    hide BitStep, Add, Bit;
    if x == [] {
      assert x + y == y;
    } else {
      assert (x + y)[1..] == x[1..] + y;
      FeedSplits(BitStep(Add(c, Bit(x[0]))), x[1..], y);
    }
  }

  // ---------- A byte fed bit by bit is eight steps ----------

  function Steps(c: bv32, n: nat): bv32
    decreases n
  {
    if n == 0 then c else Steps(BitStep(c), n - 1)
  }

  function ShiftedOut(w: bv32, n: nat): bv32
    decreases n
  {
    if n == 0 then w else ShiftedOut(Half(w), n - 1)
  }

  lemma EvenStep(w: bv32)
    ensures BitStep(Add(w, Bit(Odd(w)))) == Half(w)
  {
  }

  lemma AddCommutes(x: bv32, y: bv32)
    ensures Add(x, y) == Add(y, x)
  {
  }

  lemma AddAssociates(x: bv32, y: bv32, z: bv32)
    ensures Add(Add(x, y), z) == Add(x, Add(y, z))
  {
  }

  lemma AddZero(x: bv32)
    ensures Add(x, 0) == x && Add(x, x) == 0
  {
  }

  lemma Interchange(a: bv32, b: bv32, c: bv32, d: bv32)
    ensures Add(Add(a, b), Add(c, d)) == Add(Add(a, c), Add(b, d))
  {
    hide Add;
    AddAssociates(a, b, Add(c, d));
    AddAssociates(b, c, d);
    AddCommutes(b, c);
    AddAssociates(c, b, d);
    AddAssociates(a, c, Add(b, d));
  }

  lemma Regroup(c: bv32, w: bv32, b: bv32)
    ensures Add(Add(c, b), Add(w, b)) == Add(c, w)
  {
    hide Add;
    Interchange(c, b, w, b);
    AddZero(b);
    AddZero(Add(c, w));
  }

  lemma PeelBit(c: bv32, w: bv32, b: bv32)
    requires b == Bit(Odd(w))
    ensures BitStep(Add(c, w)) == Add(BitStep(Add(c, b)), Half(w))
  {
    hide BitStep, Bit, Add, Odd, Half;
    EvenStep(w);
    Regroup(c, w, b);
    BitStepIsLinear(Add(c, b), Add(w, b));
  }

  /** Mixing a word in at once, or bit by bit as it is shifted through, is the same. */
  lemma {:induction false} StepsFeed(c: bv32, w: bv32, n: nat)
    ensures Steps(Add(c, w), n) == Add(Feed(c, WordBits(w, n)), ShiftedOut(w, n))
    decreases n
  {
    hide BitStep, Bit, Add, Odd, Half;
    if n > 0 {
      var b := Bit(Odd(w));
      PeelBit(c, w, b);
      StepsFeed(BitStep(Add(c, b)), Half(w), n - 1);
      assert WordBits(w, n)[0] == Odd(w) && WordBits(w, n)[1..] == WordBits(Half(w), n - 1);
    }
  }

  lemma EightIsSteps(c: bv32)
    ensures Steps(c, 8) == EightSteps(c)
  {
  }

  lemma ByteShiftsOut(b: byte)
    ensures ShiftedOut(b as bv32, 8) == 0
  {
  }

  lemma UpdateFeeds(c: bv32, b: byte)
    ensures Update(c, b) == Feed(c, WordBits(b as bv32, 8))
  {
    hide EightSteps, Steps, Feed, WordBits, ShiftedOut, Add;
    StepsFeed(c, b as bv32, 8);
    EightIsSteps(Add(c, b as bv32));
    ByteShiftsOut(b);
    AddZero(Feed(c, WordBits(b as bv32, 8)));
  }

  lemma {:induction false} BitsSplit(x: seq<byte>, y: seq<byte>)
    ensures Bits(x + y) == Bits(x) + Bits(y)
    decreases |x|
  {
    hide WordBits;
    if x == [] {
      assert x + y == y;
    } else {
      assert (x + y)[1..] == x[1..] + y;
      BitsSplit(x[1..], y);
    }
  }

  lemma BitsOfOne(b: byte)
    ensures Bits([b]) == WordBits(b as bv32, 8)
  {
    hide WordBits;
    assert Bits([b]) == WordBits(b as bv32, 8) + Bits([]);
  }

  /** The byte-wise register is the bit-serial one. */
  lemma {:induction false} RegisterFeeds(c: bv32, data: seq<byte>)
    ensures Register(c, data) == Feed(c, Bits(data))
    decreases |data|
  {
    hide Update, WordBits, BitStep, Bit, Add;
    if data != [] {
      var init, last := data[..|data| - 1], data[|data| - 1];
      RegisterFeeds(c, init);
      assert data == init + [last];
      BitsSplit(init, [last]);
      BitsOfOne(last);
      FeedSplits(c, Bits(init), Bits([last]));
      UpdateFeeds(Register(c, init), last);
    }
  }

  // ---------- Differences ----------

  function Xor(x: seq<bool>, y: seq<bool>): (e: seq<bool>)
    requires |x| == |y|
    ensures |e| == |x|
  {
    if x == [] then [] else [x[0] != y[0]] + Xor(x[1..], y[1..])
  }

  lemma AddBits(c: bv32, d: bv32, u: bool, v: bool)
    ensures Add(Add(c, Bit(u)), Add(d, Bit(v))) == Add(Add(c, d), Bit(u != v))
  {
    hide Add;
    Interchange(c, Bit(u), d, Bit(v));
    BitsAdd(u, v);
  }

  lemma BitsAdd(u: bool, v: bool)
    ensures Add(Bit(u), Bit(v)) == Bit(u != v)
  {
  }

  /** Two runs differ by the run of their difference. */
  lemma {:induction false} FeedIsLinear(c: bv32, d: bv32, x: seq<bool>, y: seq<bool>)
    requires |x| == |y|
    ensures Add(Feed(c, x), Feed(d, y)) == Feed(Add(c, d), Xor(x, y))
    decreases |x|
  {
    hide BitStep, Bit, Add;
    if x != [] {
      AddBits(c, d, x[0], y[0]);
      BitStepIsLinear(Add(c, Bit(x[0])), Add(d, Bit(y[0])));
      FeedIsLinear(BitStep(Add(c, Bit(x[0]))), BitStep(Add(d, Bit(y[0]))), x[1..], y[1..]);
      assert Xor(x, y)[0] == (x[0] != y[0]) && Xor(x, y)[1..] == Xor(x[1..], y[1..]);
    }
  }

  lemma BitStepIsInjective(x: bv32, y: bv32)
    requires BitStep(x) == BitStep(y)
    ensures x == y
  {
  }

  lemma CancelBit(c: bv32, d: bv32, b: bv32)
    requires Add(c, b) == Add(d, b)
    ensures c == d
  {
  }

  /** Equal bits never make different registers equal. */
  lemma {:induction false} FeedIsInjective(c: bv32, d: bv32, bits: seq<bool>)
    requires Feed(c, bits) == Feed(d, bits)
    ensures c == d
    decreases |bits|
  {
    hide BitStep, Bit, Add;
    if bits != [] {
      var b := Bit(bits[0]);
      FeedIsInjective(BitStep(Add(c, b)), BitStep(Add(d, b)), bits[1..]);
      BitStepIsInjective(Add(c, b), Add(d, b));
      CancelBit(c, d, b);
    }
  }

  /** The bit just above the low `n`; none is left above all 32. */
  function Power(n: nat): bv32
    decreases n
  {
    if n == 0 then 1 else Double(Power(n - 1))
  }

  function Double(p: bv32): bv32 {
    p << 1
  }

  predicate OneBit(p: bv32) {
    p != 0 && p & (p - 1) == 0
  }

  predicate Below(d: bv32, n: nat) {
    n <= 31 ==> Less(d, Power(n))
  }

  predicate Less(d: bv32, p: bv32) {
    d < p
  }

  lemma Power31()
    ensures Power(31) == 0x8000_0000
  {
    assert Power(8) == 0x100;
    assert Power(16) == 0x1_0000;
    assert Power(24) == 0x100_0000;
  }

  lemma {:induction false} PowerIsNotZero(n: nat)
    requires n <= 31
    ensures Power(n) != 0
    decreases 31 - n
  {
    if n == 31 {
      Power31();
    } else {
      PowerIsNotZero(n + 1);
    }
  }

  lemma {:induction false} PowerIsOneBit(n: nat)
    requires n <= 31
    ensures OneBit(Power(n))
    decreases n
  {
    hide Double;
    PowerIsNotZero(n);
    if n > 0 {
      PowerIsOneBit(n - 1);
      DoubleOneBit(Power(n - 1));
    }
  }

  lemma DoubleOneBit(p: bv32)
    requires OneBit(p) && Double(p) != 0
    ensures OneBit(Double(p))
  {
  }

  /** A step whose result stays below a single bit has only shifted its argument. */
  lemma StepBack(d: bv32, e: bool, next: bv32, power: bv32)
    requires next == BitStep(Add(d, Bit(e))) && Less(next, power) && OneBit(power)
    ensures Double(power) != 0 ==> Less(d, Double(power))
  {
  }

  lemma StepBackToZero(d: bv32, e: bool, next: bv32, power: bv32)
    requires next == BitStep(Add(d, Bit(e))) && Less(next, power) && OneBit(power)
    ensures d == 0 ==> !e && next == 0
  {
  }

  lemma OneStepBack(d: bv32, e: bool, next: bv32, n: nat)
    requires 1 <= n <= 32 && next == BitStep(Add(d, Bit(e))) && Below(next, n - 1)
    ensures Below(d, n) && (d == 0 ==> !e && next == 0)
  {
    hide BitStep, Add, Bit, OneBit, Double, Less;
    PowerIsOneBit(n - 1);
    StepBack(d, e, next, Power(n - 1));
    StepBackToZero(d, e, next, Power(n - 1));
    if n <= 31 {
      PowerIsNotZero(n);
    }
  }

  /** Running a difference back from zero: the register holds just the bits still to come. */
  lemma {:induction false} BackFromZero(d: bv32, e: seq<bool>)
    requires |e| <= 32 && Feed(d, e) == 0
    ensures Below(d, |e|)
    ensures d == 0 ==> forall i | 0 <= i < |e| :: !e[i]
    decreases |e|
  {
    hide BitStep, Add, Bit, Power;
    if e == [] {
      NothingBelowOne(d);
    } else {
      var next := BitStep(Add(d, Bit(e[0])));
      BackFromZero(next, e[1..]);
      OneStepBack(d, e[0], next, |e|);
      assert forall i | 0 < i < |e| :: e[i] == e[1..][i - 1];
    }
  }

  lemma NothingBelowOne(d: bv32)
    requires d == 0
    ensures Below(d, 0)
  {
    assert Power(0) == 1;
  }

  lemma {:induction false} XorAt(x: seq<bool>, y: seq<bool>, i: nat)
    requires |x| == |y| && i < |x|
    ensures Xor(x, y)[i] == (x[i] != y[i])
    decreases i
  {
    if i > 0 {
      XorAt(x[1..], y[1..], i - 1);
    }
  }

  /** From one register, 32 bits or fewer always lead to a register of their own. */
  lemma ShortRunsAreInjective(c: bv32, x: seq<bool>, y: seq<bool>)
    requires |x| == |y| <= 32 && Feed(c, x) == Feed(c, y)
    ensures x == y
  {
    hide Add;
    FeedIsLinear(c, c, x, y);
    AddZero(c);
    AddZero(Feed(c, x));
    BackFromZero(0, Xor(x, y));
    forall i | 0 <= i < |x|
      ensures x[i] == y[i]
    {
      XorAt(x, y, i);
    }
  }

  // ---------- The guarantee ----------

  lemma CrcsDiffer(a: seq<byte>, b: seq<byte>)
    requires Register(ALL_ONES, a) != Register(ALL_ONES, b)
    ensures Crc(a) != Crc(b)
  {
    hide Add, Register;
    if Crc(a) == Crc(b) {
      CancelBit(Register(ALL_ONES, a), Register(ALL_ONES, b), ALL_ONES);
    }
  }

  /** Every error burst of at most 32 bits is detected, at every bit position. */
  lemma BurstIsDetected(a: seq<byte>, b: seq<byte>,
                        before: seq<bool>, x: seq<bool>, y: seq<bool>, after: seq<bool>)
    requires Bits(a) == before + x + after && Bits(b) == before + y + after
    requires |x| == |y| <= 32 && x != y
    ensures Crc(a) != Crc(b)
  {
    var c := Feed(ALL_ONES, before);
    RegisterFeeds(ALL_ONES, a);
    RegisterFeeds(ALL_ONES, b);
    FeedSplits(ALL_ONES, before + x, after);
    FeedSplits(ALL_ONES, before + y, after);
    FeedSplits(ALL_ONES, before, x);
    FeedSplits(ALL_ONES, before, y);
    if Register(ALL_ONES, a) == Register(ALL_ONES, b) {
      FeedIsInjective(Feed(c, x), Feed(c, y), after);
      ShortRunsAreInjective(c, x, y);
    }
    CrcsDiffer(a, b);
  }

  lemma {:induction false} WordBitsAreInjective(v: bv32, w: bv32, n: nat)
    requires WordBits(v, n) == WordBits(w, n) && ShiftedOut(v, n) == ShiftedOut(w, n)
    ensures v == w
    decreases n
  {
    hide Odd, Half;
    if n > 0 {
      assert WordBits(v, n)[0] == WordBits(w, n)[0];
      assert WordBits(v, n)[1..] == WordBits(w, n)[1..];
      WordBitsAreInjective(Half(v), Half(w), n - 1);
      SameHalves(v, w);
    }
  }

  lemma SameHalves(v: bv32, w: bv32)
    requires Half(v) == Half(w) && Odd(v) == Odd(w)
    ensures v == w
  {
  }

  lemma SameByte(v: byte, w: byte)
    requires v as bv32 == w as bv32
    ensures v == w
  {
  }

  lemma {:induction false} BitsAreInjective(x: seq<byte>, y: seq<byte>)
    requires |x| == |y| && Bits(x) == Bits(y)
    ensures x == y
    decreases |x|
  {
    hide WordBits, ShiftedOut;
    if x != [] {
      assert Bits(x)[..8] == WordBits(x[0] as bv32, 8) && Bits(x)[8..] == Bits(x[1..]);
      assert Bits(y)[..8] == WordBits(y[0] as bv32, 8) && Bits(y)[8..] == Bits(y[1..]);
      ByteShiftsOut(x[0]);
      ByteShiftsOut(y[0]);
      WordBitsAreInjective(x[0] as bv32, y[0] as bv32, 8);
      SameByte(x[0], y[0]);
      BitsAreInjective(x[1..], y[1..]);
    }
  }

  /** Images that differ only inside four consecutive bytes have different check values. */
  lemma FourByteWindowIsDetected(before: seq<byte>, x: seq<byte>, y: seq<byte>, after: seq<byte>)
    requires |x| == |y| <= 4 && x != y
    ensures Crc(before + x + after) != Crc(before + y + after)
  {
    BitsSplit(before + x, after);
    BitsSplit(before + y, after);
    BitsSplit(before, x);
    BitsSplit(before, y);
    if Bits(x) == Bits(y) {
      BitsAreInjective(x, y);
    }
    BurstIsDetected(before + x + after, before + y + after,
                    Bits(before), Bits(x), Bits(y), Bits(after));
  }

  /** The bound is exact: two strings of 33 bits lead from every register to the same one. */
  lemma ThirtyThreeBitsAreNotEnough(c: bv32)
    ensures var x, y := [true] + WordBits(POLYNOMIAL, 32), [false] + WordBits(0, 32);
            |x| == |y| == 33 && x != y && Feed(c, x) == Feed(c, y)
  {
    hide WordBits, Steps, Add;
    var p, z, s := WordBits(POLYNOMIAL, 32), WordBits(0, 32), BitStep(c);
    FirstBit(c);
    FeedSplits(c, [true], p);
    FeedSplits(c, [false], z);
    WholeWord(Add(s, POLYNOMIAL), POLYNOMIAL);
    WholeWord(s, 0);
    AddAssociates(s, POLYNOMIAL, POLYNOMIAL);
    AddZero(POLYNOMIAL);
    AddZero(s);
    assert ([true] + p)[0] && !([false] + z)[0];
  }

  lemma FirstBit(c: bv32)
    ensures Feed(c, [true]) == Add(BitStep(c), POLYNOMIAL) && Feed(c, [false]) == BitStep(c)
  {
    BitStepIsLinear(c, 1);
    AddZero(c);
  }

  lemma {:induction false} ShiftedOutSplits(w: bv32, m: nat, n: nat)
    ensures ShiftedOut(w, m + n) == ShiftedOut(ShiftedOut(w, m), n)
    decreases m
  {
    if m > 0 {
      ShiftedOutSplits(Half(w), m - 1, n);
    }
  }

  lemma ByteOut(w: bv32)
    ensures ShiftedOut(w, 8) == w >> 8
  {
  }

  lemma WordShiftsOut(w: bv32)
    ensures ShiftedOut(w, 32) == 0
  {
    hide ShiftedOut;
    ShiftedOutSplits(w, 8, 24);
    ShiftedOutSplits(ShiftedOut(w, 8), 8, 16);
    ShiftedOutSplits(ShiftedOut(ShiftedOut(w, 8), 8), 8, 8);
    ByteOut(w);
    ByteOut(w >> 8);
    ByteOut(w >> 8 >> 8);
    ByteOut(w >> 8 >> 8 >> 8);
  }

  lemma WholeWord(c: bv32, w: bv32)
    ensures Feed(c, WordBits(w, 32)) == Steps(Add(c, w), 32)
  {
    hide Feed, WordBits, Steps, Add;
    StepsFeed(c, w, 32);
    WordShiftsOut(w);
    AddZero(Feed(c, WordBits(w, 32)));
  }

  // ---------- The bound, for images ----------

  /** The polynomial with its leading bit, in five bytes, and nothing at all: they differ in the first
      33 bits at most. */
  const DIVISOR: seq<byte> := [0x41, 0x06, 0x71, 0xDB, 0x01]
  const ZEROS: seq<byte> := [0, 0, 0, 0, 0]

  lemma DivisorIsThirtyThreeBits()
    ensures |Bits(DIVISOR)| == |Bits(ZEROS)| == 40
    ensures forall i | 33 <= i < 40 :: Bits(DIVISOR)[i] == Bits(ZEROS)[i]
  {
    hide WordBits, Bits;
    assert DIVISOR == DIVISOR[..4] + [0x01] && ZEROS == ZEROS[..4] + [0];
    BitsSplit(DIVISOR[..4], [0x01]);
    BitsSplit(ZEROS[..4], [0]);
    BitsOfOne(0x01);
    BitsOfOne(0);
    LastByteAgrees();
    var x, z := WordBits(1, 8), WordBits(0, 8);
    assert forall i | 1 <= i < 8 :: x[i] == x[1..][i - 1] && z[i] == z[1..][i - 1];
  }

  lemma LastByteAgrees()
    ensures WordBits(1, 8)[1..] == WordBits(0, 8)[1..]
    ensures WordBits((0x01 as byte) as bv32, 8) == WordBits(1, 8)
  {
    var one: bv32, zero: bv32 := 1, 0;
    assert Half(one) == Half(zero) == 0;
    assert (0x01 as byte) as bv32 == one;
    assert WordBits(one, 8)[1..] == WordBits(0, 7) == WordBits(zero, 8)[1..];
  }

  /** Fed to an empty register, the divisor empties it again. */
  lemma DivisorVanishes()
    ensures Register(0, DIVISOR) == 0
  {
    DivisorSteps();
    hide Update;
    assert DIVISOR[..5] == DIVISOR && DIVISOR[..0] == [];
    RegisterStep(0, DIVISOR, 0);
    RegisterStep(0, DIVISOR, 1);
    RegisterStep(0, DIVISOR, 2);
    RegisterStep(0, DIVISOR, 3);
    RegisterStep(0, DIVISOR, 4);
  }

  lemma DivisorSteps()
    ensures Update(0, 0x41) == 0x1DB7106 && Update(0x1DB7106, 0x06) == 0x1DB71
    ensures Update(0x1DB71, 0x71) == 0x1DB && Update(0x1DB, 0xDB) == 1 && Update(1, 0x01) == 0
  {
  }

  lemma ZerosVanish()
    ensures Register(0, ZEROS) == 0
  {
    ZeroStep();
    hide Update;
    assert ZEROS[..5] == ZEROS && ZEROS[..0] == [];
    RegisterStep(0, ZEROS, 0);
    RegisterStep(0, ZEROS, 1);
    RegisterStep(0, ZEROS, 2);
    RegisterStep(0, ZEROS, 3);
    RegisterStep(0, ZEROS, 4);
  }

  lemma ZeroStep()
    ensures Update(0, 0) == 0
  {
  }

  /** Added to any run, it changes nothing. */
  lemma DivisorIsInvisible(c: bv32)
    ensures Register(c, DIVISOR) == Register(c, ZEROS)
  {
    hide Register, Feed, Bits, Add;
    var x, z := Bits(DIVISOR), Bits(ZEROS);
    DivisorVanishes();
    ZerosVanish();
    RegisterFeeds(c, DIVISOR);
    RegisterFeeds(c, ZEROS);
    RegisterFeeds(0, DIVISOR);
    RegisterFeeds(0, ZEROS);
    FeedIsLinear(c, 0, z, x);
    FeedIsLinear(c, 0, x, z);
    XorCommutes(z, x);
    AddZero(c);
    AddZero(Feed(c, x));
    AddZero(Feed(c, z));
  }

  lemma {:induction false} XorCommutes(x: seq<bool>, y: seq<bool>)
    requires |x| == |y|
    ensures Xor(x, y) == Xor(y, x)
    decreases |x|
  {
    if x != [] {
      XorCommutes(x[1..], y[1..]);
    }
  }

  /** For images too the bound is exact: between any two others, these two strings of five bytes, which
      differ only inside 33 consecutive bits, give the same value. */
  lemma ThirtyThreeBitsCanGoUnnoticed(before: seq<byte>, after: seq<byte>)
    ensures DIVISOR != ZEROS && |DIVISOR| == |ZEROS|
    ensures |Bits(DIVISOR)| == |Bits(ZEROS)| == 40
    ensures forall i | 33 <= i < 40 :: Bits(DIVISOR)[i] == Bits(ZEROS)[i]
    ensures Crc(before + DIVISOR + after) == Crc(before + ZEROS + after)
  {
    hide Register, Bits, Add;
    DivisorIsThirtyThreeBits();
    assert DIVISOR[0] != ZEROS[0];
    RegisterSplits(ALL_ONES, before + DIVISOR, after);
    RegisterSplits(ALL_ONES, before + ZEROS, after);
    RegisterSplits(ALL_ONES, before, DIVISOR);
    RegisterSplits(ALL_ONES, before, ZEROS);
    DivisorIsInvisible(Register(ALL_ONES, before));
  }

  lemma RegisterSplits(c: bv32, x: seq<byte>, y: seq<byte>)
    ensures Register(c, x + y) == Register(Register(c, x), y)
  {
    hide Register, Feed, Bits;
    RegisterFeeds(c, x + y);
    RegisterFeeds(c, x);
    RegisterFeeds(Register(c, x), y);
    BitsSplit(x, y);
    FeedSplits(c, Bits(x), Bits(y));
  }
}
