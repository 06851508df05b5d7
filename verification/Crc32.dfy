/** The image check CalcCRC32 (network/zhw_shell_function.cxx): a table-driven CRC-32, proved equal
    to the bit-by-bit one of section 8 of RFC 1952.

    Bitwise exclusive or goes by the name Add: it is the addition of the algebra used here, and
    under a name of its own the proofs can treat it as such. */
module Crc32 {
  import opened Bytes

  /** The 256 entries of CRC32_Table, sixteen to a row. */
  const ROWS: seq<seq<bv32>> := [
    [0x00000000, 0x77073096, 0xEE0E612C, 0x990951BA, 0x076DC419, 0x706AF48F, 0xE963A535, 0x9E6495A3,
     0x0EDB8832, 0x79DCB8A4, 0xE0D5E91E, 0x97D2D988, 0x09B64C2B, 0x7EB17CBD, 0xE7B82D07, 0x90BF1D91],
    [0x1DB71064, 0x6AB020F2, 0xF3B97148, 0x84BE41DE, 0x1ADAD47D, 0x6DDDE4EB, 0xF4D4B551, 0x83D385C7,
     0x136C9856, 0x646BA8C0, 0xFD62F97A, 0x8A65C9EC, 0x14015C4F, 0x63066CD9, 0xFA0F3D63, 0x8D080DF5],
    [0x3B6E20C8, 0x4C69105E, 0xD56041E4, 0xA2677172, 0x3C03E4D1, 0x4B04D447, 0xD20D85FD, 0xA50AB56B,
     0x35B5A8FA, 0x42B2986C, 0xDBBBC9D6, 0xACBCF940, 0x32D86CE3, 0x45DF5C75, 0xDCD60DCF, 0xABD13D59],
    [0x26D930AC, 0x51DE003A, 0xC8D75180, 0xBFD06116, 0x21B4F4B5, 0x56B3C423, 0xCFBA9599, 0xB8BDA50F,
     0x2802B89E, 0x5F058808, 0xC60CD9B2, 0xB10BE924, 0x2F6F7C87, 0x58684C11, 0xC1611DAB, 0xB6662D3D],
    [0x76DC4190, 0x01DB7106, 0x98D220BC, 0xEFD5102A, 0x71B18589, 0x06B6B51F, 0x9FBFE4A5, 0xE8B8D433,
     0x7807C9A2, 0x0F00F934, 0x9609A88E, 0xE10E9818, 0x7F6A0DBB, 0x086D3D2D, 0x91646C97, 0xE6635C01],
    [0x6B6B51F4, 0x1C6C6162, 0x856530D8, 0xF262004E, 0x6C0695ED, 0x1B01A57B, 0x8208F4C1, 0xF50FC457,
     0x65B0D9C6, 0x12B7E950, 0x8BBEB8EA, 0xFCB9887C, 0x62DD1DDF, 0x15DA2D49, 0x8CD37CF3, 0xFBD44C65],
    [0x4DB26158, 0x3AB551CE, 0xA3BC0074, 0xD4BB30E2, 0x4ADFA541, 0x3DD895D7, 0xA4D1C46D, 0xD3D6F4FB,
     0x4369E96A, 0x346ED9FC, 0xAD678846, 0xDA60B8D0, 0x44042D73, 0x33031DE5, 0xAA0A4C5F, 0xDD0D7CC9],
    [0x5005713C, 0x270241AA, 0xBE0B1010, 0xC90C2086, 0x5768B525, 0x206F85B3, 0xB966D409, 0xCE61E49F,
     0x5EDEF90E, 0x29D9C998, 0xB0D09822, 0xC7D7A8B4, 0x59B33D17, 0x2EB40D81, 0xB7BD5C3B, 0xC0BA6CAD],
    [0xEDB88320, 0x9ABFB3B6, 0x03B6E20C, 0x74B1D29A, 0xEAD54739, 0x9DD277AF, 0x04DB2615, 0x73DC1683,
     0xE3630B12, 0x94643B84, 0x0D6D6A3E, 0x7A6A5AA8, 0xE40ECF0B, 0x9309FF9D, 0x0A00AE27, 0x7D079EB1],
    [0xF00F9344, 0x8708A3D2, 0x1E01F268, 0x6906C2FE, 0xF762575D, 0x806567CB, 0x196C3671, 0x6E6B06E7,
     0xFED41B76, 0x89D32BE0, 0x10DA7A5A, 0x67DD4ACC, 0xF9B9DF6F, 0x8EBEEFF9, 0x17B7BE43, 0x60B08ED5],
    [0xD6D6A3E8, 0xA1D1937E, 0x38D8C2C4, 0x4FDFF252, 0xD1BB67F1, 0xA6BC5767, 0x3FB506DD, 0x48B2364B,
     0xD80D2BDA, 0xAF0A1B4C, 0x36034AF6, 0x41047A60, 0xDF60EFC3, 0xA867DF55, 0x316E8EEF, 0x4669BE79],
    [0xCB61B38C, 0xBC66831A, 0x256FD2A0, 0x5268E236, 0xCC0C7795, 0xBB0B4703, 0x220216B9, 0x5505262F,
     0xC5BA3BBE, 0xB2BD0B28, 0x2BB45A92, 0x5CB36A04, 0xC2D7FFA7, 0xB5D0CF31, 0x2CD99E8B, 0x5BDEAE1D],
    [0x9B64C2B0, 0xEC63F226, 0x756AA39C, 0x026D930A, 0x9C0906A9, 0xEB0E363F, 0x72076785, 0x05005713,
     0x95BF4A82, 0xE2B87A14, 0x7BB12BAE, 0x0CB61B38, 0x92D28E9B, 0xE5D5BE0D, 0x7CDCEFB7, 0x0BDBDF21],
    [0x86D3D2D4, 0xF1D4E242, 0x68DDB3F8, 0x1FDA836E, 0x81BE16CD, 0xF6B9265B, 0x6FB077E1, 0x18B74777,
     0x88085AE6, 0xFF0F6A70, 0x66063BCA, 0x11010B5C, 0x8F659EFF, 0xF862AE69, 0x616BFFD3, 0x166CCF45],
    [0xA00AE278, 0xD70DD2EE, 0x4E048354, 0x3903B3C2, 0xA7672661, 0xD06016F7, 0x4969474D, 0x3E6E77DB,
     0xAED16A4A, 0xD9D65ADC, 0x40DF0B66, 0x37D83BF0, 0xA9BCAE53, 0xDEBB9EC5, 0x47B2CF7F, 0x30B5FFE9],
    [0xBDBDF21C, 0xCABAC28A, 0x53B39330, 0x24B4A3A6, 0xBAD03605, 0xCDD70693, 0x54DE5729, 0x23D967BF,
     0xB3667A2E, 0xC4614AB8, 0x5D681B02, 0x2A6F2B94, 0xB40BBE37, 0xC30C8EA1, 0x5A05DF1B, 0x2D02EF8D]
  ]

  function Entry(z: bv32): bv32
    requires z < 0x100
  {
    ROWS[(z >> 4) as nat][(z & 15) as nat]
  }

  // ---------- The reference: one bit at a time ----------

  const POLYNOMIAL: bv32 := 0xEDB88320
  const ALL_ONES: bv32 := 0xFFFFFFFF

  function Add(x: bv32, y: bv32): bv32 {
    x ^ y
  }

  function BitStep(c: bv32): bv32 {
    if c & 1 == 1 then Add(POLYNOMIAL, c >> 1) else c >> 1
  }

  function EightSteps(c: bv32): bv32 {
    BitStep(BitStep(BitStep(BitStep(BitStep(BitStep(BitStep(BitStep(c))))))))
  }

  function Update(c: bv32, b: byte): bv32 {
    EightSteps(Add(c, b as bv32))
  }

  /** The register after a byte string, starting from `c`. */
  function Register(c: bv32, data: seq<byte>): bv32
    decreases |data|
  {
    if data == [] then c else Update(Register(c, data[..|data| - 1]), data[|data| - 1])
  }

  function Crc(data: seq<byte>): bv32 {
    Add(Register(ALL_ONES, data), ALL_ONES)
  }

  // ---------- Linearity ----------

  lemma XorFacts(p: bv32, x: bv32, y: bv32)
    ensures (x ^ y) >> 1 == (x >> 1) ^ (y >> 1)
    ensures (x ^ y) & 1 == (x & 1) ^ (y & 1)
    ensures x & 1 == 0 || x & 1 == 1
    ensures (p ^ x) ^ (p ^ y) == x ^ y
    ensures (p ^ x) ^ y == p ^ (x ^ y) == x ^ (p ^ y)
  {
  }

  lemma BitStepIsLinear(x: bv32, y: bv32)
    ensures BitStep(Add(x, y)) == Add(BitStep(x), BitStep(y))
  {
    XorFacts(POLYNOMIAL, x, y);
    XorFacts(POLYNOMIAL, y, x);
    XorFacts(POLYNOMIAL, x >> 1, y >> 1);
    if x & 1 == 1 && y & 1 == 1 {
      assert (x ^ y) & 1 == 0;
    }
  }

  lemma EightStepsIsLinear(x: bv32, y: bv32)
    ensures EightSteps(Add(x, y)) == Add(EightSteps(x), EightSteps(y))
  {
    hide BitStep, Add;
    var x1, y1 := BitStep(x), BitStep(y);
    var x2, y2 := BitStep(x1), BitStep(y1);
    var x3, y3 := BitStep(x2), BitStep(y2);
    var x4, y4 := BitStep(x3), BitStep(y3);
    var x5, y5 := BitStep(x4), BitStep(y4);
    var x6, y6 := BitStep(x5), BitStep(y5);
    var x7, y7 := BitStep(x6), BitStep(y6);
    BitStepIsLinear(x, y);
    BitStepIsLinear(x1, y1);
    BitStepIsLinear(x2, y2);
    BitStepIsLinear(x3, y3);
    BitStepIsLinear(x4, y4);
    BitStepIsLinear(x5, y5);
    BitStepIsLinear(x6, y6);
    BitStepIsLinear(x7, y7);
  }

  // ---------- The table holds the eight-step remainders ----------

  predicate IsLowHalf(row: seq<bv32>) {
    && |row| == 16
    && row[0] == EightSteps(0) && row[1] == EightSteps(1)
    && row[2] == EightSteps(2) && row[3] == EightSteps(3)
    && row[4] == EightSteps(4) && row[5] == EightSteps(5)
    && row[6] == EightSteps(6) && row[7] == EightSteps(7)
  }

  predicate IsHighHalf(row: seq<bv32>) {
    && |row| == 16
    && row[8] == EightSteps(8) && row[9] == EightSteps(9)
    && row[10] == EightSteps(10) && row[11] == EightSteps(11)
    && row[12] == EightSteps(12) && row[13] == EightSteps(13)
    && row[14] == EightSteps(14) && row[15] == EightSteps(15)
  }

  predicate IsFirstRow(row: seq<bv32>) {
    IsLowHalf(row) && IsHighHalf(row)
  }

  /** `row` is `first` with one remainder added throughout. */
  predicate IsRow(row: seq<bv32>, first: seq<bv32>, base: bv32) {
    && |row| == 16 == |first|
    && row[0] == Add(base, first[0]) && row[1] == Add(base, first[1])
    && row[2] == Add(base, first[2]) && row[3] == Add(base, first[3])
    && row[4] == Add(base, first[4]) && row[5] == Add(base, first[5])
    && row[6] == Add(base, first[6]) && row[7] == Add(base, first[7])
    && row[8] == Add(base, first[8]) && row[9] == Add(base, first[9])
    && row[10] == Add(base, first[10]) && row[11] == Add(base, first[11])
    && row[12] == Add(base, first[12]) && row[13] == Add(base, first[13])
    && row[14] == Add(base, first[14]) && row[15] == Add(base, first[15])
  }

  lemma Row0()
    ensures |ROWS| == 16 && IsFirstRow(ROWS[0])
  {
    hide IsLowHalf, IsHighHalf;
    Row0Low();
    Row0High();
  }

  lemma Row0Low()
    ensures |ROWS| == 16 && IsLowHalf(ROWS[0])
  {
  }

  lemma Row0High()
    ensures |ROWS| == 16 && IsHighHalf(ROWS[0])
  {
  }

  lemma Row1()
    ensures |ROWS| == 16 && IsRow(ROWS[1], ROWS[0], EightSteps(0x10))
  {
  }

  lemma Row2()
    ensures |ROWS| == 16 && IsRow(ROWS[2], ROWS[0], EightSteps(0x20))
  {
  }

  lemma Row3()
    ensures |ROWS| == 16 && IsRow(ROWS[3], ROWS[0], EightSteps(0x30))
  {
  }

  lemma Row4()
    ensures |ROWS| == 16 && IsRow(ROWS[4], ROWS[0], EightSteps(0x40))
  {
  }

  lemma Row5()
    ensures |ROWS| == 16 && IsRow(ROWS[5], ROWS[0], EightSteps(0x50))
  {
  }

  lemma Row6()
    ensures |ROWS| == 16 && IsRow(ROWS[6], ROWS[0], EightSteps(0x60))
  {
  }

  lemma Row7()
    ensures |ROWS| == 16 && IsRow(ROWS[7], ROWS[0], EightSteps(0x70))
  {
  }

  lemma Row8()
    ensures |ROWS| == 16 && IsRow(ROWS[8], ROWS[0], EightSteps(0x80))
  {
  }

  lemma Row9()
    ensures |ROWS| == 16 && IsRow(ROWS[9], ROWS[0], EightSteps(0x90))
  {
  }

  lemma Row10()
    ensures |ROWS| == 16 && IsRow(ROWS[10], ROWS[0], EightSteps(0xA0))
  {
  }

  lemma Row11()
    ensures |ROWS| == 16 && IsRow(ROWS[11], ROWS[0], EightSteps(0xB0))
  {
  }

  lemma Row12()
    ensures |ROWS| == 16 && IsRow(ROWS[12], ROWS[0], EightSteps(0xC0))
  {
  }

  lemma Row13()
    ensures |ROWS| == 16 && IsRow(ROWS[13], ROWS[0], EightSteps(0xD0))
  {
  }

  lemma Row14()
    ensures |ROWS| == 16 && IsRow(ROWS[14], ROWS[0], EightSteps(0xE0))
  {
  }

  lemma Row15()
    ensures |ROWS| == 16 && IsRow(ROWS[15], ROWS[0], EightSteps(0xF0))
  {
  }

  lemma FirstRowAt(row: seq<bv32>, lo: bv32)
    requires IsFirstRow(row) && lo < 16
    ensures row[lo as nat] == EightSteps(lo)
  {
    hide EightSteps;
  }

  lemma RowAt(row: seq<bv32>, first: seq<bv32>, i: nat, base: bv32)
    requires IsRow(row, first, base) && i < 16
    ensures row[i] == Add(base, first[i])
  {
    hide Add;
  }

  lemma Row0At(lo: bv32)
    requires lo < 16
    ensures |ROWS| == 16 && |ROWS[0]| == 16 && ROWS[0][lo as nat] == EightSteps(lo)
  {
    hide EightSteps, IsFirstRow;
    Row0();
    FirstRowAt(ROWS[0], lo);
  }

  lemma LaterRow(hi: bv32, base: bv32)
    requires 0 < hi < 16 && base == EightSteps(hi << 4)
    ensures |ROWS| == 16 && IsRow(ROWS[hi as nat], ROWS[0], base)
  {
    hide EightSteps, IsRow;
    match hi
    case 1 => Row1();
    case 2 => Row2();
    case 3 => Row3();
    case 4 => Row4();
    case 5 => Row5();
    case 6 => Row6();
    case 7 => Row7();
    case 8 => Row8();
    case 9 => Row9();
    case 10 => Row10();
    case 11 => Row11();
    case 12 => Row12();
    case 13 => Row13();
    case 14 => Row14();
    case 15 => Row15();
  }

  lemma SplitNibbles(z: bv32)
    requires z < 0x100
    ensures z >> 4 < 16 && z & 15 < 16 && Add((z >> 4) << 4, z & 15) == z
    ensures z >> 4 == 0 ==> z & 15 == z
  {
  }

  lemma Rejoin(z: bv32, a: bv32, b: bv32)
    requires Add(a, b) == z
    ensures Add(EightSteps(a), EightSteps(b)) == EightSteps(z)
  {
    hide EightSteps, Add;
    EightStepsIsLinear(a, b);
  }

  /** All 256 entries are the eight-step remainders of their index. */
  lemma TableIsEightSteps(z: bv32)
    requires z < 0x100
    ensures Entry(z) == EightSteps(z)
  {
    hide EightSteps, Add, IsRow;
    SplitNibbles(z);
    var hi, lo := z >> 4, z & 15;
    Row0At(lo);
    if hi != 0 {
      LaterRow(hi, EightSteps(hi << 4));
      RowLength(ROWS[hi as nat], ROWS[0], EightSteps(hi << 4));
      RowAt(ROWS[hi as nat], ROWS[0], lo as nat, EightSteps(hi << 4));
      Rejoin(z, hi << 4, lo);
    }
  }

  lemma RowLength(row: seq<bv32>, first: seq<bv32>, base: bv32)
    requires IsRow(row, first, base)
    ensures |row| == 16 == |first|
  {
  }

  // ---------- The fast form computes the reference ----------

  /** A register whose low byte is clear is only shifted. */
  lemma ClearByteShifts(x: bv32, shifted: bv32)
    requires x & 0xFF == 0 && shifted == x >> 8
    ensures EightSteps(x) == shifted
  {
  }

  lemma ByteLeavesHighPart(c: bv32, b: byte)
    ensures Add(c, b as bv32) >> 8 == c >> 8
  {
  }

  lemma LowByteCleared(y: bv32)
    ensures Add(y, y & 0xFF) & 0xFF == 0
  {
  }

  lemma HighBytesKept(y: bv32)
    ensures Add(y, y & 0xFF) >> 8 == y >> 8
  {
  }

  lemma AddTwice(x: bv32, y: bv32)
    ensures Add(x, Add(y, x)) == y
  {
  }

  /** The table index, and the part of the register the table does not see. */
  method SplitRegister(y: bv32) returns (low: bv32, ghost high: bv32)
    ensures low < 0x100 && Add(low, high) == y && high & 0xFF == 0 && high >> 8 == y >> 8
  {
    hide Add;
    low := y & 0xFF;
    high := Add(y, low);
    LowByteCleared(y);
    HighBytesKept(y);
    AddTwice(low, y);
  }

  method Index(c: bv32, b: byte) returns (low: bv32, ghost high: bv32)
    ensures low < 0x100 && high & 0xFF == 0 && Add(low, high) == Add(c, b as bv32)
    ensures high >> 8 == c >> 8
  {
    hide Add;
    low, high := SplitRegister(Add(c, b as bv32));
    ByteLeavesHighPart(c, b);
  }

  /** The body of the loop of CalcCRC32: one look-up is eight bit steps. */
  method OnePass(c: bv32, b: byte) returns (c': bv32)
    ensures c' == Update(c, b)
  {
    hide EightSteps, Add, Entry;
    var low;
    ghost var high;
    low, high := Index(c, b);
    TableIsEightSteps(low);
    ClearByteShifts(high, c >> 8);
    Rejoin(Add(c, b as bv32), low, high);
    c' := Add(Entry(low), c >> 8);
  }

  /** CalcCRC32: for every byte string the table-driven check is the bit-by-bit one. */
  method CalcCRC32(data: seq<byte>) returns (crc: bv32)
    ensures crc == Crc(data)
  {
    hide Update, Add;
    crc := ALL_ONES;
    var i := 0;
    while i < |data|
      invariant 0 <= i <= |data| && crc == Register(ALL_ONES, data[..i])
    {
      crc := OnePass(crc, data[i]);
      assert data[..i + 1][..i] == data[..i];
      i := i + 1;
    }
    assert data[..i] == data;
    crc := Add(crc, ALL_ONES);
  }

  lemma RegisterStep(c: bv32, data: seq<byte>, i: nat)
    requires i < |data|
    ensures Register(c, data[..i + 1]) == Update(Register(c, data[..i]), data[i])
  {
    assert data[..i + 1][..i] == data[..i];
  }
}
