/** The cyclic redundancy check of the VantagePro2 protocol.

    A message is accepted when a table-driven loop over all its bytes ends on
    zero. The specification side of this module knows nothing of the table: it
    reads a message as a polynomial over GF(2), most significant bit first, and
    divides it by x^16 + x^12 + x^5 + 1 (section 2 of ITU-T Recommendation V.41)
    one bit at a time. */
module Crc {

  // ---------------------------------------------------------------- the table

  /** The 256 constants, in sixteen rows of sixteen. */
  const CRC_VALUES: seq<seq<bv16>> := [
    [0x0000, 0x1021, 0x2042, 0x3063, 0x4084, 0x50a5, 0x60c6, 0x70e7,
     0x8108, 0x9129, 0xa14a, 0xb16b, 0xc18c, 0xd1ad, 0xe1ce, 0xf1ef],
    [0x1231, 0x0210, 0x3273, 0x2252, 0x52b5, 0x4294, 0x72f7, 0x62d6,
     0x9339, 0x8318, 0xb37b, 0xa35a, 0xd3bd, 0xc39c, 0xf3ff, 0xe3de],
    [0x2462, 0x3443, 0x0420, 0x1401, 0x64e6, 0x74c7, 0x44a4, 0x5485,
     0xa56a, 0xb54b, 0x8528, 0x9509, 0xe5ee, 0xf5cf, 0xc5ac, 0xd58d],
    [0x3653, 0x2672, 0x1611, 0x0630, 0x76d7, 0x66f6, 0x5695, 0x46b4,
     0xb75b, 0xa77a, 0x9719, 0x8738, 0xf7df, 0xe7fe, 0xd79d, 0xc7bc],
    [0x48c4, 0x58e5, 0x6886, 0x78a7, 0x0840, 0x1861, 0x2802, 0x3823,
     0xc9cc, 0xd9ed, 0xe98e, 0xf9af, 0x8948, 0x9969, 0xa90a, 0xb92b],
    [0x5af5, 0x4ad4, 0x7ab7, 0x6a96, 0x1a71, 0x0a50, 0x3a33, 0x2a12,
     0xdbfd, 0xcbdc, 0xfbbf, 0xeb9e, 0x9b79, 0x8b58, 0xbb3b, 0xab1a],
    [0x6ca6, 0x7c87, 0x4ce4, 0x5cc5, 0x2c22, 0x3c03, 0x0c60, 0x1c41,
     0xedae, 0xfd8f, 0xcdec, 0xddcd, 0xad2a, 0xbd0b, 0x8d68, 0x9d49],
    [0x7e97, 0x6eb6, 0x5ed5, 0x4ef4, 0x3e13, 0x2e32, 0x1e51, 0x0e70,
     0xff9f, 0xefbe, 0xdfdd, 0xcffc, 0xbf1b, 0xaf3a, 0x9f59, 0x8f78],
    [0x9188, 0x81a9, 0xb1ca, 0xa1eb, 0xd10c, 0xc12d, 0xf14e, 0xe16f,
     0x1080, 0x00a1, 0x30c2, 0x20e3, 0x5004, 0x4025, 0x7046, 0x6067],
    [0x83b9, 0x9398, 0xa3fb, 0xb3da, 0xc33d, 0xd31c, 0xe37f, 0xf35e,
     0x02b1, 0x1290, 0x22f3, 0x32d2, 0x4235, 0x5214, 0x6277, 0x7256],
    [0xb5ea, 0xa5cb, 0x95a8, 0x8589, 0xf56e, 0xe54f, 0xd52c, 0xc50d,
     0x34e2, 0x24c3, 0x14a0, 0x0481, 0x7466, 0x6447, 0x5424, 0x4405],
    [0xa7db, 0xb7fa, 0x8799, 0x97b8, 0xe75f, 0xf77e, 0xc71d, 0xd73c,
     0x26d3, 0x36f2, 0x0691, 0x16b0, 0x6657, 0x7676, 0x4615, 0x5634],
    [0xd94c, 0xc96d, 0xf90e, 0xe92f, 0x99c8, 0x89e9, 0xb98a, 0xa9ab,
     0x5844, 0x4865, 0x7806, 0x6827, 0x18c0, 0x08e1, 0x3882, 0x28a3],
    [0xcb7d, 0xdb5c, 0xeb3f, 0xfb1e, 0x8bf9, 0x9bd8, 0xabbb, 0xbb9a,
     0x4a75, 0x5a54, 0x6a37, 0x7a16, 0x0af1, 0x1ad0, 0x2ab3, 0x3a92],
    [0xfd2e, 0xed0f, 0xdd6c, 0xcd4d, 0xbdaa, 0xad8b, 0x9de8, 0x8dc9,
     0x7c26, 0x6c07, 0x5c64, 0x4c45, 0x3ca2, 0x2c83, 0x1ce0, 0x0cc1],
    [0xef1f, 0xff3e, 0xcf5d, 0xdf7c, 0xaf9b, 0xbfba, 0x8fd9, 0x9ff8,
     0x6e17, 0x7e36, 0x4e55, 0x5e74, 0x2e93, 0x3eb2, 0x0ed1, 0x1ef0]
  ]

  function TableEntry(index: bv8): bv16 {
    CRC_VALUES[(index >> 4) as bv4 as int][(index & 15) as bv4 as int]
  }

  // ------------------------------------------------------- the table-driven loop

  function Xor(a: bv16, b: bv16): bv16 {
    a ^ b
  }

  function High(b: bv8): bv16 {
    b as bv16 << 8
  }

  function Low(b: bv8): bv16 {
    b as bv16
  }

  function Update(crc: bv16, b: bv8): bv16 {
    Xor(TableEntry((crc >> 8) as bv8 ^ b), crc << 8)
  }

  function CrcOf(msg: seq<bv8>): bv16 {
    if msg == [] then 0 else Update(CrcOf(msg[..|msg| - 1]), msg[|msg| - 1])
  }

  predicate Validates(msg: seq<bv8>) {
    CrcOf(msg) == 0
  }

  function HighByte(crc: bv16): bv8 {
    ((crc & 0xff00) >> 8) as bv8
  }

  function LowByte(crc: bv16): bv8 {
    (crc & 0x00ff) as bv8
  }

  /** The two bytes that `ComputeCRC` appends, high byte first. */
  function CrcBytes(crc: bv16): seq<bv8> {
    [HighByte(crc), LowByte(crc)]
  }

  function Sealed(prefix: seq<bv8>): seq<bv8> {
    prefix + CrcBytes(CrcOf(prefix))
  }

  // ------------------------------------------------- polynomial division, by bits

  /** Multiply a remainder by x and reduce it modulo the generator. */
  function Shift(c: bv16): bv16 {
    if c & 0x8000 != 0 then (c << 1) ^ 0x1021 else c << 1
  }

  function ShiftBy(c: bv16, n: nat): bv16 {
    if n == 0 then c else Shift(ShiftBy(c, n - 1))
  }

  function AsWord(bit: bool): bv16 {
    if bit then 1 else 0
  }

  /** Remainder of a polynomial, given by its coefficients from the highest one
      down, in the division by the generator. */
  function Remainder(bits: seq<bool>): bv16 {
    if bits == [] then 0
    else Xor(Shift(Remainder(bits[..|bits| - 1])), AsWord(bits[|bits| - 1]))
  }

  function BitsOfByte(b: bv8): seq<bool> {
    [b & 0x80 != 0, b & 0x40 != 0, b & 0x20 != 0, b & 0x10 != 0,
     b & 0x08 != 0, b & 0x04 != 0, b & 0x02 != 0, b & 0x01 != 0]
  }

  function Bits(msg: seq<bv8>): (bits: seq<bool>)
    ensures |bits| == 8 * |msg|
  {
    if msg == [] then [] else Bits(msg[..|msg| - 1]) + BitsOfByte(msg[|msg| - 1])
  }

  function Zeros(n: nat): seq<bool> {
    seq(n, _ => false)
  }

  // ---------------------------------------------------------- word-level algebra

  lemma XorLaws(a: bv16, b: bv16, c: bv16)
    ensures Xor(Xor(a, b), c) == Xor(a, Xor(b, c))
    ensures Xor(a, b) == Xor(b, a)
    ensures Xor(a, a) == 0
    ensures Xor(a, 0) == a
  {
  }

  lemma XorInterchange(a: bv16, b: bv16, c: bv16, d: bv16)
    ensures Xor(Xor(a, b), Xor(c, d)) == Xor(Xor(a, c), Xor(b, d))
  {
    hide Xor;
    XorLaws(a, b, Xor(c, d));
    XorLaws(b, c, d);
    XorLaws(c, b, d);
    XorLaws(a, c, Xor(b, d));
  }

  lemma XorCancel(a: bv16, b: bv16, c: bv16)
    requires Xor(a, c) == Xor(b, c)
    ensures a == b
  {
  }

  lemma GeneratorLeft(a: bv16, b: bv16)
    ensures (a ^ 0x1021) ^ b == (a ^ b) ^ 0x1021
  {
  }

  lemma GeneratorRight(a: bv16, b: bv16)
    ensures a ^ (b ^ 0x1021) == (a ^ b) ^ 0x1021
  {
  }

  lemma GeneratorTwice(a: bv16, b: bv16)
    ensures (a ^ 0x1021) ^ (b ^ 0x1021) == a ^ b
  {
  }

  lemma TopBit(a: bv16, b: bv16)
    ensures (a ^ b) & 0x8000 == (a & 0x8000) ^ (b & 0x8000)
    ensures a & 0x8000 == 0 || a & 0x8000 == 0x8000
    ensures b & 0x8000 == 0 || b & 0x8000 == 0x8000
    ensures (a ^ b) << 1 == (a << 1) ^ (b << 1)
  {
  }

  /** Multiplication by x modulo the generator is additive. */
  lemma ShiftXor(a: bv16, b: bv16)
    ensures Shift(Xor(a, b)) == Xor(Shift(a), Shift(b))
  {
    TopBit(a, b);
    GeneratorLeft(a << 1, b << 1);
    GeneratorRight(a << 1, b << 1);
    GeneratorTwice(a << 1, b << 1);
    assert (0x8000 as bv16) ^ 0x8000 == 0;
    assert (0x8000 as bv16) ^ 0 == 0x8000;
    assert (0 as bv16) ^ 0x8000 == 0x8000;
  }

  lemma ShiftZero(c: bv16)
    ensures Shift(c) == 0 <==> c == 0
  {
  }

  /** Multiplication by x modulo the generator loses nothing. */
  lemma ShiftInjective(a: bv16, b: bv16)
    requires Shift(a) == Shift(b)
    ensures a == b
  {
    hide Shift, Xor;
    ShiftXor(a, b);
    XorLaws(Shift(a), 0, 0);
    ShiftZero(Xor(a, b));
    XorLaws(b, 0, 0);
    XorCancel(a, b, b);
  }

  lemma {:induction false} ShiftByXor(a: bv16, b: bv16, n: nat)
    ensures ShiftBy(Xor(a, b), n) == Xor(ShiftBy(a, n), ShiftBy(b, n))
  {
    hide Shift, Xor;
    if n == 0 {
    } else {
      ShiftByXor(a, b, n - 1);
      ShiftXor(ShiftBy(a, n - 1), ShiftBy(b, n - 1));
    }
  }

  lemma {:induction false} ShiftByAdd(c: bv16, m: nat, n: nat)
    ensures ShiftBy(c, m + n) == ShiftBy(ShiftBy(c, m), n)
  {
    hide Shift;
    if n == 0 {
    } else {
      ShiftByAdd(c, m, n - 1);
    }
  }

  lemma {:induction false} ShiftByZero(c: bv16, n: nat)
    ensures ShiftBy(c, n) == 0 <==> c == 0
  {
    hide Shift;
    if n == 0 {
    } else {
      ShiftByZero(c, n - 1);
      ShiftZero(ShiftBy(c, n - 1));
    }
  }

  // ------------------------------------------------- the table is the polynomial

  /** Eight divisions steps, written out so that constants can be computed. */
  function Shift8(c: bv16): bv16 {
    Shift(Shift(Shift(Shift(Shift(Shift(Shift(Shift(c))))))))
  }

  /** The table is linear: each entry is the head of its row plus the entry of
      the first row in the same column. */
  predicate RowFollows(row: seq<bv16>) {
    && |row| == 16
    && row[1] == Xor(row[0], 0x1021) && row[2] == Xor(row[0], 0x2042) && row[3] == Xor(row[0], 0x3063)
    && row[4] == Xor(row[0], 0x4084) && row[5] == Xor(row[0], 0x50a5) && row[6] == Xor(row[0], 0x60c6)
    && row[7] == Xor(row[0], 0x70e7) && row[8] == Xor(row[0], 0x8108) && row[9] == Xor(row[0], 0x9129)
    && row[10] == Xor(row[0], 0xa14a) && row[11] == Xor(row[0], 0xb16b) && row[12] == Xor(row[0], 0xc18c)
    && row[13] == Xor(row[0], 0xd1ad) && row[14] == Xor(row[0], 0xe1ce) && row[15] == Xor(row[0], 0xf1ef)
  }

  lemma RowsFollow0()
    ensures forall h :: 0 <= h < 4 ==> RowFollows(CRC_VALUES[h])
  {
  }

  lemma RowsFollow4()
    ensures forall h :: 4 <= h < 8 ==> RowFollows(CRC_VALUES[h])
  {
  }

  lemma RowsFollow8()
    ensures forall h :: 8 <= h < 12 ==> RowFollows(CRC_VALUES[h])
  {
  }

  lemma RowsFollow12()
    ensures forall h :: 12 <= h < 16 ==> RowFollows(CRC_VALUES[h])
  {
  }

  lemma RowsFollow(h: bv4)
    ensures |CRC_VALUES| == 16 && RowFollows(CRC_VALUES[h as int])
  {
    hide RowFollows;
    if
    case 0 <= h as int < 4 => RowsFollow0();
    case 4 <= h as int < 8 => RowsFollow4();
    case 8 <= h as int < 12 => RowsFollow8();
    case 12 <= h as int < 16 => RowsFollow12();
  }

  lemma FirstRow(k: bv4)
    ensures |CRC_VALUES| == 16 && |CRC_VALUES[0]| == 16
    ensures CRC_VALUES[0][k as int] == Shift8((k as bv16) << 8)
  {
  }

  lemma FirstColumn(h: bv4)
    ensures |CRC_VALUES| == 16 && |CRC_VALUES[h as int]| == 16
    ensures CRC_VALUES[h as int][0] == Shift8((h as bv16) << 12)
  {
  }

  lemma RowEntry(row: seq<bv16>, k: int)
    requires RowFollows(row) && 0 <= k < 16
    ensures |CRC_VALUES| == 16 && |CRC_VALUES[0]| == 16
    ensures row[k] == Xor(row[0], CRC_VALUES[0][k])
  {
  }

  lemma Shift8Is(c: bv16)
    ensures Shift8(c) == ShiftBy(c, 8)
  {
    hide Shift;
    assert ShiftBy(c, 1) == Shift(ShiftBy(c, 0));
    var c2 := Shift(Shift(c));
    assert ShiftBy(c, 2) == c2;
    assert ShiftBy(c, 3) == Shift(c2);
    var c4 := Shift(Shift(c2));
    assert ShiftBy(c, 4) == c4;
    assert ShiftBy(c, 5) == Shift(c4);
    assert ShiftBy(c, 6) == Shift(Shift(c4));
    assert ShiftBy(c, 7) == Shift(Shift(Shift(c4)));
  }

  lemma TableEntryAt(h: bv4, k: bv4)
    ensures |CRC_VALUES| == 16 && |CRC_VALUES[h as int]| == 16
    ensures CRC_VALUES[h as int][k as int]
         == ShiftBy(Xor((h as bv16) << 12, (k as bv16) << 8), 8)
  {
    hide Shift, Shift8, Xor, CRC_VALUES;
    RowsFollow(h);
    FirstColumn(h);
    FirstRow(k);
    RowEntry(CRC_VALUES[h as int], k as int);
    Shift8Is((h as bv16) << 12);
    Shift8Is((k as bv16) << 8);
    ShiftByXor((h as bv16) << 12, (k as bv16) << 8, 8);
  }

  lemma HalvesOfIndex(index: bv8)
    ensures High(index)
         == Xor(((index >> 4) as bv4 as bv16) << 12, ((index & 15) as bv4 as bv16) << 8)
  {
  }

  /** Every entry of the table is what eight division steps make of its index. */
  lemma TableIsPolynomial(index: bv8)
    ensures TableEntry(index) == ShiftBy(High(index), 8)
  {
    hide ShiftBy, Xor, High, CRC_VALUES;
    TableEntryAt((index >> 4) as bv4, (index & 15) as bv4);
    HalvesOfIndex(index);
  }
}
