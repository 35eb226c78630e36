/**
The hash the storage server keys its label map with: a table-driven CRC-32.

The server keeps a 256-entry table and folds one message byte at a time into a
64-bit accumulator. The reference here is the shift register that consumes one
message BIT at a time (least significant bit of each byte first) and divides by
the reflected polynomial 0xEDB88320, the CRC of section 8 of RFC 1952 with start
value 0 and no final complement.
*/
module Crc32 {

  const POLYNOMIAL: bv32 := 0xEDB88320

  // ---------------------------------------------------------------- reference

  function Xor(x: bv32, y: bv32): bv32 {
    x ^ y
  }

  /** The coefficient that leaves the register next. */
  predicate Low(y: bv32) {
    y & 1 == 1
  }

  function Half(y: bv32): bv32 {
    y >> 1
  }

  /** One step of the reflected division: the lowest bit leaves the register. */
  function Shift(reg: bv32): bv32 {
    if Low(reg) then Xor(Half(reg), POLYNOMIAL) else Half(reg)
  }

  /** Consumes one message bit. */
  function Feed(reg: bv32, bit: bool): bv32 {
    Shift(Xor(reg, if bit then 1 else 0))
  }

  /** The register after consuming `bits` in order. */
  function Register(reg: bv32, bits: seq<bool>): bv32
    decreases |bits|
  {
    if |bits| == 0 then reg else Register(Feed(reg, bits[0]), bits[1..])
  }

  /** The lowest `n` bits of `y` in transmission order, lowest first. */
  function BitsFrom(y: bv32, n: nat): (bits: seq<bool>)
    ensures |bits| == n
    decreases n
  {
    if n == 0 then [] else [Low(y)] + BitsFrom(Half(y), n - 1)
  }

  function BitsOf(b: bv8): seq<bool> {
    BitsFrom(b as bv32, 8)
  }

  function MessageBits(s: seq<bv8>): seq<bool> {
    if s == [] then [] else BitsOf(s[0]) + MessageBits(s[1..])
  }

  /** The CRC by definition: divide the message bit by bit, starting from 0. */
  function BitwiseCrc(s: seq<bv8>): bv32 {
    Register(0, MessageBits(s))
  }

  // ---------------------------------------------------------------- the table

  const ROW_0: seq<bv32> := [
    0x00000000, 0x77073096, 0xee0e612c, 0x990951ba,
    0x076dc419, 0x706af48f, 0xe963a535, 0x9e6495a3,
    0x0edb8832, 0x79dcb8a4, 0xe0d5e91e, 0x97d2d988,
    0x09b64c2b, 0x7eb17cbd, 0xe7b82d07, 0x90bf1d91
  ]
  const ROW_1: seq<bv32> := [
    0x1db71064, 0x6ab020f2, 0xf3b97148, 0x84be41de,
    0x1adad47d, 0x6ddde4eb, 0xf4d4b551, 0x83d385c7,
    0x136c9856, 0x646ba8c0, 0xfd62f97a, 0x8a65c9ec,
    0x14015c4f, 0x63066cd9, 0xfa0f3d63, 0x8d080df5
  ]
  const ROW_2: seq<bv32> := [
    0x3b6e20c8, 0x4c69105e, 0xd56041e4, 0xa2677172,
    0x3c03e4d1, 0x4b04d447, 0xd20d85fd, 0xa50ab56b,
    0x35b5a8fa, 0x42b2986c, 0xdbbbc9d6, 0xacbcf940,
    0x32d86ce3, 0x45df5c75, 0xdcd60dcf, 0xabd13d59
  ]
  const ROW_3: seq<bv32> := [
    0x26d930ac, 0x51de003a, 0xc8d75180, 0xbfd06116,
    0x21b4f4b5, 0x56b3c423, 0xcfba9599, 0xb8bda50f,
    0x2802b89e, 0x5f058808, 0xc60cd9b2, 0xb10be924,
    0x2f6f7c87, 0x58684c11, 0xc1611dab, 0xb6662d3d
  ]
  const ROW_4: seq<bv32> := [
    0x76dc4190, 0x01db7106, 0x98d220bc, 0xefd5102a,
    0x71b18589, 0x06b6b51f, 0x9fbfe4a5, 0xe8b8d433,
    0x7807c9a2, 0x0f00f934, 0x9609a88e, 0xe10e9818,
    0x7f6a0dbb, 0x086d3d2d, 0x91646c97, 0xe6635c01
  ]
  const ROW_5: seq<bv32> := [
    0x6b6b51f4, 0x1c6c6162, 0x856530d8, 0xf262004e,
    0x6c0695ed, 0x1b01a57b, 0x8208f4c1, 0xf50fc457,
    0x65b0d9c6, 0x12b7e950, 0x8bbeb8ea, 0xfcb9887c,
    0x62dd1ddf, 0x15da2d49, 0x8cd37cf3, 0xfbd44c65
  ]
  const ROW_6: seq<bv32> := [
    0x4db26158, 0x3ab551ce, 0xa3bc0074, 0xd4bb30e2,
    0x4adfa541, 0x3dd895d7, 0xa4d1c46d, 0xd3d6f4fb,
    0x4369e96a, 0x346ed9fc, 0xad678846, 0xda60b8d0,
    0x44042d73, 0x33031de5, 0xaa0a4c5f, 0xdd0d7cc9
  ]
  const ROW_7: seq<bv32> := [
    0x5005713c, 0x270241aa, 0xbe0b1010, 0xc90c2086,
    0x5768b525, 0x206f85b3, 0xb966d409, 0xce61e49f,
    0x5edef90e, 0x29d9c998, 0xb0d09822, 0xc7d7a8b4,
    0x59b33d17, 0x2eb40d81, 0xb7bd5c3b, 0xc0ba6cad
  ]
  const ROW_8: seq<bv32> := [
    0xedb88320, 0x9abfb3b6, 0x03b6e20c, 0x74b1d29a,
    0xead54739, 0x9dd277af, 0x04db2615, 0x73dc1683,
    0xe3630b12, 0x94643b84, 0x0d6d6a3e, 0x7a6a5aa8,
    0xe40ecf0b, 0x9309ff9d, 0x0a00ae27, 0x7d079eb1
  ]
  const ROW_9: seq<bv32> := [
    0xf00f9344, 0x8708a3d2, 0x1e01f268, 0x6906c2fe,
    0xf762575d, 0x806567cb, 0x196c3671, 0x6e6b06e7,
    0xfed41b76, 0x89d32be0, 0x10da7a5a, 0x67dd4acc,
    0xf9b9df6f, 0x8ebeeff9, 0x17b7be43, 0x60b08ed5
  ]
  const ROW_A: seq<bv32> := [
    0xd6d6a3e8, 0xa1d1937e, 0x38d8c2c4, 0x4fdff252,
    0xd1bb67f1, 0xa6bc5767, 0x3fb506dd, 0x48b2364b,
    0xd80d2bda, 0xaf0a1b4c, 0x36034af6, 0x41047a60,
    0xdf60efc3, 0xa867df55, 0x316e8eef, 0x4669be79
  ]
  const ROW_B: seq<bv32> := [
    0xcb61b38c, 0xbc66831a, 0x256fd2a0, 0x5268e236,
    0xcc0c7795, 0xbb0b4703, 0x220216b9, 0x5505262f,
    0xc5ba3bbe, 0xb2bd0b28, 0x2bb45a92, 0x5cb36a04,
    0xc2d7ffa7, 0xb5d0cf31, 0x2cd99e8b, 0x5bdeae1d
  ]
  const ROW_C: seq<bv32> := [
    0x9b64c2b0, 0xec63f226, 0x756aa39c, 0x026d930a,
    0x9c0906a9, 0xeb0e363f, 0x72076785, 0x05005713,
    0x95bf4a82, 0xe2b87a14, 0x7bb12bae, 0x0cb61b38,
    0x92d28e9b, 0xe5d5be0d, 0x7cdcefb7, 0x0bdbdf21
  ]
  const ROW_D: seq<bv32> := [
    0x86d3d2d4, 0xf1d4e242, 0x68ddb3f8, 0x1fda836e,
    0x81be16cd, 0xf6b9265b, 0x6fb077e1, 0x18b74777,
    0x88085ae6, 0xff0f6a70, 0x66063bca, 0x11010b5c,
    0x8f659eff, 0xf862ae69, 0x616bffd3, 0x166ccf45
  ]
  const ROW_E: seq<bv32> := [
    0xa00ae278, 0xd70dd2ee, 0x4e048354, 0x3903b3c2,
    0xa7672661, 0xd06016f7, 0x4969474d, 0x3e6e77db,
    0xaed16a4a, 0xd9d65adc, 0x40df0b66, 0x37d83bf0,
    0xa9bcae53, 0xdebb9ec5, 0x47b2cf7f, 0x30b5ffe9
  ]
  const ROW_F: seq<bv32> := [
    0xbdbdf21c, 0xcabac28a, 0x53b39330, 0x24b4a3a6,
    0xbad03605, 0xcdd70693, 0x54de5729, 0x23d967bf,
    0xb3667a2e, 0xc4614ab8, 0x5d681b02, 0x2a6f2b94,
    0xb40bbe37, 0xc30c8ea1, 0x5a05df1b, 0x2d02ef8d
  ]

  /** The 256 constants of the server, sixteen to a row. */
  function Row(h: nat): (row: seq<bv32>)
    requires h < 16
    ensures |row| == 16
  {
    match h
    case 0 => ROW_0
    case 1 => ROW_1
    case 2 => ROW_2
    case 3 => ROW_3
    case 4 => ROW_4
    case 5 => ROW_5
    case 6 => ROW_6
    case 7 => ROW_7
    case 8 => ROW_8
    case 9 => ROW_9
    case 10 => ROW_A
    case 11 => ROW_B
    case 12 => ROW_C
    case 13 => ROW_D
    case 14 => ROW_E
    case 15 => ROW_F
  }

  function Table(x: bv8): bv32 {
    Row((x >> 4) as int)[(x & 15) as int]
  }

  // ------------------------------------------------------------- bit-level facts

  lemma XorShift(x: bv32, y: bv32)
    ensures (x ^ y) >> 1 == (x >> 1) ^ (y >> 1)
    ensures (x ^ y) & 1 == (x & 1) ^ (y & 1)
    ensures x & 1 == 0 || x & 1 == 1
  {
  }

  lemma XorCancel(x: bv32, y: bv32, p: bv32)
    ensures (x ^ p) ^ (y ^ p) == x ^ y
    ensures (x ^ p) ^ y == (x ^ y) ^ p
    ensures x ^ (y ^ p) == (x ^ y) ^ p
  {
  }

  /** A division step commutes with addition of polynomials. */
  lemma ShiftLinear(x: bv32, y: bv32)
    ensures Shift(Xor(x, y)) == Xor(Shift(x), Shift(y))
  {
    XorShift(x, y);
    XorShift(y, x);
    XorShift(x ^ y, x);
    XorCancel(x >> 1, y >> 1, POLYNOMIAL);
  }

  function Shift4(reg: bv32): bv32 {
    Shift(Shift(Shift(Shift(reg))))
  }

  function Shift8(reg: bv32): bv32 {
    Shift4(Shift4(reg))
  }

  lemma Shift4Linear(x: bv32, y: bv32)
    ensures Shift4(Xor(x, y)) == Xor(Shift4(x), Shift4(y))
  {
    hide Shift, Xor;
    ShiftLinear(x, y);
    ShiftLinear(Shift(x), Shift(y));
    ShiftLinear(Shift(Shift(x)), Shift(Shift(y)));
    ShiftLinear(Shift(Shift(Shift(x))), Shift(Shift(Shift(y))));
  }

  lemma Shift8Linear(x: bv32, y: bv32)
    ensures Shift8(Xor(x, y)) == Xor(Shift8(x), Shift8(y))
  {
    hide Shift4, Xor;
    Shift4Linear(x, y);
    Shift4Linear(Shift4(x), Shift4(y));
  }

  lemma ShiftClear(x: bv32)
    requires x & 1 == 0
    ensures Shift(x) == x >> 1
  {
  }

  lemma Shift2Clear(x: bv32)
    requires x & 3 == 0
    ensures Shift(Shift(x)) == x >> 2
  {
    ShiftClear(x);
    assert (x >> 1) & 1 == 0 && (x >> 1) >> 1 == x >> 2;
  }

  lemma ClearNibble(x: bv32)
    requires x & 15 == 0
    ensures x & 3 == 0 && (x >> 2) & 3 == 0 && (x >> 2) >> 2 == x >> 4
  {
  }

  lemma Shift4Clear(x: bv32)
    requires x & 15 == 0
    ensures Shift4(x) == x >> 4
  {
    hide Shift;
    ClearNibble(x);
    Shift2Clear(x);
    Shift2Clear(x >> 2);
  }

  lemma ClearByte(x: bv32)
    requires x & 0xff == 0
    ensures x & 15 == 0 && (x >> 4) & 15 == 0 && (x >> 4) >> 4 == x >> 8
  {
  }

  lemma Shift8Clear(x: bv32)
    requires x & 0xff == 0
    ensures Shift8(x) == x >> 8
  {
    hide Shift4;
    ClearByte(x);
    Shift4Clear(x);
    Shift4Clear(x >> 4);
  }

  lemma MaskBytes(x: bv32)
    ensures (x & 0xffffff00) & 0xff == 0 && (x & 0xffffff00) >> 8 == x >> 8
    ensures Xor(x & 0xff, x & 0xffffff00) == x
  {
  }

  lemma SplitAt(x: bv32, low: bv32, high: bv32, rest: bv32)
    requires x == Xor(low, high) && Shift8(high) == rest
    ensures Shift8(x) == Xor(Shift8(low), rest)
  {
    hide Shift8, Xor;
    Shift8Linear(low, high);
  }

  /** Eight steps only look at the lowest byte; the rest just moves down. */
  lemma Shift8Split(x: bv32)
    ensures Shift8(x) == Xor(Shift8(x & 0xff), x >> 8)
  {
    hide Shift8, Xor;
    MaskBytes(x);
    Shift8Clear(x & 0xffffff00);
    SplitAt(x, x & 0xff, x & 0xffffff00, x >> 8);
  }

  // -------------------------------------------------- the table holds Shift8

  /** Every row is row 0 shifted by the row's first entry. */
  predicate OffsetRow(row: seq<bv32>, low: seq<bv32>)
    requires |row| == 16 && |low| == 16
  {
    row[1] == Xor(row[0], low[1])
    && row[2] == Xor(row[0], low[2])
    && row[3] == Xor(row[0], low[3])
    && row[4] == Xor(row[0], low[4])
    && row[5] == Xor(row[0], low[5])
    && row[6] == Xor(row[0], low[6])
    && row[7] == Xor(row[0], low[7])
    && row[8] == Xor(row[0], low[8])
    && row[9] == Xor(row[0], low[9])
    && row[10] == Xor(row[0], low[10])
    && row[11] == Xor(row[0], low[11])
    && row[12] == Xor(row[0], low[12])
    && row[13] == Xor(row[0], low[13])
    && row[14] == Xor(row[0], low[14])
    && row[15] == Xor(row[0], low[15])
  }

  lemma OffsetAt(row: seq<bv32>, low: seq<bv32>, l: nat)
    requires |row| == 16 && |low| == 16 && 0 < l < 16
    requires OffsetRow(row, low)
    ensures row[l] == Xor(row[0], low[l])
  {
    hide Xor;
    if l == 1 {} else if l == 2 {} else if l == 3 {} else if l == 4 {} else if l == 5 {}
    else if l == 6 {} else if l == 7 {} else if l == 8 {} else if l == 9 {}
    else if l == 10 {} else if l == 11 {} else if l == 12 {} else if l == 13 {} else if l == 14 {} else if l == 15 {}
  }

  lemma Offset1()
    ensures OffsetRow(ROW_1, ROW_0)
  {
  }

  lemma Offset2()
    ensures OffsetRow(ROW_2, ROW_0)
  {
  }

  lemma Offset3()
    ensures OffsetRow(ROW_3, ROW_0)
  {
  }

  lemma Offset4()
    ensures OffsetRow(ROW_4, ROW_0)
  {
  }

  lemma Offset5()
    ensures OffsetRow(ROW_5, ROW_0)
  {
  }

  lemma Offset6()
    ensures OffsetRow(ROW_6, ROW_0)
  {
  }

  lemma Offset7()
    ensures OffsetRow(ROW_7, ROW_0)
  {
  }

  lemma Offset8()
    ensures OffsetRow(ROW_8, ROW_0)
  {
  }

  lemma Offset9()
    ensures OffsetRow(ROW_9, ROW_0)
  {
  }

  lemma OffsetA()
    ensures OffsetRow(ROW_A, ROW_0)
  {
  }

  lemma OffsetB()
    ensures OffsetRow(ROW_B, ROW_0)
  {
  }

  lemma OffsetC()
    ensures OffsetRow(ROW_C, ROW_0)
  {
  }

  lemma OffsetD()
    ensures OffsetRow(ROW_D, ROW_0)
  {
  }

  lemma OffsetE()
    ensures OffsetRow(ROW_E, ROW_0)
  {
  }

  lemma OffsetF()
    ensures OffsetRow(ROW_F, ROW_0)
  {
  }


  lemma XorZero(x: bv32)
    ensures Xor(0, x) == x && Xor(x, 0) == x
  {
  }

  lemma RowOffset(h: nat, l: nat)
    requires h < 16 && l < 16
    ensures Row(h)[l] == Xor(Row(h)[0], Row(0)[l])
  {
    if h == 0 || l == 0 {
      XorZero(Row(h)[l]);
    } else {
      assert OffsetRow(Row(h), Row(0)) by {
        match h
        case 1 => Offset1();
        case 2 => Offset2();
        case 3 => Offset3();
        case 4 => Offset4();
        case 5 => Offset5();
        case 6 => Offset6();
        case 7 => Offset7();
        case 8 => Offset8();
        case 9 => Offset9();
        case 10 => OffsetA();
        case 11 => OffsetB();
        case 12 => OffsetC();
        case 13 => OffsetD();
        case 14 => OffsetE();
        case 15 => OffsetF();
      }
      OffsetAt(Row(h), Row(0), l);
    }
  }

  lemma RowHead(h: bv8)
    requires h < 16
    ensures Row(h as int)[0] == Shift8((h as bv32) << 4)
  {
    if h < 8 {
      if h == 0 {} else if h == 1 {} else if h == 2 {} else if h == 3 {} else if h == 4 {}
      else if h == 5 {} else if h == 6 {} else if h == 7 {}
    } else {
      if h == 8 {} else if h == 9 {} else if h == 10 {} else if h == 11 {}
      else if h == 12 {} else if h == 13 {} else if h == 14 {} else if h == 15 {}
    }
  }

  lemma LowEntry(l: bv8)
    requires l < 16
    ensures Row(0)[l as int] == Shift8(l as bv32)
  {
    if l < 8 {
      EntryBelow8(l);
    } else {
      EntryFrom8(l);
    }
    hide Row, Shift8;
  }

  lemma EntryBelow8(l: bv8)
    requires l < 8
    ensures Row(0)[l as int] == Shift8(l as bv32)
  {
    if l == 0 {} else if l == 1 {} else if l == 2 {} else if l == 3 {} else if l == 4 {}
    else if l == 5 {} else if l == 6 {} else if l == 7 {}
  }

  lemma EntryFrom8(l: bv8)
    requires 8 <= l < 16
    ensures Row(0)[l as int] == Shift8(l as bv32)
  {
    if l == 8 {} else if l == 9 {} else if l == 10 {} else if l == 11 {}
    else if l == 12 {} else if l == 13 {} else if l == 14 {} else if l == 15 {}
  }

  lemma SplitByte(x: bv8)
    ensures (x >> 4) as int < 16 && (x & 15) as int < 16
    ensures Xor(((x >> 4) as bv32) << 4, (x & 15) as bv32) == x as bv32
  {
  }

  /** Table entry x is what eight division steps make of x. */
  lemma TableIsShift8(x: bv8)
    ensures Table(x) == Shift8(x as bv32)
  {
    hide Shift8, Row, Xor;
    var h, l := x >> 4, x & 15;
    SplitByte(x);
    RowOffset(h as int, l as int);
    RowHead(h);
    LowEntry(l);
    Shift8Linear((h as bv32) << 4, l as bv32);
  }

  // ------------------------------------- one byte at a time equals eight bits

  /** The server's step, on the 32 bits of its accumulator that are ever set. */
  function TableStep(reg: bv32, b: bv8): bv32 {
    Xor(Table(((reg & 0xff) as bv8) ^ b), reg >> 8)
  }

  lemma ByteOf(reg: bv32, b: bv8)
    ensures (((reg & 0xff) as bv8) ^ b) as bv32 == Xor(reg, b as bv32) & 0xff
    ensures Xor(reg, b as bv32) >> 8 == reg >> 8
  {
  }

  lemma TableStepIsShift8(reg: bv32, b: bv8)
    ensures TableStep(reg, b) == Shift8(Xor(reg, b as bv32))
  {
    hide Shift8, Table, Xor;
    ByteOf(reg, b);
    TableIsShift8(((reg & 0xff) as bv8) ^ b);
    Shift8Split(Xor(reg, b as bv32));
  }

  function Steps(n: nat, reg: bv32): bv32
    decreases n
  {
    if n == 0 then reg else Steps(n - 1, Shift(reg))
  }

  lemma Steps4(n: nat, reg: bv32)
    ensures Steps(n + 4, reg) == Steps(n, Shift4(reg))
  {
    hide Shift;
    var x1 := Shift(reg);
    var x2 := Shift(x1);
    var x3 := Shift(x2);
    assert Steps(n + 4, reg) == Steps(n + 3, x1);
    assert Steps(n + 3, x1) == Steps(n + 2, x2);
    assert Steps(n + 2, x2) == Steps(n + 1, x3);
    assert Steps(n + 1, x3) == Steps(n, Shift(x3));
  }

  lemma Steps8(reg: bv32)
    ensures Steps(8, reg) == Shift8(reg)
  {
    hide Shift;
    Steps4(4, reg);
    Steps4(0, Shift4(reg));
  }

  function Drop(n: nat, y: bv32): bv32
    decreases n
  {
    if n == 0 then y else Drop(n - 1, Half(y))
  }

  lemma {:induction false} DropDrop(m: nat, n: nat, y: bv32)
    ensures Drop(m + n, y) == Drop(n, Drop(m, y))
    decreases m
  {
    if m == 0 {
    } else {
      DropDrop(m - 1, n, Half(y));
    }
  }

  function Half4(y: bv32): bv32 {
    y >> 4
  }

  lemma FourHalves(y: bv32)
    ensures Half(Half(Half(Half(y)))) == Half4(y)
  {
  }

  lemma Drop4(y: bv32)
    ensures Drop(4, y) == Half4(y)
  {
    FourHalves(y);
    hide Half, Half4;
    var z := Half(Half(y));
    assert Drop(4, y) == Drop(3, Half(y));
    assert Drop(2, z) == Drop(1, Half(z));
    assert Drop(1, Half(z)) == Drop(0, Half(Half(z)));
  }

  lemma Drop8(y: bv32)
    ensures Drop(8, y) == Half4(Half4(y))
  {
    hide Half, Half4;
    DropDrop(4, 4, y);
    Drop4(y);
    Drop4(Half4(y));
  }

  lemma LowBit(y: bv32)
    ensures y & 1 == if y & 1 == 1 then 1 else 0
  {
  }

  lemma HighBits(y: bv32)
    ensures (y & 0xfffffffe) & 1 == 0 && (y & 0xfffffffe) >> 1 == y >> 1
  {
  }

  lemma SplitLow(r: bv32, y: bv32)
    ensures Xor(r, y) == Xor(Xor(r, y & 1), y & 0xfffffffe)
  {
  }

  lemma FeedIsShift(r: bv32, y: bv32)
    ensures Feed(r, Low(y)) == Shift(Xor(r, y & 1))
  {
    hide Shift, Xor;
    LowBit(y);
  }

  lemma FeedLow(r: bv32, y: bv32)
    ensures Shift(Xor(r, y)) == Xor(Feed(r, Low(y)), Half(y))
  {
    hide Shift, Xor;
    var high := y & 0xfffffffe;
    HighBits(y);
    SplitLow(r, y);
    ShiftLinear(Xor(r, y & 1), high);
    FeedIsShift(r, y);
    ShiftClear(high);
  }

  /** XORing n message bits in at once, then stepping, is feeding them one by one. */
  lemma {:induction false} FeedAhead(n: nat, r: bv32, y: bv32)
    ensures Steps(n, Xor(r, y)) == Xor(Register(r, BitsFrom(y, n)), Drop(n, y))
    decreases n
  {
    if n == 0 {
    } else {
      FeedLow(r, y);
      FeedAhead(n - 1, Feed(r, Low(y)), Half(y));
    }
  }

  lemma ByteGone(b: bv8)
    ensures Half4(Half4(b as bv32)) == 0
  {
  }

  lemma ByteAtOnce(reg: bv32, b: bv8)
    ensures TableStep(reg, b) == Register(reg, BitsOf(b))
  {
    hide Shift, Shift8, Table, Xor, Half, Half4, Low, TableStep;
    TableStepIsShift8(reg, b);
    Steps8(Xor(reg, b as bv32));
    FeedAhead(8, reg, b as bv32);
    Drop8(b as bv32);
    ByteGone(b);
    XorZero(Register(reg, BitsOf(b)));
  }

  lemma {:induction false} RegisterConcat(reg: bv32, a: seq<bool>, b: seq<bool>)
    ensures Register(reg, a + b) == Register(Register(reg, a), b)
    decreases |a|
  {
    if a == [] {
      assert a + b == b;
    } else {
      assert (a + b)[1..] == a[1..] + b;
      RegisterConcat(Feed(reg, a[0]), a[1..], b);
    }
  }

  lemma {:induction false} MessageBitsSnoc(s: seq<bv8>, b: bv8)
    ensures MessageBits(s + [b]) == MessageBits(s) + BitsOf(b)
  {
    if s == [] {
      assert s + [b] == [b];
      assert MessageBits([b]) == BitsOf(b) + MessageBits([]);
    } else {
      assert (s + [b])[1..] == s[1..] + [b];
      MessageBitsSnoc(s[1..], b);
    }
  }

  lemma BitwiseCrcSnoc(s: seq<bv8>, b: bv8)
    ensures BitwiseCrc(s + [b]) == TableStep(BitwiseCrc(s), b)
  {
    MessageBitsSnoc(s, b);
    RegisterConcat(0, MessageBits(s), BitsOf(b));
    ByteAtOnce(BitwiseCrc(s), b);
  }

  // ------------------------------------------------------------- the server

  /** The server's loop body, written as it stands on the 64-bit accumulator. */
  function WideStep(acc: bv64, b: bv8): bv64 {
    (Table(((acc ^ (b as bv64)) & 0xff) as bv8) as bv64) ^ (acc >> 8)
  }

  lemma WideIndex(acc: bv64, reg: bv32, b: bv8)
    requires acc == reg as bv64
    ensures ((acc ^ (b as bv64)) & 0xff) as bv8 == ((reg & 0xff) as bv8) ^ b
    ensures acc >> 8 == (reg >> 8) as bv64
  {
  }

  lemma WideXor(x: bv32, y: bv32)
    ensures (x as bv64) ^ (y as bv64) == Xor(x, y) as bv64
  {
  }

  /** The wide accumulator carries the 32-bit register in its low half. */
  predicate Holds(acc: bv64, reg: bv32) {
    acc == reg as bv64 && acc < 0x1_0000_0000
  }

  lemma WideStepIsTableStep(acc: bv64, reg: bv32, b: bv8)
    requires Holds(acc, reg)
    ensures Holds(WideStep(acc, b), TableStep(reg, b))
  {
    hide Table, Xor;
    WideIndex(acc, reg, b);
    WideXor(Table(((reg & 0xff) as bv8) ^ b), reg >> 8);
  }

  lemma NarrowZero()
    ensures Holds(0, 0)
  {
  }

  lemma EmptyCrc()
    ensures BitwiseCrc([]) == 0
  {
  }

  /** The server's hash loop over its 64-bit accumulator. */
  method Tcrc32(s: seq<bv8>) returns (crc: bv64)
    ensures Holds(crc, BitwiseCrc(s))
  {
    hide WideStep, TableStep, BitwiseCrc, Holds;
    crc := 0;
    EmptyCrc();
    NarrowZero();
    for i := 0 to |s|
      invariant Holds(crc, BitwiseCrc(s[..i]))
    {
      assert s[..i + 1] == s[..i] + [s[i]];
      BitwiseCrcSnoc(s[..i], s[i]);
      WideStepIsTableStep(crc, BitwiseCrc(s[..i]), s[i]);
      crc := WideStep(crc, s[i]);
    }
    assert s[..|s|] == s;
  }

  // -------------------------------------------------------------- linearity

  function XorBytes(a: seq<bv8>, b: seq<bv8>): (c: seq<bv8>)
    requires |a| == |b|
    ensures |c| == |a|
  {
    seq(|a|, i requires 0 <= i < |a| => a[i] ^ b[i])
  }

  lemma XorBytesSnoc(a: seq<bv8>, b: seq<bv8>, x: bv8, y: bv8)
    requires |a| == |b|
    ensures XorBytes(a + [x], b + [y]) == XorBytes(a, b) + [x ^ y]
  {
  }

  lemma XorWide(a: bv8, b: bv8, p: bv32, q: bv32)
    ensures Xor(Xor(p, q), (a ^ b) as bv32) == Xor(Xor(p, a as bv32), Xor(q, b as bv32))
  {
  }

  lemma TableStepLinear(p: bv32, q: bv32, x: bv8, y: bv8)
    ensures TableStep(Xor(p, q), x ^ y) == Xor(TableStep(p, x), TableStep(q, y))
  {
    hide TableStep, Shift8, Xor;
    TableStepIsShift8(p, x);
    TableStepIsShift8(q, y);
    TableStepIsShift8(Xor(p, q), x ^ y);
    XorWide(x, y, p, q);
    Shift8Linear(Xor(p, x as bv32), Xor(q, y as bv32));
  }

  /** Hashing the sum of two equally long messages is summing their hashes. */
  lemma {:induction false} CrcLinear(a: seq<bv8>, b: seq<bv8>)
    requires |a| == |b|
    ensures BitwiseCrc(XorBytes(a, b)) == Xor(BitwiseCrc(a), BitwiseCrc(b))
    decreases |a|
  {
    if a == [] {
      EmptyCrc();
      assert b == [] && XorBytes(a, b) == [];
      XorZero(0);
    } else {
      hide TableStep, Xor, BitwiseCrc, XorBytes;
      var n := |a| - 1;
      var a', b', x, y := a[..n], b[..n], a[n], b[n];
      assert a == a' + [x] && b == b' + [y];
      XorBytesSnoc(a', b', x, y);
      CrcLinear(a', b');
      var p, q := BitwiseCrc(a'), BitwiseCrc(b');
      BitwiseCrcSnoc(a', x);
      BitwiseCrcSnoc(b', y);
      BitwiseCrcSnoc(XorBytes(a', b'), x ^ y);
      TableStepLinear(p, q, x, y);
    }
  }

  // ------------------------------------------------------ long division over GF(2)

  /** Adds `b` to the leading terms of `a`; both list coefficients from the highest power down. */
  function AddLeading(a: seq<bool>, b: seq<bool>): (c: seq<bool>)
    requires |b| <= |a|
    ensures |c| == |a|
  {
    seq(|a|, i requires 0 <= i < |a| => if i < |b| then a[i] != b[i] else a[i])
  }

  /**
  The generator of CRC-32 below its leading x^32, highest power first:
  x^26 + x^23 + x^22 + x^16 + x^12 + x^11 + x^10 + x^8 + x^7 + x^5 + x^4 + x^2 + x + 1.
  */
  function Generator(): (g: seq<bool>)
    ensures |g| == 32
  {
    seq(32, i requires 0 <= i < 32 => 31 - i in {26, 23, 22, 16, 12, 11, 10, 8, 7, 5, 4, 2, 1, 0})
  }

  /** Schoolbook division by x^32 + Generator(): cancel the leading term until 32 coefficients remain. */
  function LongDivision(dividend: seq<bool>): (remainder: seq<bool>)
    requires |dividend| >= 32
    ensures |remainder| == 32
    decreases |dividend|
  {
    if |dividend| == 32 then dividend
    else if dividend[0] then LongDivision(AddLeading(dividend[1..], Generator()))
    else LongDivision(dividend[1..])
  }

  function Zeros(n: nat): (z: seq<bool>)
    ensures |z| == n
  {
    seq(n, i => false)
  }

  lemma LowXor(x: bv32, y: bv32)
    ensures Low(Xor(x, y)) == (Low(x) != Low(y))
  {
    XorShift(x, y);
    XorShift(y, x);
  }

  lemma HalfXor(x: bv32, y: bv32)
    ensures Half(Xor(x, y)) == Xor(Half(x), Half(y))
  {
    XorShift(x, y);
  }

  lemma AddCons(x: bool, a: seq<bool>, y: bool, b: seq<bool>)
    requires |b| <= |a|
    ensures AddLeading([x] + a, [y] + b) == [x != y] + AddLeading(a, b)
  {
  }

  lemma AddEmpty()
    ensures AddLeading([], []) == []
  {
  }

  lemma AddPadded(a: seq<bool>, b: seq<bool>)
    requires |b| < |a|
    ensures AddLeading(a, b + [false]) == AddLeading(a, b)
  {
  }

  lemma {:induction false} BitsOfSum(x: bv32, y: bv32, n: nat)
    ensures BitsFrom(Xor(x, y), n) == AddLeading(BitsFrom(x, n), BitsFrom(y, n))
    decreases n
  {
    hide Xor, Half, Low, AddLeading;
    if n == 0 {
      AddEmpty();
    } else {
      LowXor(x, y);
      HalfXor(x, y);
      BitsOfSum(Half(x), Half(y), n - 1);
      AddCons(Low(x), BitsFrom(Half(x), n - 1), Low(y), BitsFrom(Half(y), n - 1));
    }
  }

  lemma {:induction false} BitsSnoc(y: bv32, n: nat)
    ensures BitsFrom(y, n + 1) == BitsFrom(y, n) + [Low(Drop(n, y))]
    decreases n
  {
    if n == 0 {
    } else {
      hide Half, Low;
      BitsSnoc(Half(y), n - 1);
      assert BitsFrom(y, n + 1) == [Low(y)] + BitsFrom(Half(y), n);
    }
  }

  lemma Drop16(y: bv32)
    ensures Drop(16, y) == Half4(Half4(Half4(Half4(y))))
  {
    hide Half, Half4;
    DropDrop(8, 8, y);
    Drop8(y);
    Drop8(Half4(Half4(y)));
  }

  lemma Drop32(y: bv32)
    ensures Drop(32, y) == 0
  {
    hide Half, Half4;
    DropDrop(16, 16, y);
    Drop16(y);
    var top := Half4(Half4(Half4(Half4(y))));
    Drop16(top);
    AllGone(y);
  }

  lemma AllGone(y: bv32)
    ensures Half4(Half4(Half4(Half4(Half4(Half4(Half4(Half4(y)))))))) == 0
  {
  }

  lemma ZeroIsFixed()
    ensures !Low(0) && Half(0) == 0 && !Low(Drop(0, 0))
  {
  }

  lemma BitsOfHalfAt(y: bv32, n: nat)
    requires n > 0 && Drop(n, y) == 0
    ensures BitsFrom(Half(y), n) == BitsFrom(y, n)[1..] + [false]
  {
    hide Half, Low;
    BitsSnoc(y, n);
    ZeroIsFixed();
    var longer := BitsFrom(y, n + 1);
    assert longer == [Low(y)] + BitsFrom(Half(y), n);
    assert BitsFrom(Half(y), n) == longer[1..];
  }

  /** Shifting the register right by one drops its highest-power coefficient. */
  lemma BitsOfHalf(y: bv32)
    ensures BitsFrom(Half(y), 32) == BitsFrom(y, 32)[1..] + [false]
  {
    hide Half, Low, BitsFrom;
    Drop32(y);
    BitsOfHalfAt(y, 32);
  }

  lemma BitValue(bit: bool)
    ensures var b: bv32 := if bit then 1 else 0; Low(b) == bit && Half(b) == 0
  {
  }

  lemma FeedHead(reg: bv32, bit: bool)
    ensures Feed(reg, bit) == if Low(reg) != bit then Xor(Half(reg), POLYNOMIAL) else Half(reg)
  {
    var b: bv32 := if bit then 1 else 0;
    BitValue(bit);
    LowXor(reg, b);
    HalfXor(reg, b);
    XorZero(Half(reg));
    FeedIs(reg, bit, b);
  }

  lemma FeedIs(reg: bv32, bit: bool, b: bv32)
    requires b == if bit then 1 else 0
    ensures Feed(reg, bit) == Shift(Xor(reg, b))
  {
    hide Shift, Xor;
  }

  /** One bit of the register machine is one step of the schoolbook division. */
  lemma DivisionStep(reg: bv32, bit: bool, rest: seq<bool>)
    requires |rest| >= 32
    ensures LongDivision(AddLeading([bit] + rest, BitsFrom(reg, 32)))
         == LongDivision(AddLeading(rest, BitsFrom(Feed(reg, bit), 32)))
  {
    hide Xor, Feed, Half, Low, Generator, BitsFrom, AddLeading;
    var bits := BitsFrom(reg, 32);
    var dividend := AddLeading([bit] + rest, bits);
    FeedHead(reg, bit);
    BitsOfHalf(reg);
    BitsOfSum(Half(reg), POLYNOMIAL, 32);
    GeneratorIs();
    BitsHead(reg, 32);
    assert bits == [Low(reg)] + bits[1..];
    AddCons(bit, rest, Low(reg), bits[1..]);
    AddPadded(rest, bits[1..]);
    assert dividend[1..] == AddLeading(rest, BitsFrom(Half(reg), 32));
    AddTwice(rest, BitsFrom(Half(reg), 32), Generator());
  }

  lemma BitsHead(y: bv32, n: nat)
    requires n > 0
    ensures BitsFrom(y, n)[0] == Low(y)
  {
    hide Low;
  }

  lemma OneBit(y: bv32, n: nat)
    requires n > 0
    ensures BitsFrom(y, n) == [Low(y)] + BitsFrom(Half(y), n - 1)
  {
  }

  lemma FourBits(y: bv32, n: nat)
    ensures BitsFrom(y, n + 4)
         == [Low(y), Low(Half(y)), Low(Half(Half(y))), Low(Half(Half(Half(y))))] + BitsFrom(Half4(y), n)
  {
    FourHalves(y);
    hide Half, Half4, Low, BitsFrom;
    OneBit(y, n + 4);
    OneBit(Half(y), n + 3);
    OneBit(Half(Half(y)), n + 2);
    OneBit(Half(Half(Half(y))), n + 1);
  }

  /** The constant of the register is that generator, its highest power in its lowest bit. */
  lemma GeneratorIs()
    ensures Generator() == BitsFrom(POLYNOMIAL, 32)
  {
    FourBits(POLYNOMIAL, 28);
    FourBits(0xEDB8832, 24);
    FourBits(0xEDB883, 20);
    FourBits(0xEDB88, 16);
    FourBits(0xEDB8, 12);
    FourBits(0xEDB, 8);
    FourBits(0xED, 4);
    FourBits(0xE, 0);
    assert BitsFrom(0, 0) == [];
  }

  lemma AddTwice(a: seq<bool>, b: seq<bool>, c: seq<bool>)
    requires |b| == |c| <= |a|
    ensures AddLeading(AddLeading(a, b), c) == AddLeading(a, AddLeading(b, c))
  {
  }

  lemma {:induction false} RegisterIsDivision(reg: bv32, bits: seq<bool>)
    ensures BitsFrom(Register(reg, bits), 32) == LongDivision(AddLeading(bits + Zeros(32), BitsFrom(reg, 32)))
    decreases |bits|
  {
    hide Feed, BitsFrom;
    if bits == [] {
      assert AddLeading(bits + Zeros(32), BitsFrom(reg, 32)) == BitsFrom(reg, 32);
    } else {
      assert bits + Zeros(32) == [bits[0]] + (bits[1..] + Zeros(32));
      DivisionStep(reg, bits[0], bits[1..] + Zeros(32));
      RegisterIsDivision(Feed(reg, bits[0]), bits[1..]);
    }
  }

  /** The hash is the remainder of message * x^32 by the CRC-32 generator polynomial. */
  lemma CrcIsRemainder(s: seq<bv8>)
    ensures BitsFrom(BitwiseCrc(s), 32) == LongDivision(MessageBits(s) + Zeros(32))
  {
    hide BitsFrom;
    RegisterIsDivision(0, MessageBits(s));
    BitsOfZero(32);
    AddZeros(MessageBits(s) + Zeros(32), 32);
  }

  /** Two values of the hash: of no bytes, and of the byte 1, the second entry of the server's table. */
  lemma KnownHashes()
    ensures BitwiseCrc([]) == 0 && BitwiseCrc([1]) == 0x77073096
  {
    hide TableStep, Table;
    BitwiseCrcSnoc([], 1);
    assert [] + [1 as bv8] == [1];
    FirstStep();
  }

  lemma FirstStep()
    ensures TableStep(0, 1) == 0x77073096
  {
  }

  lemma AddZeros(a: seq<bool>, n: nat)
    requires n <= |a|
    ensures AddLeading(a, Zeros(n)) == a
  {
  }

  lemma {:induction false} BitsOfZero(n: nat)
    ensures BitsFrom(0, n) == Zeros(n)
    decreases n
  {
    if n == 0 {
    } else {
      ZeroIsFixed();
      BitsOfZero(n - 1);
    }
  }
}
