/** The data integrity check of the three-wire UART transport
    (Core Specification Vol 4 Part D section 5): the two-nibble table form of the code,
    the bit-serial reflected CCITT register it stands for, and what it detects. */
module Crc {
  import opened Bytes

  /** x^16 + x^12 + x^5 + 1, reflected. */
  const POLY: nat := 0x8408
  const INIT: nat := 0xffff

  const CRC_TABLE: seq<nat> :=
    [0x0000, 0x1081, 0x2102, 0x3183, 0x4204, 0x5285, 0x6306, 0x7387,
     0x8408, 0x9489, 0xa50a, 0xb58b, 0xc60c, 0xd68d, 0xe70e, 0xf78f]

  type word = x: int | 0 <= x < 65536

  function Nibble(reg: nat, d: nat): nat {
    Xor(reg / 16, CRC_TABLE[Xor(reg, d) % 16])
  }

  function UpdateNat(reg: nat, d: byte): nat {
    Nibble(Nibble(reg, d), d / 16)
  }

  // ----- the bit-serial register

  /** One clock of the shift register. */
  function Shift(reg: nat): nat {
    if Odd(reg) then Xor(reg / 2, POLY) else reg / 2
  }

  function Shift4(reg: nat): nat {
    Shift(Shift(Shift(Shift(reg))))
  }

  lemma ShiftLinear(a: nat, b: nat)
    ensures Shift(Xor(a, b)) == Xor(Shift(a), Shift(b))
  {
    var x, y := a / 2, b / 2;
    XorParts(a, b);
    if Odd(a) && Odd(b) {
      XorComm(y, POLY);
      XorAssoc(x, POLY, Xor(POLY, y));
      XorAssoc(POLY, POLY, y);
      XorSelf(POLY);
      XorZero(y);
    } else if Odd(a) {
      XorAssoc(x, POLY, y);
      XorComm(POLY, y);
      XorAssoc(x, y, POLY);
    } else if Odd(b) {
      XorAssoc(x, y, POLY);
    }
  }

  lemma Shift4Linear(a: nat, b: nat)
    ensures Shift4(Xor(a, b)) == Xor(Shift4(a), Shift4(b))
  {
    ShiftLinear(a, b);
    ShiftLinear(Shift(a), Shift(b));
    ShiftLinear(Shift(Shift(a)), Shift(Shift(b)));
    ShiftLinear(Shift(Shift(Shift(a))), Shift(Shift(Shift(b))));
  }

  // ----- the table is four clocks of the register

  lemma XorSplit7(a: nat, x: nat, b: nat, y: nat)
    requires x < 128 && y < 128
    ensures Xor(128 * a + x, 128 * b + y) == 128 * Xor(a, b) + Xor(x, y)
  {
    Pow2Values();
    ShlTable(a);
    ShlTable(b);
    ShlTable(Xor(a, b));
    XorSplit(a, x, b, y, 7);
  }

  lemma XorSplit12(a: nat, x: nat, b: nat, y: nat)
    requires x < 4096 && y < 4096
    ensures Xor(4096 * a + x, 4096 * b + y) == 4096 * Xor(a, b) + Xor(x, y)
  {
    Pow2Values();
    ShlTable(a);
    ShlTable(b);
    ShlTable(Xor(a, b));
    XorSplit(a, x, b, y, 12);
  }

  /** Bit i of the index sets bits i, i+7 and i+12, so the table is linear in the index. */
  lemma TableScaled(a: nat, b: nat)
    requires a < 16 && b < 16
    ensures Xor(0x1081 * a, 0x1081 * b) == 0x1081 * Xor(a, b)
  {
    XorSplit7(a, a, b, b);
    XorSplit12(a, 129 * a, b, 129 * b);
  }

  lemma ShlTable(a: nat)
    ensures Shl(a, 7) == 128 * a && Shl(a, 12) == 4096 * a
  {
    ShlTimes(a, 7);
    ShlTimes(a, 12);
    Pow2Values();
  }

  lemma PowersShift()
    ensures Shift4(0) == 0 && Shift4(1) == 0x1081 && Shift4(2) == 0x2102
    ensures Shift4(4) == 0x4204 && Shift4(8) == 0x8408
  {
    assert Shift(1) == 0x8408 by { XorZero(POLY); }
    assert Shift(2) == 1 && Shift(4) == 2 && Shift(8) == 4;
    assert Shift(0x8408) == 0x4204 && Shift(0x4204) == 0x2102 && Shift(0x2102) == 0x1081;
  }

  /** An index with more than one bit is the exclusive or of its top bit and the rest. */
  lemma TopBit(n: nat, p: nat)
    requires p == 8 || p == 4 || p == 2
    requires p <= n < 2 * p
    ensures Xor(p, n - p) == n
  {
    if p == 2 {
      XorParts(2, n - 2);
      XorParts(1, 0);
      XorZero(1);
    } else {
      XorParts(p, n - p);
      if n / 2 - p / 2 == 0 { XorZero(p / 2); }
      TopBit2(n / 2, p / 2);
    }
  }

  lemma TopBit2(n: nat, p: nat)
    requires p == 4 || p == 2
    requires p <= n < 2 * p
    ensures Xor(p, n - p) == n
  {
    XorParts(p, n - p);
    XorParts(p / 2, (n - p) / 2);
    XorParts(p / 4, (n - p) / 4);
    XorZero(1);
    XorZero(0);
  }

  lemma TableIsShift(n: nat)
    requires n < 16
    ensures CRC_TABLE[n] == 0x1081 * n == Shift4(n)
  {
    PowersShift();
    if n > 1 && n != 2 && n != 4 && n != 8 {
      var p := if n >= 8 then 8 else if n >= 4 then 4 else 2;
      TableIsShift(n - p);
      TopBit(n, p);
      Shift4Linear(p, n - p);
      TableScaled(p, n - p);
    }
  }

  lemma Shift4Even(h: nat)
    ensures Shift4(16 * h) == h
  {
    assert Shift(16 * h) == 8 * h && Shift(8 * h) == 4 * h;
    assert Shift(4 * h) == 2 * h && Shift(2 * h) == h;
  }

  lemma Shift4ByTable(x: nat)
    ensures Shift4(x) == Xor(x / 16, CRC_TABLE[x % 16])
  {
    var h, n := x / 16, x % 16;
    NibbleParts(x);
    Shift4Linear(16 * h, n);
    TableIsShift(n);
    Shift4Even(h);
  }

  lemma NibbleIsShift(reg: nat, d: nat)
    requires d < 16
    ensures Nibble(reg, d) == Shift4(Xor(reg, d))
  {
    XorNibbles(reg, d);
    XorZero(reg / 16);
    Shift4ByTable(Xor(reg, d));
  }

  /** Only the low nibble of the byte selects the table entry. */
  lemma SameNibble(reg: nat, d: byte)
    ensures Nibble(reg, d) == Nibble(reg, d % 16)
  {
    LowNibble(reg, d);
  }

  /** The high nibble of the byte, which the code exclusive-ors in after the first four clocks,
      might as well go in before them. */
  lemma HighNibbleLate(x: nat, hi: nat)
    ensures Shift4(Xor(x, 16 * hi)) == Xor(Shift4(x), hi)
  {
    Shift4Linear(x, 16 * hi);
    Shift4Even(hi);
  }

  lemma UpdateIsShift(reg: nat, d: byte)
    ensures UpdateNat(reg, d) == Shift4(Shift4(Xor(reg, d)))
  {
    var hi, lo := d / 16, d % 16;
    SameNibble(reg, d);
    NibbleIsShift(reg, lo);
    NibbleIsShift(Nibble(reg, d), hi);
    HighNibbleLate(Xor(reg, lo), hi);
    NibbleParts(d);
    XorAssoc(reg, lo, 16 * hi);
  }

  // ----- sixteen bits are enough

  lemma ShiftWord(reg: word)
    ensures Shift(reg) < 65536
  {
    Pow2Values();
    XorBound(reg / 2, POLY, 16);
  }

  lemma Shift4Word(reg: word)
    ensures Shift4(reg) < 65536
  {
    ShiftWord(reg);
    ShiftWord(Shift(reg));
    ShiftWord(Shift(Shift(reg)));
    ShiftWord(Shift(Shift(Shift(reg))));
  }

  lemma XorWord(a: word, b: word)
    ensures Xor(a, b) < 65536
  {
    Pow2Values();
    XorBound(a, b, 16);
  }

  lemma UpdateWord(reg: word, d: byte)
    ensures UpdateNat(reg, d) < 65536
  {
    UpdateIsShift(reg, d);
    XorWord(reg, d);
    Shift4Word(Xor(reg, d));
    Shift4Word(Shift4(Xor(reg, d)));
  }

  /** h5_crc_update. */
  function Update(reg: word, d: byte): (r: word) {
    UpdateWord(reg, d);
    UpdateNat(reg, d)
  }

  /** The check over a whole message. */
  function Message(reg: word, msg: seq<byte>): word {
    if msg == [] then reg else Update(Message(reg, msg[..|msg| - 1]), msg[|msg| - 1])
  }

  lemma MessageAppend(reg: word, msg: seq<byte>, d: byte)
    ensures Message(reg, msg + [d]) == Update(Message(reg, msg), d)
  {
    assert (msg + [d])[..|msg|] == msg;
  }

  /** The same message clocked through the register one bit at a time. */
  function BitSerial(reg: nat, msg: seq<byte>): nat {
    if msg == [] then reg
    else Shift4(Shift4(Xor(BitSerial(reg, msg[..|msg| - 1]), msg[|msg| - 1])))
  }

  lemma {:induction false} TableFormIsBitSerial(reg: word, msg: seq<byte>)
    ensures Message(reg, msg) == BitSerial(reg, msg)
  {
    if msg != [] {
      TableFormIsBitSerial(reg, msg[..|msg| - 1]);
      UpdateIsShift(Message(reg, msg[..|msg| - 1]), msg[|msg| - 1]);
    }
  }

  // ----- injectivity

  /** The top bit of the shifted register tells the bit that fell out. */
  lemma ShiftTopBit(a: word)
    ensures Odd(a) <==> Shift(a) >= 0x8000
  {
    if Odd(a) {
      Pow2Values();
      ShlTimes(0, 15);
      ShlTimes(1, 15);
      XorSplit(0, a / 2, 1, 0x408, 15);
      XorZero(1);
    }
  }

  lemma ShiftInjective(a: word, b: word)
    requires Shift(a) == Shift(b)
    ensures a == b
  {
    ShiftTopBit(a);
    ShiftTopBit(b);
    if Odd(a) {
      XorCancel(a / 2, POLY);
      XorCancel(b / 2, POLY);
    }
    assert a / 2 == b / 2;
  }

  lemma Shift4Injective(a: word, b: word)
    requires Shift4(a) == Shift4(b)
    ensures a == b
  {
    ShiftWord(a);
    ShiftWord(b);
    ShiftWord(Shift(a));
    ShiftWord(Shift(b));
    ShiftWord(Shift(Shift(a)));
    ShiftWord(Shift(Shift(b)));
    ShiftInjective(Shift(Shift(Shift(a))), Shift(Shift(Shift(b))));
    ShiftInjective(Shift(Shift(a)), Shift(Shift(b)));
    ShiftInjective(Shift(a), Shift(b));
    ShiftInjective(a, b);
  }

  lemma Shift8Injective(a: word, b: word)
    requires Shift4(Shift4(a)) == Shift4(Shift4(b))
    ensures a == b
  {
    Shift4Word(a);
    Shift4Word(b);
    Shift4Injective(Shift4(a), Shift4(b));
    Shift4Injective(a, b);
  }

  lemma UpdateDecided(a: word, x: byte, b: word, y: byte)
    requires Update(a, x) == Update(b, y)
    ensures Xor(a, x) == Xor(b, y)
  {
    UpdateIsShift(a, x);
    UpdateIsShift(b, y);
    XorWord(a, x);
    XorWord(b, y);
    Shift8Injective(Xor(a, x), Xor(b, y));
  }

  /** For a fixed byte the update is injective in the register. */
  lemma UpdateInjectiveInRegister(a: word, b: word, d: byte)
    requires Update(a, d) == Update(b, d)
    ensures a == b
  {
    UpdateDecided(a, d, b, d);
    XorCancel(a, d);
    XorCancel(b, d);
  }

  /** For a fixed register it is injective in the byte. */
  lemma UpdateInjectiveInByte(reg: word, x: byte, y: byte)
    requires Update(reg, x) == Update(reg, y)
    ensures x == y
  {
    UpdateDecided(reg, x, reg, y);
    XorComm(reg, x);
    XorComm(reg, y);
    XorCancel(x, reg);
    XorCancel(y, reg);
  }

  /** Two messages of one length that differ in exactly one byte have different checks. */
  lemma {:induction false} OneByteChangesCheck(reg: word, msg: seq<byte>, i: nat, b: byte)
    requires i < |msg| && msg[i] != b
    ensures Message(reg, msg[i := b]) != Message(reg, msg)
  {
    var n := |msg| - 1;
    var msg' := msg[i := b];
    if i == n {
      assert msg'[..n] == msg[..n];
      if Message(reg, msg') == Message(reg, msg) {
        UpdateInjectiveInByte(Message(reg, msg[..n]), msg[n], b);
      }
    } else {
      OneByteChangesCheck(reg, msg[..n], i, b);
      assert msg'[..n] == msg[..n][i := b];
      if Message(reg, msg') == Message(reg, msg) {
        UpdateInjectiveInRegister(Message(reg, msg'[..n]), Message(reg, msg[..n]), msg[n]);
      }
    }
  }

  // ----- bit reversal

  /** The low `k` bits of `x` in the opposite order. */
  function BitRev(x: nat, k: nat): (r: nat)
    ensures r < Pow2(k)
  {
    if k == 0 then 0 else (if Odd(x) then Pow2(k - 1) else 0) + BitRev(x / 2, k - 1)
  }

  lemma {:induction false} BitRevInjective(x: nat, y: nat, k: nat)
    requires x < Pow2(k) && y < Pow2(k)
    requires BitRev(x, k) == BitRev(y, k)
    ensures x == y
  {
    if k > 0 {
      assert Odd(x) == Odd(y);
      BitRevInjective(x / 2, y / 2, k - 1);
    }
  }

  /** byte_rev_table, in rows of sixteen entries. */
  const BYTE_REV_TABLE: seq<seq<byte>> :=
    [[0x00, 0x80, 0x40, 0xc0, 0x20, 0xa0, 0x60, 0xe0, 0x10, 0x90, 0x50, 0xd0, 0x30, 0xb0, 0x70, 0xf0],
     [0x08, 0x88, 0x48, 0xc8, 0x28, 0xa8, 0x68, 0xe8, 0x18, 0x98, 0x58, 0xd8, 0x38, 0xb8, 0x78, 0xf8],
     [0x04, 0x84, 0x44, 0xc4, 0x24, 0xa4, 0x64, 0xe4, 0x14, 0x94, 0x54, 0xd4, 0x34, 0xb4, 0x74, 0xf4],
     [0x0c, 0x8c, 0x4c, 0xcc, 0x2c, 0xac, 0x6c, 0xec, 0x1c, 0x9c, 0x5c, 0xdc, 0x3c, 0xbc, 0x7c, 0xfc],
     [0x02, 0x82, 0x42, 0xc2, 0x22, 0xa2, 0x62, 0xe2, 0x12, 0x92, 0x52, 0xd2, 0x32, 0xb2, 0x72, 0xf2],
     [0x0a, 0x8a, 0x4a, 0xca, 0x2a, 0xaa, 0x6a, 0xea, 0x1a, 0x9a, 0x5a, 0xda, 0x3a, 0xba, 0x7a, 0xfa],
     [0x06, 0x86, 0x46, 0xc6, 0x26, 0xa6, 0x66, 0xe6, 0x16, 0x96, 0x56, 0xd6, 0x36, 0xb6, 0x76, 0xf6],
     [0x0e, 0x8e, 0x4e, 0xce, 0x2e, 0xae, 0x6e, 0xee, 0x1e, 0x9e, 0x5e, 0xde, 0x3e, 0xbe, 0x7e, 0xfe],
     [0x01, 0x81, 0x41, 0xc1, 0x21, 0xa1, 0x61, 0xe1, 0x11, 0x91, 0x51, 0xd1, 0x31, 0xb1, 0x71, 0xf1],
     [0x09, 0x89, 0x49, 0xc9, 0x29, 0xa9, 0x69, 0xe9, 0x19, 0x99, 0x59, 0xd9, 0x39, 0xb9, 0x79, 0xf9],
     [0x05, 0x85, 0x45, 0xc5, 0x25, 0xa5, 0x65, 0xe5, 0x15, 0x95, 0x55, 0xd5, 0x35, 0xb5, 0x75, 0xf5],
     [0x0d, 0x8d, 0x4d, 0xcd, 0x2d, 0xad, 0x6d, 0xed, 0x1d, 0x9d, 0x5d, 0xdd, 0x3d, 0xbd, 0x7d, 0xfd],
     [0x03, 0x83, 0x43, 0xc3, 0x23, 0xa3, 0x63, 0xe3, 0x13, 0x93, 0x53, 0xd3, 0x33, 0xb3, 0x73, 0xf3],
     [0x0b, 0x8b, 0x4b, 0xcb, 0x2b, 0xab, 0x6b, 0xeb, 0x1b, 0x9b, 0x5b, 0xdb, 0x3b, 0xbb, 0x7b, 0xfb],
     [0x07, 0x87, 0x47, 0xc7, 0x27, 0xa7, 0x67, 0xe7, 0x17, 0x97, 0x57, 0xd7, 0x37, 0xb7, 0x77, 0xf7],
     [0x0f, 0x8f, 0x4f, 0xcf, 0x2f, 0xaf, 0x6f, 0xef, 0x1f, 0x9f, 0x5f, 0xdf, 0x3f, 0xbf, 0x7f, 0xff]]

  /** bit_rev8. */
  function BitRev8(b: byte): byte {
    RevRow(b / 16);
    BYTE_REV_TABLE[b / 16][b % 16]
  }

  /** bit_rev16. */
  function BitRev16(x: word): word {
    BitRev8(x % 256) * 256 + BitRev8(x / 256)
  }

  const NIBBLE_REV: seq<nat> := [0, 8, 4, 12, 2, 10, 6, 14, 1, 9, 5, 13, 3, 11, 7, 15]

  lemma RevTwo(x: nat)
    requires x < 4
    ensures BitRev(x, 2) == 2 * (x % 2) + x / 2
  {
    assert BitRev(x / 2, 1) == x / 2;
  }

  lemma RevNibble(n: nat)
    requires n < 16
    ensures BitRev(n, 4) == 8 * (n % 2) + 4 * (n / 2 % 2) + 2 * (n / 4 % 2) + n / 8
  {
    var h := n / 4;
    RevTwo(h);
    assert n / 2 / 2 == h && h / 2 == n / 8;
    assert BitRev(n / 2, 3) == 4 * (n / 2 % 2) + BitRev(h, 2);
  }

  lemma NibbleListed(n: nat)
    requires n < 16
    ensures NIBBLE_REV[n] == 8 * (n % 2) + 4 * (n / 2 % 2) + 2 * (n / 4 % 2) + n / 8
  {}

  lemma NibbleReversed(n: nat)
    requires n < 16
    ensures NIBBLE_REV[n] == BitRev(n, 4)
  {
    RevNibble(n);
    NibbleListed(n);
  }

  /** What every row adds to the reversed high nibble of its index. */
  function RowAbove(r: nat): seq<nat> {
    [0x00 + r, 0x80 + r, 0x40 + r, 0xc0 + r, 0x20 + r, 0xa0 + r, 0x60 + r, 0xe0 + r,
     0x10 + r, 0x90 + r, 0x50 + r, 0xd0 + r, 0x30 + r, 0xb0 + r, 0x70 + r, 0xf0 + r]
  }

  lemma RevRow(hi: nat)
    requires hi < 16
    ensures |BYTE_REV_TABLE| == 16 && BYTE_REV_TABLE[hi] == RowAbove(NIBBLE_REV[hi])
  {}

  lemma RowAt(r: nat, lo: nat)
    requires lo < 16
    ensures RowAbove(r)[lo] == NIBBLE_REV[lo] * 16 + r
  {}

  /** Reversing the low `a` bits and the next `k` separately, and swapping them, reverses the
      whole. */
  lemma {:induction false} BitRevJoin(hi: nat, lo: nat, a: nat, k: nat)
    requires lo < Pow2(a)
    ensures BitRev(hi * Pow2(a) + lo, a + k) == BitRev(lo, a) * Pow2(k) + BitRev(hi, k)
  {
    if a == 0 {
      assert hi * Pow2(0) + lo == hi;
    } else {
      var p := hi * Pow2(a - 1);
      assert hi * Pow2(a) == 2 * p;
      Halves(p, lo);
      BitRevJoin(hi, lo / 2, a - 1, k);
      Pow2Sum(a - 1, k);
      Distribute(if Odd(lo) then Pow2(a - 1) else 0, BitRev(lo / 2, a - 1), Pow2(k));
    }
  }

  lemma Distribute(x: nat, y: nat, z: nat)
    ensures (x + y) * z == x * z + y * z
  {}

  lemma {:induction false} Pow2Sum(a: nat, k: nat)
    ensures Pow2(a + k) == Pow2(a) * Pow2(k)
  {
    if a > 0 {
      Pow2Sum(a - 1, k);
    }
  }

  /** Every entry of the table is its index with the bits reversed. */
  lemma TableReverses(b: byte)
    ensures BitRev8(b) == BitRev(b, 8)
  {
    var hi, lo := b / 16, b % 16;
    Pow2Values();
    BitRevJoin(hi, lo, 4, 4);
    NibbleReversed(hi);
    NibbleReversed(lo);
    RevRow(hi);
    RowAt(NIBBLE_REV[hi], lo);
  }

  lemma JoinBytes(hi: byte, lo: byte)
    ensures BitRev(256 * hi + lo, 16) == BitRev(lo, 8) * 256 + BitRev(hi, 8)
  {
    Pow2Values();
    BitRevJoin(hi, lo, 8, 8);
  }

  /** bit_rev16 reverses all sixteen bits. */
  lemma BitRev16IsBitRev(x: word)
    ensures BitRev16(x) == BitRev(x, 16)
  {
    TableReverses(x / 256);
    TableReverses(x % 256);
    JoinBytes(x / 256, x % 256);
  }

  /** The check that is sent after a message: the register with its bits reversed. */
  function Check(msg: seq<byte>): word {
    Pow2Values();
    BitRev(Message(INIT, msg), 16)
  }

  lemma OneByteChangesSentCheck(msg: seq<byte>, i: nat, b: byte)
    requires i < |msg| && msg[i] != b
    ensures Check(msg[i := b]) != Check(msg)
  {
    Pow2Values();
    OneByteChangesCheck(INIT, msg, i, b);
    if Check(msg[i := b]) == Check(msg) {
      BitRevInjective(Message(INIT, msg[i := b]), Message(INIT, msg), 16);
    }
  }

  // ----- a known value

  lemma HexDigit(n: nat, x: nat, a: nat)
    requires n == 16 * x + a && a < 16
    ensures n / 16 == x && n % 16 == a
  {}

  lemma XorHex(n: nat, m: nat, x: nat, y: nat, a: nat, b: nat)
    requires n == 16 * x + a && m == 16 * y + b && a < 16 && b < 16
    ensures Xor(n, m) == 16 * Xor(x, y) + Xor(a, b)
  {
    HexDigit(n, x, a);
    HexDigit(m, y, b);
    XorNibbles(n, m);
  }

  lemma XorDigits(n: nat, m: nat, x: nat, y: nat, a: nat, b: nat, high: nat, low: nat)
    requires n == 16 * x + a && m == 16 * y + b && a < 16 && b < 16
    requires Xor(x, y) == high && Xor(a, b) == low
    ensures Xor(n, m) == 16 * high + low
  {
    XorHex(n, m, x, y, a, b);
  }

  lemma SmallXor(a: nat, b: nat)
    requires a == 15 && b == 8
    ensures Xor(a, b) == 7
  {}

  lemma OtherXor(a: nat, b: nat)
    requires a == 15 && b == 7
    ensures Xor(a, b) == 8
  {}

  lemma LowDigits(f: nat, y: nat, e: nat, s: nat)
    requires f == 15 && e == 8 && s == 7 && y == 0xf7
    ensures Xor(f, y) == 0xf8
  {
    OtherXor(f, s);
    XorZero(f);
    XorDigits(f, y, 0, f, f, s, f, e);
  }

  lemma MiddleDigits(x: nat, y: nat, f: nat, e: nat, s: nat)
    requires f == 15 && e == 8 && s == 7 && x == 0xff && y == 0xf78
    ensures Xor(x, y) == 0xf87
  {
    LowDigits(f, y / 16, e, s);
    SmallXor(f, e);
    XorDigits(x, y, f, y / 16, f, e, 0xf8, s);
  }

  lemma KnownXor(x: nat, y: nat)
    requires x == 0xfff && y == 0xf78f
    ensures Xor(x, y) == 0xf870
  {
    var f: nat, e: nat, s: nat := 15, 8, 7;
    MiddleDigits(x / 16, y / 16, f, e, s);
    XorSelf(f);
    XorDigits(x, y, x / 16, y / 16, f, f, 0xf87, 0);
  }

  /** Four clocks of the register on a zero nibble. */
  lemma ZeroNibble(reg: nat)
    ensures Nibble(reg, 0) == Xor(reg / 16, CRC_TABLE[reg % 16])
  {
    XorZero(reg);
  }

  /** The register starts with all bits set, and this is where one zero byte takes it. */
  lemma KnownUpdate(reg: word)
    requires reg == 0xffff
    ensures INIT == reg && Update(reg, 0) == 0x0f87
  {
    ZeroNibble(reg);
    KnownXor(reg / 16, CRC_TABLE[reg % 16]);
    var next := Nibble(reg, 0);
    ZeroNibble(next);
    XorZero(next / 16);
  }

  lemma KnownRev(lo: byte, hi: byte)
    requires lo == 0x87 && hi == 0x0f
    ensures BitRev8(lo) == 0xe1 && BitRev8(hi) == 0xf0
  {
    assert lo / 16 == 8 && lo % 16 == 7 && hi / 16 == 0 && hi % 16 == 15;
  }

  /** The check is sent bit by bit in the opposite order: the halves swapped, each reversed. */
  lemma CheckHalves(msg: seq<byte>)
    ensures var r := Message(INIT, msg);
      Check(msg) as int == BitRev8(r % 256) as int * 256 + BitRev8(r / 256)
  {
    BitRev16IsBitRev(Message(INIT, msg));
  }

  lemma KnownMessage(msg: seq<byte>)
    requires msg == [0]
    ensures Message(INIT, msg) == 0x0f87
  {
    KnownUpdate(INIT);
    assert msg[..0] == [];
    assert Message(INIT, msg) == Update(INIT, 0);
  }

  lemma KnownHalves(r: word)
    requires r == 0x0f87
    ensures r % 256 == 0x87 && r / 256 == 0x0f
  {}

  /** The check of a single zero byte. */
  lemma KnownCheck(msg: seq<byte>)
    requires msg == [0]
    ensures Check(msg) == 0xe1f0
  {
    var r := Message(INIT, msg);
    KnownMessage(msg);
    KnownHalves(r);
    CheckHalves(msg);
    KnownRev(r % 256, r / 256);
  }
}
