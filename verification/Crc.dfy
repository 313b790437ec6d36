/** The checksum of a file: a 16-bit CRC computed byte by byte from a table. */
module Crc {
  // ---------- the CRC, bit by bit ----------

  /** One bit of the reflected CRC with polynomial 0xA001. */
  function Shift(r: bv16): bv16 {
    if r & 1 == 1 then (r >> 1) ^ 0xA001 else r >> 1
  }

  const SHIFT: bv16 -> bv16 := (r: bv16) => Shift(r)

  function Iterate<R>(h: R -> R, r: R, n: nat): R {
    if n == 0 then r else h(Iterate(h, r, n - 1))
  }

  function Times<R>(h: R -> R, n: nat): R -> R { (r: R) => Iterate(h, r, n) }

  /** What taking in eight bits does to the register. */
  const BYTE: bv16 -> bv16 := Times(SHIFT, 8)

  function Add(r: bv16, c: bv8): bv16 { r ^ c as bv16 }

  function Then(f: bv16 -> bv16): (bv16, bv8) -> bv16 { (r: bv16, c: bv8) => f(Add(r, c)) }

  /** Takes in a string, byte by byte, where g says what each does to the register. */
  function Fold<R, B>(g: (R, B) -> R, r: R, s: seq<B>): R {
    if s == [] then r else g(Fold(g, r, s[..|s| - 1]), s[|s| - 1])
  }

  /** The CRC of a string, bit by bit: each byte is added to the register, which is then
      shifted eight times. */
  function Bitwise(s: seq<bv8>): bv16 { Fold(Then(BYTE), 0, s) }

  function Eight(r: bv16): bv16 { Shift(Shift(Shift(Shift(Shift(Shift(Shift(Shift(r)))))))) }

  lemma ShiftTwice(r: bv16, n: nat)
    ensures Iterate(SHIFT, r, n + 2) == Shift(Shift(Iterate(SHIFT, r, n)))
  {
    assert Iterate(SHIFT, r, n + 2) == SHIFT(Iterate(SHIFT, r, n + 1));
  }

  lemma EightShifts(r: bv16)
    ensures BYTE(r) == Eight(r)
  {
    ShiftTwice(r, 0);
    ShiftTwice(r, 2);
    ShiftTwice(r, 4);
    ShiftTwice(r, 6);
    assert Iterate(SHIFT, r, 0) == r;
  }

  lemma TakenIn(s: seq<bv8>, c: bv8, r: bv16)
    requires Bitwise(s) == r
    ensures Bitwise(s + [c]) == Eight(r ^ c as bv16)
  {
    assert (s + [c])[..|s|] == s;
    EightShifts(r ^ c as bv16);
  }

  lemma StepsOfCheck()
    ensures Eight(0x0000 ^ 0x31) == 0xD4C1
    ensures Eight(0xD4C1 ^ 0x32) == 0x4594
    ensures Eight(0x4594 ^ 0x33) == 0xBA04
    ensures Eight(0xBA04 ^ 0x34) == 0x14BA
    ensures Eight(0x14BA ^ 0x35) == 0xA455
    ensures Eight(0xA455 ^ 0x36) == 0x29E4
    ensures Eight(0x29E4 ^ 0x37) == 0x9D68
    ensures Eight(0x9D68 ^ 0x38) == 0x3C9D
    ensures Eight(0x3C9D ^ 0x39) == 0xBB3D
  {
  }

  /** The standard check value: the CRC of the characters 1 to 9. */
  lemma CheckValue()
    ensures Bitwise([]) == 0
    ensures Bitwise([0x31, 0x32, 0x33, 0x34, 0x35, 0x36, 0x37, 0x38, 0x39]) == 0xBB3D
  {
    StepsOfCheck();
    var s: seq<bv8> := [];
    TakenIn(s, 0x31, 0x0000);
    s := s + [0x31];
    TakenIn(s, 0x32, 0xD4C1);
    s := s + [0x32];
    TakenIn(s, 0x33, 0x4594);
    s := s + [0x33];
    TakenIn(s, 0x34, 0xBA04);
    s := s + [0x34];
    TakenIn(s, 0x35, 0x14BA);
    s := s + [0x35];
    TakenIn(s, 0x36, 0xA455);
    s := s + [0x36];
    TakenIn(s, 0x37, 0x29E4);
    s := s + [0x37];
    TakenIn(s, 0x38, 0x9D68);
    s := s + [0x38];
    TakenIn(s, 0x39, 0x3C9D);
    s := s + [0x39];
    assert s == [0x31, 0x32, 0x33, 0x34, 0x35, 0x36, 0x37, 0x38, 0x39];
  }

  // ---------- the table ----------

  /** One of four entries, by the two low bits of an index. */
  function Pick(c: bv8, e0: bv16, e1: bv16, e2: bv16, e3: bv16): bv16 {
    if c & 2 == 0 then (if c & 1 == 0 then e0 else e1) else if c & 1 == 0 then e2 else e3
  }

  function Row0(c: bv8): bv16 {
    match c >> 2
    case 0 => Pick(c, 0x0000, 0xC0C1, 0xC181, 0x0140)
    case 1 => Pick(c, 0xC301, 0x03C0, 0x0280, 0xC241)
    case 2 => Pick(c, 0xC601, 0x06C0, 0x0780, 0xC741)
    case _ => Pick(c, 0x0500, 0xC5C1, 0xC481, 0x0440)
  }

  function Row1(c: bv8): bv16 {
    match c >> 2
    case 0 => Pick(c, 0xCC01, 0x0CC0, 0x0D80, 0xCD41)
    case 1 => Pick(c, 0x0F00, 0xCFC1, 0xCE81, 0x0E40)
    case 2 => Pick(c, 0x0A00, 0xCAC1, 0xCB81, 0x0B40)
    case _ => Pick(c, 0xC901, 0x09C0, 0x0880, 0xC841)
  }

  function Row2(c: bv8): bv16 {
    match c >> 2
    case 0 => Pick(c, 0xD801, 0x18C0, 0x1980, 0xD941)
    case 1 => Pick(c, 0x1B00, 0xDBC1, 0xDA81, 0x1A40)
    case 2 => Pick(c, 0x1E00, 0xDEC1, 0xDF81, 0x1F40)
    case _ => Pick(c, 0xDD01, 0x1DC0, 0x1C80, 0xDC41)
  }

  function Row3(c: bv8): bv16 {
    match c >> 2
    case 0 => Pick(c, 0x1400, 0xD4C1, 0xD581, 0x1540)
    case 1 => Pick(c, 0xD701, 0x17C0, 0x1680, 0xD641)
    case 2 => Pick(c, 0xD201, 0x12C0, 0x1380, 0xD341)
    case _ => Pick(c, 0x1100, 0xD1C1, 0xD081, 0x1040)
  }

  function Row4(c: bv8): bv16 {
    match c >> 2
    case 0 => Pick(c, 0xF001, 0x30C0, 0x3180, 0xF141)
    case 1 => Pick(c, 0x3300, 0xF3C1, 0xF281, 0x3240)
    case 2 => Pick(c, 0x3600, 0xF6C1, 0xF781, 0x3740)
    case _ => Pick(c, 0xF501, 0x35C0, 0x3480, 0xF441)
  }

  function Row5(c: bv8): bv16 {
    match c >> 2
    case 0 => Pick(c, 0x3C00, 0xFCC1, 0xFD81, 0x3D40)
    case 1 => Pick(c, 0xFF01, 0x3FC0, 0x3E80, 0xFE41)
    case 2 => Pick(c, 0xFA01, 0x3AC0, 0x3B80, 0xFB41)
    case _ => Pick(c, 0x3900, 0xF9C1, 0xF881, 0x3840)
  }

  function Row6(c: bv8): bv16 {
    match c >> 2
    case 0 => Pick(c, 0x2800, 0xE8C1, 0xE981, 0x2940)
    case 1 => Pick(c, 0xEB01, 0x2BC0, 0x2A80, 0xEA41)
    case 2 => Pick(c, 0xEE01, 0x2EC0, 0x2F80, 0xEF41)
    case _ => Pick(c, 0x2D00, 0xEDC1, 0xEC81, 0x2C40)
  }

  function Row7(c: bv8): bv16 {
    match c >> 2
    case 0 => Pick(c, 0xE401, 0x24C0, 0x2580, 0xE541)
    case 1 => Pick(c, 0x2700, 0xE7C1, 0xE681, 0x2640)
    case 2 => Pick(c, 0x2200, 0xE2C1, 0xE381, 0x2340)
    case _ => Pick(c, 0xE101, 0x21C0, 0x2080, 0xE041)
  }

  function Row8(c: bv8): bv16 {
    match c >> 2
    case 0 => Pick(c, 0xA001, 0x60C0, 0x6180, 0xA141)
    case 1 => Pick(c, 0x6300, 0xA3C1, 0xA281, 0x6240)
    case 2 => Pick(c, 0x6600, 0xA6C1, 0xA781, 0x6740)
    case _ => Pick(c, 0xA501, 0x65C0, 0x6480, 0xA441)
  }

  function Row9(c: bv8): bv16 {
    match c >> 2
    case 0 => Pick(c, 0x6C00, 0xACC1, 0xAD81, 0x6D40)
    case 1 => Pick(c, 0xAF01, 0x6FC0, 0x6E80, 0xAE41)
    case 2 => Pick(c, 0xAA01, 0x6AC0, 0x6B80, 0xAB41)
    case _ => Pick(c, 0x6900, 0xA9C1, 0xA881, 0x6840)
  }

  function RowA(c: bv8): bv16 {
    match c >> 2
    case 0 => Pick(c, 0x7800, 0xB8C1, 0xB981, 0x7940)
    case 1 => Pick(c, 0xBB01, 0x7BC0, 0x7A80, 0xBA41)
    case 2 => Pick(c, 0xBE01, 0x7EC0, 0x7F80, 0xBF41)
    case _ => Pick(c, 0x7D00, 0xBDC1, 0xBC81, 0x7C40)
  }

  function RowB(c: bv8): bv16 {
    match c >> 2
    case 0 => Pick(c, 0xB401, 0x74C0, 0x7580, 0xB541)
    case 1 => Pick(c, 0x7700, 0xB7C1, 0xB681, 0x7640)
    case 2 => Pick(c, 0x7200, 0xB2C1, 0xB381, 0x7340)
    case _ => Pick(c, 0xB101, 0x71C0, 0x7080, 0xB041)
  }

  function RowC(c: bv8): bv16 {
    match c >> 2
    case 0 => Pick(c, 0x5000, 0x90C1, 0x9181, 0x5140)
    case 1 => Pick(c, 0x9301, 0x53C0, 0x5280, 0x9241)
    case 2 => Pick(c, 0x9601, 0x56C0, 0x5780, 0x9741)
    case _ => Pick(c, 0x5500, 0x95C1, 0x9481, 0x5440)
  }

  function RowD(c: bv8): bv16 {
    match c >> 2
    case 0 => Pick(c, 0x9C01, 0x5CC0, 0x5D80, 0x9D41)
    case 1 => Pick(c, 0x5F00, 0x9FC1, 0x9E81, 0x5E40)
    case 2 => Pick(c, 0x5A00, 0x9AC1, 0x9B81, 0x5B40)
    case _ => Pick(c, 0x9901, 0x59C0, 0x5880, 0x9841)
  }

  function RowE(c: bv8): bv16 {
    match c >> 2
    case 0 => Pick(c, 0x8801, 0x48C0, 0x4980, 0x8941)
    case 1 => Pick(c, 0x4B00, 0x8BC1, 0x8A81, 0x4A40)
    case 2 => Pick(c, 0x4E00, 0x8EC1, 0x8F81, 0x4F40)
    case _ => Pick(c, 0x8D01, 0x4DC0, 0x4C80, 0x8C41)
  }

  function RowF(c: bv8): bv16 {
    match c >> 2
    case 0 => Pick(c, 0x4400, 0x84C1, 0x8581, 0x4540)
    case 1 => Pick(c, 0x8701, 0x47C0, 0x4680, 0x8641)
    case 2 => Pick(c, 0x8201, 0x42C0, 0x4380, 0x8341)
    case _ => Pick(c, 0x4100, 0x81C1, 0x8081, 0x4040)
  }

  /** The table of 256 entries, sixteen to a row. */
  function Table(i: bv8): bv16 {
    var c := i & 15;
    match i >> 4
    case 0 => Row0(c)
    case 1 => Row1(c)
    case 2 => Row2(c)
    case 3 => Row3(c)
    case 4 => Row4(c)
    case 5 => Row5(c)
    case 6 => Row6(c)
    case 7 => Row7(c)
    case 8 => Row8(c)
    case 9 => Row9(c)
    case 10 => RowA(c)
    case 11 => RowB(c)
    case 12 => RowC(c)
    case 13 => RowD(c)
    case 14 => RowE(c)
    case _ => RowF(c)
  }

  lemma Entry0(c: bv8) requires c < 16 ensures Row0(c) == Eight(0x00 + c as bv16) {}
  lemma Entry1(c: bv8) requires c < 16 ensures Row1(c) == Eight(0x10 + c as bv16) {}
  lemma Entry2(c: bv8) requires c < 16 ensures Row2(c) == Eight(0x20 + c as bv16) {}
  lemma Entry3(c: bv8) requires c < 16 ensures Row3(c) == Eight(0x30 + c as bv16) {}
  lemma Entry4(c: bv8) requires c < 16 ensures Row4(c) == Eight(0x40 + c as bv16) {}
  lemma Entry5(c: bv8) requires c < 16 ensures Row5(c) == Eight(0x50 + c as bv16) {}
  lemma Entry6(c: bv8) requires c < 16 ensures Row6(c) == Eight(0x60 + c as bv16) {}
  lemma Entry7(c: bv8) requires c < 16 ensures Row7(c) == Eight(0x70 + c as bv16) {}
  lemma Entry8(c: bv8) requires c < 16 ensures Row8(c) == Eight(0x80 + c as bv16) {}
  lemma Entry9(c: bv8) requires c < 16 ensures Row9(c) == Eight(0x90 + c as bv16) {}
  lemma EntryA(c: bv8) requires c < 16 ensures RowA(c) == Eight(0xA0 + c as bv16) {}
  lemma EntryB(c: bv8) requires c < 16 ensures RowB(c) == Eight(0xB0 + c as bv16) {}
  lemma EntryC(c: bv8) requires c < 16 ensures RowC(c) == Eight(0xC0 + c as bv16) {}
  lemma EntryD(c: bv8) requires c < 16 ensures RowD(c) == Eight(0xD0 + c as bv16) {}
  lemma EntryE(c: bv8) requires c < 16 ensures RowE(c) == Eight(0xE0 + c as bv16) {}
  lemma EntryF(c: bv8) requires c < 16 ensures RowF(c) == Eight(0xF0 + c as bv16) {}

  /** Every entry of the table is the CRC of its index, taken as a byte. */
  lemma TableEntry(i: bv8)
    ensures Table(i) == BYTE(i as bv16)
  {
    EightShifts(i as bv16);
    var h, c := i >> 4, i & 15;
    if h == 0 {
      Entry0(c);
      assert 0x00 + c as bv16 == i as bv16;
    } else if h == 1 {
      Entry1(c);
      assert 0x10 + c as bv16 == i as bv16;
    } else if h == 2 {
      Entry2(c);
      assert 0x20 + c as bv16 == i as bv16;
    } else if h == 3 {
      Entry3(c);
      assert 0x30 + c as bv16 == i as bv16;
    } else if h == 4 {
      Entry4(c);
      assert 0x40 + c as bv16 == i as bv16;
    } else if h == 5 {
      Entry5(c);
      assert 0x50 + c as bv16 == i as bv16;
    } else if h == 6 {
      Entry6(c);
      assert 0x60 + c as bv16 == i as bv16;
    } else if h == 7 {
      Entry7(c);
      assert 0x70 + c as bv16 == i as bv16;
    } else if h == 8 {
      Entry8(c);
      assert 0x80 + c as bv16 == i as bv16;
    } else if h == 9 {
      Entry9(c);
      assert 0x90 + c as bv16 == i as bv16;
    } else if h == 10 {
      EntryA(c);
      assert 0xA0 + c as bv16 == i as bv16;
    } else if h == 11 {
      EntryB(c);
      assert 0xB0 + c as bv16 == i as bv16;
    } else if h == 12 {
      EntryC(c);
      assert 0xC0 + c as bv16 == i as bv16;
    } else if h == 13 {
      EntryD(c);
      assert 0xD0 + c as bv16 == i as bv16;
    } else if h == 14 {
      EntryE(c);
      assert 0xE0 + c as bv16 == i as bv16;
    } else {
      assert h == 15;
      EntryF(c);
      assert 0xF0 + c as bv16 == i as bv16;
    }
  }

  // ---------- a byte at a time ----------

  function Low(r: bv16): bv16 { r & 0xFF }

  /** Which entry of the table is looked up. */
  function Index(r: bv16, c: bv8): bv8 { c ^ (r & 0xFF) as bv8 }

  lemma IndexIsLow(r: bv16, c: bv8)
    ensures Index(r, c) as bv16 == Low(Add(r, c)) && Add(r, c) >> 8 == r >> 8
  {
  }

  /** The table gives what f does to a byte, and f only moves the upper byte down. */
  ghost predicate Tabulates(table: bv8 -> bv16, f: bv16 -> bv16) {
    && (forall i {:trigger table(i)} :: table(i) == f(i as bv16))
    && (forall x {:trigger Low(x)} :: f(x) == f(Low(x)) ^ (x >> 8))
  }

  /** Looking up in the table does what g does. */
  ghost predicate LooksUp(table: bv8 -> bv16, g: (bv16, bv8) -> bv16) {
    forall r: bv16, c: bv8 {:trigger g(r, c)} :: table(Index(r, c)) ^ (r >> 8) == g(r, c)
  }

  /** One look-up does the work of adding a byte and shifting eight times. */
  lemma TabulatedLooksUp(table: bv8 -> bv16, f: bv16 -> bv16)
    requires Tabulates(table, f)
    ensures LooksUp(table, Then(f))
  {
    forall r: bv16, c: bv8 {:trigger Then(f)(r, c)} ensures table(Index(r, c)) ^ (r >> 8) == Then(f)(r, c) {
      IndexIsLow(r, c);
    }
  }

  lemma HighByteShifts(x: bv16)
    ensures Eight(x & 0xFF00) == x >> 8
  {
  }

  lemma SplitBytes(x: bv16)
    ensures x == Xor(Low(x), x & 0xFF00)
  {
  }

  /** The upper byte of the register is only shifted down. */
  lemma UpperByte(x: bv16)
    ensures BYTE(x) == BYTE(Low(x)) ^ (x >> 8)
  {
    ShiftLinear();
    TimesLinear(SHIFT, 8);
    SplitBytes(x);
    HighByteShifts(x);
    EightShifts(x & 0xFF00);
    assert BYTE(Xor(Low(x), x & 0xFF00)) == Xor(BYTE(Low(x)), BYTE(x & 0xFF00));
  }

  const TABLE: bv8 -> bv16 := (i: bv8) => Table(i)

  lemma TableTabulates()
    ensures Tabulates(TABLE, BYTE)
  {
    forall i {:trigger TABLE(i)} ensures TABLE(i) == BYTE(i as bv16) {
      TableEntry(i);
    }
    forall x {:trigger Low(x)} ensures BYTE(x) == BYTE(Low(x)) ^ (x >> 8) {
      UpperByte(x);
    }
  }

  /** The CRC of a file, from a table that does what g does. */
  method TableLoop(file: seq<bv8>, table: bv8 -> bv16, ghost g: (bv16, bv8) -> bv16) returns (crc: bv16)
    requires LooksUp(table, g)
    ensures crc == Fold(g, 0, file)
  {
    crc := 0;
    for i := 0 to |file|
      invariant crc == Fold(g, 0, file[..i])
    {
      assert file[..i + 1][..i] == file[..i];
      crc := table(Index(crc, file[i])) ^ (crc >> 8);
    }
    assert file[..|file|] == file;
  }

  /** The CRC of a file. */
  method Checksum(file: seq<bv8>) returns (crc: bv16)
    ensures crc == Bitwise(file)
  {
    TableTabulates();
    TabulatedLooksUp(TABLE, BYTE);
    crc := TableLoop(file, TABLE, Then(BYTE));
  }

  // ---------- what it detects ----------

  ghost predicate Injective<R(!new)>(h: R -> R) {
    forall x, y {:trigger h(x), h(y)} :: h(x) == h(y) ==> x == y
  }

  function Xor(r: bv16, q: bv16): bv16 { r ^ q }

  /** Shifting distributes over adding. */
  ghost predicate Linear(h: bv16 -> bv16) {
    forall x, y {:trigger Xor(x, y)} :: h(Xor(x, y)) == Xor(h(x), h(y))
  }

  lemma ShiftInjective()
    ensures Injective(SHIFT)
  {
    forall x, y {:trigger SHIFT(x), SHIFT(y)} | SHIFT(x) == SHIFT(y) ensures x == y {
      SameShift(x, y);
    }
  }

  lemma SameShift(r: bv16, q: bv16)
    requires Shift(r) == Shift(q)
    ensures r == q
  {
  }

  lemma {:induction false} IterateInjective<R(!new)>(h: R -> R, r: R, q: R, n: nat)
    requires Injective(h) && Iterate(h, r, n) == Iterate(h, q, n)
    ensures r == q
  {
    if n > 0 {
      IterateInjective(h, r, q, n - 1);
    }
  }

  lemma TimesInjective<R(!new)>(h: R -> R, n: nat)
    requires Injective(h)
    ensures Injective(Times(h, n))
  {
    forall x, y {:trigger Times(h, n)(x), Times(h, n)(y)} | Times(h, n)(x) == Times(h, n)(y) ensures x == y {
      IterateInjective(h, x, y, n);
    }
  }

  lemma LowBit(r: bv16)
    ensures r & 1 == 0 || r & 1 == 1
  {
  }

  lemma OddAndOdd(r: bv16, q: bv16)
    requires r & 1 == 1 && q & 1 == 1
    ensures Shift(r ^ q) == Shift(r) ^ Shift(q)
  {
  }

  lemma EvenAndEven(r: bv16, q: bv16)
    requires r & 1 == 0 && q & 1 == 0
    ensures Shift(r ^ q) == Shift(r) ^ Shift(q)
  {
  }

  lemma EvenAndOdd(r: bv16, q: bv16)
    requires r & 1 == 0 && q & 1 == 1
    ensures Shift(r ^ q) == Shift(r) ^ Shift(q)
  {
  }

  lemma XorCommutes(x: bv16, y: bv16)
    ensures x ^ y == y ^ x
  {
  }

  lemma ShiftLinearAt(r: bv16, q: bv16)
    ensures Shift(Xor(r, q)) == Xor(Shift(r), Shift(q))
  {
    LowBit(r);
    LowBit(q);
    if r & 1 == q & 1 {
      if r & 1 == 1 {
        OddAndOdd(r, q);
      } else {
        EvenAndEven(r, q);
      }
    } else if r & 1 == 0 {
      EvenAndOdd(r, q);
    } else {
      EvenAndOdd(q, r);
      XorCommutes(r, q);
      XorCommutes(Shift(r), Shift(q));
    }
  }

  lemma ShiftLinear()
    ensures Linear(SHIFT)
  {
    forall x, y {:trigger Xor(x, y)} ensures SHIFT(Xor(x, y)) == Xor(SHIFT(x), SHIFT(y)) {
      ShiftLinearAt(x, y);
    }
  }

  lemma {:induction false} IterateLinear(h: bv16 -> bv16, r: bv16, q: bv16, n: nat)
    requires Linear(h)
    ensures Iterate(h, Xor(r, q), n) == Xor(Iterate(h, r, n), Iterate(h, q, n))
  {
    if n > 0 {
      IterateLinear(h, r, q, n - 1);
    }
  }

  lemma TimesLinear(h: bv16 -> bv16, n: nat)
    requires Linear(h)
    ensures Linear(Times(h, n))
  {
    forall x, y {:trigger Xor(x, y)} ensures Times(h, n)(Xor(x, y)) == Xor(Times(h, n)(x), Times(h, n)(y)) {
      IterateLinear(h, x, y, n);
    }
  }

  /** A byte other than 0 reaches the upper byte of the register. */
  ghost predicate Spreads(f: bv16 -> bv16) {
    forall d: bv8 {:trigger f(d as bv16)} :: f(d as bv16) >> 8 == 0 ==> d == 0
  }

  lemma UpperByteSet(d: bv8)
    requires Eight(d as bv16) >> 8 == 0
    ensures d == 0
  {
  }

  lemma ByteSpreads()
    ensures Spreads(BYTE)
  {
    forall d: bv8 {:trigger BYTE(d as bv16)} | BYTE(d as bv16) >> 8 == 0 ensures d == 0 {
      EightShifts(d as bv16);
      UpperByteSet(d);
    }
  }

  lemma AddCancels(r: bv16, q: bv16, a: bv8, b: bv8)
    ensures Add(r, a) == Add(q, a) ==> r == q
    ensures Add(r, a) == Add(r, b) ==> a == b
  {
  }

  lemma PairXor(r: bv16, x: bv16, y: bv16, a: bv8, b: bv8, c: bv8, d: bv8)
    ensures Xor(Add(r, a), Add(r, c)) == (a ^ c) as bv16
    ensures Add(x, b) == Add(y, d) ==> Xor(x, y) >> 8 == 0
    ensures a ^ c == 0 ==> a == c
  {
  }

  /** Two different pairs of bytes leave different registers. */
  lemma PairDetected(f: bv16 -> bv16, r: bv16, a: bv8, b: bv8, c: bv8, d: bv8)
    requires Injective(f) && Linear(f) && Spreads(f) && f(Add(f(Add(r, a)), b)) == f(Add(f(Add(r, c)), d))
    ensures a == c && b == d
  {
    var x, y := f(Add(r, a)), f(Add(r, c));
    PairXor(r, x, y, a, b, c, d);
    assert f((a ^ c) as bv16) == Xor(x, y);
    AddCancels(x, x, b, d);
  }

  lemma ThenDetects(f: bv16 -> bv16)
    requires Injective(f) && Linear(f) && Spreads(f)
    ensures Detects(Then(f))
  {
    var g := Then(f);
    forall r, q, c {:trigger g(r, c), g(q, c)} | g(r, c) == g(q, c) ensures r == q {
      AddCancels(r, q, c, c);
    }
    forall r, a, b {:trigger g(r, a), g(r, b)} | g(r, a) == g(r, b) ensures a == b {
      AddCancels(r, r, a, b);
    }
    forall r, a, b, c, d {:trigger g(g(r, a), b), g(g(r, c), d)} | g(g(r, a), b) == g(g(r, c), d) ensures a == c && b == d {
      PairDetected(f, r, a, b, c, d);
    }
  }

  /** What makes a checksum notice every change of two consecutive bytes. */
  ghost predicate Detects<R(!new), B(!new)>(g: (R, B) -> R) {
    && (forall r, q, c {:trigger g(r, c), g(q, c)} :: g(r, c) == g(q, c) ==> r == q)
    && (forall r, a, b {:trigger g(r, a), g(r, b)} :: g(r, a) == g(r, b) ==> a == b)
    && (forall r, a, b, c, d {:trigger g(g(r, a), b), g(g(r, c), d)} :: g(g(r, a), b) == g(g(r, c), d) ==> a == c && b == d)
  }

  lemma BitsDetect()
    ensures Detects(Then(BYTE))
  {
    ShiftInjective();
    TimesInjective(SHIFT, 8);
    ShiftLinear();
    TimesLinear(SHIFT, 8);
    ByteSpreads();
    ThenDetects(BYTE);
  }

  /** Registers that differ stay different over equal input. */
  lemma {:induction false} StaysDifferent<R(!new), B(!new)>(g: (R, B) -> R, r: R, q: R, s: seq<B>)
    requires Detects(g) && Fold(g, r, s) == Fold(g, q, s)
    ensures r == q
  {
    if s != [] {
      StaysDifferent(g, r, q, s[..|s| - 1]);
    }
  }

  lemma {:induction false} FoldAppend<R, B>(g: (R, B) -> R, r: R, s: seq<B>, t: seq<B>)
    ensures Fold(g, r, s + t) == Fold(g, Fold(g, r, s), t)
  {
    if t == [] {
      assert s + t == s;
    } else {
      assert (s + t)[..|s + t| - 1] == s + t[..|t| - 1];
      FoldAppend(g, r, s, t[..|t| - 1]);
    }
  }

  lemma PairOf<R, B>(g: (R, B) -> R, r: R, a: B, b: B)
    ensures Fold(g, r, [a, b]) == g(g(r, a), b)
  {
    assert [a, b][..1] == [a] && [a][..0] == [];
    assert Fold(g, r, [a]) == g(r, a);
  }

  /** Strings that are the same but for two consecutive bytes leave different registers. */
  lemma PairsDiffer<R(!new), B(!new)>(g: (R, B) -> R, r0: R, u: seq<B>, a: B, b: B, c: B, d: B, v: seq<B>)
    requires Detects(g) && Fold(g, r0, u + [a, b] + v) == Fold(g, r0, u + [c, d] + v)
    ensures a == c && b == d
  {
    FoldAppend(g, r0, u + [a, b], v);
    FoldAppend(g, r0, u + [c, d], v);
    FoldAppend(g, r0, u, [a, b]);
    FoldAppend(g, r0, u, [c, d]);
    var r := Fold(g, r0, u);
    StaysDifferent(g, Fold(g, r, [a, b]), Fold(g, r, [c, d]), v);
    PairOf(g, r, a, b);
    PairOf(g, r, c, d);
  }

  lemma LastDiffers<R(!new), B(!new)>(g: (R, B) -> R, r0: R, u: seq<B>, a: B, b: B)
    requires Detects(g) && Fold(g, r0, u + [a]) == Fold(g, r0, u + [b])
    ensures a == b
  {
    assert (u + [a])[..|u|] == u && (u + [b])[..|u|] == u;
  }

  lemma BurstFound<R(!new), B(!new)>(g: (R, B) -> R, r0: R, s: seq<B>, t: seq<B>, i: nat)
    requires Detects(g) && |s| == |t| && i < |s| && Fold(g, r0, s) == Fold(g, r0, t)
    requires forall k :: 0 <= k < |s| && k != i && k != i + 1 ==> s[k] == t[k]
    ensures s == t
  {
    var u := s[..i];
    assert u == t[..i];
    if i + 1 < |s| {
      var v := s[i + 2..];
      assert v == t[i + 2..];
      assert s == u + [s[i], s[i + 1]] + v && t == u + [t[i], t[i + 1]] + v;
      PairsDiffer(g, r0, u, s[i], s[i + 1], t[i], t[i + 1], v);
    } else {
      assert s == u + [s[i]] && t == u + [t[i]];
      LastDiffers(g, r0, u, s[i], t[i]);
    }
  }

  /** Two strings of the same length that differ, but only within two consecutive
      bytes, have different CRCs. */
  lemma BurstDetected(s: seq<bv8>, t: seq<bv8>, i: nat)
    requires |s| == |t| && i < |s| && s != t
    requires forall k :: 0 <= k < |s| && k != i && k != i + 1 ==> s[k] == t[k]
    ensures Bitwise(s) != Bitwise(t)
  {
    BitsDetect();
    if Bitwise(s) == Bitwise(t) {
      BurstFound(Then(BYTE), 0, s, t, i);
    }
  }
}
