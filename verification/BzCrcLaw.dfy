/** The table-driven checksum step of bzip2 against its bit-serial shift register. */
module BzCrcLaw {
  import opened Base
  import opened BzCrc
  import opened Registers

  function Twice(r: bv32): bv32 {
    r << 1
  }

  predicate High(r: bv32) {
    r & 0x8000_0000 != 0
  }

  lemma ShiftOutIs(r: bv32)
    ensures ShiftOut(r) == if High(r) then Xor(Twice(r), POLY) else Twice(r)
  {
  }

  lemma TwiceXor(a: bv32, b: bv32)
    ensures Twice(Xor(a, b)) == Xor(Twice(a), Twice(b))
  {
  }

  lemma HighXor(a: bv32, b: bv32)
    ensures High(Xor(a, b)) <==> High(a) != High(b)
  {
    assert (a ^ b) & 0x8000_0000 == (a & 0x8000_0000) ^ (b & 0x8000_0000);
    assert a & 0x8000_0000 == 0 || a & 0x8000_0000 == 0x8000_0000;
    assert b & 0x8000_0000 == 0 || b & 0x8000_0000 == 0x8000_0000;
  }

  lemma ShiftOutLinear(a: bv32, b: bv32)
    ensures ShiftOut(Xor(a, b)) == Xor(ShiftOut(a), ShiftOut(b))
  {
    hide Xor, Twice, High, ShiftOut;
    ShiftOutIs(a);
    ShiftOutIs(b);
    ShiftOutIs(Xor(a, b));
    TwiceXor(a, b);
    HighXor(a, b);
    var x, y := Twice(a), Twice(b);
    XorExchange(x, POLY, y, POLY);
    XorZero(POLY);
    XorZero(Xor(x, y));
    XorAssociates(x, y, POLY);
    XorAssociates(x, POLY, y);
    XorCommutes(POLY, y);
  }

  /** `n` zero bits shifted in. */
  function OutN(r: bv32, n: nat): bv32
    decreases n
  {
    if n == 0 then r else OutN(ShiftOut(r), n - 1)
  }

  lemma {:induction false} OutNLinear(a: bv32, b: bv32, n: nat)
    ensures OutN(Xor(a, b), n) == Xor(OutN(a, n), OutN(b, n))
    decreases n
  {
    hide Xor, ShiftOut;
    if n > 0 {
      ShiftOutLinear(a, b);
      OutNLinear(ShiftOut(a), ShiftOut(b), n - 1);
    }
  }

  /** The top `n` bits are clear. */
  predicate TopClear(r: bv32, n: nat)
    decreases n
  {
    n == 0 || (!High(r) && TopClear(Twice(r), n - 1))
  }

  function TwiceN(r: bv32, n: nat): bv32
    decreases n
  {
    if n == 0 then r else TwiceN(Twice(r), n - 1)
  }

  lemma {:induction false} ClearMoves(r: bv32, n: nat)
    requires TopClear(r, n)
    ensures OutN(r, n) == TwiceN(r, n)
    decreases n
  {
    hide ShiftOut, Twice, High, Xor;
    if n > 0 {
      ShiftOutIs(r);
      ClearMoves(Twice(r), n - 1);
    }
  }

  function Below(r: bv32): bv32 {
    r & 0x00ff_ffff
  }

  function Top(r: bv32): bv32 {
    r & 0xff00_0000
  }

  lemma TwiceSteps(r: bv32)
    ensures Twice(r) == r << 1 && Twice(r << 1) == r << 2 && Twice(r << 2) == r << 3 && Twice(r << 3) == r << 4
  {
  }

  lemma TwiceStepsOn(r: bv32)
    ensures Twice(r << 4) == r << 5 && Twice(r << 5) == r << 6 && Twice(r << 6) == r << 7 && Twice(r << 7) == r << 8
  {
  }

  lemma BelowBits(r: bv32)
    ensures !High(Below(r)) && !High(Below(r) << 1) && !High(Below(r) << 2) && !High(Below(r) << 3)
  {
  }

  lemma BelowBitsOn(r: bv32)
    ensures !High(Below(r) << 4) && !High(Below(r) << 5) && !High(Below(r) << 6) && !High(Below(r) << 7)
  {
  }

  lemma ClearEight(x: bv32)
    requires !High(x) && !High(x << 1) && !High(x << 2) && !High(x << 3)
    requires !High(x << 4) && !High(x << 5) && !High(x << 6) && !High(x << 7)
    ensures TopClear(x, 8) && TwiceN(x, 8) == Moved(x)
  {
    MovedIs(x);
    hide Twice, High;
    TwiceSteps(x);
    TwiceStepsOn(x);
    assert TopClear(x << 7, 1) && TwiceN(x << 7, 1) == TwiceN(x << 8, 0);
    assert TopClear(x << 6, 2) && TwiceN(x << 6, 2) == x << 8;
    assert TopClear(x << 5, 3) && TwiceN(x << 5, 3) == x << 8;
    assert TopClear(x << 4, 4) && TwiceN(x << 4, 4) == x << 8;
    assert TopClear(x << 3, 5) && TwiceN(x << 3, 5) == x << 8;
    assert TopClear(x << 2, 6) && TwiceN(x << 2, 6) == x << 8;
    assert TopClear(x << 1, 7) && TwiceN(x << 1, 7) == x << 8;
  }

  lemma SplitTop(r: bv32)
    ensures r == Xor(Top(r), Below(r)) && Moved(Below(r)) == Moved(r)
  {
  }

  lemma EightOut(r: bv32)
    ensures OutN(Top(r), 8) == TableEntry(r)
  {
    hide ShiftOut;
    var x := Top(r);
    assert OutN(x, 8) == OutN(ShiftOut(x), 7);
    var x2 := ShiftOut(ShiftOut(x));
    assert OutN(x, 8) == OutN(x2, 6);
    var x4 := ShiftOut(ShiftOut(x2));
    assert OutN(x2, 6) == OutN(x4, 4);
    var x6 := ShiftOut(ShiftOut(x4));
    assert OutN(x4, 4) == OutN(x6, 2);
    assert OutN(x6, 2) == OutN(ShiftOut(x6), 1) == OutN(ShiftOut(ShiftOut(x6)), 0);
  }

  /** Eight bits of the register: look up the top byte, move the rest. */
  lemma ByteOut(r: bv32)
    ensures OutN(r, 8) == Xor(TableEntry(r), Moved(r))
  {
    hide OutN, Xor, Top, Below, TableEntry, TopClear, TwiceN, Moved;
    SplitTop(r);
    OutNLinear(Top(r), Below(r), 8);
    EightOut(r);
    BelowClear(r);
    ClearMoves(Below(r), 8);
    XorCommutes(TableEntry(r), Moved(r));
  }

  lemma BelowClear(r: bv32)
    ensures TopClear(Below(r), 8) && TwiceN(Below(r), 8) == Moved(Below(r))
  {
    hide Below, High, TopClear, TwiceN, Moved;
    BelowBits(r);
    BelowBitsOn(r);
    ClearEight(Below(r));
  }

  lemma MovedIs(r: bv32)
    ensures Moved(r) == r << 8
  {
  }

  lemma {:induction false} TopByteHigh(c: byte, r: bv32)
    ensures Moved(Xor(r, TopByte(c))) == Moved(r)
  {
    if c > 0 {
      TopByteHigh(c - 1, r);
      AddTop(r, TopByte(c - 1));
    }
  }

  lemma AddTop(r: bv32, t: bv32)
    ensures Moved(Xor(r, t)) == Moved(r) ==> Moved(Xor(r, t + 0x0100_0000)) == Moved(r)
  {
  }

  /** BZ_UPDATE_CRC is the bit-serial register: the byte enters at the top, then eight bits are shifted out. */
  lemma UpdateIsBitSerial(crc: bv32, c: byte)
    ensures Update(crc, c) == OutN(Xor(crc, TopByte(c)), 8)
  {
    hide OutN, TableEntry, TopByte, Moved, Xor;
    var r := Xor(crc, TopByte(c));
    ByteOut(r);
    TopByteHigh(c, crc);
    XorCommutes(TableEntry(r), Moved(r));
  }
}
