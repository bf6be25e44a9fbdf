/** crc32.c: table-driven and sliced CRC-32 against the bit-serial shift register, and crc32_combine_. */
module Crc32 {
  import opened Registers

  const POLY: bv32 := 0xedb8_8320

  // ---- register arithmetic, by its laws ----

  function Half(c: bv32): bv32 {
    c >> 1
  }

  predicate Odd(c: bv32) {
    c & 1 != 0
  }

  lemma HalfXor(a: bv32, b: bv32)
    ensures Half(Xor(a, b)) == Xor(Half(a), Half(b)) && (Odd(Xor(a, b)) <==> Odd(a) != Odd(b))
  {
    assert (a ^ b) & 1 == (a & 1) ^ (b & 1);
    assert a & 1 == 0 || a & 1 == 1;
    assert b & 1 == 0 || b & 1 == 1;
  }

  lemma HalfZero()
    ensures Half(0) == 0 && !Odd(0)
  {
  }

  // ---- the shift register ----

  /** One bit of the register: multiplication by x modulo the polynomial. */
  function Shift(c: bv32): bv32 {
    if Odd(c) then Xor(POLY, Half(c)) else Half(c)
  }

  /** The terms of the polynomial below x^32, the lowest power in the top bit. */
  lemma Polynomial(k: bv32)
    requires k < 32
    ensures BitAt(POLY, 31 - k) <==>
      k == 0 || k == 1 || k == 2 || k == 4 || k == 5 || k == 7 || k == 8 || k == 10 || k == 11 || k == 12 || k == 16
      || k == 22 || k == 23 || k == 26
  {
  }

  /** `n` zero bits. */
  function ShiftN(c: bv32, n: nat): bv32 {
    if n == 0 then c else Shift(ShiftN(c, n - 1))
  }

  /** Eight zero bits. */
  function Entry(c: bv32): bv32 {
    Shift(Shift(Shift(Shift(Shift(Shift(Shift(Shift(c))))))))
  }

  lemma EntryShifts(c: bv32)
    ensures ShiftN(c, 8) == Entry(c)
  {
    hide Shift;
    assert ShiftN(c, 1) == Shift(c) && ShiftN(c, 2) == Shift(Shift(c));
    assert ShiftN(c, 3) == Shift(Shift(Shift(c)));
    assert ShiftN(c, 4) == Shift(ShiftN(c, 3)) && ShiftN(c, 5) == Shift(ShiftN(c, 4));
    assert ShiftN(c, 6) == Shift(ShiftN(c, 5)) && ShiftN(c, 7) == Shift(ShiftN(c, 6));
  }

  lemma ShiftLinear(a: bv32, b: bv32)
    ensures Shift(Xor(a, b)) == Xor(Shift(a), Shift(b))
  {
    hide Xor, Half, Odd;
    HalfXor(a, b);
    XorExchange(POLY, Half(a), POLY, Half(b));
    XorZero(POLY);
    XorZero(Xor(Half(a), Half(b)));
    XorAssociates(POLY, Half(a), Half(b));
    XorAssociates(Half(a), POLY, Half(b));
    XorCommutes(Half(a), POLY);
  }

  lemma {:induction false} ShiftNLinear(a: bv32, b: bv32, n: nat)
    ensures ShiftN(Xor(a, b), n) == Xor(ShiftN(a, n), ShiftN(b, n))
  {
    hide Xor, Shift;
    if n > 0 {
      ShiftNLinear(a, b, n - 1);
      ShiftLinear(ShiftN(a, n - 1), ShiftN(b, n - 1));
    }
  }

  lemma {:induction false} ShiftNAdd(c: bv32, m: nat, n: nat)
    ensures ShiftN(ShiftN(c, m), n) == ShiftN(c, m + n)
  {
    hide Shift;
    if n > 0 {
      ShiftNAdd(c, m, n - 1);
      assert m + n - 1 == m + (n - 1);
    }
  }

  lemma {:induction false} ShiftNZero(n: nat)
    ensures ShiftN(0, n) == 0
  {
    hide Half, Odd;
    if n > 0 {
      ShiftNZero(n - 1);
      HalfZero();
    }
  }

  // ---- bytes ----

  function Wide(b: bv8): bv32 {
    b as bv32
  }

  function Low(c: bv32): bv8 {
    (c & 0xff) as bv8
  }

  function Clear(c: bv32): bv32 {
    c & 0xffff_ff00
  }

  /** c >> 8, one bit at a time. */
  function Right(c: bv32, n: nat): bv32 {
    if n == 0 then c else Half(Right(c, n - 1))
  }

  /** The register after the bytes of `s`, bit by bit: the definition. */
  function Register(c: bv32, s: seq<bv8>): bv32 {
    if s == [] then c else ShiftN(Xor(Register(c, s[..|s| - 1]), Wide(s[|s| - 1])), 8)
  }

  /** The checksum, continued from `crc`. */
  function Crc(crc: bv32, s: seq<bv8>): bv32 {
    Not(Register(Not(crc), s))
  }

  /** The low n bits are clear. */
  predicate LowClear(c: bv32, n: nat) {
    n == 0 || (!Odd(c) && LowClear(Half(c), n - 1))
  }

  lemma {:induction false} RightHalf(c: bv32, n: nat)
    ensures Right(Half(c), n) == Half(Right(c, n))
  {
    hide Half;
    if n > 0 {
      RightHalf(c, n - 1);
    }
  }

  lemma {:induction false} ShiftNShift(c: bv32, n: nat)
    ensures ShiftN(Shift(c), n) == Shift(ShiftN(c, n))
  {
    hide Shift;
    if n > 0 {
      ShiftNShift(c, n - 1);
    }
  }

  /** Zero bits in front of a register whose low bits are clear only move it. */
  lemma {:induction false} ClearShifts(c: bv32, n: nat)
    requires LowClear(c, n)
    ensures ShiftN(c, n) == Right(c, n)
    decreases n
  {
    hide Half, Odd, Xor;
    if n > 0 {
      ClearShifts(Half(c), n - 1);
      ShiftNShift(c, n - 1);
      RightHalf(c, n - 1);
    }
  }

  lemma HalfSteps(c: bv32)
    ensures Half(c >> 1) == c >> 2 && Half(c >> 2) == c >> 3 && Half(c >> 3) == c >> 4
  {
  }

  lemma HalfStepsOn(c: bv32)
    ensures Half(c >> 4) == c >> 5 && Half(c >> 5) == c >> 6 && Half(c >> 6) == c >> 7 && Half(c >> 7) == c >> 8
  {
  }

  lemma HalfOnce(c: bv32)
    ensures Half(c) == c >> 1
  {
  }

  lemma {:induction false} RightAdd(c: bv32, m: nat, n: nat)
    ensures Right(Right(c, m), n) == Right(c, m + n)
  {
    hide Half;
    if n > 0 {
      RightAdd(c, m, n - 1);
      assert m + n - 1 == m + (n - 1);
    }
  }

  function Shr8(c: bv32): bv32 {
    c >> 8
  }

  lemma Shr8Is(c: bv32)
    ensures Shr8(c) == c >> 8
  {
  }

  lemma RightEight(c: bv32)
    ensures Right(c, 8) == Shr8(c)
  {
    hide Half;
    HalfOnce(c);
    HalfSteps(c);
    HalfStepsOn(c);
    assert Right(c, 1) == c >> 1;
    assert Right(c, 2) == c >> 2;
    assert Right(c, 3) == c >> 3;
    assert Right(c, 4) == c >> 4;
    assert Right(c, 5) == c >> 5;
    assert Right(c, 6) == c >> 6;
    assert Right(c, 7) == c >> 7;
    Shr8Is(c);
  }

  lemma ClearBits(c: bv32)
    ensures !Odd(Clear(c)) && !Odd(Clear(c) >> 1) && !Odd(Clear(c) >> 2) && !Odd(Clear(c) >> 3)
  {
  }

  lemma ClearBitsOn(c: bv32)
    ensures !Odd(Clear(c) >> 4) && !Odd(Clear(c) >> 5) && !Odd(Clear(c) >> 6) && !Odd(Clear(c) >> 7)
  {
  }

  lemma LowClearEight(x: bv32)
    requires !Odd(x) && !Odd(x >> 1) && !Odd(x >> 2) && !Odd(x >> 3)
    requires !Odd(x >> 4) && !Odd(x >> 5) && !Odd(x >> 6) && !Odd(x >> 7)
    ensures LowClear(x, 8)
  {
    hide Half, Odd;
    HalfOnce(x);
    HalfSteps(x);
    HalfStepsOn(x);
    assert LowClear(x >> 7, 1);
    assert LowClear(x >> 6, 2);
    assert LowClear(x >> 5, 3);
    assert LowClear(x >> 4, 4);
    assert LowClear(x >> 3, 5);
    assert LowClear(x >> 2, 6);
    assert LowClear(x >> 1, 7);
  }

  lemma ClearLow(c: bv32)
    ensures LowClear(Clear(c), 8)
  {
    hide Clear, Odd, LowClear;
    ClearBits(c);
    ClearBitsOn(c);
    LowClearEight(Clear(c));
  }

  lemma SplitLow(c: bv32)
    ensures c == Xor(Wide(Low(c)), Clear(c)) && Shr8(Clear(c)) == Shr8(c)
  {
  }

  /** crc_table[k]: a byte followed by k zero bytes. */
  function Table(b: bv8, k: nat): bv32 {
    ShiftN(Wide(b), 8 * (k + 1))
  }

  /** Eight bits: look up the low byte, move the rest. */
  lemma ByteStep(c: bv32)
    ensures ShiftN(c, 8) == Xor(Table(Low(c), 0), Shr8(c))
  {
    hide ShiftN, Wide, Low, Xor, Clear, Shr8, Right, LowClear;
    SplitLow(c);
    ShiftNLinear(Wide(Low(c)), Clear(c), 8);
    ClearLow(c);
    ClearShifts(Clear(c), 8);
    RightEight(Clear(c));
  }

  /** The low byte of a register goes its own way. */
  lemma Peel(c: bv32, n: nat)
    ensures ShiftN(c, 8 + n) == Xor(ShiftN(Wide(Low(c)), 8 + n), ShiftN(Shr8(c), n))
  {
    hide ShiftN, Wide, Low, Xor, Shr8;
    ByteStep(c);
    ShiftNLinear(Table(Low(c), 0), Shr8(c), n);
    ShiftNAdd(c, 8, n);
    ShiftNAdd(Wide(Low(c)), 8, n);
  }

  function Shr16(c: bv32): bv32 {
    c >> 16
  }

  function Shr24(c: bv32): bv32 {
    c >> 24
  }

  lemma EightMore(c: bv32)
    ensures Shr8(Shr8(c)) == Shr16(c) && Shr8(Shr16(c)) == Shr24(c) && Shr8(Shr24(c)) == 0
  {
  }

  /** Four bytes at once. */
  lemma WordStep(c: bv32)
    ensures ShiftN(c, 32) == Xor(Xor(Xor(Table(Low(c), 3), Table(Low(Shr8(c)), 2)), Table(Low(Shr16(c)), 1)),
        Table(Low(Shr24(c)), 0))
  {
    hide ShiftN, Wide, Low, Xor, Shr8, Shr16, Shr24;
    EightMore(c);
    Peel(c, 24);
    Peel(Shr8(c), 16);
    Peel(Shr16(c), 8);
    Peel(Shr24(c), 0);
    ShiftNZero(0);
    var t3, t2, t1, t0 := Table(Low(c), 3), Table(Low(Shr8(c)), 2), Table(Low(Shr16(c)), 1), Table(Low(Shr24(c)), 0);
    XorZero(t0);
    XorAssociates(t3, t2, Xor(t1, t0));
    XorAssociates(Xor(t3, t2), t1, t0);
  }

  // ---- absorbing four bytes as one little-endian word ----

  function Up8(x: bv32): bv32 {
    x << 8
  }

  function Word(b0: bv8, b1: bv8, b2: bv8, b3: bv8): bv32 {
    Wide(b0) | (Wide(b1) << 8) | (Wide(b2) << 16) | (Wide(b3) << 24)
  }

  lemma UpBits(x: bv32)
    ensures !Odd(Up8(x)) && !Odd(Up8(x) >> 1) && !Odd(Up8(x) >> 2) && !Odd(Up8(x) >> 3)
  {
  }

  lemma UpBitsOn(x: bv32)
    ensures !Odd(Up8(x) >> 4) && !Odd(Up8(x) >> 5) && !Odd(Up8(x) >> 6) && !Odd(Up8(x) >> 7)
  {
  }

  lemma UpLow(x: bv32)
    ensures LowClear(Up8(x), 8)
  {
    hide Up8, Odd, LowClear;
    UpBits(x);
    UpBitsOn(x);
    LowClearEight(Up8(x));
  }

  /** The top byte is free. */
  predicate TopClear(x: bv32) {
    x & 0xff00_0000 == 0
  }

  lemma UpDown(x: bv32)
    requires TopClear(x)
    ensures Shr8(Up8(x)) == x
  {
  }

  lemma ShiftUp(x: bv32)
    requires TopClear(x)
    ensures ShiftN(Up8(x), 8) == x
  {
    hide ShiftN, Up8, Shr8, Right, LowClear, TopClear;
    UpLow(x);
    ClearShifts(Up8(x), 8);
    RightEight(Up8(x));
    UpDown(x);
  }

  /** A byte in front of a word: absorb it, then the rest. */
  lemma AbsorbByte(r: bv32, b: bv32, w: bv32, n: nat)
    requires TopClear(w)
    ensures ShiftN(Xor(r, Xor(b, Up8(w))), 8 + n) == ShiftN(Xor(ShiftN(Xor(r, b), 8), w), n)
  {
    hide ShiftN, Up8, Xor, TopClear;
    XorAssociates(r, b, Up8(w));
    ShiftNAdd(Xor(Xor(r, b), Up8(w)), 8, n);
    ShiftNLinear(Xor(r, b), Up8(w), 8);
    ShiftUp(w);
  }

  function Horner(b0: bv8, b1: bv8, b2: bv8, b3: bv8): bv32 {
    Xor(Wide(b0), Up8(Xor(Wide(b1), Up8(Xor(Wide(b2), Up8(Wide(b3)))))))
  }

  lemma WordIsHorner(b0: bv8, b1: bv8, b2: bv8, b3: bv8)
    ensures Word(b0, b1, b2, b3) == Horner(b0, b1, b2, b3)
    ensures TopClear(Wide(b3)) && TopClear(Xor(Wide(b2), Up8(Wide(b3))))
    ensures TopClear(Xor(Wide(b1), Up8(Xor(Wide(b2), Up8(Wide(b3))))))
  {
  }

  /** Four byte steps of the register are one word step. */
  lemma AbsorbWord(r: bv32, b0: bv8, b1: bv8, b2: bv8, b3: bv8)
    ensures ShiftN(Xor(r, Word(b0, b1, b2, b3)), 32)
            == ShiftN(Xor(ShiftN(Xor(ShiftN(Xor(ShiftN(Xor(r, Wide(b0)), 8), Wide(b1)), 8), Wide(b2)), 8), Wide(b3)), 8)
  {
    hide ShiftN, Wide, Xor, Up8, Word, TopClear;
    WordIsHorner(b0, b1, b2, b3);
    var w2 := Xor(Wide(b2), Up8(Wide(b3)));
    var w1 := Xor(Wide(b1), Up8(w2));
    AbsorbByte(r, Wide(b0), w1, 24);
    var r1 := ShiftN(Xor(r, Wide(b0)), 8);
    AbsorbByte(r1, Wide(b1), w2, 16);
    var r2 := ShiftN(Xor(r1, Wide(b1)), 8);
    AbsorbByte(r2, Wide(b2), Wide(b3), 8);
  }

  // ---- make_crc_table ----

  type CrcTable = t: seq<bv32> | |t| == 256 witness seq(256, _ => 0)

  function Index(b: bv8): (i: nat)
    ensures i < 256
  {
    b as int
  }

  ghost predicate TableTo(t: CrcTable, k: nat, n: bv8) {
    forall b: bv8 :: b < n ==> t[Index(b)] == Table(b, k)
  }

  ghost predicate FullTable(t: CrcTable, k: nat) {
    forall b: bv8 :: t[Index(b)] == Table(b, k)
  }

  /** Eight turns of the inner loop. */
  method ByteEntry(n: bv8) returns (c: bv32)
    ensures c == Table(n, 0)
  {
    hide Wide;
    c := Wide(n);
    var k := 0;
    while k < 8
      invariant 0 <= k <= 8 && c == ShiftN(Wide(n), k)
    {
      c := if Odd(c) then Xor(POLY, Half(c)) else Half(c);
      k := k + 1;
    }
  }

  lemma IndexInjective(a: bv8, b: bv8)
    ensures a != b ==> Index(a) != Index(b)
  {
  }

  lemma NextByte(n: bv8, b: bv8)
    ensures n == 255 ==> b < n || b == n
    ensures n != 255 && b < n + 1 ==> b < n || b == n
  {
  }

  lemma NextEntry(t: CrcTable, k: nat, n: bv8, c: bv32)
    requires TableTo(t, k, n) && c == Table(n, k)
    ensures n == 255 ==> FullTable(t[Index(n) := c], k)
    ensures n != 255 ==> TableTo(t[Index(n) := c], k, n + 1)
  {
    hide Table, Index;
    forall b: bv8
      ensures b < n || b == n ==> t[Index(n) := c][Index(b)] == Table(b, k)
      ensures n == 255 ==> b < n || b == n
      ensures n != 255 && b < n + 1 ==> b < n || b == n
    {
      NextByte(n, b);
      IndexInjective(n, b);
    }
  }

  method FirstTable() returns (t: CrcTable)
    ensures FullTable(t, 0)
  {
    hide Table, TableTo, FullTable, Index;
    var a := new bv32[256](_ => 0);
    var n: bv8 := 0;
    NoEntries(a[..], 0);
    while true
      invariant TableTo(a[..], 0, n)
      decreases 255 - n
    {
      var c := ByteEntry(n);
      ghost var was := a[..];
      NextEntry(was, 0, n, c);
      a[Index(n)] := c;
      assert a[..] == was[Index(n) := c];
      if n == 255 {
        break;
      }
      n := n + 1;
    }
    t := a[..];
  }

  lemma NoEntries(t: CrcTable, k: nat)
    ensures TableTo(t, k, 0)
  {
  }

  /** c = crc_table[0][c & 0xff] ^ (c >> 8). */
  method TableByte(t: CrcTable, c: bv32) returns (r: bv32)
    requires FullTable(t, 0)
    ensures r == ShiftN(c, 8)
  {
    hide ShiftN, Low, Xor, Shr8, Table, Index;
    ByteStep(c);
    r := Xor(t[Index(Low(c))], Shr8(c));
  }

  /** The table for a byte followed by k zero bytes, from the one before it. */
  method NextTable(t0: CrcTable, prev: CrcTable, k: nat) returns (t: CrcTable)
    requires FullTable(t0, 0) && k > 0 && FullTable(prev, k - 1)
    ensures FullTable(t, k)
  {
    hide Table, TableTo, ShiftN, Index;
    var a := new bv32[256](_ => 0);
    var n: bv8 := 0;
    NoEntries(a[..], k);
    while true
      invariant TableTo(a[..], k, n)
      decreases 255 - n
    {
      var c := TableByte(t0, prev[Index(n)]);
      EntryAfter(n, k);
      ghost var was := a[..];
      NextEntry(was, k, n, c);
      a[Index(n)] := c;
      assert a[..] == was[Index(n) := c];
      if n == 255 {
        break;
      }
      n := n + 1;
    }
    t := a[..];
  }

  lemma EntryAfter(n: bv8, k: nat)
    requires k > 0
    ensures ShiftN(Table(n, k - 1), 8) == Table(n, k)
  {
    hide ShiftN, Wide;
    ShiftNAdd(Wide(n), 8 * k, 8);
  }

  // ---- crc32 ----

  lemma RegisterPush(c: bv32, s: seq<bv8>, b: bv8)
    ensures Register(c, s + [b]) == ShiftN(Xor(Register(c, s), Wide(b)), 8)
  {
    hide ShiftN, Xor, Wide;
    assert (s + [b])[..|s|] == s;
  }

  lemma RegisterNone(c: bv32)
    ensures Register(c, []) == c
  {
  }

  /** The byte loops: DO1 until `to`. */
  method ByteLoop(t0: CrcTable, c0: bv32, buf: seq<bv8>, from: nat, to: nat, ghost start: bv32) returns (c: bv32)
    requires FullTable(t0, 0) && from <= to <= |buf| && c0 == Register(start, buf[..from])
    ensures c == Register(start, buf[..to])
  {
    hide Register, FullTable, Xor, Wide, ShiftN;
    c := c0;
    var i := from;
    while i < to
      invariant from <= i <= to && c == Register(start, buf[..i])
    {
      assert buf[..i + 1] == buf[..i] + [buf[i]];
      RegisterPush(start, buf[..i], buf[i]);
      c := TableByte(t0, Xor(c, Wide(buf[i])));
      i := i + 1;
    }
  }

  /** The portable crc32: one table, one byte at a time. */
  method Crc32Bytes(t0: CrcTable, crc: bv32, buf: seq<bv8>) returns (r: bv32)
    requires FullTable(t0, 0)
    ensures r == Crc(crc, buf)
  {
    hide Register, FullTable, Not;
    RegisterNone(Not(crc));
    assert buf[..0] == [] && buf[..|buf|] == buf;
    var c := ByteLoop(t0, Not(crc), buf, 0, |buf|, Not(crc));
    r := Not(c);
  }

  datatype Tables = Tables(t0: CrcTable, t1: CrcTable, t2: CrcTable, t3: CrcTable)

  ghost predicate Built(t: Tables) {
    FullTable(t.t0, 0) && FullTable(t.t1, 1) && FullTable(t.t2, 2) && FullTable(t.t3, 3)
  }

  method MakeCrcTable() returns (t: Tables)
    ensures Built(t)
  {
    hide FullTable;
    var t0 := FirstTable();
    var t1 := NextTable(t0, t0, 1);
    var t2 := NextTable(t0, t1, 2);
    var t3 := NextTable(t0, t2, 3);
    t := Tables(t0, t1, t2, t3);
  }

  /** DOLIT4. */
  method DoLit4(t: Tables, c0: bv32, b0: bv8, b1: bv8, b2: bv8, b3: bv8) returns (c: bv32)
    requires Built(t)
    ensures c == ShiftN(Xor(c0, Word(b0, b1, b2, b3)), 32)
  {
    hide ShiftN, Low, Xor, Shr8, Shr16, Shr24, Table, Word, Index;
    c := Xor(c0, Word(b0, b1, b2, b3));
    WordStep(c);
    c := Xor(Xor(Xor(t.t3[Index(Low(c))], t.t2[Index(Low(Shr8(c)))]), t.t1[Index(Low(Shr16(c)))]),
        t.t0[Index(Low(Shr24(c)))]);
  }

  lemma RegisterFour(c: bv32, s: seq<bv8>, b0: bv8, b1: bv8, b2: bv8, b3: bv8)
    ensures Register(c, s + [b0, b1, b2, b3]) == ShiftN(Xor(Register(c, s), Word(b0, b1, b2, b3)), 32)
  {
    hide Register, ShiftN, Xor, Wide, Word;
    RegisterPush(c, s, b0);
    RegisterPush(c, s + [b0], b1);
    RegisterPush(c, s + [b0] + [b1], b2);
    RegisterPush(c, s + [b0] + [b1] + [b2], b3);
    assert s + [b0] + [b1] + [b2] + [b3] == s + [b0, b1, b2, b3];
    AbsorbWord(Register(c, s), b0, b1, b2, b3);
  }

  /** crc32_little: bytes up to a word boundary, words, the remaining bytes, for any starting address. */
  method Crc32Little(t: Tables, crc: bv32, buf: seq<bv8>, address: nat) returns (r: bv32)
    requires Built(t)
    ensures r == Crc(crc, buf)
  {
    hide Register, FullTable, Not, ShiftN, Xor, Word;
    ghost var start := Not(crc);
    RegisterNone(start);
    assert buf[..0] == [] && buf[..|buf|] == buf;
    var prefix := (4 - address % 4) % 4;
    var i := if prefix <= |buf| then prefix else |buf|;
    var c := ByteLoop(t.t0, Not(crc), buf, 0, i, start);
    while |buf| - i >= 4
      invariant i <= |buf| && c == Register(start, buf[..i])
    {
      RegisterFour(start, buf[..i], buf[i], buf[i + 1], buf[i + 2], buf[i + 3]);
      assert buf[..i + 4] == buf[..i] + [buf[i], buf[i + 1], buf[i + 2], buf[i + 3]];
      c := DoLit4(t, c, buf[i], buf[i + 1], buf[i + 2], buf[i + 3]);
      i := i + 4;
    }
    c := ByteLoop(t.t0, c, buf, i, |buf|, start);
    r := Not(c);
  }

  // ---- what zeros do to a checksum ----

  /** The register is linear: a string acts on it as zeros of its length, plus its own contribution. */
  lemma {:induction false} RegisterSplits(c: bv32, s: seq<bv8>)
    ensures Register(c, s) == Xor(ShiftN(c, 8 * |s|), Register(0, s))
  {
    hide ShiftN, Xor, Wide;
    if s == [] {
      ShiftNNone(c);
      XorZero(c);
    } else {
      var k := |s| - 1;
      var p, b := s[..k], Wide(s[k]);
      RegisterSplits(c, p);
      XorAssociates(ShiftN(c, 8 * k), Register(0, p), b);
      ShiftNLinear(ShiftN(c, 8 * k), Xor(Register(0, p), b), 8);
      ShiftNAdd(c, 8 * k, 8);
    }
  }

  lemma ShiftNNone(c: bv32)
    ensures ShiftN(c, 0) == c
  {
  }

  lemma {:induction false} RegisterConcat(c: bv32, x: seq<bv8>, y: seq<bv8>)
    ensures Register(c, x + y) == Register(Register(c, x), y)
    decreases |y|
  {
    hide ShiftN, Xor, Wide;
    if y == [] {
      assert x + y == x;
    } else {
      var k := |y| - 1;
      RegisterConcat(c, x, y[..k]);
      RegisterPush(c, x + y[..k], y[k]);
      assert x + y == x + y[..k] + [y[k]];
    }
  }

  /** The checksum of a concatenation: zeros applied to the first part's, plus the second part's. */
  lemma CombineLaw(x: seq<bv8>, y: seq<bv8>)
    ensures Crc(0, x + y) == Xor(ShiftN(Crc(0, x), 8 * |y|), Crc(0, y))
  {
    hide ShiftN, Xor, Not, Register;
    var ones := Not(0);
    var n := 8 * |y|;
    var rx := Register(ones, x);
    RegisterConcat(ones, x, y);
    RegisterSplits(rx, y);
    RegisterSplits(ones, y);
    NotIsXor(rx);
    NotZero();
    XorCommutes(rx, ones);
    ShiftNLinear(ones, rx, n);
    var zx, zo, ry := ShiftN(rx, n), ShiftN(ones, n), Register(0, y);
    NotXor(zx, ry);
    NotXor(zo, ry);
    XorExchange(zo, zx, zo, Not(ry));
    XorZero(zo);
    XorZero(Xor(zx, Not(ry)));
  }

  lemma NotZero()
    ensures Not(0) == 0xffff_ffff
  {
  }

  // ---- GF(2) matrices ----

  type Matrix = m: seq<bv32> | |m| == 32 witness seq(32, _ => 0)

  function Double(c: bv32): bv32 {
    c << 1
  }

  /** The register with only bit `i` set. */
  function Unit(i: nat): bv32 {
    if i == 0 then 1 else Double(Unit(i - 1))
  }

  /** Row by row, the effect of k zero bits on each unit register. */
  ghost predicate Operator(m: Matrix, k: nat) {
    forall i :: 0 <= i < 32 ==> m[i] == ShiftN(Unit(i), k)
  }

  /** `vec` shifted left `i` times. */
  function Up(vec: bv32, i: nat): bv32 {
    if i == 0 then vec else Double(Up(vec, i - 1))
  }

  lemma DoubleXor(a: bv32, b: bv32)
    ensures Double(Xor(a, b)) == Xor(Double(a), Double(b))
  {
  }

  lemma DoubleZero()
    ensures Double(0) == 0
  {
  }

  lemma {:induction false} UpXor(a: bv32, b: bv32, i: nat)
    ensures Up(Xor(a, b), i) == Xor(Up(a, i), Up(b, i))
  {
    hide Xor, Double;
    if i > 0 {
      UpXor(a, b, i - 1);
      DoubleXor(Up(a, i - 1), Up(b, i - 1));
    }
  }

  lemma {:induction false} UpDouble(a: bv32, i: nat)
    ensures Up(Double(a), i) == Up(a, i + 1)
  {
    hide Double;
    if i > 0 {
      UpDouble(a, i - 1);
    }
  }

  lemma {:induction false} UpUnit(i: nat)
    ensures Up(1, i) == Unit(i) && Up(0, i) == 0
  {
    hide Double;
    if i > 0 {
      UpUnit(i - 1);
      DoubleZero();
    }
  }

  /** The lowest bit, and the rest moved back. */
  lemma LowestBit(vec: bv32)
    ensures vec == Xor(if Odd(vec) then 1 else 0, Double(Half(vec)))
  {
    assert vec & 1 == 0 || vec & 1 == 1;
  }

  /** Multiplying by the rows from `i` on, as gf2_matrix_times does. */
  function Times(m: Matrix, i: nat, vec: bv32): bv32
    requires i <= 32 && Right(vec, 32 - i) == 0
    decreases 32 - i
  {
    if vec == 0 || i == 32 then 0
    else
      RightHalf(vec, 31 - i);
      Xor(if Odd(vec) then m[i] else 0, Times(m, i + 1, Half(vec)))
  }

  lemma {:induction false} TimesApplies(m: Matrix, k: nat, i: nat, vec: bv32)
    requires Operator(m, k) && i <= 32 && Right(vec, 32 - i) == 0
    ensures Times(m, i, vec) == ShiftN(Up(vec, i), k)
    decreases 32 - i
  {
    hide Xor, Double, Half, Odd, ShiftN, Up;
    UpUnit(i);
    ShiftNZero(k);
    if vec != 0 && i < 32 {
      RightHalf(vec, 31 - i);
      TimesApplies(m, k, i + 1, Half(vec));
      LowestBit(vec);
      var low: bv32 := if Odd(vec) then 1 else 0;
      UpXor(low, Double(Half(vec)), i);
      UpDouble(Half(vec), i);
      ShiftNLinear(Up(low, i), Up(Half(vec), i + 1), k);
    } else {
      RightNone(vec);
    }
  }

  lemma RightNone(vec: bv32)
    ensures Right(vec, 0) == vec
  {
  }

  lemma RightAll(vec: bv32)
    ensures Right(vec, 32) == 0
  {
    hide Half, Right, Shr8, Shr16, Shr24;
    RightAdd(vec, 8, 24);
    RightAdd(Right(vec, 8), 8, 16);
    RightAdd(Right(Right(vec, 8), 8), 8, 8);
    RightEight(vec);
    RightEight(Shr8(vec));
    RightEight(Shr16(vec));
    RightEight(Shr24(vec));
    EightMore(vec);
  }

  /** gf2_matrix_times: if `mat` stands for k zero bits, it applies them. */
  method MatrixTimes(mat: Matrix, vec0: bv32, ghost k: nat) returns (sum: bv32)
    requires Operator(mat, k)
    ensures sum == ShiftN(vec0, k)
  {
    hide Xor, Half, Odd, ShiftN, Operator, Right, Times;
    RightAll(vec0);
    TimesApplies(mat, k, 0, vec0);
    UpNone(vec0);
    sum := 0;
    var vec, i := vec0, 0;
    XorZero(Times(mat, 0, vec0));
    while vec != 0
      invariant 0 <= i <= 32 && Right(vec, 32 - i) == 0 && Xor(sum, Times(mat, i, vec)) == Times(mat, 0, vec0)
      decreases 32 - i
    {
      TimesUnfolds(mat, i, vec);
      XorAssociates(sum, mat[i], Times(mat, i + 1, Half(vec)));
      XorZero(Times(mat, i + 1, Half(vec)));
      if Odd(vec) {
        sum := Xor(sum, mat[i]);
      }
      vec := Half(vec);
      i := i + 1;
    }
    TimesUnfolds(mat, i, vec);
    XorZero(sum);
  }

  lemma UpNone(vec: bv32)
    ensures Up(vec, 0) == vec
  {
  }

  lemma TimesUnfolds(m: Matrix, i: nat, vec: bv32)
    requires i <= 32 && Right(vec, 32 - i) == 0
    ensures vec == 0 ==> Times(m, i, vec) == 0
    ensures vec != 0 ==> i < 32 && Right(Half(vec), 31 - i) == 0
                         && Times(m, i, vec) == Xor(if Odd(vec) then m[i] else 0, Times(m, i + 1, Half(vec)))
  {
    hide Xor, Half, Odd;
    if i < 32 {
      RightHalf(vec, 31 - i);
    } else {
      RightNone(vec);
    }
  }

  /** gf2_matrix_square. */
  method MatrixSquare(square: array<bv32>, mat: Matrix, ghost k: nat)
    requires square.Length == 32 && Operator(mat, k)
    modifies square
    ensures Operator(square[..], 2 * k)
  {
    hide ShiftN, Unit;
    var n := 0;
    while n < 32
      invariant 0 <= n <= 32 && forall i :: 0 <= i < n ==> square[i] == ShiftN(Unit(i), 2 * k)
    {
      var x := MatrixTimes(mat, mat[n], k);
      ShiftNAdd(Unit(n), k, k);
      square[n] := x;
      n := n + 1;
    }
  }

  // ---- crc32_combine_ ----

  lemma HalfDouble(x: bv32)
    requires Right(x, 31) == 0
    ensures Half(Double(x)) == x && !Odd(Double(x))
  {
    RightThirtyOne(x);
    HalfDoubleRaw(x);
  }

  lemma HalfDoubleRaw(x: bv32)
    requires x & 0x8000_0000 == 0
    ensures Half(Double(x)) == x && !Odd(Double(x))
  {
  }

  lemma RightThirtyOne(x: bv32)
    requires Right(x, 31) == 0
    ensures x & 0x8000_0000 == 0
  {
    hide Half, Right, Shr8, Shr16, Shr24;
    RightAdd(x, 8, 23);
    RightAdd(Right(x, 8), 8, 15);
    RightAdd(Right(Right(x, 8), 8), 8, 7);
    RightEight(x);
    RightEight(Shr8(x));
    RightEight(Shr16(x));
    EightMore(x);
    RightSeven(Shr24(x));
    TopBit(x);
  }

  lemma RightSeven(c: bv32)
    ensures Right(c, 7) == c >> 7
  {
    hide Half;
    HalfOnce(c);
    HalfSteps(c);
    HalfStepsOn(c);
    assert Right(c, 1) == c >> 1;
    assert Right(c, 2) == c >> 2;
    assert Right(c, 3) == c >> 3;
    assert Right(c, 4) == c >> 4;
    assert Right(c, 5) == c >> 5;
    assert Right(c, 6) == c >> 6;
  }

  lemma TopBit(x: bv32)
    ensures Shr24(x) >> 7 == 0 ==> x & 0x8000_0000 == 0
  {
  }

  lemma {:induction false} RightMonotone(c: bv32, m: nat, n: nat)
    requires Right(c, m) == 0 && m <= n
    ensures Right(c, n) == 0
  {
    hide Half;
    if m < n {
      RightMonotone(c, m, n - 1);
      HalfZero();
    }
  }

  lemma {:induction false} UnitRight(i: nat)
    requires i <= 31
    ensures Right(Unit(i), i + 1) == 0
    ensures i > 0 ==> Shift(Unit(i)) == Unit(i - 1)
  {
    hide Half, Double, Odd, Xor;
    if i == 0 {
      HalfOfOne();
    } else {
      UnitRight(i - 1);
      RightMonotone(Unit(i - 1), i, 31);
      HalfDouble(Unit(i - 1));
      RightHalf(Unit(i), i);
    }
  }

  lemma HalfOfOne()
    ensures Half(1) == 0 && Odd(1)
  {
  }

  lemma ShiftOne(c: bv32)
    ensures ShiftN(c, 1) == Shift(c)
  {
    hide Shift;
  }

  lemma ShiftOfOne()
    ensures Shift(1) == POLY
  {
    hide Half, Odd, Xor;
    HalfOfOne();
    XorZero(POLY);
  }

  /** odd: the operator for one zero bit. */
  method OneZeroBit(odd: array<bv32>)
    requires odd.Length == 32
    modifies odd
    ensures Operator(odd[..], 1)
  {
    hide ShiftN, Unit, Shift, Double;
    UnitZero();
    ShiftOne(1);
    ShiftOfOne();
    odd[0] := POLY;
    var row: bv32 := 1;
    var n := 1;
    while n < 32
      invariant 1 <= n <= 32 && (n < 32 ==> row == Unit(n - 1))
      invariant forall i :: 0 <= i < n ==> odd[i] == ShiftN(Unit(i), 1)
    {
      UnitRight(n);
      ShiftOne(Unit(n));
      UnitNext(n - 1);
      odd[n] := row;
      row := Double(row);
      n := n + 1;
    }
  }

  lemma UnitZero()
    ensures Unit(0) == 1
  {
  }

  lemma UnitNext(i: nat)
    ensures Unit(i + 1) == Double(Unit(i))
  {
  }

  lemma SplitLength(k: nat, len: nat)
    ensures k * len == k * (len % 2) + 2 * k * (len / 2)
  {
    assert len == 2 * (len / 2) + len % 2;
    assert k * (2 * (len / 2)) == 2 * k * (len / 2);
  }

  /** One half turn of the loop: square `from` into `into`, apply it if the length is odd, halve the length. */
  method HalfTurn(into: array<bv32>, from: array<bv32>, crc: bv32, len: nat, ghost k: nat, ghost total: nat,
          ghost start: bv32)
    returns (crc': bv32, len': nat)
    requires into != from && into.Length == from.Length == 32 && Operator(from[..], k)
    requires ShiftN(crc, 2 * k * len) == ShiftN(start, total)
    modifies into
    ensures Operator(into[..], 2 * k) && len' == len / 2 && ShiftN(crc', 2 * (2 * k) * len') == ShiftN(start, total)
  {
    hide ShiftN, Operator;
    MatrixSquare(into, from[..], k);
    SplitLength(2 * k, len);
    crc' := crc;
    if len % 2 == 1 {
      crc' := MatrixTimes(into[..], crc, 2 * k);
      ShiftNAdd(crc, 2 * k, 2 * (2 * k) * (len / 2));
    }
    len' := len / 2;
  }

  /** crc32_combine_: the checksum of the concatenation, from the two checksums and the second length. */
  method Combine(crc1: bv32, crc2: bv32, len2: nat, ghost x: seq<bv8>, ghost y: seq<bv8>) returns (r: bv32)
    requires crc1 == Crc(0, x) && crc2 == Crc(0, y) && len2 == |y|
    ensures r == Crc(0, x + y)
  {
    hide ShiftN, Operator, Xor, Crc;
    CombineLaw(x, y);
    if len2 == 0 {
      assert x + y == x;
      return crc1;
    }
    var even, odd := new bv32[32](_ => 0), new bv32[32](_ => 0);
    OneZeroBit(odd);
    MatrixSquare(even, odd[..], 1);
    MatrixSquare(odd, even[..], 2);
    var crc, len := crc1, len2;
    ghost var k := 4;
    while true
      invariant k > 0 && Operator(odd[..], k) && ShiftN(crc, 2 * k * len) == ShiftN(crc1, 8 * len2) && len > 0
      decreases len
    {
      crc, len := HalfTurn(even, odd, crc, len, k, 8 * len2, crc1);
      if len == 0 {
        break;
      }
      crc, len := HalfTurn(odd, even, crc, len, 2 * k, 8 * len2, crc1);
      k := 4 * k;
      if len == 0 {
        break;
      }
    }
    ShiftNNone(crc);
    r := Xor(crc, crc2);
  }
}
