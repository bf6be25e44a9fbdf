/** The block checksum of bzip2 (BZ_INITIALISE_CRC, BZ_UPDATE_CRC, BZ_FINALISE_CRC). */
module BzCrc {
  import opened Base
  import opened Registers

  const POLY: bv32 := 0x04c1_1db7

  function ShiftOut(r: bv32): bv32 {
    if r & 0x8000_0000 != 0 then (r << 1) ^ POLY else r << 1
  }

  /** The entry of BZ2_crc32Table for the top byte of `r`, by the rule its constants follow. */
  function TableEntry(r: bv32): bv32 {
    ShiftOut(ShiftOut(ShiftOut(ShiftOut(ShiftOut(ShiftOut(ShiftOut(ShiftOut(r & 0xff00_0000))))))))
  }

  /** A byte as the top eight bits of a register. */
  function TopByte(c: byte): bv32 {
    if c == 0 then 0 else TopByte(c - 1) + 0x0100_0000
  }

  /** The register moved up by a byte. */
  function Moved(r: bv32): bv32 {
    r << 8
  }

  function Update(crc: bv32, c: byte): bv32 {
    Xor(Moved(crc), TableEntry(Xor(crc, TopByte(c))))
  }

  /** The running (not yet complemented) checksum of a byte string. */
  function Running(s: seq<byte>): bv32 {
    if s == [] then 0xffff_ffff else Update(Running(s[..|s| - 1]), s[|s| - 1])
  }

  /** The checksum stored for a block that expands to `s`. */
  function Checksum(s: seq<byte>): bv32 {
    !Running(s)
  }

  /** How a block checksum is folded into the stream checksum. */
  function Combine(combined: bv32, block: bv32): bv32 {
    ((combined << 1) | (combined >> 31)) ^ block
  }

  /** A register turned left by one place. */
  function TurnLeft(x: bv32): bv32 {
    (x << 1) | (x >> 31)
  }

  /** BitAt by bit: each comes from the place below, the lowest from the top. */
  lemma TurnBits(x: bv32, k: bv32)
    requires k < 32
    ensures BitAt(TurnLeft(x), k) <==> BitAt(x, if k == 0 then 31 else k - 1)
  {
  }

  function Turned(x: bv32, n: nat): bv32 {
    if n == 0 then x else TurnLeft(Turned(x, n - 1))
  }

  lemma TurnXor(a: bv32, b: bv32)
    ensures TurnLeft(Xor(a, b)) == Xor(TurnLeft(a), TurnLeft(b))
  {
  }

  lemma {:induction false} TurnedXor(a: bv32, b: bv32, n: nat)
    ensures Turned(Xor(a, b), n) == Xor(Turned(a, n), Turned(b, n))
  {
    hide Xor, TurnLeft;
    if n > 0 {
      TurnedXor(a, b, n - 1);
      TurnXor(Turned(a, n - 1), Turned(b, n - 1));
    }
  }

  lemma {:induction false} TurnedFirst(x: bv32, n: nat)
    ensures Turned(TurnLeft(x), n) == Turned(x, n + 1)
  {
    hide TurnLeft;
    if n > 0 {
      TurnedFirst(x, n - 1);
    }
  }

  lemma {:induction false} TurnedNothing(n: nat)
    ensures Turned(0, n) == 0
  {
    if n > 0 {
      TurnedNothing(n - 1);
    }
  }

  lemma CombineTurns(combined: bv32, block: bv32)
    ensures Combine(combined, block) == Xor(TurnLeft(combined), block)
  {
  }

  lemma RunningPush(s: seq<byte>, c: byte)
    ensures Running(s + [c]) == Update(Running(s), c)
  {
    assert (s + [c])[..|s|] == s;
  }

  /** A checksum as the number that is transmitted. */
  function CrcNat(u: bv32): (n: nat)
    ensures n < 4294967296
  {
    u as nat
  }
}
