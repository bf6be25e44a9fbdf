/** A whole .bz2 stream: header, blocks, trailer. */
module BzStream {
  import opened Base
  import opened BitString
  import opened Rotations
  import opened InverseBwt
  import opened RunLength
  import opened BzCrc
  import opened Registers
  import opened MtfEncoder
  import opened BlockFormat
  import opened BlockReader
  import opened BlockRoundTrip

  /** One compressed block: the run-length coded bytes, the sorted order, row zero's place, the coding. */
  datatype Packed = Packed(block: seq<byte>, order: seq<int>, origPtr: nat, coding: Coding)

  ghost predicate Sorted(p: Packed) {
    && SortsRotations(p.block, p.order)
    && p.origPtr < |p.block| && p.order[p.origPtr] == 0
  }

  ghost function Column(p: Packed): (l: seq<byte>)
    requires Sorted(p)
    ensures |l| == |p.block|
  {
    LastColumn(p.block, p.order)
  }

  ghost predicate GoodBlock(p: Packed, level: nat) {
    && 0 < |p.block| <= 100000 * level && Complete(p.block) && Sorted(p)
    && Marks(p.coding.used, Column(p)) && ValidCoding(p.coding, |BlockSymbols(p.coding.used, Column(p))|)
  }

  ghost predicate GoodBlocks(blocks: seq<Packed>, level: nat) {
    forall i :: 0 <= i < |blocks| ==> GoodBlock(blocks[i], level)
  }

  ghost function PackedBits(p: Packed, level: nat): Bits
    requires GoodBlock(p, level)
  {
    SymbolsOfColumn(p.coding.used, Column(p));
    BlockBits(CrcNat(Checksum(Expand(p.block))), p.origPtr, p.coding, BlockSymbols(p.coding.used, Column(p)))
  }

  ghost function BlocksBits(blocks: seq<Packed>, level: nat): Bits
    requires GoodBlocks(blocks, level)
  {
    if blocks == [] then [] else PackedBits(blocks[0], level) + BlocksBits(blocks[1..], level)
  }

  /** What the blocks stand for. */
  ghost function Plain(blocks: seq<Packed>): seq<byte> {
    if blocks == [] then [] else Expand(blocks[0].block) + Plain(blocks[1..])
  }

  /** The stream checksum. */
  ghost function CombinedFrom(start: bv32, blocks: seq<Packed>): bv32
    decreases |blocks|
  {
    if blocks == [] then start else CombinedFrom(Combine(start, Checksum(Expand(blocks[0].block))), blocks[1..])
  }

  ghost function StreamBits(blocks: seq<Packed>, level: nat): Bits
    requires GoodBlocks(blocks, level)
  {
    HeaderBits(level) + (BlocksBits(blocks, level) + TrailerBits(CrcNat(CombinedFrom(0, blocks))))
  }

  lemma {:induction false} PlainPush(blocks: seq<Packed>, p: Packed)
    ensures Plain(blocks + [p]) == Plain(blocks) + Expand(p.block)
  {
    hide Expand;
    if blocks == [] {
      assert ([] + [p])[1..] == [];
    } else {
      PlainPush(blocks[1..], p);
      assert (blocks + [p])[1..] == blocks[1..] + [p] && (blocks + [p])[0] == blocks[0];
      Associate(Expand(blocks[0].block), Plain(blocks[1..]), Expand(p.block));
    }
  }

  lemma {:induction false} CombinedPush(start: bv32, blocks: seq<Packed>, p: Packed)
    ensures CombinedFrom(start, blocks + [p]) == Combine(CombinedFrom(start, blocks), Checksum(Expand(p.block)))
    decreases |blocks|
  {
    hide Combine, Checksum;
    if blocks == [] {
      assert ([] + [p])[1..] == [];
    } else {
      CombinedPush(Combine(start, Checksum(Expand(blocks[0].block))), blocks[1..], p);
      assert (blocks + [p])[1..] == blocks[1..] + [p];
    }
  }

  /** The blocks' checksums. */
  ghost function Checksums(blocks: seq<Packed>): (c: seq<bv32>)
    ensures |c| == |blocks| && forall i :: 0 <= i < |c| ==> c[i] == Checksum(Expand(blocks[i].block))
  {
    seq(|blocks|, i requires 0 <= i < |blocks| => Checksum(Expand(blocks[i].block)))
  }

  /** The exclusive-or of all, each turned left by as many places as there are checksums after it. */
  ghost function TurnedSum(crcs: seq<bv32>): bv32 {
    if crcs == [] then 0 else Xor(Turned(crcs[0], |crcs| - 1), TurnedSum(crcs[1..]))
  }

  lemma {:induction false} CombinedFromTurns(start: bv32, blocks: seq<Packed>)
    ensures CombinedFrom(start, blocks) == Xor(Turned(start, |blocks|), TurnedSum(Checksums(blocks)))
    decreases |blocks|
  {
    hide Combine, Checksum, Xor, TurnLeft, Expand;
    if blocks == [] {
      XorZero(start);
    } else {
      var n, c := |blocks| - 1, Checksum(Expand(blocks[0].block));
      CombinedFromTurns(Combine(start, c), blocks[1..]);
      assert Checksums(blocks)[1..] == Checksums(blocks[1..]);
      CombineTurns(start, c);
      TurnedXor(TurnLeft(start), c, n);
      TurnedFirst(start, n);
      XorAssociates(Turned(start, n + 1), Turned(c, n), TurnedSum(Checksums(blocks[1..])));
    }
  }

  /** The stream checksum, by what it is made of. */
  lemma StreamChecksum(blocks: seq<Packed>)
    ensures CombinedFrom(0, blocks) == TurnedSum(Checksums(blocks))
  {
    hide Xor, TurnLeft, CombinedFrom, Checksum;
    CombinedFromTurns(0, blocks);
    TurnedNothing(|blocks|);
    XorZero(TurnedSum(Checksums(blocks)));
  }

  lemma {:induction false} BlocksPush(blocks: seq<Packed>, p: Packed, level: nat)
    requires GoodBlocks(blocks, level) && GoodBlock(p, level)
    ensures GoodBlocks(blocks + [p], level)
    ensures BlocksBits(blocks + [p], level) == BlocksBits(blocks, level) + PackedBits(p, level)
  {
    hide GoodBlock, PackedBits;
    assert GoodBlocks(blocks + [p], level);
    if blocks == [] {
      assert ([] + [p])[1..] == [];
      assert PackedBits(p, level) + [] == [] + PackedBits(p, level);
    } else {
      BlocksPush(blocks[1..], p, level);
      assert (blocks + [p])[1..] == blocks[1..] + [p] && (blocks + [p])[0] == blocks[0];
      assert GoodBlocks((blocks + [p])[1..], level);
    }
  }

  /** The decoder reads a good block's bits and stands ready to output its last column. */
  lemma PackedReadsBack(p: Packed, level: nat)
    requires GoodBlock(p, level) && 1 <= level <= 9
    ensures Reads(BlkHdr(level, 0), PackedBits(p, level),
                  Output(Header(level, CrcNat(Checksum(Expand(p.block))), false, p.origPtr), Column(p)))
  {
    hide Reads, ValidCoding, Column, BlockSymbols, BlockBits, Pow2;
    Pow2Values();
    BlockReadsBack(level, CrcNat(Checksum(Expand(p.block))), p.origPtr, p.coding, Column(p));
  }
}
