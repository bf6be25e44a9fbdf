/** BZ2_compressBlock for a non-empty block: sort, move to front, choose tables, transmit. */
module BlockEncoder {
  import opened Base
  import opened BitString
  import opened BitIO
  import opened Rotations
  import FallbackSort
  import opened InverseBwt
  import opened RunLength
  import opened BzCrc
  import opened MtfEncoder
  import opened BlockFormat
  import opened BlockRoundTrip
  import opened BlockWriter
  import opened TableChoice
  import opened BzStream

  lemma {:induction false} BytesPush(s: seq<byte>, c: byte)
    ensures BytesToBits(s + [c]) == BytesToBits(s) + ToBits(c, 8)
  {
    assert (s + [c])[..|s|] == s;
  }

  method WriteBytes(w: BitWriter, s: seq<byte>)
    requires w.Valid()
    modifies w
    ensures w.Valid() && w.Written() == old(w.Written()) + BytesToBits(s)
  {
    hide BitWriter.Valid, BitWriter.Written, BytesToBits, ToBits;
    NoBits(0);
    var i := 0;
    assert s[..0] == [] && w.Written() + [] == w.Written();
    while i < |s|
      invariant 0 <= i <= |s| && w.Valid() && w.Written() == old(w.Written()) + BytesToBits(s[..i])
    {
      assert s[..i + 1] == s[..i] + [s[i]];
      BytesPush(s[..i], s[i]);
      Associate(old(w.Written()), BytesToBits(s[..i]), ToBits(s[i], 8));
      w.WriteByte(s[i]);
      i := i + 1;
    }
    assert s[..i] == s;
  }

  /** Every byte of the last column is a byte of the block. */
  lemma ColumnMarked(inUse: seq<bool>, block: seq<byte>, ptr: seq<int>)
    requires Marks(inUse, block) && ValidOrder(block, ptr)
    ensures Marks(inUse, LastColumn(block, ptr))
  {
  }

  /** arr1 as the sorter leaves it: ptr in 32-bit words, seen as 16-bit halves. */
  method LoadWords(ptr: seq<int>) returns (arr1: array<int>)
    requires forall i :: 0 <= i < |ptr| ==> 0 <= ptr[i]
    ensures fresh(arr1) && HoldsPtr(arr1[..], ptr, 0)
  {
    arr1 := new int[2 * |ptr|](k requires 0 <= k < 2 * |ptr| =>
      if k % 2 == 0 then ptr[k / 2] % 65536 else ptr[k / 2] / 65536);
    forall k | 0 <= k < |ptr|
      ensures LoadPtr(arr1[..], k) == ptr[k]
    {
      assert arr1[2 * k] == ptr[2 * k / 2] % 65536 && arr1[2 * k + 1] == ptr[(2 * k + 1) / 2] / 65536;
    }
  }

  /** The block's symbols, through the aliased storage. */
  method BlockToSymbols(block: seq<byte>, inUse: UseMap, ptr: seq<int>) returns (syms: seq<nat>)
    requires SortsRotations(block, ptr) && block != [] && Marks(inUse, LastColumn(block, ptr))
    ensures syms == BlockSymbols(inUse, LastColumn(block, ptr))
  {
    hide BlockSymbols, SortedTo;
    var arr1 := LoadWords(ptr);
    var nMTF := GenerateMtfValues(arr1, block, inUse, ptr);
    ghost var all := BlockSymbols(inUse, LastColumn(block, ptr));
    assert forall i :: 0 <= i < nMTF ==> arr1[..nMTF][i] == all[i];
    syms := arr1[..nMTF];
  }

  method ChooseCoding(inUse: UseMap, syms: seq<nat>, ghost l: seq<byte>) returns (c: Coding)
    requires Marks(inUse, l) && 0 < |l| <= 900000 && syms == BlockSymbols(inUse, l)
    ensures c.used == inUse && ValidCoding(c, |syms|) && SymbolsFit(c, syms)
    ensures FourPasses(syms, AlphaSize(inUse), c.lens, c.selectors) && |c.lens| == GroupCount(|syms|)
  {
    hide BlockSymbols, AllComplete, ValidCoding, Used, FourPasses;
    SymbolsOfColumn(inUse, l);
    AlphaBounds(inUse);
    var alphaSize := AlphaSize(inUse);
    var lens, sel := ChooseTables(syms, alphaSize);
    ChoiceIsValid(inUse, lens, sel, |syms|);
    c := Coding(inUse, lens, sel);
  }

  lemma HeaderFields(w0: Bits, a: Bits, b: Bits, c: Bits, d: Bits, e: Bits)
    ensures w0 + a + b + c + d + e == w0 + (a + (b + (c + (d + e))))
  {
  }

  /** Magic, checksum, randomised bit, origin, body. */
  method SendBlock(w: BitWriter, crc: nat, origPtr: nat, c: Coding, syms: seq<nat>)
    requires w.Valid() && ValidCoding(c, |syms|) && SymbolsFit(c, syms) && crc < Pow2(32) && origPtr < Pow2(24)
    modifies w
    ensures w.Valid() && w.Written() == old(w.Written()) + BlockBits(crc, origPtr, c, syms)
  {
    hide BitWriter.Valid, BitWriter.Written, BytesToBits, ToBits, ValidCoding, BodyBits, Pow2;
    ghost var start := w.Written();
    WriteBytes(w, BLOCK_MAGIC);
    w.WriteWord(crc);
    WriteBit(w, false);
    w.Write(24, origPtr);
    SendMtfValues(w, c, syms);
    HeaderFields(start, BytesToBits(BLOCK_MAGIC), ToBits(crc, 32), [false], ToBits(origPtr, 24), BodyBits(c, syms));
  }

  /** The block's tables and selectors are those the four passes settle on. */
  ghost predicate TablesSettled(p: Packed) {
    && Sorted(p) && Marks(p.coding.used, Column(p))
    && var syms := BlockSymbols(p.coding.used, Column(p));
      && |p.coding.lens| == GroupCount(|syms|)
      && FourPasses(syms, AlphaSize(p.coding.used), p.coding.lens, p.coding.selectors)
  }

  /** All that BZ2_compressBlock does for a non-empty block. */
  method EncodeBlock(w: BitWriter, block: seq<byte>, inUse: UseMap, crc: bv32, level: nat) returns (ghost p: Packed)
    requires w.Valid() && 1 <= level <= 9 && 0 < |block| <= 100000 * level && Complete(block) && Marks(inUse, block)
    requires crc == Checksum(Expand(block))
    modifies w
    ensures w.Valid() && p.block == block && GoodBlock(p, level) && TablesSettled(p)
    ensures w.Written() == old(w.Written()) + PackedBits(p, level)
  {
    hide BitWriter.Valid, BitWriter.Written, ValidCoding, BlockBits, BlockSymbols, SortedTo, Pow2, LastColumn;
    hide FourPasses;
    Pow2Values();
    var ptr, restored := FallbackSort.FallbackSort(block);
    var origPtr := FindOrigin(ptr);
    ColumnMarked(inUse, block, ptr);
    ghost var l := LastColumn(block, ptr);
    var syms := BlockToSymbols(restored, inUse, ptr);
    var c := ChooseCoding(inUse, syms, l);
    p := Packed(block, ptr, origPtr, c);
    SendBlock(w, CrcNat(crc), origPtr, c, syms);
  }
}
