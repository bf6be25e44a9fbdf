/** The selector counts of a whole stream: within BZ_MAX_SELECTORS, the decoder stays inside its arrays to the end. */
module StreamBounds {
  import opened Base
  import opened BitString
  import opened BlockFormat
  import opened BlockReader
  import opened BlockRoundTrip
  import opened BzCrc
  import opened BzStream
  import opened InverseBwt
  import opened MtfEncoder
  import opened Playback
  import RunLength
  import opened SelectorBounds

  /** The decoder goes on behind this block. */
  ghost predicate GoesOn(nums: seq<int>, q: Phase)
    requires |nums| == 512
  {
    q.Output? && q.hd.origPtr < |q.column| && Intact(nums, q.hd, q.column)
  }

  ghost function NextCombined(nums: seq<int>, q: Phase, combined: bv32): bv32
    requires |nums| == 512 && GoesOn(nums, q)
  {
    Combine(combined, Checksum(TextIn(nums, q.hd, q.column)))
  }

  /** Every selector count that the decoder meets in the blocks of these bits is at most BZ_MAX_SELECTORS. */
  ghost predicate CountsFit(nums: seq<int>, p: Phase, combined: bv32, b: Bits)
    requires |nums| == 512
    decreases |b|, p.Output?
  {
    var (q, r) := Run(p, b);
    FieldsFit(p, b) && (GoesOn(nums, q) ==> CountsFit(nums, BlkHdr(q.hd.level, 0), NextCombined(nums, q, combined), r))
  }

  /** Where the decoder stands when it has made all it can of these bits. */
  ghost function Standing(nums: seq<int>, p: Phase, combined: bv32, b: Bits): Phase
    requires |nums| == 512
    decreases |b|, p.Output?
  {
    var (q, r) := Run(p, b);
    if GoesOn(nums, q) then Standing(nums, BlkHdr(q.hd.level, 0), NextCombined(nums, q, combined), r) else q
  }

  /** Counts that fit keep fitting when the bits break off. */
  lemma {:induction false} FieldsFitCut(p: Phase, a: Bits, b: Bits)
    requires FieldsFit(p, a + b)
    ensures FieldsFit(p, a)
    decreases |a|
  {
    hide Step, Need, ToNat;
    var n := Need(p);
    if n != 0 && |a| >= n {
      assert (a + b)[..n] == a[..n] && (a + b)[n..] == a[n..] + b;
      FieldsFitCut(Step(p, ToNat(a[..n])), a[n..], b);
    }
  }

  /** A block reached is reached the same way with more bits behind it. */
  lemma BlockReached(p: Phase, a: Bits, b: Bits)
    requires Run(p, a).0.Output?
    ensures Run(p, a + b) == (Run(p, a).0, Run(p, a).1 + b)
  {
    hide Run;
    RunResumes(p, a, b);
    RunUnfolds(Run(p, a).0, Run(p, a).1 + b);
  }

  /**
   * On bits whose selector counts all fit, the decoder stands inside its arrays wherever the input is cut, in the
   * first block or any later one, good or corrupt.
   */
  lemma {:induction false} StaysInside(nums: seq<int>, p: Phase, combined: bv32, a: Bits, b: Bits)
    requires |nums| == 512 && Bounded(p) && CountsFit(nums, p, combined, a + b)
    ensures Bounded(Standing(nums, p, combined, a))
    decreases |a|, p.Output?
  {
    hide Bounded, Run, FieldsFit, GoesOn, NextCombined;
    FieldsFitCut(p, a, b);
    RunKeepsBounds(p, a);
    var (q, r) := Run(p, a);
    if GoesOn(nums, q) {
      OnlyBlocks(nums, q);
      BlockReached(p, a, b);
      RunShrinks(p, a);
      StaysInside(nums, BlkHdr(q.hd.level, 0), NextCombined(nums, q, combined), r, b);
    }
  }

  lemma OnlyBlocks(nums: seq<int>, q: Phase)
    requires |nums| == 512 && GoesOn(nums, q)
    ensures q.Output? && Bounded(BlkHdr(q.hd.level, 0))
  {
  }

  lemma RunShrinks(p: Phase, a: Bits)
    ensures |Run(p, a).1| < |a| || Run(p, a) == (p, a)
  {
  }

  // ---- from call to call ----

  /** Standing inside the arrays, with only counts ahead that fit. */
  ghost predicate Safe(nums: seq<int>, p: Phase, combined: bv32, b: Bits)
    requires |nums| == 512
  {
    Bounded(p) && CountsFit(nums, p, combined, b)
  }

  /** Counts ahead that fit keep fitting when some of the bits are used. */
  lemma {:induction false} FieldsFitOn(p: Phase, a: Bits, later: Bits)
    requires FieldsFit(p, a + later)
    ensures FieldsFit(Run(p, a).0, Run(p, a).1 + later)
    decreases |a|
  {
    hide Step, Need, ToNat;
    var n := Need(p);
    if n != 0 && |a| >= n {
      assert (a + later)[..n] == a[..n] && (a + later)[n..] == a[n..] + later;
      FieldsFitOn(Step(p, ToNat(a[..n])), a[n..], later);
    }
  }

  /** Running on keeps it, whatever comes later. */
  lemma SafeRuns(nums: seq<int>, p: Phase, combined: bv32, a: Bits, q: Phase, r: Bits, later: Bits)
    requires |nums| == 512 && BlockReader.Run(p, a) == (q, r) && Safe(nums, p, combined, a + later)
    ensures Safe(nums, q, combined, r + later)
  {
    hide Bounded, BlockReader.Run, FieldsFit, GoesOn, NextCombined;
    FieldsFitOn(p, a, later);
    FieldsFitCut(p, a, later);
    RunKeepsBounds(p, a);
    RunResumes(p, a, later);
  }

  /** So does going on behind an intact block. */
  lemma SafeBehind(nums: seq<int>, hd: Header, l: seq<byte>, combined: bv32, crc: bv32, b: Bits)
    requires |nums| == 512 && hd.origPtr < |l| && Intact(nums, hd, l) && Safe(nums, Output(hd, l), combined, b)
    requires crc == Checksum(TextIn(nums, hd, l))
    ensures Safe(nums, BlkHdr(hd.level, 0), Combine(combined, crc), b)
  {
    hide FieldsFit, Intact, TextIn, Combine, Checksum;
    RunUnfolds(Output(hd, l), b);
  }

  // ---- what the compressor writes ----

  /** Once the selectors are counted, only the end of the block is ahead. */
  lemma {:induction false} CountedReads(p: Phase, a: Bits, q: Phase)
    requires Counted(p) && Reads(p, a, q)
    ensures Counted(q)
    decreases |a|
  {
    hide Counted, Step, Need, ToNat;
    if a != [] {
      var n := Need(p);
      StepStaysCounted(p, ToNat(a[..n]));
      CountedReads(Step(p, ToNat(a[..n])), a[n..], q);
    }
  }

  /** On the way to where no count has been met, none is. */
  lemma {:induction false} FitsUpTo(p: Phase, a: Bits, q: Phase, rest: Bits)
    requires Reads(p, a, q) && !Counted(q) && FieldsFit(q, rest)
    ensures FieldsFit(p, a + rest)
    decreases |a|
  {
    hide Step, Need, ToNat, Counted;
    if a == [] {
      assert a + rest == rest;
    } else {
      var n := Need(p);
      var next := Step(p, ToNat(a[..n]));
      assert (a + rest)[..n] == a[..n] && (a + rest)[n..] == a[n..] + rest;
      FitsUpTo(next, a[n..], q, rest);
      if p.Selector2? {
        CountStarts(p, ToNat(a[..n]));
        CountedReads(next, a[n..], q);
        assert false;
      }
    }
  }

  lemma CountStarts(p: Phase, v: nat)
    requires p.Selector2?
    ensures Counted(Step(p, v))
  {
    hide Selectors;
  }

  /** A block with a count that fits, whatever follows it. */
  lemma BlockFits(level: nat, crc: nat, o: nat, c: Coding, syms: seq<nat>, rest: Bits)
    requires crc < Pow2(32) && o < Pow2(24) && o <= 10 + 100000 * level
    requires ValidCoding(c, |syms|) && SymbolsFit(c, syms)
    ensures FieldsFit(BlkHdr(level, 0), BlockBits(crc, o, c, syms) + rest)
  {
    hide Reads, FieldsFit, Pow2, ToBits, BytesToBits, MapBits, Used, AllRows, CodesFrom, SelectorMtf, UnaryAll, Counted;
    hide SymbolsFit;
    Pow2Values();
    ReadySelectors(c, |syms|);
    var hd, n, m := Header(level, crc, false, o), |c.lens|, |c.selectors|;
    var q := Selector2(hd, c.used, n);
    var head := MapBits(c.used) + ToBits(n, 3);
    var tail := UnaryAll(SelectorMtf(Range(n), c.selectors)) + (AllRows(c.lens) + CodesFrom(c, syms, 0));
    ReadTablesCount(hd, c.used, n);
    ReadBlockHeader(level, crc, o, head, q);
    var before := BytesToBits(BLOCK_MAGIC) + (ToBits(crc, 32) + ([false] + (ToBits(o, 24) + head)));
    CountFits(hd, c.used, n, m, tail + rest);
    FitsUpTo(BlkHdr(level, 0), before, q, ToBits(m, 15) + (tail + rest));
    assert BlockBits(crc, o, c, syms) + rest == before + (ToBits(m, 15) + (tail + rest));
  }

  lemma ReadTablesCount(hd: Header, used: UseMap, n: nat)
    requires Used(used, 256) != [] && 2 <= n <= 6
    ensures Reads(Mapping1(hd, []), MapBits(used) + ToBits(n, 3), Selector2(hd, used, n))
    ensures !Counted(Selector2(hd, used, n))
  {
    hide Reads, MapBits, Used, ToBits;
    assert Pow2(3) == 8;
    ReadMapping(hd, used);
    ReadField(Selector1(hd, used), n, 3);
    ReadsConcat(Mapping1(hd, []), MapBits(used), Selector1(hd, used), ToBits(n, 3), Selector2(hd, used, n));
  }

  lemma CountFits(hd: Header, used: UseMap, n: nat, m: nat, rest: Bits)
    requires 1 <= m <= MAX_SELECTORS
    ensures FieldsFit(Selector2(hd, used, n), ToBits(m, 15) + rest)
  {
    hide ToBits, ToNat, Step;
    var q, b := Selector2(hd, used, n), ToBits(m, 15) + rest;
    assert Pow2(15) == 32768;
    BitsRoundTrip(m, 15);
    assert b[..15] == ToBits(m, 15) && b[15..] == rest;
    CountStarts(q, m);
    CountedRun(Step(q, m), rest);
  }

  lemma GoodBlockFits(nums: seq<int>, p: Packed, level: nat, combined: bv32, rest: Bits)
    requires |nums| == 512 && GoodBlock(p, level) && 1 <= level <= 9
    requires CountsFit(nums, BlkHdr(level, 0), Combine(combined, Checksum(RunLength.Expand(p.block))), rest)
    ensures CountsFit(nums, BlkHdr(level, 0), combined, PackedBits(p, level) + rest)
  {
    hide BlockReader.Run, Reads, BlockBits, Intact, TextIn, CrcNat, Checksum, RunLength.Expand, Combine, FieldsFit;
    hide Pow2;
    hide ValidCoding, BlockSymbols, LastColumn;
    Pow2Values();
    var hd, l := HeaderOf(p, level), Column(p);
    SymbolsOfColumn(p.coding.used, l);
    BlockFits(level, hd.crc, p.origPtr, p.coding, BlockSymbols(p.coding.used, l), rest);
    PackedReadsBack(p, level);
    GoodBlockIntact(nums, p, level);
    ReadsRun(BlkHdr(level, 0), PackedBits(p, level), Output(hd, l), rest);
    RunUnfolds(Output(hd, l), rest);
  }

  lemma TrailerFits(nums: seq<int>, level: nat, combined: bv32, crc: nat, pad: Bits)
    requires |nums| == 512 && crc < Pow2(32)
    ensures CountsFit(nums, BlkHdr(level, 0), combined, TrailerBits(crc) + pad)
  {
    hide Reads, TrailerBits, Pow2, FieldsFit, BlockReader.Run, Step, Need, Intact, NextCombined;
    var b := TrailerBits(crc) + pad;
    ReadTrailer(level, crc);
    EndFits(crc, pad);
    FitsUpTo(BlkHdr(level, 0), TrailerBits(crc), End(crc), pad);
    ReadsRun(BlkHdr(level, 0), TrailerBits(crc), End(crc), pad);
    assert BlockReader.Run(BlkHdr(level, 0), b) == (End(crc), pad);
  }

  lemma EndFits(crc: nat, pad: Bits)
    ensures FieldsFit(End(crc), pad) && !Counted(End(crc)) && BlockReader.Run(End(crc), pad) == (End(crc), pad)
  {
  }

  lemma {:induction false} BlocksFit(nums: seq<int>, blocks: seq<Packed>, level: nat, combined: bv32, crc: nat,
          pad: Bits)
    requires |nums| == 512 && GoodBlocks(blocks, level) && 1 <= level <= 9 && crc < Pow2(32)
    ensures CountsFit(nums, BlkHdr(level, 0), combined, BlocksBits(blocks, level) + (TrailerBits(crc) + pad))
    decreases |blocks|
  {
    hide CountsFit, GoodBlock, TrailerBits, Combine, Checksum, RunLength.Expand, PackedBits, Pow2;
    var end := TrailerBits(crc) + pad;
    if blocks == [] {
      assert [] + end == end;
      TrailerFits(nums, level, combined, crc, pad);
    } else {
      var next := Combine(combined, Checksum(RunLength.Expand(blocks[0].block)));
      BlocksFit(nums, blocks[1..], level, next, crc, pad);
      GoodBlockFits(nums, blocks[0], level, combined, BlocksBits(blocks[1..], level) + end);
      Associate(PackedBits(blocks[0], level), BlocksBits(blocks[1..], level), end);
    }
  }

  /** What the compressor writes never overruns the decoder's arrays, whatever follows it. */
  lemma StreamFits(nums: seq<int>, blocks: seq<Packed>, level: nat, pad: Bits)
    requires |nums| == 512 && GoodBlocks(blocks, level) && 1 <= level <= 9
    ensures CountsFit(nums, Magic(0), 0, StreamBits(blocks, level) + pad)
  {
    hide Reads, GoodBlock, TrailerBits, HeaderBits, CombinedFrom, BlocksBits, BlockReader.Run, FieldsFit, GoesOn;
    hide NextCombined, CrcNat, Pow2;
    Pow2Values();
    var crc := CrcNat(CombinedFrom(0, blocks));
    var body := BlocksBits(blocks, level) + (TrailerBits(crc) + pad);
    BlocksFit(nums, blocks, level, 0, crc, pad);
    ReadHeader(level);
    assert !Counted(BlkHdr(level, 0));
    FitsUpTo(Magic(0), HeaderBits(level), BlkHdr(level, 0), body);
    ReadsRun(Magic(0), HeaderBits(level), BlkHdr(level, 0), body);
    assert StreamBits(blocks, level) + pad == HeaderBits(level) + body;
  }
}
