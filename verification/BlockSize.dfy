/** How long a compressed block can be: it always fits behind the block in arr2. */
module BlockSize {
  import opened Base
  import opened BitString
  import opened MtfEncoder
  import opened CanonicalCode
  import opened BlockFormat
  import opened BlockRoundTrip
  import opened BzStream

  const N_OVERSHOOT := 34

  /** Bytes of arr2 behind a block of nblock bytes. */
  function ZbitsRoom(level: nat, nblock: nat): int {
    4 * (100000 * level + N_OVERSHOOT) - nblock
  }

  /** An upper bound on the bits of a block of n bytes. */
  function BlockBound(n: nat): nat {
    20 * n + 260000
  }

  lemma {:induction false} MapsSize(used: UseMap, g: nat)
    requires g <= 16
    ensures |GroupMaps(used, g)| <= 16 * (16 - g)
    decreases 16 - g
  {
    hide GroupUsed;
    if g < 16 {
      MapsSize(used, g + 1);
    }
  }

  lemma {:induction false} UnarySize(n: nat)
    ensures |Unary(n)| == n + 1
  {
    if n > 0 {
      UnarySize(n - 1);
    }
  }

  lemma {:induction false} UnaryAllSize(m: seq<nat>)
    requires forall i :: 0 <= i < |m| ==> m[i] < 6
    ensures |UnaryAll(m)| <= 6 * |m|
  {
    hide Unary;
    if m != [] {
      UnarySize(m[0]);
      UnaryAllSize(m[1..]);
    }
  }

  lemma {:induction false} DeltaSize(curr: nat, x: nat)
    ensures |Delta(curr, x)| == 1 + 2 * (if curr < x then x - curr else curr - x)
    decreases if curr < x then x - curr else curr - x
  {
    if curr < x {
      DeltaSize(curr + 1, x);
    } else if curr > x {
      DeltaSize(curr - 1, x);
    }
  }

  lemma {:induction false} DeltasSize(curr: nat, row: seq<byte>)
    requires 1 <= curr <= 20 && InRange(row)
    ensures |Deltas(curr, row)| <= 39 * |row|
    decreases |row|
  {
    hide Delta;
    if row != [] {
      DeltaSize(curr, row[0]);
      DeltasSize(row[0], row[1..]);
    }
  }

  lemma {:induction false} RowsSize(lens: seq<seq<byte>>)
    requires forall t :: 0 <= t < |lens| ==> 0 < |lens[t]| <= MAX_ALPHA && InRange(lens[t])
    ensures |AllRows(lens)| <= |lens| * (5 + 39 * MAX_ALPHA)
  {
    hide Deltas, ToBits, InRange;
    if lens != [] {
      FirstInRange(lens[0]);
      DeltasSize(lens[0][0], lens[0]);
      RowsSize(lens[1..]);
    }
  }

  lemma FirstInRange(row: seq<byte>)
    requires row != [] && InRange(row)
    ensures 1 <= row[0] <= 20
  {
  }

  lemma {:induction false} CodesSize(c: Coding, syms: seq<nat>, k: nat)
    requires ValidCoding(c, |syms|) && SymbolsFit(c, syms) && k <= |syms|
    ensures |CodesFrom(c, syms, k)| <= MAX_LEN * (|syms| - k)
    decreases |syms| - k
  {
    hide ToBits, CodeOf, AlphaSize, Kraft, Used;
    if k < |syms| {
      CodesSize(c, syms, k + 1);
    }
  }

  lemma BodySize(c: Coding, syms: seq<nat>)
    requires ValidCoding(c, |syms|) && SymbolsFit(c, syms)
    ensures |BodyBits(c, syms)| <= 20 * |syms| + 259000
  {
    hide ToBits, CodesFrom, AlphaSize, Kraft, Used, AllRows, UnaryAll, SelectorMtf, GroupMaps, InRange, FitsKraft;
    ReadySelectors(c, |syms|);
    RowsInRange(c, |syms|);
    AlphaBounds(c.used);
    MapsSize(c.used, 0);
    UnaryAllSize(SelectorMtf(Range(|c.lens|), c.selectors));
    RowsSize(c.lens);
    SixRows(|c.lens|);
    CodesSize(c, syms, 0);
  }

  lemma SixRows(n: nat)
    requires n <= MAX_GROUPS
    ensures n * (5 + 39 * MAX_ALPHA) <= 60402
  {
  }

  lemma PackedSize(p: Packed, level: nat)
    requires GoodBlock(p, level)
    ensures |PackedBits(p, level)| <= BlockBound(|p.block|)
  {
    hide ToBits, BodyBits, BlockSymbols, ValidCoding, Column, Marks, BytesToBits;
    SymbolsOfColumn(p.coding.used, Column(p));
    BodySize(p.coding, BlockSymbols(p.coding.used, Column(p)));
    assert |BytesToBits(BLOCK_MAGIC)| == 48;
  }

  /**
   * A block, with the stream header before it, the trailer behind it and what was left in the register, fits
   * its room.
   */
  lemma FitsRoom(level: nat, nblock: nat, bits: nat)
    requires 1 <= level && nblock <= 100000 * level && bits <= BlockBound(nblock) + 32 + 32 + 80 + 7
    ensures bits <= 8 * ZbitsRoom(level, nblock)
  {
  }
}
