/** What BZ2_bzDecompress makes of any string of bits: the text it hands out, and how it ends. */
module Playback {
  import opened Base
  import opened BitString
  import opened InverseBwt
  import opened BlockVectors
  import opened RunLength
  import opened BzCrc
  import opened BlockOutput
  import opened MtfEncoder
  import opened Rotations
  import opened BlockFormat
  import opened BlockReader
  import opened BlockRoundTrip
  import opened BzStream

  /**
   * More input is wanted, the stream is complete (with the bits behind it), or an error is reported. CutShort is
   * the error that a block which is not randomised ends between four equal characters and their count.
   */
  datatype Ending = Wanting | Finished(rest: Bits) | Broken | CutShort | NoMagic

  datatype Story = Story(text: seq<byte>, ending: Ending)

  /** Text handed out ahead of a story. */
  function Then(x: seq<byte>, s: Story): Story {
    Story(x + s.text, s.ending)
  }

  /** The k-th character read of a block with last column `l`. */
  ghost function CharOf(nums: seq<int>, hd: Header, l: seq<byte>, k: nat): byte
    requires |nums| == 512 && hd.origPtr < |l|
  {
    TVectorInverts(l);
    CharAt(l, TVector(l, |l|), hd.origPtr, nums, hd.randomised, k)
  }

  /** The run-length coded block. */
  ghost function BlockOf(nums: seq<int>, hd: Header, l: seq<byte>): (b: seq<byte>)
    requires |nums| == 512 && hd.origPtr < |l|
    ensures |b| == |l|
  {
    seq(|l|, k requires 0 <= k < |l| => CharOf(nums, hd, l, k))
  }

  /** All the text of a block, good or cut off. */
  ghost function TextIn(nums: seq<int>, hd: Header, l: seq<byte>): seq<byte>
    requires |nums| == 512 && hd.origPtr < |l|
  {
    TextOf(BlockOf(nums, hd, l), CharOf(nums, hd, l, |l|))
  }

  /** A block that is not cut off and has the checksum its header announced. */
  ghost predicate Intact(nums: seq<int>, hd: Header, l: seq<byte>)
    requires |nums| == 512 && hd.origPtr < |l|
  {
    Complete(BlockOf(nums, hd, l)) && CrcNat(Checksum(TextIn(nums, hd, l))) == hd.crc
  }

  /** The error a block that is not intact ends in. */
  ghost function Fault(nums: seq<int>, hd: Header, l: seq<byte>): Ending
    requires |nums| == 512 && hd.origPtr < |l|
  {
    if !hd.randomised && !Complete(BlockOf(nums, hd, l)) then CutShort else Broken
  }

  /**
   * Decoding from state `p`, with the checksums of the blocks so far folded into `combined`.
   * Every block the decoder reaches has its origin inside its column.
   */
  ghost function Play(nums: seq<int>, p: Phase, combined: bv32, b: Bits): Story
    requires |nums| == 512
    decreases |b|, p.Output?
  {
    var (q, r) := BlockReader.Run(p, b);
    match q
    case Output(hd, l) =>
      if hd.origPtr >= |l| then Story([], Broken)
      else if !Intact(nums, hd, l) then Story(TextIn(nums, hd, l), Fault(nums, hd, l))
      else
        var text := TextIn(nums, hd, l);
        Then(text, Play(nums, BlkHdr(hd.level, 0), Combine(combined, Checksum(text)), r))
    case End(crc) => Story([], if crc == CrcNat(combined) then Finished(r) else Broken)
    case DataError => Story([], Broken)
    case MagicError => Story([], NoMagic)
    case _ => Story([], Wanting)
  }

  /** Runs that end alike are played alike. */
  lemma SameRun(nums: seq<int>, p: Phase, q: Phase, combined: bv32, a: Bits, b: Bits)
    requires |nums| == 512 && BlockReader.Run(p, a) == BlockReader.Run(q, b)
    ensures Play(nums, p, combined, a) == Play(nums, q, combined, b)
  {
    hide BlockReader.Run, Intact, Fault, TextIn, Combine, Checksum;
  }

  /** Bits that lead exactly from one state to another can be taken away. */
  lemma PlayReads(nums: seq<int>, p: Phase, combined: bv32, a: Bits, q: Phase, rest: Bits)
    requires |nums| == 512 && Reads(p, a, q)
    ensures Play(nums, p, combined, a + rest) == Play(nums, q, combined, rest)
  {
    hide Play, BlockReader.Run, Reads;
    ReadsRun(p, a, q, rest);
    SameRun(nums, p, q, combined, a + rest, rest);
  }

  /** What was run can be taken away, whatever follows. */
  lemma PlayResumes(nums: seq<int>, p: Phase, combined: bv32, a: Bits, q: Phase, r: Bits, later: Bits)
    requires |nums| == 512 && BlockReader.Run(p, a) == (q, r)
    ensures Play(nums, p, combined, a + later) == Play(nums, q, combined, r + later)
  {
    hide Play, BlockReader.Run;
    RunResumes(p, a, later);
    SameRun(nums, p, q, combined, a + later, r + later);
  }

  /** The story from a complete block on. */
  ghost function PlayBlock(nums: seq<int>, hd: Header, l: seq<byte>, combined: bv32, b: Bits): Story
    requires |nums| == 512 && hd.origPtr < |l|
  {
    var text := TextIn(nums, hd, l);
    if Intact(nums, hd, l) then Then(text, Play(nums, BlkHdr(hd.level, 0), Combine(combined, Checksum(text)), b))
    else Story(text, Fault(nums, hd, l))
  }

  lemma PlayOutput(nums: seq<int>, hd: Header, l: seq<byte>, combined: bv32, b: Bits)
    requires |nums| == 512 && hd.origPtr < |l|
    ensures Play(nums, Output(hd, l), combined, b) == PlayBlock(nums, hd, l, combined, b)
  {
    hide Intact, Fault, TextIn, Combine, Checksum;
    RunUnfolds(Output(hd, l), b);
  }

  /** Where the decoder stops short of a block. */
  lemma PlayStops(nums: seq<int>, q: Phase, combined: bv32, b: Bits)
    requires |nums| == 512 && !q.Output? && (Need(q) == 0 || |b| < Need(q))
    ensures Play(nums, q, combined, b) == Story([],
      if q.End? then if q.crc == CrcNat(combined) then Finished(b) else Broken
      else if q.DataError? then Broken else if q.MagicError? then NoMagic else Wanting)
  {
    hide Need, Intact, TextIn, Combine, Checksum, MinLen, CrcNat;
    RunUnfolds(q, b);
  }

  // ---- a block being delivered ----

  /** A story without the first `n` characters of its text. */
  function Skip(s: Story, n: nat): Story {
    Story(if n <= |s.text| then s.text[n..] else [], s.ending)
  }

  /** Delivering `more` of a block after `done`. */
  lemma HandsOut(nums: seq<int>, hd: Header, l: seq<byte>, combined: bv32, done: seq<byte>, more: seq<byte>, b: Bits)
    requires |nums| == 512 && hd.origPtr < |l| && done + more <= TextIn(nums, hd, l)
    ensures Skip(Play(nums, Output(hd, l), combined, b), |done|)
         == Then(more, Skip(Play(nums, Output(hd, l), combined, b), |done + more|))
  {
    hide Intact, Fault, TextIn, Play, Combine, Checksum;
    PlayOutput(nums, hd, l, combined, b);
    var s, text := Play(nums, Output(hd, l), combined, b), TextIn(nums, hd, l);
    assert text <= s.text;
    assert s.text[..|text|] == text;
    assert s.text[|done|..] == more + s.text[|done + more|..];
  }

  /** Behind the last character of a block: the next block, if this one is intact. */
  lemma BlockOver(nums: seq<int>, hd: Header, l: seq<byte>, combined: bv32, b: Bits)
    requires |nums| == 512 && hd.origPtr < |l|
    ensures Skip(Play(nums, Output(hd, l), combined, b), |TextIn(nums, hd, l)|) ==
      if Intact(nums, hd, l) then Play(nums, BlkHdr(hd.level, 0), Combine(combined, Checksum(TextIn(nums, hd, l))), b)
      else Story([], Fault(nums, hd, l))
  {
    hide Intact, Fault, TextIn, Play, Combine, Checksum;
    PlayOutput(nums, hd, l, combined, b);
    var s, text := Play(nums, Output(hd, l), combined, b), TextIn(nums, hd, l);
    if Intact(nums, hd, l) {
      var t := Play(nums, BlkHdr(hd.level, 0), Combine(combined, Checksum(text)), b);
      assert s.text[|text|..] == t.text;
    }
  }

  // ---- streams of good blocks ----

  /** The header a good block is written with. */
  ghost function HeaderOf(p: Packed, level: nat): Header {
    Header(level, CrcNat(Checksum(Expand(p.block))), false, p.origPtr)
  }

  lemma GoodBlockSpelled(nums: seq<int>, p: Packed, level: nat)
    requires |nums| == 512 && GoodBlock(p, level)
    ensures BlockOf(nums, HeaderOf(p, level), Column(p)) == p.block
  {
    hide OutChar, CrcNat, Checksum, Expand, InverseVector, SortsRotations, Complete, Marks, ValidCoding, BlockSymbols;
    hide LastColumn, RandAfter;
    var l, hd := Column(p), HeaderOf(p, level);
    TVectorInverts(l);
    forall k | 0 <= k < |l|
      ensures BlockOf(nums, hd, l)[k] == p.block[k]
    {
      InversionSpellsBlock(p.block, p.order, TVector(l, |l|), p.origPtr, k);
    }
  }

  lemma GoodBlockIntact(nums: seq<int>, p: Packed, level: nat)
    requires |nums| == 512 && GoodBlock(p, level) && 1 <= level <= 9
    ensures var hd, l := HeaderOf(p, level), Column(p);
      hd.origPtr < |l| && TextIn(nums, hd, l) == Expand(p.block) && Intact(nums, hd, l)
  {
    hide CrcNat, Checksum, Expand, BlockOf, StateAfter, SortsRotations, Marks, ValidCoding, BlockSymbols, LastColumn;
    hide CharOf;
    GoodBlockSpelled(nums, p, level);
  }

  lemma GoodBlockPlays(nums: seq<int>, p: Packed, level: nat, combined: bv32, rest: Bits)
    requires |nums| == 512 && GoodBlock(p, level) && 1 <= level <= 9
    ensures Play(nums, BlkHdr(level, 0), combined, PackedBits(p, level) + rest)
         == Then(Expand(p.block), Play(nums, BlkHdr(level, 0), Combine(combined, Checksum(Expand(p.block))), rest))
  {
    hide Play, Combine, Checksum, Expand, Reads, PackedBits, Intact, TextIn, CrcNat, ValidCoding, BlockSymbols;
    hide LastColumn, Marks;
    hide SortsRotations, Complete;
    var hd, l := HeaderOf(p, level), Column(p);
    PackedReadsBack(p, level);
    GoodBlockIntact(nums, p, level);
    PlayReads(nums, BlkHdr(level, 0), combined, PackedBits(p, level), Output(hd, l), rest);
    PlayOutput(nums, hd, l, combined, rest);
  }

  lemma TrailerPlays(nums: seq<int>, level: nat, combined: bv32, pad: Bits)
    requires |nums| == 512 && 1 <= level <= 9
    ensures Play(nums, BlkHdr(level, 0), combined, TrailerBits(CrcNat(combined)) + pad) == Story([], Finished(pad))
  {
    hide Play, TrailerBits, Reads, CrcNat, Pow2;
    Pow2Values();
    ReadTrailer(level, CrcNat(combined));
    PlayReads(nums, BlkHdr(level, 0), combined, TrailerBits(CrcNat(combined)), End(CrcNat(combined)), pad);
    PlayStops(nums, End(CrcNat(combined)), combined, pad);
  }

  lemma {:induction false} BlocksPlay(nums: seq<int>, blocks: seq<Packed>, level: nat, combined: bv32, pad: Bits)
    requires |nums| == 512 && GoodBlocks(blocks, level) && 1 <= level <= 9
    ensures Play(nums, BlkHdr(level, 0), combined,
                 BlocksBits(blocks, level) + TrailerBits(CrcNat(CombinedFrom(combined, blocks))) + pad)
         == Story(Plain(blocks), Finished(pad))
    decreases |blocks|
  {
    hide Play, GoodBlock, TrailerBits, Combine, Checksum, Expand, PackedBits, CrcNat;
    var trailer := TrailerBits(CrcNat(CombinedFrom(combined, blocks)));
    if blocks == [] {
      assert [] + trailer + pad == trailer + pad;
      TrailerPlays(nums, level, combined, pad);
    } else {
      var p := blocks[0];
      var rest := BlocksBits(blocks[1..], level) + trailer + pad;
      assert PackedBits(p, level) + BlocksBits(blocks[1..], level) + trailer + pad == PackedBits(p, level) + rest;
      GoodBlockPlays(nums, p, level, combined, rest);
      BlocksPlay(nums, blocks[1..], level, Combine(combined, Checksum(Expand(p.block))), pad);
    }
  }

  /** A stream made of good blocks is read to its last bit and gives what its blocks stand for. */
  lemma StreamPlays(nums: seq<int>, blocks: seq<Packed>, level: nat, pad: Bits)
    requires |nums| == 512 && GoodBlocks(blocks, level) && 1 <= level <= 9
    ensures Play(nums, Magic(0), 0, StreamBits(blocks, level) + pad) == Story(Plain(blocks), Finished(pad))
  {
    hide Play, GoodBlock, TrailerBits, HeaderBits, Reads, CombinedFrom, BlocksBits, Plain;
    var body := BlocksBits(blocks, level) + TrailerBits(CrcNat(CombinedFrom(0, blocks)));
    assert HeaderBits(level) + body + pad == HeaderBits(level) + (body + pad);
    ReadHeader(level);
    PlayReads(nums, Magic(0), 0, HeaderBits(level), BlkHdr(level, 0), body + pad);
    BlocksPlay(nums, blocks, level, 0, pad);
  }
}
