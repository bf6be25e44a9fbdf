/** Blocks cut off between four equal characters and their count: every one is met by the decoder of some bytes. */
module CutBlocks {
  import opened Base
  import opened BitString
  import opened BlockFormat
  import opened BlockOutput
  import opened BlockReader
  import opened BlockRoundTrip
  import opened BlockVectors
  import opened CanonicalCode
  import opened InverseBwt
  import opened MtfEncoder
  import opened Playback
  import opened RunLength

  // ---- a coding that serves any column ----

  /** n codes of nine bits. */
  function FlatRow(n: nat): (row: seq<byte>)
    ensures |row| == n && forall i :: 0 <= i < n ==> row[i] == 9
  {
    seq(n, _ => 9)
  }

  lemma {:induction false} FlatKraft(n: nat)
    ensures Kraft(FlatRow(n), MAX_LEN) == n * Pow2(MAX_LEN - 9)
  {
    if n > 0 {
      FlatKraft(n - 1);
      assert FlatRow(n)[..n - 1] == FlatRow(n - 1);
    }
  }

  lemma FlatFits(n: nat)
    requires n <= 512
    ensures FitsKraft(FlatRow(n), MAX_LEN)
  {
    hide Kraft;
    FlatKraft(n);
    Pow2Values();
    Pow2Add(9, MAX_LEN - 9);
    assert Pow2(9) == 512;
    AtMost(n, 512, Pow2(MAX_LEN - 9));
  }

  lemma AtMost(m: nat, n: nat, x: nat)
    requires m <= n
    ensures m * x <= n * x
  {
  }

  /** Every byte in use, two flat tables, the first of them for all groups. */
  function FlatCoding(): Coding {
    var used := seq(256, _ => true);
    Coding(used, [FlatRow(AlphaSize(used)), FlatRow(AlphaSize(used))], Repeat<nat>(0, MAX_SELECTORS))
  }

  lemma FlatIsValid(l: seq<byte>)
    requires 0 < |l| <= 900000
    ensures Marks(FlatCoding().used, l) && ValidCoding(FlatCoding(), |BlockSymbols(FlatCoding().used, l)|)
  {
    hide BlockSymbols, Used, FitsKraft;
    var used := FlatCoding().used;
    SymbolsOfColumn(used, l);
    AlphaBounds(used);
    FlatFits(AlphaSize(used));
  }

  // ---- bytes for any bits ----

  /** Whole bytes that begin with the bits `b`. */
  lemma {:induction false} WholeBytes(b: Bits) returns (z: seq<byte>, pad: Bits)
    ensures BytesToBits(z) == b + pad
    decreases |b|
  {
    if b == [] {
      z, pad := [], [];
    } else if |b| <= 8 {
      pad := seq(8 - |b|, _ => false);
      z := [ByteOf(b + pad)];
      OneByte(b + pad);
    } else {
      var rest;
      rest, pad := WholeBytes(b[8..]);
      OneByte(b[..8]);
      z := [ByteOf(b[..8])] + rest;
      BytesConcat([ByteOf(b[..8])], rest);
      assert b[..8] + (b[8..] + pad) == b + pad;
    }
  }

  function ByteOf(b: Bits): byte
    requires |b| == 8
  {
    Pow2Values();
    ToNat(b)
  }

  lemma OneByte(b: Bits)
    requires |b| == 8
    ensures BytesToBits([ByteOf(b)]) == b
  {
    hide ToNat, ToBits;
    NatRoundTrip(b);
    assert [ByteOf(b)][..0] == [];
    assert BytesToBits([]) + ToBits(ByteOf(b), 8) == ToBits(ByteOf(b), 8);
  }

  /** Every column, with any origin and checksum, is what some bits lead the decoder to. */
  lemma ColumnBits(level: nat, crc: nat, o: nat, l: seq<byte>) returns (b: Bits)
    requires 1 <= level <= 9 && crc < Pow2(32) && o < |l| <= 100000 * level
    ensures Reads(Magic(0), b, Output(Header(level, crc, false, o), l))
  {
    hide Reads, ValidCoding, BlockSymbols, HeaderBits, BlockBits, Marks, SymbolsFit, FlatCoding;
    FlatIsValid(l);
    BlockReadsBack(level, crc, o, FlatCoding(), l);
    ReadHeader(level);
    var block := BlockBits(crc, o, FlatCoding(), BlockSymbols(FlatCoding().used, l));
    b := HeaderBits(level) + block;
    ReadsConcat(Magic(0), HeaderBits(level), BlkHdr(level, 0), block, Output(Header(level, crc, false, o), l));
  }

  /** Bits that lead to a cut-off block play as its text. */
  lemma CutPlays(nums: seq<int>, b: Bits, hd: Header, l: seq<byte>, later: Bits)
    requires |nums| == 512 && hd.origPtr < |l| && !hd.randomised && !Complete(BlockOf(nums, hd, l))
    requires Reads(Magic(0), b, Output(hd, l))
    ensures Play(nums, Magic(0), 0, b + later) == Story(TextIn(nums, hd, l), CutShort)
  {
    hide Reads, Play, TextIn, Complete, BlockOf;
    PlayReads(nums, Magic(0), 0, b, Output(hd, l), later);
    PlayOutput(nums, hd, l, 0, later);
  }

  /** Every cut-off block is met in some bytes, whatever follows them, and ends their text. */
  lemma CutStream(nums: seq<int>, level: nat, o: nat, l: seq<byte>) returns (z: seq<byte>)
    requires |nums| == 512 && 1 <= level <= 9 && o < |l| <= 100000 * level
    requires !Complete(BlockOf(nums, Header(level, 0, false, o), l))
    ensures forall extra :: Play(nums, Magic(0), 0, BytesToBits(z + extra))
                         == Story(TextIn(nums, Header(level, 0, false, o), l), CutShort)
  {
    hide Reads, Play, TextIn, Complete, BlockOf, BytesToBits;
    var hd := Header(level, 0, false, o);
    var b := ColumnBits(level, 0, o, l);
    var pad;
    z, pad := WholeBytes(b);
    forall extra
      ensures Play(nums, Magic(0), 0, BytesToBits(z + extra)) == Story(TextIn(nums, hd, l), CutShort)
    {
      BytesConcat(z, extra);
      Associate(b, pad, BytesToBits(extra));
      CutPlays(nums, b, hd, l, pad + BytesToBits(extra));
    }
  }

  // ---- the smallest of them ----

  /** Every fetch from four equal characters gives that character. */
  lemma AlikeFetched(nums: seq<int>, hd: Header, c: byte, k: nat)
    requires |nums| == 512 && !hd.randomised && hd.origPtr == 0
    ensures CharOf(nums, hd, [c, c, c, c], k) == c
  {
    hide TVector, InverseVector;
    var l := [c, c, c, c];
    TVectorInverts(l);
    assert l[Walk(TVector(l, |l|), 0, k + 1)] == c;
  }

  /** Four equal characters: the reader that goes on past them takes the same character for the count. */
  lemma FourAlike(nums: seq<int>, hd: Header, c: byte)
    requires |nums| == 512 && !hd.randomised && hd.origPtr == 0
    ensures var l := [c, c, c, c];
      BlockOf(nums, hd, l) == l && !Complete(l) && TextIn(nums, hd, l) == Repeat<byte>(c, c + 4)
  {
    hide CharOf;
    var l := [c, c, c, c];
    forall k: nat
      ensures CharOf(nums, hd, l, k) == c
    {
      AlikeFetched(nums, hd, c, k);
    }
    assert BlockOf(nums, hd, l) == l;
    assert l[..0] == [] && Expand(l[..0]) == [];
    CutRun(l, 0, c);
  }

  /** Bytes on which SMALL hands out c + 4 characters, and FAST fewer. */
  lemma FourAlikeStream(nums: seq<int>, c: byte) returns (z: seq<byte>)
    requires |nums| == 512
    ensures Play(nums, Magic(0), 0, BytesToBits(z)) == Story(Repeat<byte>(c, c + 4), CutShort)
  {
    hide Play, TextIn, Complete, BlockOf, BytesToBits;
    FourAlike(nums, Header(1, 0, false, 0), c);
    z := CutStream(nums, 1, 0, [c, c, c, c]);
    assert z + [] == z;
  }
}
