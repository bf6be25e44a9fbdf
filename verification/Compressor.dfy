/** BZ2_bzCompress: the streaming compressor, over any sequence of calls and buffer sizes. */
module Compressor {
  import opened Base
  import opened BitString
  import opened BitIO
  import opened RunLength
  import opened BzCrc
  import opened BlockFormat
  import opened BzStream
  import opened BlockEncoder
  import opened BlockSize
  import opened FrontEnd
  import opened Runs

  datatype Mode = Idle | Running | Flushing | Finishing
  datatype Action = Run | Flush | Finish
  datatype Return = RunOk | FlushOk | FinishOk | StreamEnd | SequenceError | ParamError

  function BlockMax(level: nat): int {
    100000 * level - 19
  }

  /** The stream up to the blocks finished so far, and the trailer once it is written. */
  ghost function StreamSofar(header: bool, done: seq<Packed>, level: nat, last: bool): Bits
    requires GoodBlocks(done, level)
  {
    var body := (if header then HeaderBits(level) else []) + BlocksBits(done, level);
    if last then
      var all := body + TrailerBits(CrcNat(CombinedFrom(0, done)));
      all + Padding(|all|)
    else body
  }

  lemma SofarPush(header: bool, done: seq<Packed>, level: nat, p: Packed)
    requires GoodBlocks(done, level) && GoodBlock(p, level)
    ensures GoodBlocks(done + [p], level)
    ensures StreamSofar(header, done + [p], level, false)
        == StreamSofar(header, done, level, false) + PackedBits(p, level)
  {
    hide GoodBlock, PackedBits, BlocksBits, HeaderBits;
    BlocksPush(done, p, level);
  }

  lemma SofarHeader(level: nat)
    ensures StreamSofar(true, [], level, false) == HeaderBits(level) && StreamSofar(false, [], level, false) == []
  {
  }

  lemma SofarComplete(done: seq<Packed>, level: nat)
    requires GoodBlocks(done, level)
    ensures StreamSofar(true, done, level, true) == StreamBits(done, level) + Padding(|StreamBits(done, level)|)
  {
    hide GoodBlocks, BlocksBits, HeaderBits, TrailerBits;
    Associate(HeaderBits(level), BlocksBits(done, level), TrailerBits(CrcNat(CombinedFrom(0, done))));
  }

  /** Handing out the next bytes of zbits. */
  lemma HandOut(emitted: seq<byte>, z: seq<byte>, a: nat, b: nat)
    requires a <= b <= |z|
    ensures emitted + z[a..b] + z[b..] == emitted + z[a..]
  {
  }

  method PutHeader(w: BitWriter, level: nat)
    requires w.Valid() && 1 <= level <= 9
    modifies w
    ensures w.Valid() && w.Written() == old(w.Written()) + HeaderBits(level)
  {
    hide BitWriter.Valid, BitWriter.Written, BytesToBits, ToBits;
    ghost var start := w.Written();
    WriteBytes(w, MAGIC);
    w.WriteByte(0x30 + level);
    Associate(start, BytesToBits(MAGIC), ToBits(0x30 + level, 8));
  }

  method PutTrailer(w: BitWriter, combinedCRC: bv32)
    requires w.Valid()
    modifies w
    ensures w.Valid() && w.live == [] && w.bsLive == 0 && w.zbits != []
    ensures var all := old(w.Written()) + TrailerBits(CrcNat(combinedCRC)); BytesToBits(w.zbits) == all + Padding(|all|)
  {
    hide BitWriter.Written, BytesToBits, ToBits, Pow2, Holds;
    Pow2Values();
    ghost var start := w.Written();
    WriteBytes(w, END_MAGIC);
    w.WriteWord(CrcNat(combinedCRC));
    Associate(start, BytesToBits(END_MAGIC), ToBits(CrcNat(combinedCRC), 32));
    w.Finish();
    NoBits(0);
    assert |TrailerBits(CrcNat(combinedCRC))| > 0;
  }

  /** Every block is the code of its runs, under the tables the source chooses. */
  ghost predicate Tracked(done: seq<Packed>, pieces: seq<Piece>) {
    |pieces| == |done| && forall i :: 0 <= i < |done| ==>
      done[i].block == CodedRuns(pieces[i].runs) && TablesSettled(done[i])
  }

  lemma TrackedPush(done: seq<Packed>, pieces: seq<Piece>, p: Packed, piece: Piece)
    requires Tracked(done, pieces) && TablesSettled(p) && p.block == CodedRuns(piece.runs)
    ensures Tracked(done + [p], pieces + [piece])
  {
    hide TablesSettled, CodedRuns;
  }

  /** Of the blocks added, only the last may have been closed by force, and only if all promised input is in. */
  ghost predicate Added(before: seq<Piece>, pieces: seq<Piece>, over: bool) {
    && before <= pieces
    && forall i :: |before| <= i < |pieces| && pieces[i].forced ==> i == |pieces| - 1 && over
  }

  lemma NothingAdded(pieces: seq<Piece>, over: bool)
    ensures Added(pieces, pieces, over)
  {
  }

  lemma OverTaken(before: seq<Piece>, pieces: seq<Piece>, over: bool, all: bool)
    requires Added(before, pieces, over) && (over ==> all)
    ensures Added(before, pieces, all)
  {
  }

  lemma AddedMore(before: seq<Piece>, mid: seq<Piece>, pieces: seq<Piece>, over0: bool, over: bool)
    requires Added(before, mid, over0) && Added(mid, pieces, over) && (mid != before && over0 ==> mid == pieces && over)
    ensures Added(before, pieces, over)
  {
  }

  lemma {:induction false} PlainIsText(done: seq<Packed>, pieces: seq<Piece>, max: int)
    requires Tracked(done, pieces) && forall i :: 0 <= i < |pieces| ==> WellFilled(pieces[i], max)
    ensures Text(AllRuns(pieces)) == Plain(done)
  {
    hide TablesSettled, WellFilled, Text, CodedRuns, Expand;
    if done == [] {
      NoText();
    } else {
      var k := |done| - 1;
      PlainIsText(done[..k], pieces[..k], max);
      PieceRuns(pieces[k], max);
      CodedExpands(pieces[k].runs);
      TextConcat(AllRuns(pieces[..k]), pieces[k].runs);
      PlainPush(done[..k], done[k]);
      assert done[..k] + [done[k]] == done;
    }
  }

  /** Where the loop of handle_compress stands. */
  datatype Place = Place(mode: Mode, outputting: bool, last: bool, pos: int, z: seq<byte>, rank: nat)

  /** In a finish, the last block is not yet handed out. */
  ghost predicate Waits(a: Place) {
    a.mode == Finishing && a.outputting && a.last ==> a.pos < |a.z|
  }

  /** Nothing happened but that `n` bytes of the block were handed out. */
  ghost predicate HandedOut(a: Place, b: Place, n: nat) {
    b.z == a.z && b.pos == a.pos + n && b.last == a.last
  }

  /** Without input the loop comes nearer its end: by `n` bytes handed out, or from one part to the next. */
  ghost predicate Nearer(a: Place, b: Place, n: nat) {
    b.rank < a.rank || (b.rank == a.rank && b.z == a.z && b.pos == a.pos + n)
  }

  /** One round: `used` bytes taken in, `n` handed out. */
  ghost predicate RoundMoves(a: Place, b: Place, used: nat, n: nat, stop: bool) {
    && a.mode == b.mode
    && (stop && a.outputting && b.outputting && used == 0 ==> HandedOut(a, b, n))
    && (used == 0 && (!stop || !a.outputting || !b.outputting) ==>
        !a.last && (b.mode == Finishing && b.outputting ==> b.last))
    && (used == 0 && b.mode == Running && b.outputting ==> stop && a.outputting)
    && (Waits(b) || (a.outputting && b.outputting && stop && used == 0))
    && (!stop ==> b.outputting && (used > 0 || b.rank < a.rank))
    && (used == 0 && (b.outputting || !stop) ==> Nearer(a, b, n))
  }

  /** Any number of rounds. */
  ghost predicate Moves(a: Place, b: Place, used: nat, n: nat, stop: bool) {
    && a.mode == b.mode
    && (b.mode != Flushing && used == 0 && b.outputting ==> (b.last && !a.last) || HandedOut(a, b, n))
    && (!stop && used == 0 && !b.outputting ==> !a.last)
    && (used == 0 && (b.outputting || !stop) ==> Nearer(a, b, n))
    && (Waits(a) ==> n > 0 || Waits(b))
  }

  lemma MovesOn(a: Place, b: Place, c: Place, used: nat, n: nat, more: nat, m: nat, stop: bool)
    requires b.mode != Idle && Moves(a, b, used, n, false) && RoundMoves(b, c, more, m, stop)
    ensures Moves(a, c, used + more, n + m, stop) && (!stop ==> c.outputting && (more > 0 || c.rank < b.rank))
  {
  }

  class EState {
    const level: nat                 // blockSize100k
    const rc: RunCoder
    const w: BitWriter
    var mode: Mode
    var outputting: bool             // state == BZ_S_OUTPUT
    var blockNo: nat
    var combinedCRC: bv32
    var outPos: nat                  // state_out_pos
    var promised: nat                  // avail_in_expect
    ghost var consumed: seq<byte>    // every byte taken from the caller
    ghost var emitted: seq<byte>     // every byte handed to the caller
    ghost var done: seq<Packed>      // the blocks compressed so far
    ghost var pieces: seq<Piece>     // the runs in each of them
    ghost var last: bool             // the trailer was written

    ghost predicate Parts()
      reads this, rc, w
    {
      && 1 <= level <= 9 && blockNo >= 1
      && rc.Valid() && w.Valid() && outPos <= |w.zbits|
      && GoodBlocks(done, level) && combinedCRC == CombinedFrom(0, done) && Tracked(done, pieces)
    }

    /** The runs that are not yet in a block. */
    ghost function OpenRuns(): seq<Stretch>
      reads rc
    {
      rc.runs + PendingNow()
    }

    ghost function PendingNow(): seq<Stretch>
      reads rc
    {
      PendingRun(rc.inCh, rc.inLen)
    }

    /** The piece that the block under construction would be. */
    ghost function NextPiece(): Piece
      reads rc
    {
      Piece(rc.runs, rc.inCh == NO_CHAR)
    }

    /** What BZ2_compressBlock finds: all of the stream so far written and handed out, but for the live bits. */
    ghost predicate Collected()
      reads this, rc, w
    {
      && Parts() && !outputting && !last && w.zbits == [] && outPos == 0 && (blockNo == 1 ==> done == [])
      && consumed == Plain(done) + rc.Taken() && WellCut(pieces, OpenRuns(), BlockMax(level))
      && BytesToBits(emitted) + w.live == StreamSofar(blockNo > 1, done, level, false)
    }

    /** Taking in a block. */
    ghost predicate InputSide()
      reads this, rc, w
    {
      && Collected() && |rc.block| <= BlockMax(level) + 4 && (rc.inCh == NO_CHAR ==> rc.block == [])
      && JustFull()
    }

    /** Handing out a compressed block. Without the trailer, a run is pending or a flush is under way. */
    ghost predicate OutputSide()
      reads this, rc, w
    {
      && Parts() && outputting
      && consumed == Plain(done) + RunBytes(rc.inCh, rc.inLen) && WellCut(pieces, PendingNow(), BlockMax(level))
      && BytesToBits(emitted + w.zbits[outPos..]) + w.live == StreamSofar(true, done, level, last)
      && (last ==> (mode == Finishing || mode == Idle) && promised == 0 && rc.inCh == NO_CHAR && w.live == [])
      && (!last ==> rc.inCh < 256 || (mode == Flushing && promised == 0))
    }

    ghost predicate Valid()
      reads this, rc, w
    {
      && (outputting ==> OutputSide()) && (!outputting ==> InputSide() && !last && |rc.block| < BlockMax(level))
      && (mode == Idle ==> outputting && last && outPos == |w.zbits|)
    }

    constructor (blockSize100k: nat)
      requires 1 <= blockSize100k <= 9
      ensures Ready() && fresh(rc) && fresh(w) && level == blockSize100k && mode == Running && consumed == []
      ensures emitted == [] && done == [] && pieces == [] && !outputting
    {
      hide RunCoder.Valid, StreamSofar, GoodBlocks, CombinedFrom, Tracked, WellCut, Plain, BytesToBits, Expand;
      level := blockSize100k;
      rc := new RunCoder();
      w := new BitWriter();
      mode, outputting, blockNo, combinedCRC, outPos, promised := Running, false, 1, 0, 0, 0;
      consumed, emitted, done, pieces, last := [], [], [], [], false;
      new;
      AtStart(level);
    }

    static lemma AtStart(level: nat)
      ensures GoodBlocks([], level) && CombinedFrom(0, []) == 0 && Plain([]) == [] && Tracked([], [])
      ensures WellCut([], [] + PendingRun(NO_CHAR, 0), BlockMax(level))
      ensures BytesToBits([]) == [] && StreamSofar(false, [], level, false) == []
    {
    }

    // ---- BZ2_compressBlock ----

    /** The block, its checksum and the stream checksum, for a non-empty block. */
    method SendCurrent(ghost sofar: Bits)
      requires Parts() && 0 < |rc.block| <= 100000 * level && outPos == 0
      requires sofar + w.Written() == StreamSofar(true, done, level, false)
      requires WellCut(pieces, OpenRuns(), BlockMax(level)) && WellFilled(NextPiece(), BlockMax(level))
      modifies this`combinedCRC, this`done, this`pieces, w
      ensures Parts() && sofar + w.Written() == StreamSofar(true, done, level, false)
      ensures old(done) <= done && pieces == old(pieces) + [NextPiece()]
      ensures WellCut(pieces, PendingNow(), BlockMax(level))
      ensures Plain(done) == old(Plain(done)) + Expand(rc.block)
      ensures |w.Written()| <= |old(w.Written())| + BlockBound(|rc.block|)
    {
      hide BitWriter.Valid, BitWriter.Written, GoodBlock, PackedBits, StreamSofar, Combine, Checksum, BzCrc.Running;
      hide Complete, Expand, WellCut, WellFilled, TablesSettled, CodedRuns, Tracked, RunCoder.Valid, GoodBlocks;
      hide CombinedFrom;
      hide Plain, PendingNow;
      BlockReady();
      var crc := !rc.blockCRC;
      ghost var before := w.Written();
      ghost var p := EncodeBlock(w, rc.block, rc.inUse, crc, level);
      SofarPush(true, done, level, p);
      PackedSize(p, level);
      CombinedPush(0, done, p);
      PlainPush(done, p);
      TrackedPush(done, pieces, p, NextPiece());
      PiecePush(pieces, NextPiece(), PendingNow(), BlockMax(level));
      Associate(sofar, before, PackedBits(p, level));
      combinedCRC := Combine(combinedCRC, crc);
      done := done + [p];
      pieces := pieces + [NextPiece()];
    }

    lemma BlockReady()
      requires rc.Valid()
      ensures Complete(rc.block) && MtfEncoder.Marks(rc.inUse, rc.block) && !rc.blockCRC == Checksum(Expand(rc.block))
      ensures rc.block == CodedRuns(rc.runs) && (PendingNow() == [] <==> rc.inCh == NO_CHAR)
    {
    }

    /** Everything in the stream so far is in `sofar` or in the writer. */
    ghost predicate Buffered(sofar: Bits)
      reads this, rc, w
    {
      Parts() && outPos == 0 && sofar + w.Written() == StreamSofar(true, done, level, false)
    }

    /** The first block brings the stream header. */
    method StartStream()
      requires Collected()
      modifies w
      ensures Buffered(BytesToBits(emitted)) && |w.Written()| <= 32 + 32
    {
      hide Tracked, WellCut, BitWriter.Valid, BitWriter.Written, RunCoder.Valid, StreamSofar, GoodBlocks, HeaderBits;
      hide BytesToBits, Expand;
      hide Plain;
      BufferStart();
      HeaderSize(level);
      if blockNo == 1 {
        SofarHeader(level);
        PutHeader(w, level);
        assert [] + ([] + HeaderBits(level)) == HeaderBits(level);
      }
    }

    method SendIfAny(ghost sofar: Bits)
      requires Buffered(sofar) && |rc.block| <= 100000 * level
      requires WellCut(pieces, OpenRuns(), BlockMax(level))
      requires rc.block != [] ==> WellFilled(NextPiece(), BlockMax(level))
      modifies this`combinedCRC, this`done, this`pieces, w
      ensures Buffered(sofar) && Plain(done) == old(Plain(done)) + Expand(rc.block)
      ensures old(done) <= done && WellCut(pieces, PendingNow(), BlockMax(level))
      ensures pieces == old(pieces) + if rc.block != [] then [NextPiece()] else []
      ensures |w.Written()| <= |old(w.Written())| + BlockBound(|rc.block|)
    {
      hide Tracked, WellCut, BitWriter.Valid, BitWriter.Written, RunCoder.Valid, StreamSofar, GoodBlocks, Expand;
      hide Plain, CombinedFrom;
      if |rc.block| > 0 {
        SendCurrent(sofar);
      } else {
        NothingTaken();
        NoRuns();
        assert pieces + [] == pieces;
      }
    }

    lemma NoRuns()
      requires rc.Valid() && rc.block == []
      ensures rc.runs == [] && OpenRuns() == PendingNow()
    {
      RunCoder.EmptyRuns(rc.runs, rc.inCh, rc.inLen);
    }

    method Close(isLast: bool)
      requires Buffered(BytesToBits(emitted)) && consumed == Plain(done) + RunBytes(rc.inCh, rc.inLen)
      requires isLast ==> mode == Finishing && promised == 0 && rc.inCh == NO_CHAR
      requires !isLast ==> rc.inCh < 256 || (mode == Flushing && promised == 0)
      requires WellCut(pieces, PendingNow(), BlockMax(level))
      modifies this`outputting, this`last, w
      ensures OutputSide() && outputting && last == isLast && (isLast ==> w.zbits != [])
      ensures 8 * |w.zbits| <= |old(w.Written())| + 80 + 7
    {
      hide Tracked, WellCut, BitWriter.Valid, BitWriter.Written, RunCoder.Valid, StreamSofar, GoodBlocks, TrailerBits;
      hide BytesToBits, Plain;
      hide CombinedFrom;
      if isLast {
        ghost var buffer := w.Written();
        PutTrailer(w, combinedCRC);
        LastSofar(emitted, buffer, w.zbits);
        TrailerSize(combinedCRC);
      } else {
        OpenSofar();
        BytesWithin();
      }
      outputting, last := true, isLast;
      assert w.zbits[0..] == w.zbits;
    }

    /** BZ2_compressBlock, and the switch to BZ_S_OUTPUT that follows it. */
    method CompressBlock(isLast: bool)
      requires Collected() && |rc.block| <= 100000 * level && mode != Idle
      requires isLast ==> mode == Finishing && promised == 0 && rc.inCh == NO_CHAR
      requires !isLast ==> rc.inCh < 256 || (mode == Flushing && promised == 0)
      requires rc.block != [] ==> WellFilled(NextPiece(), BlockMax(level))
      modifies this`outputting, this`last, this`combinedCRC, this`done, this`pieces, w
      ensures Valid() && outputting && last == isLast && (isLast ==> outPos < |w.zbits|)
      ensures old(done) <= done && pieces == old(pieces) + if rc.block != [] then [NextPiece()] else []
      ensures |w.zbits| <= ZbitsRoom(level, |rc.block|)
    {
      hide Parts, Buffered, StreamSofar, BytesToBits, Expand, Plain, OutputSide, ZbitsRoom, BlockBound, WellFilled;
      hide WellCut;
      LevelInRange();
      ghost var plain, run := Plain(done), RunBytes(rc.inCh, rc.inLen);
      Associate(plain, Expand(rc.block), run);
      StartStream();
      SendIfAny(BytesToBits(emitted));
      FitsRoom(level, |rc.block|, |w.Written()| + 80 + 7);
      Close(isLast);
    }

    lemma LevelInRange()
      requires Parts()
      ensures 1 <= level
    {
    }

    lemma BufferStart()
      requires Collected()
      ensures BytesToBits(emitted) + w.Written() == StreamSofar(blockNo > 1, done, level, false)
      ensures consumed == Plain(done) + (Expand(rc.block) + RunBytes(rc.inCh, rc.inLen))
      ensures (blockNo == 1 ==> BytesToBits(emitted) == [] && w.Written() == []) && |w.Written()| <= 32
    {
      hide Tracked, WellCut, StreamSofar, GoodBlocks, RunCoder.Valid, CombinedFrom, Plain, Expand;
      NoBits(0);
      assert [] + w.live == w.live;
      SofarHeader(level);
    }

    lemma NothingTaken()
      requires rc.block == []
      ensures Expand(rc.block) == [] && Plain(done) + [] == Plain(done)
    {
    }

    static lemma HeaderSize(level: nat)
      ensures |HeaderBits(level)| == 32
    {
    }

    static lemma TrailerSize(crc: bv32)
      ensures |TrailerBits(CrcNat(crc))| == 80
    {
    }

    lemma BytesWithin()
      ensures 8 * |w.zbits| <= |w.Written()|
    {
    }

    lemma OpenSofar()
      ensures BytesToBits(emitted + w.zbits) + w.live == BytesToBits(emitted) + w.Written()
    {
      BytesConcat(emitted, w.zbits);
    }

    lemma LastSofar(e: seq<byte>, buffer: Bits, z: seq<byte>)
      requires GoodBlocks(done, level) && BytesToBits(e) + buffer == StreamSofar(true, done, level, false)
      requires var all := buffer + TrailerBits(CrcNat(CombinedFrom(0, done))); BytesToBits(z) == all + Padding(|all|)
      ensures BytesToBits(e + z) + [] == StreamSofar(true, done, level, true)
    {
      hide Tracked, WellCut, GoodBlocks, HeaderBits, TrailerBits, BlocksBits, BytesToBits, CombinedFrom, CrcNat;
      hide Padding;
      BytesConcat(e, z);
      var t := TrailerBits(CrcNat(CombinedFrom(0, done)));
      var all := buffer + t;
      SamePadding(|BytesToBits(e) + all|, |all|);
      assert BytesToBits(e) + all == BytesToBits(e) + buffer + t;
    }

    // ---- copying in and out ----

    /** prepare_new_block. */
    method PrepareNewBlock()
      requires OutputSide() && !last && outPos == |w.zbits|
      modifies this, rc, w
      ensures InputSide() && rc.block == [] && mode == old(mode) && promised == old(promised)
      ensures done == old(done) && pieces == old(pieces)
      ensures consumed == old(consumed) && emitted == old(emitted) && rc.inCh == old(rc.inCh)
      ensures rc.inLen == old(rc.inLen)
    {
      hide Tracked, WellCut, StreamSofar, GoodBlocks, BytesToBits, Plain, Holds, RunCoder.Valid, RunCoder.Taken;
      hide CombinedFrom, RunBytes;
      OutputBounds();
      assert w.zbits[outPos..] == [] && emitted + [] == emitted;
      w.zbits := [];
      outPos, outputting := 0, false;
      blockNo := blockNo + 1;
      rc.StartBlock();
      assert [] + PendingNow() == PendingNow();
    }

    lemma CodeOfRuns()
      requires rc.Valid()
      ensures rc.block == CodedRuns(rc.runs) && Maximal(OpenRuns()) && CodedRuns([]) == []
      ensures rc.inCh < 256 <==> PendingNow() != []
      ensures rc.inCh < 256 ==> PendingNow()[0].ch == rc.inCh
    {
    }

    /** Reading on leaves the cuts made so far as they are. */
    static lemma CutGrows(pieces: seq<Piece>, runs: seq<Stretch>, pending: seq<Stretch>, more: seq<Stretch>,
                          after: seq<Stretch>, max: int)
      requires WellCut(pieces, runs + pending, max) && Maximal(more + after) && after != []
      requires (more == runs && (pending != [] ==> after[0].ch == pending[0].ch)) || more == runs + pending
      requires |CodedRuns(runs)| < max && |pending| <= 1 && (runs != [] ==> |CodedRuns(runs[..|runs| - 1])| < max)
      ensures WellCut(pieces, more + after, max) && (more != [] ==> |CodedRuns(more[..|more| - 1])| < max)
    {
      hide WellFilled, Maximal, CodedRuns;
      if pending != [] {
        assert (runs + pending)[..|runs + pending| - 1] == runs;
      } else {
        assert runs + pending == runs;
      }
      var rest, grown := runs + pending, more + after;
      assert rest != [] ==> grown[0].ch == rest[0].ch;
    }

    /** The block is full at most since its last run. */
    ghost predicate JustFull()
      reads rc
    {
      rc.runs != [] ==> |CodedRuns(rc.runs[..|rc.runs| - 1])| < BlockMax(level)
    }

    /** ADD_CHAR_TO_BLOCK, and what it does to the cuts. */
    method AddByte(c: byte)
      requires rc.Valid() && |rc.block| < BlockMax(level) && (rc.inCh == NO_CHAR ==> rc.block == []) && JustFull()
      requires WellCut(pieces, OpenRuns(), BlockMax(level))
      modifies rc
      ensures rc.Valid() && rc.Taken() == old(rc.Taken()) + [c] && rc.inCh < 256 && |rc.block| <= |old(rc.block)| + 5
      ensures JustFull() && WellCut(pieces, OpenRuns(), BlockMax(level))
    {
      hide WellCut, CodedRuns, Maximal, RunCoder.Valid, RunCoder.Taken;
      ghost var runs, pending := rc.runs, PendingNow();
      CodeOfRuns();
      rc.AddChar(c);
      CodeOfRuns();
      CutGrows(pieces, runs, pending, rc.runs, PendingNow(), BlockMax(level));
    }

    /** One turn of copy_input_until_stop. */
    method TakeByte(c: byte)
      requires InputSide() && |rc.block| < BlockMax(level) && (mode != Running ==> promised > 0)
      modifies this`consumed, this`promised, rc
      ensures promised == if mode == Running then old(promised) else old(promised) - 1
      ensures InputSide() && consumed == old(consumed) + [c] && rc.inCh < 256 && |rc.block| <= |old(rc.block)| + 5
    {
      hide Tracked, WellCut, CodedRuns, Maximal, StreamSofar, GoodBlocks, BytesToBits, RunCoder.Valid, RunCoder.Taken;
      hide BitWriter.Valid, CombinedFrom, Plain, OpenRuns, JustFull;
      Associate(Plain(done), rc.Taken(), [c]);
      AddByte(c);
      consumed := consumed + [c];
      if mode != Running {
        promised := promised - 1;
      }
    }

    /** copy_input_until_stop: until the block is full, the input ends, or all promised input is in. */
    method CopyInput(input: seq<byte>) returns (used: nat)
      requires InputSide() && (mode != Running ==> promised <= |input|)
      modifies this`consumed, this`promised, rc
      ensures InputSide() && used <= |input| && consumed == old(consumed) + input[..used]
      ensures promised == if mode == Running then old(promised) else old(promised) - used
      ensures |rc.block| >= BlockMax(level) || used == |input| || (mode != Running && promised == 0)
      ensures |rc.block| <= |old(rc.block)| + 5 * used && (used > 0 ==> rc.inCh < 256)
      ensures used == 0 ==> rc.inCh == old(rc.inCh) && rc.inLen == old(rc.inLen)
    {
      hide InputSide;
      used := 0;
      while |rc.block| < BlockMax(level) && used < |input| && !(mode != Running && promised == 0)
        invariant InputSide() && used <= |input| && consumed == old(consumed) + input[..used]
        invariant promised == if mode == Running then old(promised) else old(promised) - used
        invariant |rc.block| <= |old(rc.block)| + 5 * used && (used > 0 ==> rc.inCh < 256)
        invariant used == 0 ==> rc.inCh == old(rc.inCh) && rc.inLen == old(rc.inLen)
        decreases |input| - used
      {
        assert input[..used + 1] == input[..used] + [input[used]];
        TakeByte(input[used]);
        used := used + 1;
      }
    }

    method HandByte() returns (c: byte)
      requires OutputSide() && outPos < |w.zbits|
      modifies this`outPos, this`emitted
      ensures OutputSide() && emitted == old(emitted) + [c] && outPos == old(outPos) + 1
    {
      hide Tracked, WellCut, StreamSofar, GoodBlocks, BytesToBits, RunCoder.Valid, BitWriter.Valid, Plain;
      c := w.zbits[outPos];
      HandOut(emitted, w.zbits, outPos, outPos + 1);
      assert w.zbits[outPos..outPos + 1] == [c];
      emitted := emitted + [c];
      outPos := outPos + 1;
    }

    /** copy_output_until_stop. */
    method CopyOutput(avail: nat) returns (out: seq<byte>)
      requires OutputSide()
      modifies this`outPos, this`emitted
      ensures OutputSide() && |out| <= avail && emitted == old(emitted) + out
      ensures outPos == old(outPos) + |out| && (|out| == avail || outPos == |w.zbits|)
    {
      hide Tracked, WellCut, StreamSofar, GoodBlocks, BytesToBits, RunCoder.Valid, BitWriter.Valid, Plain;
      out := [];
      while |out| < avail && outPos < |w.zbits|
        invariant OutputSide() && |out| <= avail && emitted == old(emitted) + out && outPos == old(outPos) + |out|
        decreases |w.zbits| - outPos
      {
        var c := HandByte();
        out := out + [c];
      }
    }

    // ---- handle_compress ----

    /** All promised input is in and no run is pending. */
    ghost predicate InputOver()
      reads this, rc
    {
      mode != Running && promised == 0 && EmptyRun(rc.inCh, rc.inLen)
    }

    /** The last block of a flush or finish is compressed and may not all be handed out. */
    ghost predicate Closed()
      reads this, rc
    {
      outputting && InputOver()
    }

    /** The BZ_S_OUTPUT part of the loop; `stop` where the source breaks. */
    method OutputPart(avail: nat) returns (out: seq<byte>, stop: bool)
      requires Valid() && outputting && mode != Idle
      modifies this, rc, w
      ensures Valid() && mode == old(mode) && promised == old(promised) && consumed == old(consumed)
      ensures |out| <= avail && emitted == old(emitted) + out && rc.inCh == old(rc.inCh) && rc.inLen == old(rc.inLen)
      ensures stop && outputting ==> w.zbits == old(w.zbits) && outPos == old(outPos) + |out| && last == old(last)
      ensures stop && outputting ==>
          (outPos < |w.zbits| && |out| == avail) || (mode == Finishing && last && outPos == |w.zbits| && InputOver())
      ensures stop && !outputting ==> mode == Flushing && InputOver() && w.zbits == [] && !old(last)
      ensures !stop ==> !outputting && !InputOver() && !old(last)
      ensures done == old(done) && pieces == old(pieces) && InputOver() == old(InputOver())
    {
      hide Tracked, WellCut, StreamSofar, GoodBlocks, BytesToBits, RunCoder.Valid, BitWriter.Valid, Plain, Parts;
      out := CopyOutput(avail);
      if outPos < |w.zbits| {
        stop := true;
        return;
      }
      OutputBounds();
      if mode == Finishing && promised == 0 && EmptyRun(rc.inCh, rc.inLen) {
        stop := true;
        return;
      }
      PrepareNewBlock();
      stop := mode == Flushing && promised == 0 && EmptyRun(rc.inCh, rc.inLen);
    }

    lemma OutputBounds()
      requires OutputSide()
      ensures outPos <= |w.zbits| && FrontEnd.RunOk(rc.inCh, rc.inLen) && 1 <= level <= 9
    {
    }

    /** A forced block holds at most one run more than a full one. */
    static lemma ForcedPiece(runs: seq<Stretch>, pending: seq<Stretch>, max: int)
      requires Maximal(runs + pending) && |pending| <= 1 && max > 0 && (pending == [] ==> runs == [])
      requires runs != [] ==> |CodedRuns(runs[..|runs| - 1])| < max
      ensures runs + pending != [] ==> WellFilled(Piece(runs + pending, true), max)
      ensures runs + pending == [] ==> CodedRuns(runs + pending) == []
    {
      hide Maximal, CodedRuns;
      var all := runs + pending;
      if |all| > 1 {
        assert all[..|all| - 2] == runs[..|runs| - 1];
      }
      NoText();
    }

    lemma NothingOpen()
      requires InputSide() && PendingNow() == []
      ensures rc.runs == []
    {
      hide Tracked, WellCut, CodedRuns, Maximal, StreamSofar, GoodBlocks, BytesToBits, BitWriter.Valid, Plain;
      hide CombinedFrom;
      hide Building;
      NoRuns();
    }

    /** flush_RL and the last block. */
    method FlushBlock()
      requires InputSide() && mode != Running && mode != Idle && promised == 0
      modifies this`outputting, this`last, this`combinedCRC, this`done, this`pieces, rc, w
      ensures Valid() && outputting && last == (mode == Finishing) && InputOver() && |rc.block| <= BlockMax(level) + 9
      ensures last ==> outPos < |w.zbits|
      ensures old(done) <= done && (pieces == old(pieces) || pieces == old(pieces) + [NextPiece()])
    {
      hide Tracked, WellCut, CodedRuns, Maximal, StreamSofar, GoodBlocks, BytesToBits, RunCoder.Valid, RunCoder.Taken;
      hide BitWriter.Valid, Plain, CombinedFrom;
      ghost var runs, pending := rc.runs, PendingNow();
      CodeOfRuns();
      if pending == [] {
        NothingOpen();
      }
      ForcedPiece(runs, pending, BlockMax(level));
      rc.Flush();
      CodeOfRuns();
      assert OpenRuns() == runs + pending;
      CompressBlock(mode == Finishing);
    }

    /** The BZ_S_INPUT part of the loop. */
    method InputPart(input: seq<byte>) returns (used: nat, stop: bool)
      requires Valid() && !outputting && mode != Idle && (mode != Running ==> promised == |input|)
      modifies this, rc, w
      ensures Valid() && mode == old(mode) && emitted == old(emitted)
      ensures used <= |input| && consumed == old(consumed) + input[..used]
      ensures mode != Running ==> promised == |input| - used
      ensures stop ==> mode == Running && used == |input| && !outputting
      ensures !stop ==> outputting
      ensures !stop && used == 0 ==> InputOver() && last == (mode == Finishing)
      ensures !stop && last ==> outPos < |w.zbits|
      ensures old(done) <= done && Added(old(pieces), pieces, InputOver()) && (stop ==> pieces == old(pieces))
      ensures !stop && mode == Running ==> |pieces| > |old(pieces)|
    {
      hide InputSide, OutputSide, EmptyRun;
      used := CopyInput(input);
      stop := false;
      InputBounds();
      if mode != Running && promised == 0 {
        FlushBlock();
      } else if |rc.block| >= BlockMax(level) {
        FullBlockHasRun();
        CompressFull();
      } else {
        stop := used == |input|;
      }
    }

    lemma InputBounds()
      requires InputSide()
      ensures 1 <= level <= 9 && !outputting
    {
    }

    /** A full block always leaves a run pending. */
    lemma FullBlockHasRun()
      requires InputSide() && |rc.block| >= BlockMax(level)
      ensures rc.inCh < 256 && |rc.block| <= 100000 * level
    {
    }

    method CompressFull()
      requires InputSide() && |rc.block| >= BlockMax(level) && mode != Idle
      modifies this`outputting, this`last, this`combinedCRC, this`done, this`pieces, w
      ensures Valid() && outputting && !last
      ensures old(done) <= done && pieces == old(pieces) + [NextPiece()] && !NextPiece().forced
    {
      hide Tracked, WellCut, CodedRuns, Maximal, StreamSofar, GoodBlocks, BytesToBits, RunCoder.Valid, RunCoder.Taken;
      hide BitWriter.Valid, Plain, CombinedFrom;
      FullBlockHasRun();
      CodeOfRuns();
      MaximalFront(rc.runs, PendingNow());
      CompressBlock(false);
    }

    lemma AtMode()
      ensures Now().mode == mode
    {
    }

    lemma NotLastYet()
      requires Valid()
      ensures (!outputting ==> !last) && Moves(Now(), Now(), 0, 0, false)
    {
    }

    static lemma TakenSofar(before: seq<byte>, input: seq<byte>, used: nat, n: nat)
      requires used + n <= |input|
      ensures before + input[..used] + input[used..][..n] == before + input[..used + n]
    {
      assert input[..used + n] == input[..used] + input[used..][..n];
    }

    /** The loop of handle_compress may break here. */
    ghost predicate MayStop(full: bool, allTaken: bool)
      reads this, rc, w
    {
      match mode
      case Finishing => outputting && ((outPos < |w.zbits| && full) || (last && outPos == |w.zbits| && InputOver()))
      case Flushing => (outputting && outPos < |w.zbits| && full) || (!outputting && InputOver() && w.zbits == [])
      case Running => allTaken || (outputting && full)
      case Idle => false
    }

    /** How far the loop is, with `left` bytes of input to take. */
    ghost function Rank(): nat
      reads this, rc
    {
      if !outputting then 2 else if InputOver() then 0 else 1
    }

    ghost function Now(): Place
      reads this, rc, w
    {
      Place(mode, outputting, last, outPos, w.zbits, Rank())
    }

    /** One round of the loop of handle_compress; `stop` where the source breaks. */
    method Round(input: seq<byte>, avail: nat) returns (used: nat, out: seq<byte>, stop: bool)
      requires Valid() && mode != Idle && (mode != Running ==> promised == |input|)
      modifies this, rc, w
      ensures Valid() && mode == old(mode) && used <= |input| && consumed == old(consumed) + input[..used]
      ensures |out| <= avail && emitted == old(emitted) + out && (mode != Running ==> promised == |input| - used)
      ensures stop ==> MayStop(|out| == avail, used == |input|)
      ensures RoundMoves(old(Now()), Now(), used, |out|, stop) && (!stop ==> outputting)
      ensures old(done) <= done && old(pieces) <= pieces && Added(old(pieces), pieces, InputOver())
      ensures old(outputting && InputOver()) ==> pieces == old(pieces) && InputOver()
      ensures !old(outputting) ==> out == [] && (mode == Running && pieces == old(pieces) ==> !outputting)
    {
      hide Valid, EmptyRun;
      used, out, stop := 0, [], false;
      NotLastYet();
      assert input[..0] == [] && old(consumed) + [] == old(consumed) && old(emitted) + [] == old(emitted);
      if outputting {
        out, stop := OutputPart(avail);
        if stop {
          return;
        }
      }
      used, stop := InputPart(input);
    }

    /** handle_compress, on the rest of the caller's input and output space. */
    method HandleCompress(input: seq<byte>, avail: nat) returns (used: nat, out: seq<byte>, progress: bool)
      requires Valid() && mode != Idle && (mode != Running ==> promised == |input|)
      modifies this, rc, w
      ensures Valid() && mode == old(mode)
      ensures used <= |input| && consumed == old(consumed) + input[..used]
      ensures |out| <= avail && emitted == old(emitted) + out
      ensures progress == (used > 0 || |out| > 0)
      ensures mode != Running ==> promised == |input| - used
      ensures MayStop(|out| == avail, used == |input|)
      ensures Moves(old(Now()), Now(), used, |out|, true)
      ensures avail > 0 && mode == Finishing && Waits(old(Now())) ==> |out| > 0
      ensures old(done) <= done && Added(old(pieces), pieces, InputOver())
      ensures mode == Running && !old(outputting) && pieces == old(pieces) ==> out == [] && !outputting
      ensures old(outputting && InputOver()) ==> pieces == old(pieces) && InputOver()
    {
      hide Valid, InputOver, Now, Added, MayStop, Moves, RoundMoves;
      assert Added(pieces, pieces, InputOver()) by {
        NothingAdded(pieces, InputOver());
      }
      used, out := 0, [];
      NotLastYet();
      var stop := false;
      while !stop
        invariant Valid() && mode == old(mode) && used <= |input| && |out| <= avail
        invariant consumed == old(consumed) + input[..used] && emitted == old(emitted) + out
        invariant mode != Running ==> promised == |input| - used
        invariant stop ==> MayStop(|out| == avail, used == |input|)
        invariant Moves(old(Now()), Now(), used, |out|, stop)
        invariant old(done) <= done && old(pieces) <= pieces && Added(old(pieces), pieces, InputOver())
        invariant !stop && pieces != old(pieces) ==> outputting
        invariant mode == Running && !old(outputting) && pieces == old(pieces) ==> out == [] && !outputting
        invariant old(outputting && InputOver()) ==> pieces == old(pieces) && InputOver() && (outputting || stop)
        decreases !stop, |input| - used, Now().rank
      {
        ghost var mid, over, place, took, gave := pieces, InputOver(), Now(), used, |out|;
        assert place.mode == mode by {
          AtMode();
        }
        var n, more;
        n, more, stop := Round(input[used..], avail - |out|);
        MovesOn(old(Now()), place, Now(), took, gave, n, |more|, stop);
        AddedMore(old(pieces), mid, pieces, over, InputOver());
        TakenSofar(old(consumed), input, used, n);
        used := used + n;
        out := out + more;
      }
      progress := used > 0 || |out| > 0;
      if avail > 0 && mode == Finishing && Waits(old(Now())) {
        MustHandOut(old(Now()), used, |out|, avail, used == |input|);
      }
    }

    /** A finish with room hands something out. */
    lemma MustHandOut(a: Place, used: nat, n: nat, avail: nat, allTaken: bool)
      requires MayStop(n == avail, allTaken) && Moves(a, Now(), used, n, true) && mode == Finishing && avail > 0
      requires Waits(a)
      ensures n > 0
    {
    }

    // ---- BZ2_bzCompress ----

    /** Between calls. */
    ghost predicate Ready()
      reads this, rc, w
    {
      Valid() && Waits(Now())
    }

    /** The compressed stream is complete and handed out, and it stands for all that was taken in. */
    ghost predicate Delivered()
      reads this
    {
      && GoodBlocks(done, level) && consumed == Plain(done)
      && BytesToBits(emitted) == StreamBits(done, level) + Padding(|StreamBits(done, level)|)
    }

    lemma IdleIsComplete()
      requires Valid() && outputting && last && outPos == |w.zbits|
      ensures Delivered()
    {
      hide Tracked, WellCut, StreamSofar, GoodBlocks, BytesToBits, RunCoder.Valid, BitWriter.Valid, Plain, StreamBits;
      assert w.zbits[outPos..] == [] && emitted + [] == emitted;
      assert BytesToBits(emitted) + [] == BytesToBits(emitted) && Plain(done) + [] == Plain(done);
      SofarComplete(done, level);
    }

    lemma IdleLevel()
      requires Valid() && outputting
      ensures 1 <= level <= 9
    {
    }

    lemma PosInRange()
      requires Ready()
      ensures outPos <= |w.zbits|
    {
    }

    lemma FlushedAll()
      requires InputSide() && InputOver()
      ensures consumed == Plain(done) && BytesToBits(emitted) + w.live == StreamSofar(blockNo > 1, done, level, false)
    {
      hide Tracked, WellCut, StreamSofar, GoodBlocks, BytesToBits, BitWriter.Valid, Plain;
      assert Plain(done) + [] == Plain(done);
    }

    /** A block that was not closed by force is full: it has at least nblockMAX bytes. */
    lemma FullUnlessForced(i: nat)
      requires Ready() && i < |pieces| && !pieces[i].forced
      ensures i < |done| && 100000 * level - 19 <= |done[i].block| <= 100000 * level
      ensures pieces[i].runs != [] && |CodedRuns(pieces[i].runs[..|pieces[i].runs| - 1])| < 100000 * level - 19
    {
      hide StreamSofar, BytesToBits, RunCoder.Valid, BitWriter.Valid, Plain, CodedRuns, Maximal, TablesSettled;
      assert GoodBlock(done[i], level) && WellFilled(pieces[i], BlockMax(level));
    }

    /** The runs shared out to the blocks stand for what the blocks stand for. */
    lemma BlocksOfRuns()
      requires Ready()
      ensures GoodBlocks(done, level) && Tracked(done, pieces) && Text(AllRuns(pieces)) == Plain(done)
      ensures WellCut(pieces, if outputting then PendingNow() else OpenRuns(), BlockMax(level))
    {
      hide StreamSofar, BytesToBits, RunCoder.Valid, BitWriter.Valid, Plain, CodedRuns, Maximal, TablesSettled, AllRuns;
      hide Text, GoodBlock, WellFilled, Joins;
      PlainIsText(done, pieces, BlockMax(level));
    }

    /** Data that cannot fill a block closes none but by force. */
    lemma NotYetFull()
      requires Ready() && 5 * |consumed| < 4 * (100000 * level - 19)
      ensures pieces != [] ==> pieces[|pieces| - 1].forced
    {
      hide Valid, CodedRuns, Text, Expand;
      if pieces != [] && !pieces[|pieces| - 1].forced {
        var k := |pieces| - 1;
        FullUnlessForced(k);
        BlocksOfRuns();
        PlainTaken();
        CodedSize(pieces[k].runs);
        TextConcat(AllRuns(pieces[..k]), pieces[k].runs);
      }
    }

    lemma PlainTaken()
      requires Valid()
      ensures |Plain(done)| <= |consumed|
    {
      hide StreamSofar, GoodBlocks, BytesToBits, RunCoder.Valid, BitWriter.Valid, Plain, WellCut, Tracked;
    }

    /** Leaving BZ_M_RUNNING. */
    method EnterMode(m: Mode, availIn: nat)
      requires Ready() && mode == Running && (m == Flushing || m == Finishing)
      modifies this`mode, this`promised
      ensures Ready() && mode == m && promised == availIn
    {
      hide Tracked, WellCut, StreamSofar, GoodBlocks, BytesToBits, RunCoder.Valid, BitWriter.Valid, Plain;
      promised := availIn;
      mode := m;
    }

    method EnterIdle()
      requires Valid() && mode == Finishing && outputting && last && outPos == |w.zbits|
      modifies this`mode
      ensures Valid() && mode == Idle && Delivered()
    {
      hide Tracked, WellCut, StreamSofar, GoodBlocks, BytesToBits, RunCoder.Valid, BitWriter.Valid, Plain, StreamBits;
      IdleIsComplete();
      mode := Idle;
    }

    method BackToRunning()
      requires Valid() && mode == Flushing && !outputting && InputOver()
      modifies this`mode
      ensures Valid() && mode == Running && consumed == Plain(done) && done == old(done) && pieces == old(pieces)
    {
      hide Tracked, WellCut, StreamSofar, GoodBlocks, BytesToBits, RunCoder.Valid, BitWriter.Valid, Plain, BlocksBits;
      FlushedAll();
      mode := Running;
    }

    method RunCall(input: seq<byte>, avail: nat) returns (ret: Return, used: nat, out: seq<byte>)
      requires Ready() && mode == Running
      modifies this, rc, w
      ensures Ready() && mode == Running && used <= |input| && consumed == old(consumed) + input[..used]
      ensures |out| <= avail && emitted == old(emitted) + out
      ensures ret == if used > 0 || out != [] then Return.RunOk else ParamError
      ensures ret == Return.RunOk ==> used == |input| || (outputting && |out| == avail)
      ensures |input| > 0 && avail > 0 ==> ret == Return.RunOk
      ensures used == 0 && outputting ==> (last && !old(last)) || HandedOut(old(Now()), Now(), |out|)
      ensures old(done) <= done && Added(old(pieces), pieces, false) && !Closed()
      ensures !old(outputting) && pieces == old(pieces) ==> out == []
    {
      hide Valid, Added, InputOver;
      var progress;
      used, out, progress := HandleCompress(input, avail);
      NotOver();
      ret := if progress then Return.RunOk else ParamError;
    }

    lemma NotOver()
      requires mode == Running
      ensures !InputOver() && !Closed()
    {
    }

    method FlushCall(input: seq<byte>, avail: nat) returns (ret: Return, used: nat, out: seq<byte>)
      requires Ready() && mode == Flushing && promised == |input|
      modifies this, rc, w
      ensures Ready() && used <= |input| && consumed == old(consumed) + input[..used]
      ensures |out| <= avail && emitted == old(emitted) + out
      ensures ret == Return.RunOk || ret == FlushOk
      ensures ret == FlushOk ==> mode == Flushing && |out| == avail && outPos < |w.zbits|
      ensures ret == FlushOk ==> promised == |input| - used
      ensures ret == FlushOk && used == 0 ==> Nearer(old(Now()), Now(), |out|)
      ensures ret == Return.RunOk ==> mode == Running && used == |input| && !outputting && consumed == Plain(done)
      ensures old(done) <= done && Added(old(pieces), pieces, Closed() || ret == Return.RunOk)
      ensures old(Closed()) ==> pieces == old(pieces) && (Closed() || ret == Return.RunOk)
    {
      hide Valid, Plain, Nearer, Added;
      var progress;
      used, out, progress := HandleCompress(input, avail);
      ghost var over := InputOver();
      if promised > 0 || !EmptyRun(rc.inCh, rc.inLen) || outPos < |w.zbits| {
        OverTaken(old(pieces), pieces, over, Closed());
        ret := FlushOk;
        return;
      }
      BackToRunning();
      OverTaken(old(pieces), pieces, over, true);
      ret := Return.RunOk;
    }

    method FinishCall(input: seq<byte>, avail: nat) returns (ret: Return, used: nat, out: seq<byte>)
      requires Ready() && mode == Finishing && promised == |input|
      modifies this, rc, w
      ensures Ready() && used <= |input| && consumed == old(consumed) + input[..used]
      ensures |out| <= avail && emitted == old(emitted) + out
      ensures ret == SequenceError || ret == FinishOk || ret == StreamEnd
      ensures ret == SequenceError <==> used == 0 && out == []
      ensures ret == SequenceError ==> mode == Finishing && avail == 0
      ensures used == 0 && outputting ==> (last && !old(last)) || HandedOut(old(Now()), Now(), |out|)
      ensures ret == FinishOk ==>
        mode == Finishing && outputting && |out| == avail && outPos < |w.zbits| && promised == |input| - used
      ensures ret == StreamEnd ==> mode == Idle && used == |input| && Delivered()
      ensures old(done) <= done && Added(old(pieces), pieces, Closed())
      ensures old(Closed()) ==> pieces == old(pieces) && Closed()
    {
      hide Valid, Delivered, Added;
      var progress;
      used, out, progress := HandleCompress(input, avail);
      OverTaken(old(pieces), pieces, InputOver(), Closed());
      if !progress {
        ret := SequenceError;
        return;
      }
      if promised > 0 || !EmptyRun(rc.inCh, rc.inLen) || outPos < |w.zbits| {
        ret := FinishOk;
        return;
      }
      EnterIdle();
      ret := StreamEnd;
    }

    /** Calls that the mode does not allow, or with another amount of input than was promised. */
    ghost predicate Refuses(action: Action, n: nat)
      reads this
    {
      match mode
      case Idle => true
      case Running => false
      case Flushing => action != Flush || promised != n
      case Finishing => action != Finish || promised != n
    }

    /**
     * BZ2_bzCompress: one call, the caller offering `input` and `avail` bytes of
     * output space. BZ_STREAM_END means that all promised input was taken and the
     * complete stream for all input ever taken has been handed out.
     */
    method Compress(action: Action, input: seq<byte>, avail: nat) returns (ret: Return, used: nat, out: seq<byte>)
      requires Ready()
      modifies this, rc, w
      ensures Ready() && used <= |input| && consumed == old(consumed) + input[..used]
      ensures |out| <= avail && emitted == old(emitted) + out
      ensures mode == Idle && old(mode) != Idle ==> ret == StreamEnd
      ensures ret == StreamEnd ==> action == Finish && mode == Idle && used == |input| && Delivered()
      ensures ret == FinishOk ==>
        action == Finish && mode == Finishing && outputting && |out| == avail && outPos < |w.zbits|
      ensures ret == FlushOk ==> action == Flush && mode == Flushing && |out| == avail && outPos < |w.zbits|
      ensures ret == Return.RunOk ==> mode == Running
      ensures ret == Return.RunOk && action == Action.Run ==> used == |input| || (outputting && |out| == avail)
      ensures action == Action.Run && old(mode) == Running && |input| > 0 && avail > 0 ==> ret == Return.RunOk
      ensures old(Refuses(action, |input|)) ==>
        && ret == SequenceError && used == 0 && out == []
        && mode == old(mode) && promised == old(promised) && done == old(done)
      ensures !old(Refuses(action, |input|)) && action == Action.Run ==>
        ret == if used > 0 || out != [] then Return.RunOk else ParamError
      ensures !old(Refuses(action, |input|)) && action == Finish ==>
        ret == FinishOk || ret == StreamEnd || (ret == SequenceError && avail == 0)
      ensures !old(Refuses(action, |input|)) && action == Finish ==> (ret == SequenceError <==> used == 0 && out == [])
      ensures ret == FinishOk ==> promised == |input| - used
      ensures action != Flush && used == 0 && outputting ==>
          (last && !old(last)) || HandedOut(old(Now()), Now(), |out|)
      ensures !old(Refuses(action, |input|)) && action == Flush ==> ret == FlushOk || ret == Return.RunOk
      ensures ret == FlushOk ==> promised == |input| - used
      ensures ret == FlushOk && used == 0 && old(mode) == Flushing ==> Nearer(old(Now()), Now(), |out|)
      ensures ret == Return.RunOk && action == Flush ==> used == |input| && !outputting && consumed == Plain(done)
      ensures old(done) <= done
      ensures Added(old(pieces), pieces, Closed() || (action == Flush && ret == Return.RunOk))
      ensures old(Closed()) ==> pieces == old(pieces) && (Closed() || (action == Flush && ret == Return.RunOk))
      ensures action == Action.Run && !old(outputting) && pieces == old(pieces) ==> out == []
    {
      hide Valid, Ready, Delivered, Nearer, Plain, Added, Closed;
      used, out := 0, [];
      NothingAdded(pieces, Closed());
      if mode == Idle {
        ret := SequenceError;
        return;
      }
      if mode == Running {
        NotOver();
        if action == Action.Run {
          ret, used, out := RunCall(input, avail);
          return;
        }
        EnterMode(if action == Flush then Flushing else Finishing, |input|);
      }
      if (mode == Flushing) != (action == Flush) || action == Action.Run || promised != |input| {
        ret := SequenceError;
      } else if mode == Flushing {
        ret, used, out := FlushCall(input, avail);
      } else {
        ret, used, out := FinishCall(input, avail);
      }
    }
  }
}
