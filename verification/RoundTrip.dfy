/** Decompressing any bytes, and decompressing what was compressed. */
module RoundTrip {
  import opened Base
  import opened BitIO
  import opened BitReading
  import opened BitString
  import opened BlockReader
  import opened BzStream
  import opened Compressor
  import opened Decompressor
  import opened Playback
  import opened Runs

  /**
   * What a finished compressor handed out is, bit for bit, the stream of its blocks, and they stand for all
   * it took in.
   */
  lemma FinishedStream(e: EState)
    requires e.Ready() && e.mode == Idle
    ensures 1 <= e.level <= 9 && GoodBlocks(e.done, e.level) && Plain(e.done) == e.consumed
    ensures var stream := StreamBits(e.done, e.level); BytesToBits(e.emitted) == stream + Padding(|stream|)
  {
    hide GoodBlocks, BytesToBits, StreamBits, Plain;
    e.IdleIsComplete();
    e.IdleLevel();
  }

  /** Its bits, followed by anything, play as all it took in. */
  lemma FinishedPlays(e: EState, nums: seq<int>, extra: seq<byte>) returns (pad: Bits)
    requires e.Ready() && e.mode == Idle && |nums| == 512
    ensures |pad| < 8
    ensures Play(nums, Magic(0), 0, BytesToBits(e.emitted + extra))
         == Story(e.consumed, Finished(pad + BytesToBits(extra)))
  {
    hide GoodBlocks, BytesToBits, StreamBits, Plain, Play, EState.Ready;
    FinishedStream(e);
    var stream := StreamBits(e.done, e.level);
    pad := Padding(|stream|);
    BytesConcat(e.emitted, extra);
    assert stream + pad + BytesToBits(extra) == stream + (pad + BytesToBits(extra));
    StreamPlays(nums, e.done, e.level, pad + BytesToBits(extra));
  }

  /**
   * The blocks share out the runs of the data, which are its only maximal ones (`Runs.OnlyRuns`), each block as the
   * code of its runs; every block but the last is full; and each has the tables the source chooses.
   */
  ghost predicate SharedOut(done: seq<Packed>, pieces: seq<Piece>, data: seq<byte>, level: nat) {
    && Tracked(done, pieces) && Maximal(AllRuns(pieces)) && Text(AllRuns(pieces)) == data
    && forall i :: 0 <= i < |done| - 1 ==> 100000 * level - 19 <= |done[i].block|
  }

  /** No flush: only the last block was closed by force. */
  ghost predicate ForcedAtEnd(pieces: seq<Piece>) {
    forall i :: 0 <= i < |pieces| - 1 ==> !pieces[i].forced
  }

  ghost predicate NoneForced(pieces: seq<Piece>) {
    forall i :: 0 <= i < |pieces| ==> !pieces[i].forced
  }

  lemma FinishedRuns(e: EState)
    requires e.Ready() && e.mode == Idle && ForcedAtEnd(e.pieces)
    ensures SharedOut(e.done, e.pieces, e.consumed, e.level)
  {
    hide EState.Ready, AllRuns, Maximal, Text, Plain, GoodBlocks, StreamBits, BytesToBits, WellCut;
    FinishedStream(e);
    e.BlocksOfRuns();
    forall i | 0 <= i < |e.done| - 1
      ensures 100000 * e.level - 19 <= |e.done[i].block|
    {
      e.FullUnlessForced(i);
    }
    var rest := if e.outputting then e.PendingNow() else e.OpenRuns();
    LastRuns(e.pieces, rest, BlockMax(e.level));
  }

  lemma LastRuns(pieces: seq<Piece>, rest: seq<Stretch>, max: int)
    requires WellCut(pieces, rest, max) && ForcedAtEnd(pieces)
    ensures Maximal(AllRuns(pieces))
  {
    if pieces != [] {
      PiecesFront(pieces, rest, max);
      UnforcedRuns(pieces[..|pieces| - 1], pieces[|pieces| - 1].runs, max);
    }
  }

  // ---- decoding any bytes ----

  /** What the caller is told at the end. */
  predicate Reports(ret: Decompressor.Return, ending: Ending) {
    match ending
    case Wanting => ret == Decompressor.Return.Ok
    case Finished(_) => ret == Decompressor.StreamEnd
    case Broken => ret == Decompressor.DataError
    case CutShort => ret == Decompressor.DataError
    case NoMagic => ret == DataErrorMagic
  }

  lemma CutInput(br: BitReader, z: seq<byte>, pos: nat, input: seq<byte>, used: nat)
    requires pos + |input| <= |z| && input == z[pos..pos + |input|] && used <= |input|
    ensures Unused(br, input, used) + BytesToBits(z[pos + |input|..]) == br.live + BytesToBits(z[pos + used..])
  {
    hide BytesToBits;
    var far := z[pos + |input|..];
    assert z[pos + used..] == input[used..] + far;
    BytesConcat(input[used..], far);
    Associate(br.live, BytesToBits(input[used..]), BytesToBits(far));
  }

  /** Everything the decoder has not used, in its register and in the input. */
  ghost function NotUsed(d: DState, z: seq<byte>, pos: nat): Bits
    requires pos <= |z|
    reads d, d.br
  {
    d.br.live + BytesToBits(z[pos..])
  }

  /**
   * One call with at most `n` of the bytes left: it ends, or takes or gives at least one byte. All it wrote is
   * counted, unless FAST found a block cut short.
   */
  method OneCall(d: DState, z: seq<byte>, pos: nat, n: nat, room: nat)
    returns (ret: Decompressor.Return, pos': nat, output: seq<byte>, counted: nat, starved: bool)
    requires d.Valid() && !d.m.phase.End? && pos <= |z| && n > 0 && room > 0
    modifies d.Repr()
    ensures forall o :: o in d.Repr() ==> o in old(d.Repr()) || fresh(o)
    ensures pos <= pos' <= |z| && ret != Decompressor.SequenceError
    ensures d.Tells(old(d.Ahead(NotUsed(d, z, pos))), ret, output, counted, NotUsed(d, z, pos')) && |output| <= room
    ensures starved ==>
      ret == Decompressor.Return.Ok && pos' == |z| && d.Valid() && d.Ahead(NotUsed(d, z, pos')) == Story([], Wanting)
    ensures ret == Decompressor.Return.Ok && !starved ==> pos' + |output| > pos
  {
    hide DState.Valid, DState.Ahead, DState.Tells, DState.Repr, Unused, BytesToBits;
    var input := z[pos..if pos + n <= |z| then pos + n else |z|];
    ghost var later := BytesToBits(z[pos + |input|..]);
    CutInput(d.br, z, pos, input, 0);
    ghost var start := d.Ahead(NotUsed(d, z, pos));
    var used;
    ret, used, output, counted := d.Decompress(input, room, later);
    CutInput(d.br, z, pos, input, used);
    pos' := pos + used;
    starved := ret == Decompressor.Return.Ok && |output| < room && pos' == |z|;
    if starved {
      d.GoesOn(start, output, counted, NotUsed(d, z, pos'));
      NothingLeft(d, z);
    }
  }

  lemma NothingLeft(d: DState, z: seq<byte>)
    ensures NotUsed(d, z, |z|) == d.br.live
  {
    NoBits(0);
    assert z[|z|..] == [];
    assert d.br.live + [] == d.br.live;
  }

  /** Exactly the bytes were taken that hold bits before `rest`. */
  ghost predicate TookAll(z: seq<byte>, taken: nat, rest: Bits) {
    taken <= |z| && 8 * taken - 8 < 8 * |z| - |rest| <= 8 * taken
  }

  /**
   * Any bytes, in any positive pieces, with any positive room, by either decoder: the calls end, and what they
   * write is the text these bytes stand for, with the verdict on them, whatever the pieces. `data` is what the
   * calls count as output, `lost` what the last one wrote beyond it. It is all of the text if and only if the
   * decoder is SMALL or no block is cut short; otherwise a part of the text is lost, however the room is cut.
   */
  method DecodeAll(z: seq<byte>, small: bool, nums: seq<int>, schedule: nat -> (nat, nat))
    returns (data: seq<byte>, lost: seq<byte>, ret: Decompressor.Return, taken: nat)
    requires |nums| == 512 && forall i :: schedule(i).0 > 0 && schedule(i).1 > 0
    ensures var s := Play(nums, Magic(0), 0, BytesToBits(z));
      && data + lost == s.text && Reports(ret, s.ending)
      && (data == s.text <==> small || !s.ending.CutShort?)
      && (s.ending.Finished? ==> TookAll(z, taken, s.ending.rest))
  {
    hide DState.Valid, DState.Ahead, DState.Tells, DState.Repr, BytesToBits, Play, NotUsed;
    var d := new DState(small, nums);
    ghost var start := Play(nums, Magic(0), 0, BytesToBits(z));
    StartOf(d, z);
    data, lost, taken := [], [], 0;
    var i := 0;
    while true
      invariant (forall o :: o in d.Repr() ==> fresh(o)) && taken <= |z| && lost == []
      invariant d.Tells(start, Decompressor.Return.Ok, data, |data|, NotUsed(d, z, taken))
      decreases |z| - taken + |start.text| - |data|
    {
      var (n, room) := schedule(i);
      d.GoesOn(start, data, |data|, NotUsed(d, z, taken));
      ghost var mid := d.Ahead(NotUsed(d, z, taken));
      var output, counted, starved;
      ret, taken, output, counted, starved := OneCall(d, z, taken, n, room);
      d.TellsOn(start, data, mid, output, counted, ret, NotUsed(d, z, taken));
      CountedWithin(d, mid, ret, output, counted, NotUsed(d, z, taken));
      i := i + 1;
      if ret != Decompressor.Return.Ok || starved {
        Ended(d, start, ret, data + output, |data| + counted, z, taken, starved);
        SplitOutput(data, output, counted);
        data, lost := data + output[..counted], output[counted..];
        return;
      }
      d.GoesOn(start, data + output, |data| + counted, NotUsed(d, z, taken));
      data := data + output;
    }
  }

  lemma SplitOutput(data: seq<byte>, output: seq<byte>, counted: nat)
    requires counted <= |output|
    ensures data + output[..counted] + output[counted..] == data + output
    ensures data + output[..counted] == data + output <==> counted == |output|
  {
    if data + output[..counted] == data + output {
      assert |data + output[..counted]| == |data| + counted;
    }
  }

  lemma StartOf(d: DState, z: seq<byte>)
    requires d.Valid() && d.br.live == [] && d.m.phase == Magic(0) && d.combined == 0
    ensures d.Tells(Play(d.nums, Magic(0), 0, BytesToBits(z)), Decompressor.Return.Ok, [], 0, NotUsed(d, z, 0))
  {
    hide DState.Valid, DState.Ahead, DState.Tells, BytesToBits, Play;
    assert z[0..] == z && [] + BytesToBits(z) == BytesToBits(z);
    d.AtStart(BytesToBits(z));
    d.GoesOnFrom(BytesToBits(z));
  }

  lemma CountedWithin(d: DState, start: Story, ret: Decompressor.Return, output: seq<byte>, counted: nat, b: Bits)
    requires d.Tells(start, ret, output, counted, b)
    ensures counted <= |output|
  {
    hide DState.Valid, DState.Ahead;
  }

  /** The last call tells the ending. */
  lemma Ended(d: DState, start: Story, ret: Decompressor.Return, written: seq<byte>, counted: nat, z: seq<byte>,
          taken: nat, starved: bool)
    requires taken <= |z| && d.Tells(start, ret, written, counted, NotUsed(d, z, taken))
    requires ret != Decompressor.SequenceError
    requires ret == Decompressor.Return.Ok ==> d.Valid() && d.Ahead(NotUsed(d, z, taken)) == Story([], Wanting)
    ensures written == start.text && Reports(ret, start.ending)
    ensures if d.small || !start.ending.CutShort? then counted == |written| else counted < |written|
    ensures start.ending.Finished? ==> TookAll(z, taken, start.ending.rest)
  {
    hide DState.Valid, DState.Ahead, BytesToBits;
    if ret == Decompressor.Return.Ok {
      assert written + [] == written;
    }
  }

  /** Run calls until all the data is taken in. */
  method FeedAll(e: EState, data: seq<byte>, schedule: nat -> (nat, nat)) returns (z: seq<byte>)
    requires e.Ready() && e.mode == Running && e.consumed == [] && e.emitted == [] && NoneForced(e.pieces)
    requires forall i :: schedule(i).0 > 0 && schedule(i).1 > 0
    modifies e, e.rc, e.w
    ensures e.Ready() && e.mode == Running && e.consumed == data && e.emitted == z && NoneForced(e.pieces)
  {
    hide EState.Ready;
    z := [];
    e.PosInRange();
    var pos, i := 0, 0;
    while pos < |data|
      invariant e.outPos <= |e.w.zbits| && e.Ready() && e.mode == Running && pos <= |data| && e.consumed == data[..pos]
      invariant e.emitted == z && NoneForced(e.pieces)
      decreases |data| - pos, if e.last then 0 else 1, |e.w.zbits| - e.outPos
    {
      var (n, room) := schedule(i);
      var input := data[pos..if pos + n <= |data| then pos + n else |data|];
      var ret, used, out := e.Compress(Action.Run, input, room);
      e.PosInRange();
      assert data[..pos + used] == data[..pos] + input[..used];
      z := z + out;
      pos := pos + used;
      i := i + 1;
    }
    assert data[..pos] == data;
  }

  /** A BZ_RUN call with less data than a block holds takes it all in and hands out nothing. */
  method BlockStaysOpen(level: nat, input: seq<byte>, room: nat)
    returns (ret: Compressor.Return, used: nat, out: seq<byte>)
    requires 1 <= level <= 9 && 0 < 5 * |input| < 4 * (100000 * level - 19) && room > 0
    ensures ret == Compressor.Return.RunOk && used == |input| && out == []
  {
    hide EState.Ready, EState.Closed;
    var e := new EState(level);
    NotClosed(e);
    ret, used, out := e.Compress(Action.Run, input, room);
    NotClosed(e);
    assert [] + input[..used] == input[..used];
    e.NotYetFull();
  }

  lemma NotClosed(e: EState)
    requires e.mode == Running
    ensures !e.Closed()
  {
  }

  /** Flush calls until all input is in blocks that are handed out. */
  method FlushAll(e: EState, z0: seq<byte>, data: seq<byte>, schedule: nat -> (nat, nat)) returns (z: seq<byte>)
    requires e.Ready() && e.mode == Running && e.emitted == z0
    requires forall i :: schedule(i).0 > 0 && schedule(i).1 > 0
    modifies e, e.rc, e.w
    ensures e.Ready() && e.mode == Running && e.consumed == old(e.consumed) + data && e.emitted == z
    ensures e.consumed == Plain(e.done) && !e.outputting && Added(old(e.pieces), e.pieces, true)
  {
    hide EState.Ready, EState.Rank, Plain, Added, EState.Closed;
    z := z0;
    e.PosInRange();
    NothingAdded(e.pieces, e.Closed());
    var pos, i := 0, 0;
    assert data[..0] == [] && old(e.consumed) + [] == old(e.consumed);
    while true
      invariant e.outPos <= |e.w.zbits| && e.Ready() && pos <= |data| && e.emitted == z
      invariant e.mode == Running || (e.mode == Flushing && e.promised == |data| - pos)
      invariant e.consumed == old(e.consumed) + data[..pos] && Added(old(e.pieces), e.pieces, e.Closed())
      decreases e.mode == Running, |data| - pos, e.Rank(), |e.w.zbits| - e.outPos
    {
      var (_, room) := schedule(i);
      ghost var mid, closed := e.pieces, e.Closed();
      var ret, used, out := e.Compress(Flush, data[pos..], room);
      AddedMore(old(e.pieces), mid, e.pieces, closed, e.Closed() || ret == Compressor.Return.RunOk);
      e.PosInRange();
      assert data[..pos + used] == data[..pos] + data[pos..][..used];
      z := z + out;
      pos := pos + used;
      i := i + 1;
      if ret == Compressor.Return.RunOk {
        assert data[..pos] == data;
        return;
      }
    }
  }

  /** Finish calls until the stream ends. */
  method FinishAll(e: EState, z0: seq<byte>, schedule: nat -> (nat, nat)) returns (z: seq<byte>)
    requires e.Ready() && e.mode == Running && e.emitted == z0
    requires forall i :: schedule(i).0 > 0 && schedule(i).1 > 0
    modifies e, e.rc, e.w
    ensures e.Ready() && e.mode == Idle && e.consumed == old(e.consumed) && e.emitted == z
    ensures Added(old(e.pieces), e.pieces, true)
  {
    hide EState.Ready, Added, EState.Closed;
    z := z0;
    e.PosInRange();
    NothingAdded(e.pieces, e.Closed());
    var i := 0;
    while true
      invariant e.outPos <= |e.w.zbits| && e.Ready() && (e.mode == Running || (e.mode == Finishing && e.promised == 0))
      invariant e.consumed == old(e.consumed) && e.emitted == z && Added(old(e.pieces), e.pieces, e.Closed())
      decreases if e.last then 0 else 1, |e.w.zbits| - e.outPos
    {
      var (_, room) := schedule(i);
      ghost var mid, closed := e.pieces, e.Closed();
      var ret, used, out := e.Compress(Finish, [], room);
      AddedMore(old(e.pieces), mid, e.pieces, closed, e.Closed());
      e.PosInRange();
      z := z + out;
      i := i + 1;
      if ret == Compressor.Return.StreamEnd {
        OverTaken(old(e.pieces), e.pieces, e.Closed(), true);
        return;
      }
    }
  }

  /**
   * The whole trip: any data, any block size, any positive piece and buffer sizes on both sides, either decoder,
   * and anything behind the stream. Every call sequence ends, the data comes back, and of what is behind the
   * stream nothing is taken. What the compressor hands out is the stream of the blocks into which the data is cut.
   */
  method CompressThenDecompress(data: seq<byte>, level: nat, small: bool, nums: seq<int>, extra: seq<byte>,
                                inward: nat -> (nat, nat), outward: nat -> (nat, nat))
    returns (z: seq<byte>, back: seq<byte>, ret: Decompressor.Return, taken: nat,
             ghost done: seq<Packed>, ghost pieces: seq<Piece>)
    requires 1 <= level <= 9 && |nums| == 512
    requires forall i :: inward(i).0 > 0 && inward(i).1 > 0
    requires forall i :: outward(i).0 > 0 && outward(i).1 > 0
    ensures back == data && ret == Decompressor.StreamEnd && taken == |z|
    ensures GoodBlocks(done, level) && SharedOut(done, pieces, data, level)
    ensures var stream := StreamBits(done, level); BytesToBits(z) == stream + Padding(|stream|)
  {
    hide EState.Ready, Play, BytesToBits, StreamBits, GoodBlocks, SharedOut;
    var e := new EState(level);
    z := FeedAll(e, data, inward);
    z := FinishAll(e, z, inward);
    done, pieces := e.done, e.pieces;
    FinishedStream(e);
    FinishedRuns(e);
    ghost var pad := FinishedPlays(e, nums, extra);
    var lost;
    back, lost, ret, taken := DecodeAll(z + extra, small, nums, outward);
  }
}
