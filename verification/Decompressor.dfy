/** BZ2_bzDecompress on any input, over any sequence of calls and buffer sizes. */
module Decompressor {
  import opened Base
  import opened BitString
  import opened BlockOutput
  import opened BlockReader
  import opened BlockVectors
  import opened BitReading
  import opened BzCrc
  import opened ColumnDecoder
  import opened DecoderMachine
  import opened DecoderSound
  import opened InverseBwt
  import opened MtfEncoder
  import opened Playback
  import opened RunLength
  import StreamBounds

  // ---- the end of BZ2_decompress: from the column to the tables of the delivery ----

  /** cftab, with the range checks around it. */
  method CountTable(unzftab: seq<int>, nblock: nat, ghost l: seq<byte>) returns (ok: bool, cftab: array<int>)
    requires nblock == |l| && Counts(unzftab, l)
    ensures ok && fresh(cftab) && cftab.Length == 257 && Cumulative(l, cftab[..])
  {
    hide Cumulative;
    ok := CheckUnzftab(unzftab, nblock, l);
    cftab := MakeCftab(unzftab, l);
    CumulativeLength(l, cftab[..]);
    if ok {
      ok := CheckCftab(cftab[..], nblock, l);
    }
  }

  lemma CumulativeLength(l: seq<byte>, cftab: seq<int>)
    requires Cumulative(l, cftab)
    ensures |cftab| == 257
  {
  }

  /** tt becomes the packed inverse vector. */
  method FastTables(tt: array<int>, cftab: array<int>, nblock: nat, ghost l: seq<byte>) returns (tables: Tables)
    requires tt != cftab && nblock == |l| <= tt.Length && tt[..nblock] == l && Cumulative(l, cftab[..])
    modifies tt, cftab
    ensures tables.Fast? && FastHolds(l, TVector(l, |l|), tables.tt)
  {
    hide FastHolds, Cumulative;
    BuildFast(tt, cftab, nblock, l);
    tables := Fast(tt[..]);
  }

  /** ll16 and ll4 become the reversed cycle through origPtr. */
  method SmallTables(ll16: array<int>, cftab: array<int>, nblock: nat, origPtr: nat, ghost l: seq<byte>)
    returns (tables: Tables, ghost path: seq<int>)
    requires ll16 != cftab && cftab.Length == 257 && origPtr < nblock == |l| <= 900000 && nblock <= ll16.Length
    requires ll16[..nblock] == l && Cumulative(l, cftab[..])
    modifies ll16
    ensures tables.Small? && CellsOk(tables.ll16, tables.ll4, |l|) && Cumulative(l, tables.cftab)
    ensures Reversed(l, origPtr, path, Cells(tables.ll16, tables.ll4, |l|))
  {
    hide Cumulative, Reversed;
    var cftabCopy := new int[257](i requires 0 <= i < 257 reads cftab => if i < cftab.Length then cftab[i] else 0);
    assert cftabCopy[..] == cftab[..];
    var ll4 := new int[(1 + nblock) / 2](_ => 0);
    forall k | 0 <= k < nblock
      ensures ll16[..][k] == l[k]
    {
      assert ll16[..nblock][k] == l[k];
    }
    BuildSmall(ll16, ll4, cftabCopy, nblock, l);
    path := ReverseCycle(ll16, ll4, origPtr, l);
    tables := Small(ll16[..], ll4[..], cftab[..]);
  }

  /** The delivery of a block with header `hd` and last column `l`. */
  ghost predicate Delivers(o: OutputState, nums: seq<int>, hd: Header, l: seq<byte>) {
    && o.l == l && o.t == TVector(l, |l|) && o.o == hd.origPtr && o.nums == nums && o.randomised == hd.randomised
    && |nums| == 512 && hd.origPtr < |l| && o.block == BlockOf(nums, hd, l)
  }

  /** From the builder's cells and counts to the first character of the block, in both variants. */
  method StartOutput(small: bool, nums: seq<int>, hd: Header, b: Builder) returns (ok: bool, o: OutputState)
    requires b.Storage() && b.limit == 100000 * hd.level <= 900000 && hd.origPtr < b.nblock && |nums| == 512
    modifies b.cells
    ensures ok && fresh(o) && o.Ready() && o.delivered == [] && Delivers(o, nums, hd, old(Unranked(b.used, b.col)))
    ensures o.tables.Small? == small
  {
    hide FastHolds, Cumulative, Counts, SelfMap, InverseVector, CellsOk, Reversed, OutputState.Valid, Unranked, CharAt;
    hide Used, SlidingMtf.MtfList.Valid;
    ghost var l := Unranked(b.used, b.col);
    var cftab, tables;
    ghost var path: seq<int> := [];
    ok, cftab := CountTable(b.unzftab[..], b.nblock, l);
    if small {
      tables, path := SmallTables(b.cells, cftab, b.nblock, hd.origPtr, l);
    } else {
      tables := FastTables(b.cells, cftab, b.nblock, l);
    }
    InverseOf(l);
    o := new OutputState(tables, b.limit, b.nblock, hd.origPtr, hd.randomised, nums, l, TVector(l, |l|), path,
        BlockOf(nums, hd, l));
  }

  lemma InverseOf(l: seq<byte>)
    ensures InverseVector(l, TVector(l, |l|)) && SelfMap(TVector(l, |l|))
  {
    TVectorInverts(l);
  }

  // ---- the stream ----

  datatype Return = Ok | StreamEnd | DataError | DataErrorMagic | SequenceError

  lemma OutputSpells(o: OutputState, nums: seq<int>, hd: Header, l: seq<byte>)
    requires o.Valid() && Delivers(o, nums, hd, l)
    ensures TextOf(o.block, o.Beyond()) == TextIn(nums, hd, l)
  {
    hide TextOf, CharAt, TablesFor, Expand, StateAfter;
  }

  /** The checksum of a block all delivered. */
  lemma WholeChecksum(o: OutputState, nums: seq<int>, hd: Header, l: seq<byte>)
    requires o.Valid() && Delivers(o, nums, hd, l) && o.Done()
    ensures Complete(BlockOf(nums, hd, l)) && Checksum(TextIn(nums, hd, l)) == !o.crc
  {
    hide OutputState.Valid, CharAt, BlockOf, Checksum, Expand, StateAfter;
    o.DoneMeansAll();
    OutputSpells(o, nums, hd, l);
  }

  lemma IntactIs(nums: seq<int>, hd: Header, l: seq<byte>, crc: bv32)
    requires |nums| == 512 && hd.origPtr < |l| && Complete(BlockOf(nums, hd, l))
    requires crc == Checksum(TextIn(nums, hd, l))
    ensures Intact(nums, hd, l) <==> CrcNat(crc) == hd.crc
  {
    hide BlockOf, Checksum, CrcNat, TextIn, StateAfter;
  }

  class DState {
    const small: bool
    const nums: seq<int>               // BZ2_rNums
    const br: BitReader
    const m: Machine
    var out: OutputState?
    var combined: bv32                 // calculatedCombinedCRC

    ghost function Repr(): set<object>
      reads this, m
    {
      {this, br} + m.Repr() + if out == null then {} else {out}
    }

    ghost predicate Valid()
      reads this, br, m, out, m.Repr()
    {
      && |nums| == 512 && br.Valid() && m.Valid() && Lean(m.phase, br.live)
      && (m.phase.Output? ==> Delivering())
    }

    ghost predicate Delivering()
      requires m.phase.Output?
      reads this, m, out
    {
      && m.builder == null && out != null && out.Ready() && Delivers(out, nums, m.phase.hd, m.phase.column)
      && out.tables.Small? == small
    }

    /** What is still to be handed out if `b` are the bits not yet used. */
    ghost function Ahead(b: Bits): Story
      requires Valid()
      reads this, br, m, out, m.Repr()
    {
      Skip(Play(nums, m.phase, combined, b), if m.phase.Output? then |out.delivered| else 0)
    }

    /** The selectors stored are inside their arrays, and of the counts in `b` all fit. */
    ghost predicate Inside(b: Bits)
      requires |nums| == 512
      reads this, m
    {
      StreamBounds.Safe(nums, m.phase, combined, b)
    }

    /** BZ2_bzDecompressInit. */
    constructor (small: bool, nums: seq<int>)
      requires |nums| == 512
      ensures Valid() && fresh(Repr()) && br.live == [] && m.phase == Magic(0) && combined == 0 && this.nums == nums
      ensures this.small == small
    {
      this.small, this.nums, out, combined := small, nums, null, 0;
      br := new BitReader();
      m := new Machine();
    }

    /** FAST on a block that is not randomised: the state of a delivery is in locals. */
    ghost predicate OnLocals()
      requires m.phase.Output?
      reads this, m
    {
      !small && !m.phase.hd.randomised
    }

    /** BZ_X_OUTPUT: deliver what fits; what is not counted lies still ahead. */
    method DrainPart(avail: nat, ghost b: Bits) returns (corrupt: bool, more: seq<byte>, counted: nat)
      requires Valid() && m.phase.Output?
      modifies out
      ensures Valid() && |more| <= avail && counted == if corrupt && OnLocals() then 0 else |more|
      ensures old(Ahead(b)) == Then(more[..counted], Ahead(b))
      ensures corrupt ==> old(Ahead(b)) == Story(more, if m.phase.hd.randomised then Broken else CutShort)
      ensures corrupt && OnLocals() ==> more != []
      ensures !corrupt ==> |more| == avail || out.Done()
    {
      hide BitReader.Valid, Machine.Valid, OutputState.Valid, TextIn, Play, BlockOf;
      ghost var hd, l, done := m.phase.hd, m.phase.column, out.delivered;
      ReadyIsValid();
      corrupt, more, counted := out.Drain(avail);
      out.DeliveredPrefix();
      OutputSpells(out, nums, hd, l);
      Fits();
      HandsOut(nums, hd, l, combined, done, more[..counted], b);
      if corrupt {
        BlockIsCut(done, more, b);
      }
    }

    lemma ReadyIsValid()
      requires Valid() && m.phase.Output?
      ensures out != null && out.Valid() && out.OnLocals() == OnLocals()
      ensures Delivers(out, nums, m.phase.hd, m.phase.column)
    {
      hide BitReader.Valid, Machine.Valid, OutputState.Valid, BlockOf;
    }

    lemma Fits()
      requires Valid()
      ensures Sound(m.phase) && (m.phase.Output? ==> m.body.hd == m.phase.hd && 1 <= m.phase.hd.level <= 9)
    {
      hide Machine.Valid, OutputState.Valid, BitReader.Valid, Delivers, Sound;
      m.Fields();
    }

    lemma LeanAtBlock()
      requires Valid() && Need(m.phase) == 0
      ensures |br.live| < 8
    {
    }

    /** The block is handed out: it is complete, and intact exactly if the checksums agree. */
    lemma BlockIsOver(b: Bits)
      requires m.phase.Output? && 1 <= m.phase.hd.level <= 9 && Valid() && out.Done()
      ensures Ahead(b) == if CrcNat(!out.crc) != m.phase.hd.crc then Story([], Broken)
                          else Play(nums, BlkHdr(m.phase.hd.level, 0), Combine(combined, !out.crc), b)
    {
      hide BitReader.Valid, Machine.Valid, OutputState.Valid, Play, BlockOf, Checksum, CrcNat, Combine, StateAfter;
      hide Expand;
      var hd, l := m.phase.hd, m.phase.column;
      out.DoneMeansAll();
      OutputSpells(out, nums, hd, l);
      Fits();
      BlockOver(nums, hd, l, combined, b);
    }

    /** The block ends between four equal characters and their count, and `more` is the rest of its text. */
    lemma BlockIsCut(done: seq<byte>, more: seq<byte>, b: Bits)
      requires Valid() && m.phase.Output? && !Complete(out.block)
      requires done + more == TextIn(nums, m.phase.hd, m.phase.column)
      ensures Skip(Play(nums, m.phase, combined, b), |done|)
           == Story(more, if m.phase.hd.randomised then Broken else CutShort)
    {
      hide BitReader.Valid, Machine.Valid, OutputState.Valid, Play, BlockOf, Checksum, CrcNat, Combine, StateAfter;
      hide Expand, TextIn;
      var hd, l := m.phase.hd, m.phase.column;
      HandsOut(nums, hd, l, combined, done, more, b);
      BlockOver(nums, hd, l, combined, b);
    }

    lemma IntactHere(crc: bv32)
      requires Valid() && m.phase.Output? && out.Done() && crc == !out.crc
      ensures |nums| == 512 && m.phase.hd.origPtr < |m.phase.column|
      ensures crc == Checksum(TextIn(nums, m.phase.hd, m.phase.column))
      ensures Intact(nums, m.phase.hd, m.phase.column) <==> CrcNat(crc) == m.phase.hd.crc
    {
      hide BitReader.Valid, Machine.Valid, OutputState.Valid, Checksum, CrcNat, BlockOf, TextIn, Intact;
      ReadyIsValid();
      WholeChecksum(out, nums, m.phase.hd, m.phase.column);
      IntactIs(nums, m.phase.hd, m.phase.column, crc);
    }

    /** Behind a block whose checksums agree. */
    lemma StaysInside(crc: bv32, b: Bits)
      requires Valid() && m.phase.Output? && out.Done() && |nums| == 512 && Inside(b)
      requires crc == !out.crc && CrcNat(crc) == m.phase.hd.crc
      ensures StreamBounds.Safe(nums, BlkHdr(m.phase.hd.level, 0), Combine(combined, crc), b)
    {
      hide Valid, CrcNat, Checksum, Combine, Intact, TextIn, StreamBounds.Safe;
      IntactHere(crc);
      StreamBounds.SafeBehind(nums, m.phase.hd, m.phase.column, combined, crc, b);
    }

    /** On to the next block. */
    method Advance(crc: bv32)
      requires Valid() && m.phase.Output?
      modifies this`combined, m
      ensures Valid() && m.builder == old(m.builder) && combined == Combine(old(combined), crc)
      ensures m.phase == BlkHdr(old(m.phase.hd.level), 0)
    {
      hide BitReader.Valid, Machine.Valid, OutputState.Valid, Combine, Delivers;
      Fits();
      LeanAtBlock();
      combined := Combine(combined, crc);
      m.NextBlock();
    }

    /** The end of a block: its checksum is compared and folded in. */
    method FinishBlock(ghost b: Bits) returns (ok: bool)
      requires Valid() && m.phase.Output? && out.Done()
      modifies this`combined, m
      ensures m.builder == old(m.builder)
      ensures if ok then Valid() && m.phase.BlkHdr? && Ahead(b) == old(Ahead(b)) else old(Ahead(b)) == Story([], Broken)
      ensures |nums| == 512 && (old(Inside(b)) ==> Inside(b))
    {
      hide Valid, Play, Combine, CrcNat, StreamBounds.Safe;
      Numbers();
      Fits();
      Stocked();
      BlockIsOver(b);
      var crc := !out.crc;
      ok := CrcNat(crc) == m.body.hd.crc;
      if ok {
        ghost var inside := Inside(b);
        if inside {
          StaysInside(crc, b);
        }
        Advance(crc);
        NothingSkipped(Play(nums, m.phase, combined, b));
      }
    }

    lemma NothingFirst(s: Story)
      ensures Then([], s) == s
    {
    }

    lemma NothingSkipped(s: Story)
      ensures Skip(s, 0) == s
    {
    }

    /** A block has been read: set up its delivery. */
    method OpenBlock() returns (ok: bool)
      requires |nums| == 512 && br.Valid() && m.Valid() && Lean(m.phase, br.live) && m.phase.Output?
      requires m.builder != null
      modifies this`out, m, m.builder.cells
      ensures ok && Valid() && m.phase == old(m.phase) && m.builder == null && fresh(out) && out.delivered == []
    {
      hide BitReader.Valid, Machine.Valid, OutputState.Valid, Builder.Storage, Unranked, Sound, Lean, BlockOf;
      m.Fields();
      var b := m.TakeBuilder();
      b.ColumnSize();
      ok, out := StartOutput(small, nums, m.body.hd, b);
    }

    /** BZ2_decompress: what it did not use and what may come later tell the same story. */
    method ReadOn(input: seq<byte>, pos: nat, ghost later: Bits) returns (pos': nat, r: Stop)
      requires Valid() && !m.phase.Output? && pos <= |input|
      modifies br, m.Repr()
      ensures br.Valid() && m.Valid() && Sound(m.phase) && Lean(m.phase, br.live) && pos <= pos' <= |input|
      ensures m.builder == old(m.builder) || (m.builder != null && fresh(m.builder.Repr()))
      ensures Play(nums, m.phase, combined, Unused(br, input, pos') + later)
          == old(Ahead(Unused(br, input, pos) + later))
      ensures old(Inside(Unused(br, input, pos) + later)) ==> Inside(Unused(br, input, pos') + later)
      ensures r.HasBlock? == m.phase.Output? && r.AtEnd? == m.phase.End? && r.Corrupted? == m.phase.DataError?
      ensures r.NotMagic? == m.phase.MagicError?
      ensures r.Wants? == (Need(m.phase) != 0) && (r.AtEnd? ==> r.crc == m.phase.crc)
      ensures (r.Wants? ==> pos' == |input| && |br.live| < Need(m.phase))
      ensures r.HasBlock? ==> m.builder != null && |Unused(br, input, pos')| < old(|Unused(br, input, pos)|)
    {
      hide BitReader.Valid, Machine.Valid, OutputState.Valid, Sound, Lean, Play, Unused, Need, StreamBounds.Safe;
      Fits();
      NothingSkipped(Play(nums, m.phase, combined, Unused(br, input, pos) + later));
      ghost var p, before := m.phase, Unused(br, input, pos);
      pos' := Resume(br, m, input, pos);
      m.Fields();
      PlayResumes(nums, p, combined, before, m.phase, Unused(br, input, pos'), later);
      if StreamBounds.Safe(nums, p, combined, before + later) {
        StreamBounds.SafeRuns(nums, p, combined, before, m.phase, Unused(br, input, pos'), later);
      }
      r := m.Status();
    }

    /**
     * A call that has written `output`, of the story `start`, and now returns `ret` with the bits `b` before it;
     * next_out has moved by `counted`.
     * BZ_OK: the rest of the story lies ahead. BZ_STREAM_END: the stream is over where `b` begins.
     * An error: the bits break off in that error right here. All that was written is counted, unless FAST found
     * the block cut short: then at least the last byte is not, and what is not counted is still ahead.
     */
    ghost predicate Tells(start: Story, ret: Return, output: seq<byte>, counted: nat, b: Bits)
      reads this, br, m, out, m.Repr()
    {
      match ret
      case Ok => Valid() && !m.phase.End? && start == Then(output, Ahead(b)) && counted == |output|
      case StreamEnd =>
        Valid() && m.phase.End? && |br.live| < 8 && start == Story(output, Finished(b)) && counted == |output|
      case DataError =>
        if !small && start == Story(output, CutShort)
        then counted < |output| && Valid() && m.phase.Output? && Ahead(b) == Story(output[counted..], CutShort)
        else counted == |output| && (start == Story(output, Broken) || start == Story(output, CutShort))
      case DataErrorMagic => start == Story(output, NoMagic) && counted == |output|
      case SequenceError => Valid() && m.phase.End? && output == [] && start.text == [] && counted == 0
    }

    /** The BZ_X_OUTPUT part of the loop; `go` if the block is finished. */
    method OutputTurn(avail: nat, ghost b: Bits) returns (go: bool, bad: bool, more: seq<byte>, counted: nat)
      requires Valid() && m.phase.Output?
      modifies this`combined, m, out
      ensures m.builder == old(m.builder) && |more| <= avail && !(go && bad)
      ensures bad ==> Tells(old(Ahead(b)), Return.DataError, more, counted, b)
      ensures !bad ==> Valid() && counted == |more| && old(Ahead(b)) == Then(more, Ahead(b))
      ensures !bad ==> if go then m.phase.BlkHdr? else m.phase.Output? && |more| == avail
      ensures |nums| == 512 && (old(Inside(b)) ==> Inside(b))
    {
      hide Ahead, Machine.Valid, OutputState.Valid, BitReader.Valid, Delivers, StreamBounds.Safe;
      go := false;
      bad, more, counted := DrainPart(avail, b);
      assert more[..|more|] == more;
      if !bad && out.Done() {
        go := FinishBlock(b);
        bad := !go;
      }
    }

    /** The reading part of the loop; `ret` where the source returns. */
    method ReadTurn(input: seq<byte>, pos: nat, ghost later: Bits) returns (pos': nat, ret: Option<Return>)
      requires Valid() && !m.phase.Output? && pos <= |input|
      modifies Repr()
      ensures pos <= pos' <= |input| && (forall o :: o in Repr() ==> o in old(Repr()) || fresh(o))
      ensures ret != Some(SequenceError)
      ensures var start := old(Ahead(Unused(br, input, pos) + later));
        Tells(start, if ret == None then Return.Ok else ret.value, [], 0, Unused(br, input, pos') + later)
      ensures ret == None ==> m.phase.Output? && |Unused(br, input, pos')| < old(|Unused(br, input, pos)|)
      ensures ret == Some(Return.Ok) ==> !m.phase.Output? && pos' == |input| && Ahead(br.live) == Story([], Wanting)
      ensures |nums| == 512
      ensures old(Inside(Unused(br, input, pos) + later)) ==> Inside(Unused(br, input, pos') + later)
    {
      hide BitReader.Valid, Machine.Valid, OutputState.Valid, Sound, Lean, Play, Unused, Need, Delivers, CrcNat;
      hide StreamBounds.Safe;
      var r;
      pos', r := ReadOn(input, pos, later);
      ghost var b := Unused(br, input, pos') + later;
      match r
      case HasBlock =>
        var ok := OpenBlock();
        NothingSkipped(Play(nums, m.phase, combined, b));
        ret := if ok then None else Some(Return.DataError);
      case Wants =>
        NothingSkipped(Play(nums, m.phase, combined, b));
        Starved();
        ret := Some(Return.Ok);
      case AtEnd(crc) =>
        EndLean(m.phase, br.live);
        PlayStops(nums, m.phase, combined, b);
        ret := Some(if crc == CrcNat(combined) then StreamEnd else Return.DataError);
      case Corrupted =>
        PlayStops(nums, m.phase, combined, b);
        ret := Some(Return.DataError);
      case NotMagic =>
        PlayStops(nums, m.phase, combined, b);
        ret := Some(DataErrorMagic);
    }

    lemma Starved()
      requires Valid() && !m.phase.Output? && |br.live| < Need(m.phase)
      ensures Ahead(br.live) == Story([], Wanting)
    {
      hide BitReader.Valid, Machine.Valid, OutputState.Valid, Sound, Lean, Play, MinLen;
      Fits();
      PlayStops(nums, m.phase, combined, br.live);
    }

    lemma AfterEnd(b: Bits)
      requires Valid() && m.phase.End?
      ensures Tells(Ahead(b), SequenceError, [], 0, b)
    {
      hide BitReader.Valid, Machine.Valid, OutputState.Valid, Sound, Lean, Play, CrcNat, Delivers;
      Fits();
      PlayStops(nums, m.phase, combined, b);
    }

    /** The BZ_X_OUTPUT part of the loop; `ret` where the source returns. */
    method DeliverTurn(avail: nat, ghost b: Bits) returns (more: seq<byte>, counted: nat, ret: Option<Return>)
      requires Valid() && m.phase.Output?
      modifies Repr()
      ensures Repr() == old(Repr()) && unchanged(br) && |more| <= avail && ret != Some(SequenceError)
      ensures ret != Some(StreamEnd)
      ensures Tells(old(Ahead(b)), if ret == None then Return.Ok else ret.value, more, counted, b)
      ensures ret == None ==> !m.phase.Output?
      ensures ret == Some(Return.Ok) ==> |more| == avail
      ensures |nums| == 512 && (old(Inside(b)) ==> Inside(b))
    {
      hide Valid, Ahead, Inside;
      Stocked();
      var go, bad;
      go, bad, more, counted := OutputTurn(avail, b);
      ret := if bad then Some(Return.DataError) else if go then None else Some(Return.Ok);
    }

    lemma Stocked()
      requires Valid() && m.phase.Output?
      ensures out != null && m.builder == null
    {
      hide BitReader.Valid, Machine.Valid, OutputState.Valid, Delivers;
    }

    lemma Where()
      requires Valid()
      ensures m.ctl.AtBlock? == m.phase.Output? && m.Over() == m.phase.End?
    {
      hide BitReader.Valid, OutputState.Valid, Delivers, Need, Builder.Storage, Sound;
    }

    lemma Numbers()
      requires Valid()
      ensures |nums| == 512
    {
    }

    /** What a call that may go on knows. */
    lemma GoesOn(start: Story, output: seq<byte>, counted: nat, b: Bits)
      requires Tells(start, Return.Ok, output, counted, b)
      ensures counted == |output| && Valid() && !m.phase.End? && start == Then(output, Ahead(b))
    {
      hide Valid, Ahead;
    }

    lemma AtStart(b: Bits)
      requires Valid() && m.phase == Magic(0) && combined == 0
      ensures !m.phase.End? && Ahead(b) == Play(nums, Magic(0), 0, b)
    {
      hide BitReader.Valid, Machine.Valid, OutputState.Valid, Play;
      NothingSkipped(Play(nums, Magic(0), 0, b));
    }

    lemma GoesOnFrom(b: Bits)
      requires Valid() && !m.phase.End?
      ensures Tells(Ahead(b), Return.Ok, [], 0, b)
    {
      hide Valid, Ahead;
    }

    /** Two parts of a call make one. */
    lemma TellsOn(start: Story, x: seq<byte>, mid: Story, y: seq<byte>, counted: nat, ret: Return, b: Bits)
      requires start == Then(x, mid) && Tells(mid, ret, y, counted, b) && ret != SequenceError
      ensures Tells(start, ret, x + y, |x| + counted, b)
    {
      hide Valid, Ahead;
      if ret == Return.Ok {
        assert x + (y + Ahead(b).text) == x + y + Ahead(b).text;
      } else if ret == Return.DataError && counted < |y| {
        assert (x + y)[|x| + counted..] == y[counted..];
      }
    }

    /** One round of the loop of BZ2_bzDecompress. */
    method Turn(input: seq<byte>, pos: nat, avail: nat, ghost later: Bits)
      returns (pos': nat, more: seq<byte>, counted: nat, ret: Option<Return>)
      requires Valid() && pos <= |input|
      modifies Repr()
      ensures pos <= pos' <= |input| && |more| <= avail && (forall o :: o in Repr() ==> o in old(Repr()) || fresh(o))
      ensures ret != Some(SequenceError)
      ensures var start := old(Ahead(Unused(br, input, pos) + later));
        Tells(start, if ret == None then Return.Ok else ret.value, more, counted, Unused(br, input, pos') + later)
      ensures ret == None ==> |Unused(br, input, pos')| < old(|Unused(br, input, pos)|)
      ensures ret == Some(Return.Ok) ==> |more| == avail || (pos' == |input| && Ahead(br.live) == Story([], Wanting))
      ensures |nums| == 512
      ensures old(Inside(Unused(br, input, pos) + later)) ==> Inside(Unused(br, input, pos') + later)
    {
      hide Valid, Ahead, Unused, Tells, Repr, Inside;
      pos', more, counted := pos, [], 0;
      ghost var b := Unused(br, input, pos) + later;
      ghost var start := Ahead(b);
      Where();
      if m.ctl.AtBlock? {
        more, counted, ret := DeliverTurn(avail, b);
        if ret.Some? {
          return;
        }
        GoesOn(start, more, counted, b);
      }
      ghost var mid := Ahead(b);
      NothingFirst(start);
      pos', ret := ReadTurn(input, pos, later);
      TellsOn(start, more, mid, [], 0, if ret == None then Return.Ok else ret.value, Unused(br, input, pos') + later);
      assert more + [] == more;
    }

    /**
     * BZ2_bzDecompress: one call with the next piece of input and `avail` bytes of room; `later` is whatever
     * the caller will supply afterwards. What is handed out is the next part of the text that all these bits
     * stand for. BZ_OK means that the room is used up, or the input is and nothing more can be made of it.
     * BZ_STREAM_END means that the stream is complete, and no whole byte was taken beyond it. Of `output`, all that
     * was written, `counted` bytes are counted in avail_out. While all selector counts fit, no call leaves the arrays.
     */
    method Decompress(input: seq<byte>, avail: nat, ghost later: Bits)
      returns (ret: Return, used: nat, output: seq<byte>, counted: nat)
      requires Valid()
      modifies Repr()
      ensures (forall o :: o in Repr() ==> o in old(Repr()) || fresh(o)) && used <= |input| && |output| <= avail
      ensures (ret == SequenceError) == old(m.phase.End?) && (ret == SequenceError ==> used == 0)
      ensures Tells(old(Ahead(Unused(br, input, 0) + later)), ret, output, counted, Unused(br, input, used) + later)
      ensures ret == Return.Ok ==> |output| == avail || (used == |input| && Ahead(br.live) == Story([], Wanting))
      ensures |nums| == 512
      ensures old(Inside(Unused(br, input, 0) + later)) ==> Inside(Unused(br, input, used) + later)
    {
      hide Valid, Ahead, Unused, Tells, Repr, Inside;
      used, output, counted := 0, [], 0;
      ghost var start := Ahead(Unused(br, input, 0) + later);
      Numbers();
      ghost var inside := Inside(Unused(br, input, 0) + later);
      Where();
      if m.Over() {
        AfterEnd(Unused(br, input, 0) + later);
        ret := SequenceError;
        return;
      }
      GoesOnFrom(Unused(br, input, 0) + later);
      while true
        invariant used <= |input| && |output| <= avail && (forall o :: o in Repr() ==> o in old(Repr()) || fresh(o))
        invariant Tells(start, Return.Ok, output, counted, Unused(br, input, used) + later)
        invariant |nums| == 512 && (inside ==> Inside(Unused(br, input, used) + later))
        decreases |Unused(br, input, used)|
      {
        GoesOn(start, output, counted, Unused(br, input, used) + later);
        ghost var mid := Ahead(Unused(br, input, used) + later);
        var more, c, r;
        used, more, c, r := Turn(input, used, avail - |output|, later);
        TellsOn(start, output, mid, more, c, if r == None then Return.Ok else r.value,
                Unused(br, input, used) + later);
        output, counted := output + more, counted + c;
        if r.Some? {
          ret := r.value;
          return;
        }
      }
    }
  }

  lemma EndLean(p: Phase, live: Bits)
    requires p.End? && Lean(p, live)
    ensures |live| < 8 && Need(p) == 0
  {
  }
}
